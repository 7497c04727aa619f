/**
 The data `AppDelegate` keeps about its monitored URLs: the list of
 request configurations, the live repeating timers, the pause flags and
 the latest check result per configuration id. All four are touched only
 on the main queue, so every event below is one atomic transition.
 */
module State {
  import opened Options

  /** A configuration's `UUID`; only equality and freshness matter. */
  type Id = nat

  /** `RequestConfig`: one monitored URL. `intervalSeconds` is a
      `TimeInterval`, kept here as a real number. */
  datatype Config = Config(
    id: Id,
    name: string,
    url: string,
    intervalSeconds: real,
    httpMethod: string,
    body: Option<string>)

  /** `UrlCheckResult`: every field may be unknown (`nil`). `lastCalled` is
      the clock value of the last dispatch attempt. */
  datatype CheckResult = CheckResult(
    success: Option<bool>,
    statusCode: Option<int>,
    responseTime: Option<real>,
    error: Option<string>,
    lastCalled: Option<nat>)

  /** `UrlCheckResult()`, the entry with nothing known. */
  const Blank := CheckResult(None, None, None, None, None)

  /** The scheduler's state. `timers` maps an id to the configuration its
      repeating timer's closure captured (a map key set is the "at most one
      timer per id" discipline); `dispatched` is the trace of HTTP requests
      handed to the network, oldest first. */
  datatype State = State(
    configs: seq<Config>,
    timers: map<Id, Config>,
    paused: map<Id, bool>,
    results: map<Id, CheckResult>,
    dispatched: seq<Config>)

  /** What the model cannot compute itself: Foundation's `URL(string:)`
      parser, `Double(String)`, and the clock value `Date()` reads. */
  datatype Env = Env(parses: string -> bool, parseNumber: string -> Option<real>, now: nat)

  /** `pausedTimers[id] == true`; an absent flag means not paused. */
  predicate IsPaused(paused: map<Id, bool>, id: Id) {
    id in paused && paused[id]
  }

  function Ids(cs: seq<Config>): set<Id> {
    set c | c in cs :: c.id
  }

  predicate UniqueIds(cs: seq<Config>) {
    forall i, j :: 0 <= i < j < |cs| ==> cs[i].id != cs[j].id
  }

  /** The entry stored for `id`, if any. */
  function Lookup(results: map<Id, CheckResult>, id: Id): Option<CheckResult> {
    if id in results then Some(results[id]) else None
  }

  /** The state the app keeps between events once it has launched:
      configuration ids are distinct; every timer and pause flag belongs to
      a configuration; a configuration has a live timer exactly when it is
      not paused, and that timer captured the configuration as it is now. */
  predicate Wf(s: State) {
    && UniqueIds(s.configs)
    && s.timers.Keys <= Ids(s.configs)
    && s.paused.Keys <= Ids(s.configs)
    && forall i :: 0 <= i < |s.configs| ==>
         && (s.configs[i].id in s.timers <==> !IsPaused(s.paused, s.configs[i].id))
         && (s.configs[i].id in s.timers ==> s.timers[s.configs[i].id] == s.configs[i])
  }

  /** The configuration with a given id, when the ids are distinct. */
  lemma ConfigOfTimer(s: State, id: Id) returns (i: nat)
    requires Wf(s) && id in s.timers
    ensures i < |s.configs| && s.configs[i].id == id
    ensures s.timers[id] == s.configs[i] && !IsPaused(s.paused, id)
  {
    assert id in Ids(s.configs);
    var c :| c in s.configs && c.id == id;
    var k :| 0 <= k < |s.configs| && s.configs[k] == c;
    i := k;
  }
}
