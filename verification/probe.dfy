/**
 One URL check: `sendRequest` stamps the attempt, rejects an unparsable
 URL on the spot or hands the request to the network, and the completion
 handler, re-posted to the main queue, classifies the response and
 records it with `updateResult`.
 */
module Probe {
  import opened Options
  import opened Text
  import opened State

  /** What the network reports back for one request. A transport error
      takes precedence over any response object that comes with it. */
  datatype Outcome =
    | TransportError(message: string)
    | Http(statusCode: int)
    | NoHttpResponse

  /** The four fields `updateResult` writes, minus the response time. */
  datatype Verdict = Verdict(success: bool, statusCode: int, error: Option<string>)

  const InvalidUrlText := "유효하지 않은 URL"
  const UnknownResponseText := "알 수 없는 응답 타입"

  predicate IsSuccessCode(code: int) {
    200 <= code <= 299
  }

  /** The error text recorded for an HTTP response outside 200...299. */
  function HttpErrorText(code: int): string {
    "HTTP " + IntText(code)
  }

  /** The completion handler's classification of an outcome. */
  function Classify(o: Outcome): (v: Verdict)
    ensures v.success <==> o.Http? && IsSuccessCode(o.statusCode)
    ensures v.error.None? <==> v.success
    ensures v.statusCode == (if o.Http? then o.statusCode else 0)
    ensures o.TransportError? ==> v.error == Some(o.message)
    ensures o.NoHttpResponse? ==> v.error == Some(UnknownResponseText)
    ensures o.Http? && !v.success ==> v.error == Some(HttpErrorText(o.statusCode))
  {
    match o
    case TransportError(msg) => Verdict(false, 0, Some(msg))
    case Http(code) =>
      if IsSuccessCode(code) then Verdict(true, code, None)
      else Verdict(false, code, Some(HttpErrorText(code)))
    case NoHttpResponse => Verdict(false, 0, Some(UnknownResponseText))
  }

  /** The status code can be read back from a failed HTTP check's error
      text, so the text and the recorded code never disagree. */
  lemma HttpErrorTextNamesCode(code: int)
    ensures |HttpErrorText(code)| > 5
    ensures HttpErrorText(code)[..5] == "HTTP "
    ensures ParseInt(HttpErrorText(code)[5..]) == Some(code)
  {
    assert HttpErrorText(code)[5..] == IntText(code);
    IntTextRoundTrip(code);
  }

  /** `prev` with the four outcome fields overwritten. */
  function Record(prev: CheckResult, v: Verdict, elapsed: real): CheckResult {
    prev.(success := Some(v.success), statusCode := Some(v.statusCode),
          responseTime := Some(elapsed), error := v.error)
  }

  /** `updateResult(for:success:statusCode:responseTime:error:)`: starts
      from the stored entry or a blank one, overwrites success, status
      code, response time and error, and keeps `lastCalled`. No other id's
      entry changes. */
  function UpdateResult(results: map<Id, CheckResult>, id: Id, v: Verdict, elapsed: real)
    : (r: map<Id, CheckResult>)
    ensures r.Keys == results.Keys + {id}
    ensures forall k :: k in results && k != id ==> r[k] == results[k]
    ensures r[id].success == Some(v.success) && r[id].statusCode == Some(v.statusCode)
    ensures r[id].responseTime == Some(elapsed) && r[id].error == v.error
    ensures r[id].lastCalled == (if id in results then results[id].lastCalled else None)
  {
    results[id := Record(Lookup(results, id).GetOr(Blank), v, elapsed)]
  }

  /** The entry `sendRequest` leaves for its configuration before any
      completion: the previous entry (or a blank one) with `lastCalled`
      stamped, and for an unparsable URL the immediate failure record. */
  function AfterSend(prev: Option<CheckResult>, c: Config, env: Env): CheckResult {
    var stamped := prev.GetOr(Blank).(lastCalled := Some(env.now));
    if env.parses(c.url) then stamped
    else Record(stamped, Verdict(false, 0, Some(InvalidUrlText)), 0.0)
  }

  /** `sendRequest(config:)`. Stamps `lastCalled`, then either records the
      invalid-URL failure and dispatches nothing, or dispatches exactly one
      request for `c`. Only `c.id`'s result entry changes. */
  function SendRequest(s: State, c: Config, env: Env): (r: State)
    ensures r.configs == s.configs && r.timers == s.timers && r.paused == s.paused
    ensures r.results.Keys == s.results.Keys + {c.id}
    ensures forall k :: k in s.results && k != c.id ==> r.results[k] == s.results[k]
    ensures r.results[c.id].lastCalled == Some(env.now)
    ensures env.parses(c.url) ==> r.dispatched == s.dispatched + [c]
    ensures env.parses(c.url) && c.id in s.results ==>
              r.results[c.id] == s.results[c.id].(lastCalled := Some(env.now))
    ensures env.parses(c.url) && c.id !in s.results ==>
              r.results[c.id] == Blank.(lastCalled := Some(env.now))
    ensures !env.parses(c.url) ==> r.dispatched == s.dispatched
    ensures !env.parses(c.url) ==>
              r.results[c.id] == CheckResult(Some(false), Some(0), Some(0.0),
                                             Some(InvalidUrlText), Some(env.now))
  {
    var results := s.results[c.id := AfterSend(Lookup(s.results, c.id), c, env)];
    if env.parses(c.url) then s.(results := results, dispatched := s.dispatched + [c])
    else s.(results := results)
  }

  /** The configurations of `cs` whose URL parses, in order: the requests a
      pass over `cs` hands to the network. */
  function Dispatchable(cs: seq<Config>, env: Env): seq<Config> {
    if cs == [] then []
    else (if env.parses(cs[0].url) then [cs[0]] else []) + Dispatchable(cs[1..], env)
  }

  /** A pass over `cs` dispatches a configuration exactly when it is in
      `cs` and its URL parses; with every URL valid it dispatches all of
      `cs`, in order, paused or not. */
  lemma {:induction false} DispatchableMembers(cs: seq<Config>, env: Env)
    ensures forall c :: c in Dispatchable(cs, env) <==> c in cs && env.parses(c.url)
    ensures (forall c :: c in cs ==> env.parses(c.url)) ==> Dispatchable(cs, env) == cs
    decreases |cs|
  {
    if cs != [] {
      DispatchableMembers(cs[1..], env);
      assert forall c :: c in cs <==> c == cs[0] || c in cs[1..];
      if forall c :: c in cs ==> env.parses(c.url) {
        assert cs == [cs[0]] + cs[1..];
      }
    }
  }

  /** `sendRequest` for every configuration of `cs`, in order (the loop of
      `sendAllRequests` and the first loop of `startAllTimers`). Every
      configuration gets one attempt, and exactly the ones whose URL parses
      are dispatched, in order. */
  function SendAll(s: State, cs: seq<Config>, env: Env): (r: State)
    ensures r.configs == s.configs && r.timers == s.timers && r.paused == s.paused
    ensures r.dispatched == s.dispatched + Dispatchable(cs, env)
    decreases |cs|
  {
    if cs == [] then s
    else
      var head := if env.parses(cs[0].url) then [cs[0]] else [];
      var s1 := SendRequest(s, cs[0], env);
      assert s1.dispatched == s.dispatched + head;
      var r := SendAll(s1, cs[1..], env);
      assert Dispatchable(cs, env) == head + Dispatchable(cs[1..], env);
      assert r.dispatched == s.dispatched + (head + Dispatchable(cs[1..], env));
      r
  }

  /** A pass gives every id of `cs` an entry stamped with the current clock
      and leaves the entries of all other ids alone. */
  lemma SendAllStamps(s: State, cs: seq<Config>, env: Env)
    ensures SendAll(s, cs, env).results.Keys == s.results.Keys + Ids(cs)
    ensures forall k :: k in s.results && k !in Ids(cs) ==> SendAll(s, cs, env).results[k] == s.results[k]
    ensures forall c :: c in cs ==> SendAll(s, cs, env).results[c.id].lastCalled == Some(env.now)
  {
    SendAllKeys(s, cs, env);
    SendAllFrame(s, cs, env);
    SendAllLastCalled(s, cs, env);
  }

  lemma {:induction false} SendAllKeys(s: State, cs: seq<Config>, env: Env)
    ensures SendAll(s, cs, env).results.Keys == s.results.Keys + Ids(cs)
    decreases |cs|
  {
    if cs != [] {
      IdsCons(cs);
      var s1 := SendRequest(s, cs[0], env);
      SendAllKeys(s1, cs[1..], env);
      assert SendAll(s, cs, env) == SendAll(s1, cs[1..], env);
    }
  }

  lemma {:induction false} SendAllFrame(s: State, cs: seq<Config>, env: Env)
    ensures forall k :: k in s.results && k !in Ids(cs) ==> Lookup(SendAll(s, cs, env).results, k) == Some(s.results[k])
    decreases |cs|
  {
    if cs != [] {
      IdsCons(cs);
      var s1 := SendRequest(s, cs[0], env);
      SendAllFrame(s1, cs[1..], env);
      assert SendAll(s, cs, env) == SendAll(s1, cs[1..], env);
    }
  }

  lemma {:induction false} SendAllLastCalled(s: State, cs: seq<Config>, env: Env)
    ensures forall c :: c in cs ==>
              (c.id in SendAll(s, cs, env).results && SendAll(s, cs, env).results[c.id].lastCalled == Some(env.now))
    decreases |cs|
  {
    if cs != [] {
      var s1 := SendRequest(s, cs[0], env);
      SendAllLastCalled(s1, cs[1..], env);
      SendAllKeys(s1, cs[1..], env);
      SendAllFrame(s1, cs[1..], env);
      IdsCons(cs);
      var r := SendAll(s1, cs[1..], env);
      assert SendAll(s, cs, env) == r;
      forall c | c in cs ensures c.id in r.results && r.results[c.id].lastCalled == Some(env.now) {
        if c !in cs[1..] {
          assert c == cs[0];
          if c.id !in Ids(cs[1..]) {
            assert Lookup(r.results, c.id) == Some(s1.results[c.id]);
          } else {
            var d :| d in cs[1..] && d.id == c.id;
          }
        }
      }
    }
  }

  lemma IdsCons(cs: seq<Config>)
    requires cs != []
    ensures Ids(cs) == {cs[0].id} + Ids(cs[1..])
    ensures UniqueIds(cs) ==> UniqueIds(cs[1..]) && cs[0].id !in Ids(cs[1..])
  {
    assert forall c :: c in cs <==> c == cs[0] || c in cs[1..];
  }

  /** With distinct ids, each configuration's entry after a pass is exactly
      what its own `sendRequest` left: a later configuration never
      overwrites an earlier one's entry. */
  lemma SendAllResults(s: State, cs: seq<Config>, env: Env)
    requires UniqueIds(cs)
    ensures forall i :: 0 <= i < |cs| ==> cs[i].id in SendAll(s, cs, env).results
    ensures forall i :: 0 <= i < |cs| ==>
              SendAll(s, cs, env).results[cs[i].id] == AfterSend(Lookup(s.results, cs[i].id), cs[i], env)
  {
    forall i | 0 <= i < |cs|
      ensures Lookup(SendAll(s, cs, env).results, cs[i].id) == Some(AfterSend(Lookup(s.results, cs[i].id), cs[i], env))
    {
      SendAllEntry(s, cs, i, env);
    }
  }

  /** The entry of the `i`-th configuration after a pass, by induction on
      the pass. */
  lemma {:induction false} SendAllEntry(s: State, cs: seq<Config>, i: nat, env: Env)
    requires UniqueIds(cs) && i < |cs|
    ensures Lookup(SendAll(s, cs, env).results, cs[i].id) == Some(AfterSend(Lookup(s.results, cs[i].id), cs[i], env))
    decreases |cs|
  {
    if i == 0 {
      SendAllHead(s, cs, env);
    } else {
      IdsCons(cs);
      var s1 := SendRequest(s, cs[0], env);
      SendAllCons(s, cs, env);
      SendAllEntry(s1, cs[1..], i - 1, env);
      assert cs[1..][i - 1] == cs[i];
      SendRequestEntry(s, cs[0], env);
      assert Lookup(s1.results, cs[i].id) == Lookup(s.results, cs[i].id);
    }
  }

  /** A pass is one `sendRequest` followed by the pass over the rest. */
  lemma SendAllCons(s: State, cs: seq<Config>, env: Env)
    requires cs != []
    ensures SendAll(s, cs, env).results == SendAll(SendRequest(s, cs[0], env), cs[1..], env).results
  {
  }

  /** The first configuration's entry survives the rest of the pass. */
  lemma SendAllHead(s: State, cs: seq<Config>, env: Env)
    requires UniqueIds(cs) && cs != []
    ensures Lookup(SendAll(s, cs, env).results, cs[0].id) == Some(AfterSend(Lookup(s.results, cs[0].id), cs[0], env))
  {
    IdsCons(cs);
    var s1 := SendRequest(s, cs[0], env);
    SendAllCons(s, cs, env);
    SendRequestEntry(s, cs[0], env);
    SendAllFrame(s1, cs[1..], env);
  }

  /** The results map after one `sendRequest`. */
  lemma SendRequestEntry(s: State, c: Config, env: Env)
    ensures SendRequest(s, c, env).results == s.results[c.id := AfterSend(Lookup(s.results, c.id), c, env)]
  {
  }

  /** A completion re-posted to the main queue for the request of `id`:
      the outcome is classified and recorded with the measured time. A
      completion for an id that was deleted meanwhile still creates an
      entry, as the app does. */
  function Complete(s: State, id: Id, o: Outcome, elapsed: real): (r: State)
    ensures r.configs == s.configs && r.timers == s.timers && r.paused == s.paused
    ensures r.dispatched == s.dispatched
    ensures r.results.Keys == s.results.Keys + {id}
    ensures forall k :: k in s.results && k != id ==> r.results[k] == s.results[k]
    ensures r.results[id].success == Some(o.Http? && IsSuccessCode(o.statusCode))
    ensures r.results[id].error.None? <==> o.Http? && IsSuccessCode(o.statusCode)
    ensures r.results[id].lastCalled == Lookup(s.results, id).GetOr(Blank).lastCalled
    ensures r.results[id].responseTime == Some(elapsed)
    ensures r.results[id].statusCode == Some(Classify(o).statusCode)
    ensures r.results[id].error == Classify(o).error
  {
    s.(results := UpdateResult(s.results, id, Classify(o), elapsed))
  }
}
