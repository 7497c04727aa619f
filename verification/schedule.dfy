/**
 The per-configuration repeating timers: arming one, a timer tick, the
 pause/resume toggle, arming every configuration (`startAllTimers`) and
 the full restart that follows every add, edit and delete.
 */
module Schedule {
  import opened Options
  import opened State
  import opened Probe

  /** `startTimer(for:)`: invalidates the timer `c.id` has, if any, and
      stores a new one whose closure captured `c`. Exactly one timer for
      `c.id` remains and no other id's timer changes. */
  function StartTimer(s: State, c: Config): (r: State)
    ensures r.configs == s.configs && r.paused == s.paused
    ensures r.results == s.results && r.dispatched == s.dispatched
    ensures r.timers.Keys == s.timers.Keys + {c.id}
    ensures r.timers[c.id] == c
    ensures forall k :: k in s.timers && k != c.id ==> r.timers[k] == s.timers[k]
  {
    var timers := s.timers - {c.id};
    s.(timers := timers[c.id := c])
  }

  /** A tick of the timer armed for `id`. An invalidated timer never fires;
      a timer whose configuration is paused returns without doing anything;
      otherwise the tick sends exactly one request for the configuration
      the timer captured. */
  function Tick(s: State, id: Id, env: Env): (r: State)
    ensures id !in s.timers ==> r == s
    ensures id in s.timers && IsPaused(s.paused, s.timers[id].id) ==> r == s
    ensures id in s.timers && !IsPaused(s.paused, s.timers[id].id) ==>
              r == SendRequest(s, s.timers[id], env)
    ensures r.configs == s.configs && r.timers == s.timers && r.paused == s.paused
    ensures |s.dispatched| <= |r.dispatched| <= |s.dispatched| + 1
  {
    if id !in s.timers then s
    else
      var c := s.timers[id];
      if IsPaused(s.paused, c.id) then s else SendRequest(s, c, env)
  }

  /** Under the app's state invariant a paused configuration has no timer,
      so every tick that arrives dispatches one request for the current
      configuration (or records its invalid URL): the pause check in the
      closure is a guard that never triggers. */
  lemma TickOfArmedTimer(s: State, id: Id, env: Env)
    requires Wf(s) && id in s.timers
    ensures exists i :: 0 <= i < |s.configs| && s.configs[i].id == id &&
              Tick(s, id, env) == SendRequest(s, s.configs[i], env)
  {
    var i := ConfigOfTimer(s, id);
    assert Tick(s, id, env) == SendRequest(s, s.configs[i], env);
  }

  /** The status-row click (menu tags 1000...1099) for configuration
      `index`: flips its pause flag, an absent flag counting as "not
      paused". Pausing invalidates and removes its timer; resuming arms a
      new one through `startTimer` and sends no request. Nothing happens for
      an index outside the list. */
  function TogglePause(s: State, index: int): (r: State)
    ensures !(0 <= index < |s.configs|) ==> r == s
    ensures r.configs == s.configs && r.results == s.results && r.dispatched == s.dispatched
    ensures 0 <= index < |s.configs| ==>
              var id := s.configs[index].id;
              && r.paused.Keys == s.paused.Keys + {id}
              && (IsPaused(r.paused, id) <==> !IsPaused(s.paused, id))
              && (forall k :: k in s.paused && k != id ==> r.paused[k] == s.paused[k])
              && (IsPaused(r.paused, id) ==> r.timers == s.timers - {id})
              && (!IsPaused(r.paused, id) ==> r.timers == StartTimer(s, s.configs[index]).timers)
  {
    if !(0 <= index < |s.configs|) then s
    else
      var c := s.configs[index];
      var nowPaused := !IsPaused(s.paused, c.id);
      var s1 := s.(paused := s.paused[c.id := nowPaused]);
      if nowPaused then s1.(timers := s1.timers - {c.id}) else StartTimer(s1, c)
  }

  /** Pausing and then resuming the same configuration leaves the timers as
      they were: the timer comes back for the configuration as it is now. */
  lemma {:induction false} PauseResumeRestoresTimers(s: State, index: int)
    requires Wf(s) && 0 <= index < |s.configs| && !IsPaused(s.paused, s.configs[index].id)
    ensures TogglePause(TogglePause(s, index), index).timers == s.timers
    ensures !IsPaused(TogglePause(TogglePause(s, index), index).paused, s.configs[index].id)
    ensures TogglePause(TogglePause(s, index), index).dispatched == s.dispatched
  {
    var c := s.configs[index];
    assert c.id in s.timers && s.timers[c.id] == c;
    var s1 := TogglePause(s, index);
    assert IsPaused(s1.paused, c.id) && s1.timers == s.timers - {c.id};
    assert s1.configs == s.configs;
    var s2 := TogglePause(s1, index);
    assert !IsPaused(s2.paused, c.id);
    assert s2.timers == StartTimer(s1, c).timers;
    assert s2.timers == s.timers;
  }

  /** The configurations of `cs` that get a timer: those not paused. */
  function ArmedIds(cs: seq<Config>, paused: map<Id, bool>): set<Id> {
    set c | c in cs && !IsPaused(paused, c.id) :: c.id
  }

  /** The second loop of `startAllTimers`: `startTimer` for every
      configuration of `cs` whose flag is not `true`, skipping paused ones.
      Only the timers change; the ids of non-paused configurations gain a
      timer and every other id's timer is left alone. */
  function Arm(s: State, cs: seq<Config>): (r: State)
    ensures r.configs == s.configs && r.paused == s.paused
    ensures r.results == s.results && r.dispatched == s.dispatched
    ensures r.timers.Keys == s.timers.Keys + ArmedIds(cs, s.paused)
    ensures forall k :: k in s.timers && k !in ArmedIds(cs, s.paused) ==> r.timers[k] == s.timers[k]
    decreases |cs|
  {
    if cs == [] then s
    else
      assert ArmedIds(cs, s.paused) ==
             (if IsPaused(s.paused, cs[0].id) then {} else {cs[0].id}) + ArmedIds(cs[1..], s.paused) by {
        assert forall c :: c in cs <==> c == cs[0] || c in cs[1..];
      }
      var s1 := if IsPaused(s.paused, cs[0].id) then s else StartTimer(s, cs[0]);
      Arm(s1, cs[1..])
  }

  /** With distinct ids, every non-paused configuration's timer captured
      that very configuration. */
  lemma {:induction false} ArmCaptures(s: State, cs: seq<Config>)
    requires UniqueIds(cs)
    ensures forall i :: 0 <= i < |cs| && !IsPaused(s.paused, cs[i].id) ==> Arm(s, cs).timers[cs[i].id] == cs[i]
    decreases |cs|
  {
    if cs != [] {
      IdsCons(cs);
      var s1 := if IsPaused(s.paused, cs[0].id) then s else StartTimer(s, cs[0]);
      ArmCaptures(s1, cs[1..]);
      var r := Arm(s, cs);
      assert r == Arm(s1, cs[1..]);
      forall i | 0 <= i < |cs| && !IsPaused(s.paused, cs[i].id)
        ensures r.timers[cs[i].id] == cs[i]
      {
        if i == 0 {
          assert cs[0].id !in ArmedIds(cs[1..], s.paused);
        } else {
          assert cs[i] == cs[1..][i - 1];
        }
      }
    }
  }

  /** `startAllTimers`: one immediate `sendRequest` for every configuration,
      paused or not, then a timer for every configuration not paused. */
  function StartAllTimers(s: State, env: Env): (r: State)
    ensures r.configs == s.configs && r.paused == s.paused
    ensures r.dispatched == s.dispatched + Dispatchable(s.configs, env)
    ensures r.results.Keys == s.results.Keys + Ids(s.configs)
    ensures forall c :: c in s.configs ==> r.results[c.id].lastCalled == Some(env.now)
    ensures r.timers.Keys == s.timers.Keys + ArmedIds(s.configs, s.paused)
    ensures forall k :: k in s.timers && k !in ArmedIds(s.configs, s.paused) ==> r.timers[k] == s.timers[k]
  {
    SendAllStamps(s, s.configs, env);
    Arm(SendAll(s, s.configs, env), s.configs)
  }

  /** `restartAllTimers`: invalidates every timer, clears every result and
      every pause flag, then runs `startAllTimers`. */
  function Restart(s: State, env: Env): (r: State)
    ensures r.configs == s.configs && r.paused == map[]
    ensures r.dispatched == s.dispatched + Dispatchable(s.configs, env)
    ensures r.timers.Keys == Ids(s.configs) && r.results.Keys == Ids(s.configs)
  {
    var r := StartAllTimers(s.(timers := map[], results := map[], paused := map[]), env);
    assert ArmedIds(s.configs, map[]) == Ids(s.configs);
    r
  }

  /** After a restart, with distinct ids, every configuration has a timer
      that captured it. */
  lemma RestartTimers(s: State, env: Env)
    requires UniqueIds(s.configs)
    ensures forall i :: 0 <= i < |s.configs| ==> Restart(s, env).timers[s.configs[i].id] == s.configs[i]
  {
    var s1 := SendAll(s.(timers := map[], results := map[], paused := map[]), s.configs, env);
    ArmCaptures(s1, s.configs);
  }

  /** After a restart, with distinct ids, every configuration's result entry
      is blank apart from `lastCalled`, or holds the invalid-URL failure
      when its URL does not parse. */
  lemma RestartResults(s: State, env: Env)
    requires UniqueIds(s.configs)
    ensures forall i :: 0 <= i < |s.configs| ==> s.configs[i].id in Restart(s, env).results
    ensures forall i :: 0 <= i < |s.configs| && env.parses(s.configs[i].url) ==>
              Restart(s, env).results[s.configs[i].id] == Blank.(lastCalled := Some(env.now))
    ensures forall i :: 0 <= i < |s.configs| && !env.parses(s.configs[i].url) ==>
              Restart(s, env).results[s.configs[i].id] ==
                CheckResult(Some(false), Some(0), Some(0.0), Some(InvalidUrlText), Some(env.now))
  {
    var s0 := s.(timers := map[], results := map[], paused := map[]);
    SendAllResults(s0, s.configs, env);
    assert Restart(s, env).results == SendAll(s0, s.configs, env).results;
  }

  /** Every restart of a list with distinct ids establishes the app's state
      invariant, whatever the timers, flags and results were before. */
  lemma RestartWf(s: State, env: Env)
    requires UniqueIds(s.configs)
    ensures Wf(Restart(s, env))
  {
    RestartTimers(s, env);
    var r := Restart(s, env);
    forall i | 0 <= i < |s.configs|
      ensures s.configs[i].id in r.timers && !IsPaused(r.paused, s.configs[i].id)
    {
      assert s.configs[i] in s.configs;
    }
  }

  /** App launch: the stored configurations are loaded with every pause
      flag cleared, and `startAllTimers` runs when there is at least one. */
  function Launch(configs: seq<Config>, env: Env): (r: State)
    ensures r.configs == configs && r.paused == map[]
    ensures r.dispatched == Dispatchable(configs, env)
    ensures r.timers.Keys == Ids(configs) && r.results.Keys == Ids(configs)
  {
    var s := State(configs, map[], map[], map[], []);
    assert ArmedIds(configs, map[]) == Ids(configs);
    if configs != [] then StartAllTimers(s, env) else s
  }

  /** Launching is a restart from the empty state. */
  lemma LaunchIsRestart(configs: seq<Config>, env: Env)
    ensures Launch(configs, env) == Restart(State(configs, map[], map[], map[], []), env)
  {
  }

  /** The quit item: every timer is invalidated before the app terminates;
      configurations, flags, results and the request trace are kept. */
  function Quit(s: State): (r: State)
    ensures r.timers == map[]
    ensures r.configs == s.configs && r.paused == s.paused && r.results == s.results
    ensures r.dispatched == s.dispatched
  {
    s.(timers := map[])
  }

  /** After quitting no timer is left to fire: every later tick, for any
      id, changes nothing. */
  lemma QuitSilencesTimers(s: State, id: Id, env: Env)
    ensures Tick(Quit(s), id, env) == Quit(s)
  {
  }
}
