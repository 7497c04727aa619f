/**
 The menu dispatcher `menuItemClicked`, which switches on the item's tag,
 and the event loop of the main queue: every event the app reacts to as
 one transition, with the state invariant each one preserves.
 */
module Menu {
  import opened Options
  import opened State
  import opened Probe
  import opened Schedule
  import opened Controller

  const DeleteTag := -12
  const EditTag := -11
  const AddTag := -10
  const QuitTag := -2
  const CallAllTag := -1
  /** Status rows carry 1000 + their index; the toggle case covers 1000..<1100. */
  const StatusBase := 1000
  const StatusLimit := 1100

  /** What a menu item asks for. */
  datatype Command = OpenDialog | QuitApp | CallAll | CallOne(index: nat) | ToggleRow(row: nat) | Ignore

  /** The `switch` of `menuItemClicked`, its cases tried in the switch's
      order for a list of `count` configurations: the dialog items, quit,
      "call all", a tag that indexes the list (manual call), a tag in
      1000..<1100 (status row tag - 1000), anything else ignored. A tag
      that indexes the list is a manual call even when it also lies in the
      status-row range. */
  function TagCommand(tag: int, count: nat): (c: Command)
    ensures c == OpenDialog <==> tag in {DeleteTag, EditTag, AddTag}
    ensures c == QuitApp <==> tag == QuitTag
    ensures c == CallAll <==> tag == CallAllTag
    ensures c.CallOne? <==> 0 <= tag < count
    ensures c.CallOne? ==> c.index == tag
    ensures c.ToggleRow? <==> StatusBase <= tag < StatusLimit && !(tag < count)
    ensures c.ToggleRow? ==> c.row == tag - StatusBase
  {
    if tag == DeleteTag || tag == EditTag || tag == AddTag then OpenDialog
    else if tag == QuitTag then QuitApp
    else if tag == CallAllTag then CallAll
    else if 0 <= tag < count then CallOne(tag)
    else if StatusBase <= tag < StatusLimit then ToggleRow(tag - StatusBase)
    else Ignore
  }

  /** `menuItemClicked`. The dialog items change nothing by themselves
      (their confirmed actions are the add, edit and delete events);
      quitting invalidates every timer; "call all" sends one request per
      configuration; a manual call sends one request for its configuration,
      paused or not; a status-row click toggles that row's pause, whatever
      the length of the list; any other tag does nothing. */
  function Clicked(s: State, tag: int, env: Env): (r: State)
    ensures tag in {DeleteTag, EditTag, AddTag} ==> r == s
    ensures tag == QuitTag ==> r == Quit(s)
    ensures tag == CallAllTag ==> r == SendAll(s, s.configs, env)
    ensures 0 <= tag < |s.configs| ==> r == SendRequest(s, s.configs[tag], env)
    ensures StatusBase <= tag < StatusLimit && !(tag < |s.configs|) ==> r == TogglePause(s, tag - StatusBase)
    ensures TagCommand(tag, |s.configs|) == Ignore ==> r == s
    ensures r.configs == s.configs
    ensures |s.dispatched| <= |r.dispatched| && r.dispatched[..|s.dispatched|] == s.dispatched
  {
    match TagCommand(tag, |s.configs|)
    case OpenDialog => s
    case QuitApp => Quit(s)
    case CallAll => SendAll(s, s.configs, env)
    case CallOne(i) => SendRequest(s, s.configs[i], env)
    case ToggleRow(i) => TogglePause(s, i)
    case Ignore => s
  }

  /** A manual call ignores the pause flag: it sends the request even for a
      paused configuration, and leaves the flags and timers as they were. */
  lemma ManualCallBypassesPause(s: State, index: int, env: Env)
    requires 0 <= index < |s.configs| && env.parses(s.configs[index].url)
    ensures var r := Clicked(s, index, env);
      && r.dispatched == s.dispatched + [s.configs[index]]
      && r.paused == s.paused && r.timers == s.timers
  {
  }

  /** With at most 1000 configurations, the status row of configuration
      `index` (tag 1000 + index) toggles its pause when `index` < 100 and
      does nothing from the 101st row (index 100) on. */
  lemma StatusRowClick(s: State, index: int, env: Env)
    requires |s.configs| <= StatusBase && 0 <= index < |s.configs|
    ensures index < StatusLimit - StatusBase ==> Clicked(s, StatusBase + index, env) == TogglePause(s, index)
    ensures index >= StatusLimit - StatusBase ==> Clicked(s, StatusBase + index, env) == s
  {
  }

  /** The tags of the two ranges overlap: with more than 1000
      configurations, clicking the first status row sends a request for the
      configuration at index 1000 instead of toggling the first one's pause. */
  lemma StatusTagCollision(s: State, env: Env)
    requires |s.configs| > StatusBase
    ensures Clicked(s, StatusBase, env) == SendRequest(s, s.configs[StatusBase], env)
    ensures Clicked(s, StatusBase, env).paused == s.paused
  {
  }

  /** Everything that happens on the main queue after launch. `Clicked`
      carries any menu tag but the quit item's, which ends the app. */
  datatype Event =
    | Click(tag: int)
    | Fire(timer: Id)
    | Completion(id: Id, outcome: Outcome, elapsed: real)
    | Add(form: Form)
    | Edit(index: int, form: Form)
    | Delete(index: int)

  /** One event's transition. No event rewrites the request trace: it can
      only append to it. */
  function Step(s: State, e: Event, env: Env): (r: State)
    ensures |s.dispatched| <= |r.dispatched| && r.dispatched[..|s.dispatched|] == s.dispatched
  {
    match e
    case Click(tag) => Clicked(s, tag, env)
    case Fire(id) => Tick(s, id, env)
    case Completion(id, o, elapsed) => Complete(s, id, o, elapsed)
    case Add(f) => AddConfig(s, f, env)
    case Edit(i, f) => EditConfig(s, i, f, env)
    case Delete(i) => DeleteConfig(s, i, env)
  }

  /** The pause toggle preserves the state invariant. */
  lemma TogglePauseWf(s: State, index: int)
    requires Wf(s)
    ensures Wf(TogglePause(s, index))
  {
    if 0 <= index < |s.configs| {
      var r := TogglePause(s, index);
      var id := s.configs[index].id;
      forall i | 0 <= i < |s.configs|
        ensures && (s.configs[i].id in r.timers <==> !IsPaused(r.paused, s.configs[i].id))
                && (s.configs[i].id in r.timers ==> r.timers[s.configs[i].id] == s.configs[i])
      {
        if s.configs[i].id == id {
          assert i == index;
        }
      }
    }
  }

  /** The invariant speaks only of the configurations, timers and flags. */
  lemma WfFrame(s: State, r: State)
    requires Wf(s)
    requires r.configs == s.configs && r.timers == s.timers && r.paused == s.paused
    ensures Wf(r)
  {
  }

  /** Every menu click but quitting keeps the invariant. */
  lemma ClickedWf(s: State, tag: int, env: Env)
    requires Wf(s) && tag != QuitTag
    ensures Wf(Clicked(s, tag, env))
  {
    match TagCommand(tag, |s.configs|)
    case CallAll => WfFrame(s, SendAll(s, s.configs, env));
    case CallOne(i) => WfFrame(s, SendRequest(s, s.configs[i], env));
    case ToggleRow(i) => TogglePauseWf(s, i);
    case OpenDialog =>
    case Ignore =>
  }

  /** Adding ends in a restart, which re-establishes the invariant from
      distinct ids alone. */
  lemma AddWf(s: State, f: Form, env: Env)
    requires Wf(s)
    ensures Wf(AddConfig(s, f, env))
  {
    var r := AddConfig(s, f, env);
    AddKeepsIdsUnique(s, f, env);
    if Validate(f, env).Some? {
      assert r == Restart(s.(configs := r.configs), env);
      RestartWf(s.(configs := r.configs), env);
    } else {
      assert r == s;
    }
  }

  /** Editing ends in a restart, which re-establishes the invariant. */
  lemma EditWf(s: State, index: int, f: Form, env: Env)
    requires Wf(s)
    ensures Wf(EditConfig(s, index, f, env))
  {
    var r := EditConfig(s, index, f, env);
    EditKeepsIdsUnique(s, index, f, env);
    if 0 <= index < |s.configs| && Validate(f, env).Some? {
      assert r == Restart(s.(configs := r.configs), env);
      RestartWf(s.(configs := r.configs), env);
    } else {
      assert r == s;
    }
  }

  /** Deleting ends in a restart, which re-establishes the invariant. */
  lemma DeleteWf(s: State, index: int, env: Env)
    requires Wf(s)
    ensures Wf(DeleteConfig(s, index, env))
  {
    var r := DeleteConfig(s, index, env);
    DeleteKeepsIdsUnique(s, index, env);
    if 0 <= index < |s.configs| {
      DeleteIsRestart(s, index, env);
      RestartWf(s.(configs := r.configs), env);
    } else {
      assert r == s;
    }
  }

  /** Every event but quitting keeps the state invariant: distinct ids,
      timers and flags only for configurations, and a timer for exactly the
      non-paused configurations, holding their current values. */
  lemma {:induction false} StepPreservesWf(s: State, e: Event, env: Env)
    requires Wf(s)
    requires e.Click? ==> e.tag != QuitTag
    ensures Wf(Step(s, e, env))
  {
    match e
    case Click(tag) => ClickedWf(s, tag, env);
    case Fire(id) => WfFrame(s, Tick(s, id, env));
    case Completion(id, o, elapsed) => WfFrame(s, Complete(s, id, o, elapsed));
    case Add(f) => AddWf(s, f, env);
    case Edit(i, f) => EditWf(s, i, f, env);
    case Delete(i) => DeleteWf(s, i, env);
  }

  /** A launch with distinct ids satisfies the invariant. */
  lemma LaunchWf(configs: seq<Config>, env: Env)
    requires UniqueIds(configs)
    ensures Wf(Launch(configs, env))
  {
    LaunchIsRestart(configs, env);
    RestartWf(State(configs, map[], map[], map[], []), env);
  }

  /** An event with the environment it is handled in: the clock reading
      and the answers of Foundation's parsers at that moment. */
  datatype Timed = Timed(event: Event, env: Env)

  /** The events a run of the app handles on the main queue, in order,
      each in its own environment. Over a run the request trace only grows:
      what was dispatched stays dispatched, in the same order. */
  function Run(s: State, es: seq<Timed>): (r: State)
    ensures |s.dispatched| <= |r.dispatched| && r.dispatched[..|s.dispatched|] == s.dispatched
    decreases |es|
  {
    if es == [] then s
    else
      var s1 := Step(s, es[0].event, es[0].env);
      var r := Run(s1, es[1..]);
      assert r.dispatched[..|s.dispatched|] == r.dispatched[..|s1.dispatched|][..|s.dispatched|];
      r
  }

  /** From a state satisfying the invariant, however many events follow
      (none of them quitting) and whatever the clock reads at each, the
      invariant holds. */
  lemma {:induction false} RunPreservesWf(s: State, es: seq<Timed>)
    requires Wf(s)
    requires forall k :: 0 <= k < |es| && es[k].event.Click? ==> es[k].event.tag != QuitTag
    ensures Wf(Run(s, es))
    decreases |es|
  {
    if es != [] {
      StepPreservesWf(s, es[0].event, es[0].env);
      assert forall k :: 1 <= k < |es| ==> es[1..][k - 1] == es[k];
      RunPreservesWf(Step(s, es[0].event, es[0].env), es[1..]);
    }
  }

  /** Two manual calls of the same configuration at different moments: the
      second one's clock reading is what `lastCalled` ends up holding. */
  lemma ManualCallsStampTheirOwnClock(s: State, index: int, first: Env, second: Env)
    requires 0 <= index < |s.configs|
    ensures var r := Run(s, [Timed(Click(index), first), Timed(Click(index), second)]);
      s.configs[index].id in r.results && r.results[s.configs[index].id].lastCalled == Some(second.now)
  {
    var es := [Timed(Click(index), first), Timed(Click(index), second)];
    var s1 := Step(s, es[0].event, first);
    assert es[1..] == [Timed(Click(index), second)];
    assert Run(s, es) == Run(s1, [Timed(Click(index), second)]);
    assert Run(s1, [Timed(Click(index), second)]) == Step(s1, Click(index), second);
  }

  /** Under the invariant, a paused configuration never gets a request from
      its timer: a tick for its id changes nothing. */
  lemma PausedTickIsNoop(s: State, index: int, env: Env)
    requires Wf(s) && 0 <= index < |s.configs| && IsPaused(s.paused, s.configs[index].id)
    ensures Step(s, Fire(s.configs[index].id), env) == s
  {
  }

  /** A completion that arrives after its configuration was deleted still
      writes an entry for the stale id, so the store can hold ids no
      configuration has. */
  lemma StaleCompletionAddsEntry(s: State, id: Id, o: Outcome, elapsed: real)
    requires id !in Ids(s.configs) && id !in s.results
    ensures var r := Step(s, Completion(id, o, elapsed), Env(_ => true, _ => None, 0));
      && id in r.results && id !in Ids(r.configs)
      && r.results[id].lastCalled == None
  {
  }
}
