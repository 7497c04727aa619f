/**
 The state updates behind the add, edit and delete dialogs: input
 validation, then a change to the configuration list followed by a save
 and a full restart. The dialogs themselves are not modelled; an
 event carries the field texts at the moment the button was pressed.
 */
module Controller {
  import opened Options
  import opened Text
  import opened State
  import opened Schedule

  /** The two items of the method pop-up. */
  datatype MethodChoice = Get | Post {
    function Name(): string {
      match this
      case Get => "GET"
      case Post => "POST"
    }
  }

  /** The raw field contents of the add or edit dialog; `choice` is `None`
      when the pop-up has no selected item. */
  datatype Form = Form(
    name: string,
    url: string,
    choice: Option<MethodChoice>,
    body: string,
    interval: string)

  /** The checked fields of an accepted form. */
  datatype Fields = Fields(name: string, url: string, intervalSeconds: real, httpMethod: string, body: Option<string>)

  /** The guard of the add and edit actions: the trimmed name and URL must
      be non-empty and the trimmed interval text must parse as a number
      greater than zero. The method defaults to GET, and a body is kept,
      trimmed, only for POST. */
  function Validate(f: Form, env: Env): (r: Option<Fields>)
    ensures r.Some? <==>
              && Trim(f.name) != [] && Trim(f.url) != []
              && env.parseNumber(Trim(f.interval)).Some?
              && env.parseNumber(Trim(f.interval)).value > 0.0
    ensures r.Some? ==>
              && r.value.name == Trim(f.name) && r.value.url == Trim(f.url)
              && r.value.intervalSeconds == env.parseNumber(Trim(f.interval)).value
              && r.value.intervalSeconds > 0.0
              && r.value.httpMethod == (if f.choice == Some(Post) then "POST" else "GET")
              && (r.value.body.Some? <==> f.choice == Some(Post))
              && (r.value.body.Some? ==> r.value.body.value == Trim(f.body))
  {
    var name := Trim(f.name);
    var url := Trim(f.url);
    var httpMethod := match f.choice case Some(m) => m.Name() case None => "GET";
    var body := if httpMethod == "POST" then Some(Trim(f.body)) else None;
    var interval := env.parseNumber(Trim(f.interval));
    if name != [] && url != [] && interval.Some? && interval.value > 0.0
    then Some(Fields(name, url, interval.value, httpMethod, body))
    else None
  }

  /** An id no configuration of `cs` uses: what `UUID()` provides. */
  function FreshId(cs: seq<Config>): (id: Id)
    ensures id !in Ids(cs)
    ensures forall i :: 0 <= i < |cs| ==> cs[i].id < id
    decreases |cs|
  {
    if cs == [] then 0
    else
      var rest := FreshId(cs[1..]);
      assert forall c :: c in cs <==> c == cs[0] || c in cs[1..];
      assert forall i :: 1 <= i < |cs| ==> cs[i] == cs[1..][i - 1];
      if cs[0].id < rest then rest else cs[0].id + 1
  }

  /** The add action. An invalid form changes nothing (the dialog reports
      the error and stays open). A valid one appends a configuration with a
      fresh id, then restarts every timer. */
  function AddConfig(s: State, f: Form, env: Env): (r: State)
    ensures Validate(f, env).None? ==> r == s
    ensures Validate(f, env).Some? ==>
              var v := Validate(f, env).value;
              && |r.configs| == |s.configs| + 1
              && r.configs[..|s.configs|] == s.configs
              && r.configs[|s.configs|].id !in Ids(s.configs)
              && r.configs[|s.configs|] == Config(r.configs[|s.configs|].id, v.name, v.url,
                                                  v.intervalSeconds, v.httpMethod, v.body)
              && r == Restart(s.(configs := r.configs), env)
  {
    match Validate(f, env)
    case None => s
    case Some(v) =>
      var c := Config(FreshId(s.configs), v.name, v.url, v.intervalSeconds, v.httpMethod, v.body);
      var configs := s.configs + [c];
      assert configs[..|s.configs|] == s.configs;
      Restart(s.(configs := configs), env)
  }

  /** The edit action for the configuration chosen at `index`. An index
      outside the list or an invalid form changes nothing. Otherwise the
      configuration at `index` is replaced by one with the same id and the
      new fields, the others stay in place, and every timer restarts. */
  function EditConfig(s: State, index: int, f: Form, env: Env): (r: State)
    ensures !(0 <= index < |s.configs|) || Validate(f, env).None? ==> r == s
    ensures 0 <= index < |s.configs| && Validate(f, env).Some? ==>
              var v := Validate(f, env).value;
              && |r.configs| == |s.configs|
              && (forall i :: 0 <= i < |s.configs| ==> r.configs[i].id == s.configs[i].id)
              && (forall i :: 0 <= i < |s.configs| && i != index ==> r.configs[i] == s.configs[i])
              && r.configs[index] == Config(s.configs[index].id, v.name, v.url,
                                            v.intervalSeconds, v.httpMethod, v.body)
              && r == Restart(s.(configs := r.configs), env)
  {
    var checked := Validate(f, env);
    if !(0 <= index < |s.configs|) || checked.None? then s
    else
      var v := checked.value;
      var c := Config(s.configs[index].id, v.name, v.url, v.intervalSeconds, v.httpMethod, v.body);
      var configs := s.configs[index := c];
      assert forall i :: 0 <= i < |s.configs| ==> configs[i].id == s.configs[i].id;
      assert forall i :: 0 <= i < |s.configs| && i != index ==> configs[i] == s.configs[i];
      var r := Restart(s.(configs := configs), env);
      assert r.configs == configs;
      r
  }

  /** `cs` without the element at `index`. */
  function RemoveAt(cs: seq<Config>, index: nat): (r: seq<Config>)
    requires index < |cs|
    ensures |r| == |cs| - 1
    ensures forall i :: 0 <= i < index ==> r[i] == cs[i]
    ensures forall i :: index <= i < |r| ==> r[i] == cs[i + 1]
  {
    cs[..index] + cs[index + 1..]
  }

  /** The confirmed delete action for the configuration chosen at `index`:
      removes it, its pause flag and its result, saves, and restarts every
      timer. An index outside the list changes nothing. */
  function DeleteConfig(s: State, index: int, env: Env): (r: State)
    ensures !(0 <= index < |s.configs|) ==> r == s
    ensures 0 <= index < |s.configs| ==>
              && r.configs == RemoveAt(s.configs, index)
              && (UniqueIds(s.configs) ==>
                    && s.configs[index].id !in Ids(r.configs)
                    && s.configs[index].id !in r.timers
                    && s.configs[index].id !in r.paused
                    && s.configs[index].id !in r.results)
  {
    if !(0 <= index < |s.configs|) then s
    else
      var id := s.configs[index].id;
      var s1 := s.(configs := RemoveAt(s.configs, index),
                   paused := s.paused - {id},
                   results := s.results - {id});
      var r := Restart(s1, env);
      assert UniqueIds(s.configs) ==> id !in Ids(s1.configs) by {
        if UniqueIds(s.configs) {
          forall c | c in s1.configs ensures c.id != id {
            var i :| 0 <= i < |s1.configs| && s1.configs[i] == c;
            if i < index { assert c == s.configs[i]; } else { assert c == s.configs[i + 1]; }
          }
        }
      }
      r
  }

  /** The explicit removal of the deleted id's flag and result is subsumed
      by the restart that follows: deleting is removing the configuration
      and restarting. */
  lemma DeleteIsRestart(s: State, index: int, env: Env)
    requires 0 <= index < |s.configs|
    ensures DeleteConfig(s, index, env) == Restart(s.(configs := RemoveAt(s.configs, index)), env)
  {
  }

  /** Adding keeps configuration ids distinct. */
  lemma {:induction false} AddKeepsIdsUnique(s: State, f: Form, env: Env)
    requires UniqueIds(s.configs)
    ensures UniqueIds(AddConfig(s, f, env).configs)
  {
    var added := AddConfig(s, f, env).configs;
    if Validate(f, env).Some? {
      forall i, j | 0 <= i < j < |added| ensures added[i].id != added[j].id {
        assert added[i] == s.configs[i];
        if j == |s.configs| {
          assert added[i].id in Ids(s.configs);
        } else {
          assert added[j] == s.configs[j];
        }
      }
    }
  }

  /** Editing keeps configuration ids, so it keeps them distinct. */
  lemma {:induction false} EditKeepsIdsUnique(s: State, index: int, f: Form, env: Env)
    requires UniqueIds(s.configs)
    ensures UniqueIds(EditConfig(s, index, f, env).configs)
  {
    var edited := EditConfig(s, index, f, env).configs;
    forall i, j | 0 <= i < j < |edited| ensures edited[i].id != edited[j].id {
      assert edited[i].id == s.configs[i].id && edited[j].id == s.configs[j].id;
    }
  }

  /** Deleting keeps configuration ids distinct. */
  lemma {:induction false} DeleteKeepsIdsUnique(s: State, index: int, env: Env)
    requires UniqueIds(s.configs)
    ensures UniqueIds(DeleteConfig(s, index, env).configs)
  {
    if 0 <= index < |s.configs| {
      var removed := DeleteConfig(s, index, env).configs;
      forall i, j | 0 <= i < j < |removed| ensures removed[i].id != removed[j].id {
        var i' := if i < index then i else i + 1;
        var j' := if j < index then j else j + 1;
        assert removed[i] == s.configs[i'] && removed[j] == s.configs[j'];
      }
    }
  }
}
