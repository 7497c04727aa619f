/**
 What the status-bar menu derives from the state: the per-row status glyph
 and interval text built in `setupMenu`, and the failure flag of the main
 icon in `updateMainIcon`.
 */
module Display {
  import opened Options
  import opened Text
  import opened State

  /** The glyph at the head of a configuration's status row. */
  datatype Glyph = PausedGlyph | SuccessGlyph | FailureGlyph | PendingGlyph {
    function Text(): string {
      match this
      case PausedGlyph => "⏸"
      case SuccessGlyph => "✅"
      case FailureGlyph => "❌"
      case PendingGlyph => "⏳"
    }
  }

  /** The status glyph for configuration `id`: a `true` pause flag shows ⏸
      whatever the result; otherwise a known success shows ✅, a known
      failure ❌, and an unknown outcome (no entry, or a pending one) ⏳. */
  function StatusGlyph(paused: map<Id, bool>, results: map<Id, CheckResult>, id: Id): (g: Glyph)
    ensures g == PausedGlyph <==> IsPaused(paused, id)
    ensures g == SuccessGlyph <==> !IsPaused(paused, id) && id in results && results[id].success == Some(true)
    ensures g == FailureGlyph <==> !IsPaused(paused, id) && id in results && results[id].success == Some(false)
    ensures g == PendingGlyph <==> !IsPaused(paused, id) && (id !in results || results[id].success.None?)
  {
    if id in paused && paused[id] then PausedGlyph
    else match Lookup(results, id)
      case Some(CheckResult(Some(ok), _, _, _, _)) => if ok then SuccessGlyph else FailureGlyph
      case _ => PendingGlyph
  }

  /** The two titles `updateMainIcon` puts on the status-bar button. */
  datatype Icon = Clock | Alert {
    function Text(): string {
      match this
      case Clock => "⏲"
      case Alert => "❌"
    }
  }

  /** Some stored result is a known failure. */
  predicate HasFailure(results: map<Id, CheckResult>) {
    exists id :: id in results && results[id].success == Some(false)
  }

  /** `updateMainIcon`: an empty store and an all-success store show the
      clock; otherwise the button shows ❌ when some known outcome is a
      failure, and the clock when every outcome is still unknown. The
      result: ❌ exactly when some entry records a failure. */
  function MainIcon(results: map<Id, CheckResult>): (icon: Icon)
    ensures icon == Alert <==> HasFailure(results)
  {
    var known := set v | v in results.Values && v.success.Some? :: v.success.value;
    var allSuccess := forall b :: b in known ==> b;
    var anyFailure := false in known;
    assert anyFailure <==> HasFailure(results) by {
      if HasFailure(results) {
        var id :| id in results && results[id].success == Some(false);
        assert results[id] in results.Values;
      }
    }
    if |results| == 0 then Clock
    else if allSuccess then Clock
    else if anyFailure then Alert
    else Clock
  }

  /** How the interval of a status row is shown. */
  datatype IntervalLabel = Seconds(count: int) | Minutes(count: int) {
    function Text(): string {
      match this
      case Seconds(n) => IntText(n) + "초"
      case Minutes(n) => IntText(n) + "분"
    }
  }

  /** The interval text of `setupMenu`: whole seconds (truncated) below 60
      seconds, else whole minutes (truncated). A positive interval is shown
      as the largest whole count of its unit that does not exceed it. */
  function Interval(seconds: real): (l: IntervalLabel)
    ensures l.Minutes? <==> seconds >= 60.0
    ensures l.Minutes? ==> l.count >= 1 && l.count as real * 60.0 <= seconds < (l.count + 1) as real * 60.0
    ensures l.Seconds? && seconds >= 0.0 ==> 0 <= l.count < 60 && l.count as real <= seconds < l.count as real + 1.0
    ensures l.Seconds? && seconds < 0.0 ==> l.count <= 0 && l.count as real - 1.0 < seconds <= l.count as real
  {
    if seconds < 60.0 then Seconds(Trunc(seconds)) else Minutes(Trunc(seconds / 60.0))
  }
}
