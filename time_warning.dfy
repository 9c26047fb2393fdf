/**
 * `get_time_warning` (timon.py:34-41): the message shown when a jump fires.
 * It prints the monotonic time elapsed between the two snapshots (signed) and
 * how far the wall clock moved (its absolute value).
 *
 * `ParseWarning` reads such a message back into its two durations.
 */
module Warning {
  import opened Wrappers
  import opened Decimal
  import opened TimeStatus
  import opened Timedelta
  import opened DurationText
  import Monitor

  const Opening: string := "过去"
  const Middle: string := "内，系统时间变化达到"

  /** timon.py:35-36: signed, so a monotonic clock going backwards would show as negative. */
  function MonotonicElapsed(status: Snapshot, lastStatus: Snapshot): Micros {
    status.monotonic - lastStatus.monotonic
  }

  /** timon.py:37-38: the wall-clock change as a magnitude. */
  function WallClockChange(status: Snapshot, lastStatus: Snapshot): (r: Micros)
    ensures r >= 0
    ensures r == status.timestamp - lastStatus.timestamp || r == lastStatus.timestamp - status.timestamp
  {
    Monitor.Abs(status.timestamp - lastStatus.timestamp)
  }

  /** timon.py:34-41. */
  function GetTimeWarning(status: Snapshot, lastStatus: Snapshot): string {
    Opening
      + (FormatTimedelta(FromMicroseconds(MonotonicElapsed(status, lastStatus)))
         + (Middle + FormatTimedelta(FromMicroseconds(WallClockChange(status, lastStatus)))))
  }

  /** The first index of `c` in `s`, or `|s|` when it does not occur. */
  function IndexOf(s: string, c: char): (k: nat)
    ensures k <= |s|
    ensures forall i :: 0 <= i < k ==> s[i] != c
    ensures k < |s| ==> s[k] == c
  {
    if s == [] then 0 else if s[0] == c then 0 else 1 + IndexOf(s[1..], c)
  }

  /** The two durations of a warning message, in the order they appear. */
  datatype Reported = Reported(monotonicElapsed: Breakdown, wallClockChange: Breakdown)

  function ParseWarning(msg: string): Option<Reported> {
    if |msg| < |Opening| || msg[..|Opening|] != Opening then None
    else
      var body := msg[|Opening|..];
      var k := IndexOf(body, Middle[0]);
      if |body| - k < |Middle| || body[k..k + |Middle|] != Middle then None
      else
        match (ParseDuration(body[..k]), ParseDuration(body[k + |Middle|..]))
        case (Some(elapsed), Some(change)) => Some(Reported(elapsed, change))
        case _ => None
  }

  lemma {:induction false} IndexOfAfterDuration(a: string, rest: string, c: char)
    requires forall i :: 0 <= i < |a| ==> DurationChar(a[i])
    requires !DurationChar(c) && rest != [] && rest[0] == c
    ensures IndexOf(a + rest, c) == |a|
  {
    if a != [] {
      assert (a + rest)[1..] == a[1..] + rest;
      IndexOfAfterDuration(a[1..], rest, c);
    }
  }

  /** A message assembled from two duration texts reads back as those texts do. */
  lemma ParseAssembled(a: string, b: string, elapsed: Breakdown, change: Breakdown)
    requires forall i :: 0 <= i < |a| ==> DurationChar(a[i])
    requires ParseDuration(a) == Some(elapsed) && ParseDuration(b) == Some(change)
    ensures ParseWarning(Opening + (a + (Middle + b))) == Some(Reported(elapsed, change))
  {
    var msg := Opening + (a + (Middle + b));
    assert msg[..|Opening|] == Opening;
    var body := msg[|Opening|..];
    assert body == a + (Middle + b);
    IndexOfAfterDuration(a, Middle + b, Middle[0]);
    assert body[..|a|] == a;
    assert body[|a|..|a| + |Middle|] == Middle;
    assert body[|a| + |Middle|..] == b;
  }

  /**
   * Round trip: the message names the split of the monotonic elapsed time
   * (a negative day count reading as zero) and the split of the wall-clock
   * change, in that order.
   */
  lemma WarningRoundTrip(status: Snapshot, lastStatus: Snapshot)
    ensures ParseWarning(GetTimeWarning(status, lastStatus))
         == Some(Reported(Shown(Split(FromMicroseconds(MonotonicElapsed(status, lastStatus)))),
                          Split(FromMicroseconds(WallClockChange(status, lastStatus)))))
  {
    var elapsed := FromMicroseconds(MonotonicElapsed(status, lastStatus));
    var change := FromMicroseconds(WallClockChange(status, lastStatus));
    FormatAlphabet(elapsed);
    FormatRoundTrip(elapsed);
    SplitDecomposes(WallClockChange(status, lastStatus));
    FormatRoundTripNonNegative(change);
    ParseAssembled(FormatTimedelta(elapsed), FormatTimedelta(change), Shown(Split(elapsed)), Split(change));
  }

  /**
   * What a reader of the message learns: the wall-clock change in whole
   * seconds exactly, and, when the monotonic clock did not run backwards, the
   * elapsed monotonic time in whole seconds exactly.
   */
  lemma WarningStatesBothDurations(status: Snapshot, lastStatus: Snapshot)
    ensures var r := ParseWarning(GetTimeWarning(status, lastStatus));
            && r.Some?
            && BreakdownSeconds(r.value.wallClockChange) == WallClockChange(status, lastStatus) / MicrosPerSecond
            && (MonotonicElapsed(status, lastStatus) >= 0 ==>
                  BreakdownSeconds(r.value.monotonicElapsed) == MonotonicElapsed(status, lastStatus) / MicrosPerSecond)
  {
    WarningRoundTrip(status, lastStatus);
    SplitDecomposes(WallClockChange(status, lastStatus));
    SplitDecomposes(MonotonicElapsed(status, lastStatus));
  }

  lemma TwoSecondsText()
    ensures FormatTimedelta(FromMicroseconds(2 * MicrosPerSecond)) == "2秒"
  {
  }

  lemma AlmostAnHourText()
    ensures FormatTimedelta(FromMicroseconds(3598 * MicrosPerSecond)) == "59分钟58秒"
  {
  }

  /**
   * The wall clock stepped back one hour between two checks two seconds
   * apart: the jump fires under the application's 300 s threshold, and the
   * message says two seconds passed while the clock moved 59 min 58 s.
   */
  lemma BackwardHourScenario(t: Micros, m: Micros)
    ensures var lastStatus := GetTimeStatus(t, m);
            var status := GetTimeStatus(t + 2 * MicrosPerSecond - 3600 * MicrosPerSecond, m + 2 * MicrosPerSecond);
            && Monitor.Jumped(status, lastStatus, 300)
            && GetTimeWarning(status, lastStatus) == "过去2秒内，系统时间变化达到59分钟58秒"
  {
    var lastStatus := GetTimeStatus(t, m);
    var status := GetTimeStatus(t + 2 * MicrosPerSecond - 3600 * MicrosPerSecond, m + 2 * MicrosPerSecond);
    assert MonotonicElapsed(status, lastStatus) == 2 * MicrosPerSecond;
    assert WallClockChange(status, lastStatus) == 3598 * MicrosPerSecond;
    TwoSecondsText();
    AlmostAnHourText();
    assert GetTimeWarning(status, lastStatus) == Opening + ("2秒" + (Middle + "59分钟58秒"));
    BackwardHourMessage();
  }

  lemma BackwardHourMessage()
    ensures Opening + ("2秒" + (Middle + "59分钟58秒")) == "过去2秒内，系统时间变化达到59分钟58秒"
  {
  }
}
