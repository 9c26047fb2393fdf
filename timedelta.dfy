/**
 * Python's `datetime.timedelta`, as far as `format_timedelta` uses it, and the
 * days / hours / minutes / seconds split of timon.py:241-246.
 *
 * Durations are whole microseconds. A `timedelta` is kept normalized the way
 * Python keeps it: `days` may be any integer, `0 <= seconds < 86400` and
 * `0 <= microseconds < 1000000`.
 */
module Timedelta {

  const MicrosPerSecond: nat := 1_000_000
  const SecondsPerDay: nat := 86400
  const SecondsPerHour: nat := 3600
  const SecondsPerMinute: nat := 60

  type DaySeconds = s: int | 0 <= s < 86400
  type SecondMicros = u: int | 0 <= u < 1_000_000

  datatype TimeDelta = TimeDelta(days: int, seconds: DaySeconds, microseconds: SecondMicros)

  /** The length of a duration in microseconds. */
  function TotalMicroseconds(td: TimeDelta): int {
    (td.days * SecondsPerDay + td.seconds) * MicrosPerSecond + td.microseconds
  }

  /**
   * `timedelta(microseconds=us)`: Python normalizes with floor division, which
   * for a positive divisor is Dafny's `/` and `%`, negative `us` included.
   */
  function FromMicroseconds(us: int): (td: TimeDelta)
    ensures TotalMicroseconds(td) == us
  {
    var wholeSeconds := us / MicrosPerSecond;
    TimeDelta(wholeSeconds / SecondsPerDay, wholeSeconds % SecondsPerDay, us % MicrosPerSecond)
  }

  /** A duration is determined by its length: normalization leaves no choice. */
  lemma NormalizedUnique(a: TimeDelta, b: TimeDelta)
    requires TotalMicroseconds(a) == TotalMicroseconds(b)
    ensures a == b
  {
  }

  /** The four numbers `format_timedelta` prints. */
  datatype Breakdown = Breakdown(days: int, hours: int, minutes: int, seconds: int)

  /** Whole seconds a breakdown stands for. */
  function BreakdownSeconds(b: Breakdown): int {
    b.days * SecondsPerDay + b.hours * SecondsPerHour + b.minutes * SecondsPerMinute + b.seconds
  }

  /**
   * timon.py:242-246: `days` is taken as it is, the seconds within the day are
   * split by `divmod` into hours, minutes and seconds; microseconds are dropped.
   */
  function Split(td: TimeDelta): (b: Breakdown)
    ensures b.days == td.days
    ensures 0 <= b.hours < 24 && 0 <= b.minutes < 60 && 0 <= b.seconds < 60
    ensures b.hours * SecondsPerHour + b.minutes * SecondsPerMinute + b.seconds == td.seconds
  {
    var hours := td.seconds / SecondsPerHour;
    var remain := td.seconds % SecondsPerHour;
    Breakdown(td.days, hours, remain / SecondsPerMinute, remain % SecondsPerMinute)
  }

  /**
   * The split of a duration of `us` microseconds adds up to its whole seconds,
   * rounded down (toward minus infinity, as Python's `timedelta` does).
   */
  lemma SplitDecomposes(us: int)
    ensures BreakdownSeconds(Split(FromMicroseconds(us))) == us / MicrosPerSecond
    ensures var b := Split(FromMicroseconds(us));
            0 <= b.hours < 24 && 0 <= b.minutes < 60 && 0 <= b.seconds < 60
    ensures us >= 0 ==> Split(FromMicroseconds(us)).days >= 0
  {
  }

  /** Two durations with the same split agree to the second. */
  lemma {:induction false} SplitInjective(a: TimeDelta, b: TimeDelta)
    requires Split(a) == Split(b)
    ensures a.days == b.days && a.seconds == b.seconds
  {
  }
}
