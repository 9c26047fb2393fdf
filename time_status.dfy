/**
 * The clock snapshot built by `get_time_status` (timon.py:24-31).
 *
 * The two clock reads `time.time()` and `time.monotonic()` are taken as
 * parameters; readings are whole microseconds.
 */
module TimeStatus {

  /** A clock reading or a duration, in microseconds. */
  type Micros = int

  /** The dictionary `{'timestamp', 'monotonic_seconds', 'diff'}`. */
  datatype Snapshot = Snapshot(timestamp: Micros, monotonic: Micros, diff: Micros)

  /** A snapshot whose `diff` is its wall-clock reading less its monotonic one. */
  predicate Consistent(s: Snapshot) {
    s.diff == s.timestamp - s.monotonic
  }

  /** timon.py:24-31 with the two readings passed in. */
  function GetTimeStatus(timestamp: Micros, monotonic: Micros): (s: Snapshot)
    ensures s.timestamp == timestamp && s.monotonic == monotonic
    ensures Consistent(s)
  {
    Snapshot(timestamp, monotonic, timestamp - monotonic)
  }

  /**
   * Between two snapshots the offset changes by the wall-clock elapsed time
   * less the monotonic elapsed time: it moves only when the two clocks do not
   * advance together.
   */
  lemma OffsetChange(status: Snapshot, last: Snapshot)
    requires Consistent(status) && Consistent(last)
    ensures status.diff - last.diff
         == (status.timestamp - last.timestamp) - (status.monotonic - last.monotonic)
  {
  }

  /** The offset does not depend on where either clock's epoch lies, only on their gap. */
  lemma OffsetIgnoresCommonShift(timestamp: Micros, monotonic: Micros, shift: int)
    ensures GetTimeStatus(timestamp + shift, monotonic + shift).diff
         == GetTimeStatus(timestamp, monotonic).diff
  {
  }
}
