/**
 * `TimeMonitor` (timon.py:10-21): remembers the last snapshot and, on every
 * `monitor` call, reports a clock jump when the offset between the wall clock
 * and the monotonic clock has moved by strictly more than the threshold since
 * the previous call.
 *
 * The callback is modelled by the value `Monitor` returns: `Some(jump)` where
 * the source calls `callback(status, last_status)`, `None` where it does not.
 */
module Monitor {
  import opened Wrappers
  import opened TimeStatus
  import opened Timedelta

  /** The two arguments of one callback invocation, in the order they are passed. */
  datatype Jump = Jump(status: Snapshot, lastStatus: Snapshot)

  function Abs(x: int): (r: nat)
    ensures r == x || r == -x
  {
    if x < 0 then -x else x
  }

  /** The test on timon.py:20, the threshold being whole seconds. */
  predicate Jumped(status: Snapshot, lastStatus: Snapshot, maxSeconds: int) {
    Abs(status.diff - lastStatus.diff) > maxSeconds * MicrosPerSecond
  }

  /**
   * The callbacks a run of snapshots triggers: one for each consecutive pair
   * whose offsets differ by more than the threshold, newest snapshot first.
   */
  function Callbacks(samples: seq<Snapshot>, maxSeconds: int): seq<Jump>
    decreases |samples|
  {
    if |samples| < 2 then []
    else
      var status := samples[|samples| - 1];
      var last := samples[|samples| - 2];
      Callbacks(samples[..|samples| - 1], maxSeconds)
        + (if Jumped(status, last, maxSeconds) then [Jump(status, last)] else [])
  }

  class TimeMonitor {
    /** `_max_seconds`: set once, never reassigned. */
    const maxSeconds: int
    /** `_last_status`. */
    var lastStatus: Snapshot
    /** Every snapshot taken so far, the initial one first. */
    ghost var samples: seq<Snapshot>
    /** Every callback invocation so far, in order. */
    ghost var callbacks: seq<Jump>

    ghost predicate Valid()
      reads this
    {
      && |samples| > 0
      && lastStatus == samples[|samples| - 1]
      && (forall i :: 0 <= i < |samples| ==> Consistent(samples[i]))
      && callbacks == Callbacks(samples, maxSeconds)
    }

    /** timon.py:11-13, with the first clock readings passed in. */
    constructor (warnSeconds: int, timestamp: Micros, monotonic: Micros)
      ensures Valid()
      ensures maxSeconds == warnSeconds
      ensures lastStatus == GetTimeStatus(timestamp, monotonic)
      ensures samples == [lastStatus] && callbacks == []
    {
      maxSeconds := warnSeconds;
      lastStatus := GetTimeStatus(timestamp, monotonic);
      samples := [GetTimeStatus(timestamp, monotonic)];
      callbacks := [];
    }

    /**
     * timon.py:15-21: take a snapshot, store it whatever happens, and fire
     * with (new, previous) exactly when the offset moved by more than the
     * threshold.
     */
    method Monitor(timestamp: Micros, monotonic: Micros) returns (fired: Option<Jump>)
      requires Valid()
      modifies this
      ensures Valid()
      ensures lastStatus == GetTimeStatus(timestamp, monotonic)
      ensures fired == if Jumped(lastStatus, old(lastStatus), maxSeconds)
                       then Some(Jump(lastStatus, old(lastStatus))) else None
      ensures samples == old(samples) + [lastStatus]
      ensures callbacks == old(callbacks) + (if fired.Some? then [fired.value] else [])
    {
      var status := GetTimeStatus(timestamp, monotonic);
      var last := lastStatus;
      lastStatus := status;
      samples := samples + [status];
      assert samples[..|samples| - 1] == old(samples);
      if Jumped(status, last, maxSeconds) {
        fired := Some(Jump(status, last));
        callbacks := callbacks + [Jump(status, last)];
      } else {
        fired := None;
      }
    }
  }

  // ----- The detection rule -----

  /** A change of exactly the threshold does not fire; one microsecond more does. */
  lemma ThresholdIsStrict(lastStatus: Snapshot, maxSeconds: int)
    requires maxSeconds >= 0
    ensures !Jumped(lastStatus.(diff := lastStatus.diff + maxSeconds * MicrosPerSecond), lastStatus, maxSeconds)
    ensures !Jumped(lastStatus.(diff := lastStatus.diff - maxSeconds * MicrosPerSecond), lastStatus, maxSeconds)
    ensures Jumped(lastStatus.(diff := lastStatus.diff + maxSeconds * MicrosPerSecond + 1), lastStatus, maxSeconds)
    ensures Jumped(lastStatus.(diff := lastStatus.diff - maxSeconds * MicrosPerSecond - 1), lastStatus, maxSeconds)
  {
  }

  /** A forward and a backward change of the offset by the same amount are judged alike. */
  lemma DirectionIrrelevant(lastStatus: Snapshot, status: Snapshot, change: int, maxSeconds: int)
    requires status.diff == lastStatus.diff + change
    ensures Jumped(status, lastStatus, maxSeconds)
        <==> Jumped(status.(diff := lastStatus.diff - change), lastStatus, maxSeconds)
  {
  }

  /** The rule is symmetric in its two snapshots. */
  lemma JumpedSymmetric(a: Snapshot, b: Snapshot, maxSeconds: int)
    ensures Jumped(a, b, maxSeconds) <==> Jumped(b, a, maxSeconds)
  {
  }

  /**
   * In terms of the clocks: a jump is reported exactly when the wall clock
   * moved by more than the threshold beyond what the monotonic clock moved.
   */
  lemma JumpIsWallClockStep(lastStatus: Snapshot, timestamp: Micros, monotonic: Micros, maxSeconds: int)
    requires Consistent(lastStatus)
    ensures Jumped(GetTimeStatus(timestamp, monotonic), lastStatus, maxSeconds)
        <==> Abs((timestamp - lastStatus.timestamp) - (monotonic - lastStatus.monotonic))
             > maxSeconds * MicrosPerSecond
  {
  }

  /**
   * Moving either clock's epoch, each by its own amount, changes no verdict:
   * only how the two clocks move relative to each other matters.
   */
  lemma VerdictIgnoresEpochs(t0: Micros, m0: Micros, t1: Micros, m1: Micros,
                             wallShift: int, monoShift: int, maxSeconds: int)
    ensures Jumped(GetTimeStatus(t1 + wallShift, m1 + monoShift),
                   GetTimeStatus(t0 + wallShift, m0 + monoShift), maxSeconds)
        <==> Jumped(GetTimeStatus(t1, m1), GetTimeStatus(t0, m0), maxSeconds)
  {
  }

  /** With a non-negative threshold, an unchanged offset never fires. */
  lemma SameOffsetNeverFires(status: Snapshot, lastStatus: Snapshot, maxSeconds: int)
    requires maxSeconds >= 0 && status.diff == lastStatus.diff
    ensures !Jumped(status, lastStatus, maxSeconds)
  {
  }

  /** The source does not validate the threshold: with a negative one every call fires. */
  lemma NegativeThresholdAlwaysFires(status: Snapshot, lastStatus: Snapshot, maxSeconds: int)
    requires maxSeconds < 0
    ensures Jumped(status, lastStatus, maxSeconds)
  {
  }

  // ----- Runs of calls -----

  /** A quiet run is one in which no two consecutive offsets differ by more than the threshold. */
  ghost predicate Quiet(samples: seq<Snapshot>, maxSeconds: int) {
    forall i :: 0 < i < |samples| ==> !Jumped(samples[i], samples[i - 1], maxSeconds)
  }

  /** A quiet run fires no callback at all. */
  lemma {:induction false} QuietRunFiresNothing(samples: seq<Snapshot>, maxSeconds: int)
    requires Quiet(samples, maxSeconds)
    ensures Callbacks(samples, maxSeconds) == []
  {
    if |samples| >= 2 {
      var prefix := samples[..|samples| - 1];
      assert Quiet(prefix, maxSeconds) by {
        forall i | 0 < i < |prefix| ensures !Jumped(prefix[i], prefix[i - 1], maxSeconds) {
          assert prefix[i] == samples[i] && prefix[i - 1] == samples[i - 1];
        }
      }
      QuietRunFiresNothing(prefix, maxSeconds);
      assert !Jumped(samples[|samples| - 1], samples[|samples| - 2], maxSeconds);
    }
  }

  /** Every callback is a consecutive pair of the run, newest first, that moved by more than the threshold. */
  lemma {:induction false} CallbacksAreJumps(samples: seq<Snapshot>, maxSeconds: int)
    ensures forall j :: j in Callbacks(samples, maxSeconds) ==>
              Jumped(j.status, j.lastStatus, maxSeconds) &&
              exists i :: 0 < i < |samples| && j == Jump(samples[i], samples[i - 1])
  {
    if |samples| >= 2 {
      var prefix := samples[..|samples| - 1];
      CallbacksAreJumps(prefix, maxSeconds);
      forall j | j in Callbacks(samples, maxSeconds)
        ensures exists i :: 0 < i < |samples| && j == Jump(samples[i], samples[i - 1])
      {
        if j in Callbacks(prefix, maxSeconds) {
          var i :| 0 < i < |prefix| && j == Jump(prefix[i], prefix[i - 1]);
          assert j == Jump(samples[i], samples[i - 1]);
        } else {
          assert j == Jump(samples[|samples| - 1], samples[|samples| - 2]);
        }
      }
    }
  }

  /** Every consecutive pair that moved by more than the threshold triggers its callback. */
  lemma {:induction false} JumpsAreCallbacks(samples: seq<Snapshot>, maxSeconds: int, i: nat)
    requires 0 < i < |samples| && Jumped(samples[i], samples[i - 1], maxSeconds)
    ensures Jump(samples[i], samples[i - 1]) in Callbacks(samples, maxSeconds)
  {
    var prefix := samples[..|samples| - 1];
    if i < |samples| - 1 {
      assert prefix[i] == samples[i] && prefix[i - 1] == samples[i - 1];
      JumpsAreCallbacks(prefix, maxSeconds, i);
    }
  }

  // ----- Using the class -----

  /**
   * A second call whose offset equals the first's never fires: the first call
   * replaced the stored snapshot, whether or not it fired itself.
   */
  method MonitorTwice(m: TimeMonitor, t1: Micros, m1: Micros, t2: Micros, m2: Micros)
    returns (first: Option<Jump>, second: Option<Jump>)
    requires m.Valid() && m.maxSeconds >= 0
    requires t2 - m2 == t1 - m1
    modifies m
    ensures m.Valid()
    ensures second == None
  {
    first := m.Monitor(t1, m1);
    second := m.Monitor(t2, m2);
  }

  /**
   * The application's configuration (timon.py:69-71): a 300 s threshold.
   * No change, then the wall clock stepped 400 s forward between checks two
   * seconds apart.
   */
  method ForwardStepScenario() returns (second: Option<Jump>, third: Option<Jump>)
    ensures second == None
    ensures third.Some? && third.value.status.diff - third.value.lastStatus.diff == 400 * MicrosPerSecond
  {
    var m := new TimeMonitor(300, 1_700_000_000 * MicrosPerSecond, 50 * MicrosPerSecond);
    second := m.Monitor(1_700_000_002 * MicrosPerSecond, 52 * MicrosPerSecond);
    third := m.Monitor(1_700_000_404 * MicrosPerSecond, 54 * MicrosPerSecond);
  }
}
