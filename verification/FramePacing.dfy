/** The frame pacer of app-runtime/src/frame_pacing.c. Times are nanoseconds of the monotonic clock. */
module FramePacing {
  const MIN_FRAME_INTERVAL: nat := 33_333_334
  const MAX_FRAME_RATE: nat := 30
  const SECOND: nat := 1_000_000_000

  datatype Pacer = Pacer(lastCommit: nat, hasCommitted: bool)

  predicate Ready(pacer: Pacer, now: nat) {
    !pacer.hasCommitted || (now >= pacer.lastCommit && now - pacer.lastCommit >= MIN_FRAME_INTERVAL)
  }

  /** Commit times the pacer let pass, one after the other. */
  ghost predicate Paced(times: seq<nat>) {
    forall i :: 0 < i < |times| ==> times[i - 1] + MIN_FRAME_INTERVAL <= times[i]
  }

  lemma {:induction false} PacedSpan(times: seq<nat>, i: nat, j: nat)
    requires Paced(times) && i <= j < |times|
    ensures times[i] + (j - i) * MIN_FRAME_INTERVAL <= times[j]
    decreases j
  {
    if i < j {
      PacedSpan(times, i, j - 1);
      assert times[j - 1] + MIN_FRAME_INTERVAL <= times[j];
    }
  }

  /** Whatever the clock said, commit times increase and no closed second holds more than thirty of them. */
  lemma PacedRate(times: seq<nat>, i: nat, j: nat)
    requires Paced(times) && i < j < |times|
    ensures times[i] < times[j]
    ensures times[j] <= times[i] + SECOND ==> j - i + 1 <= MAX_FRAME_RATE
  {
    PacedSpan(times, i, j);
    if j - i >= MAX_FRAME_RATE {
      assert (j - i) * MIN_FRAME_INTERVAL >= MAX_FRAME_RATE * MIN_FRAME_INTERVAL;
    } else {
      assert (j - i) * MIN_FRAME_INTERVAL >= MIN_FRAME_INTERVAL;
    }
  }

  class FramePacer {
    var lastCommit: nat
    var hasCommitted: bool

    ghost function Value(): Pacer
      reads this
    {
      Pacer(lastCommit, hasCommitted)
    }

    constructor ()
      ensures Value() == Pacer(0, false)
    {
      lastCommit, hasCommitted := 0, false;
    }

    method IsReady(now: nat) returns (ready: bool)
      ensures ready <==> Ready(Value(), now)
    {
      if !hasCommitted {
        return true;
      }
      if now < lastCommit {
        return false;
      }
      return now - lastCommit >= MIN_FRAME_INTERVAL;
    }

    method MarkCommitted(now: nat)
      modifies this
      ensures Value() == Pacer(now, true)
    {
      lastCommit, hasCommitted := now, true;
    }

    method Reset()
      modifies this
      ensures Value() == Pacer(0, false)
    {
      lastCommit, hasCommitted := 0, false;
    }
  }
}
