/** The two waits of an installation: for the PXE boot, and for the installed node to answer. */
module WaitLoops {

  /**
   * What the k-th round of a wait observes: the clock, whether the plan is running, and the poll.
   * A poll that raises ProtocolError counts as false.
   */
  datatype World = World(clock: nat -> real, running: nat -> bool, poll: nat -> bool)

  /** Every sleep(1) advances the clock by at least a second. */
  ghost predicate Sleeps(w: World) {
    forall k: nat :: w.clock(k) + 1.0 <= w.clock(k + 1)
  }

  lemma {:induction false} ClockAdvances(w: World, k: nat)
    requires Sleeps(w)
    ensures w.clock(0) + k as real <= w.clock(k)
  {
    if k > 0 {
      ClockAdvances(w, k - 1);
    }
  }

  datatype Verdict = Success | PlanStopped | TimedOut

  /** The Timeout class. */
  class Timeout {
    const waitFor: int
    const startTime: real

    constructor (seconds: int, now: real)
      ensures waitFor == seconds && startTime == now
    {
      waitFor, startTime := seconds, now;
    }

    predicate HasElapsed(now: real) {
      now - startTime >= waitFor as real
    }
  }

  /** No round before `n` saw a positive poll or a stopped plan. */
  ghost predicate Quiet(w: World, n: nat) {
    forall k | 0 <= k < n :: w.running(k) && !w.poll(k)
  }

  /**
   * What the verdict of the PXE wait means: success only after a positive poll within the limit, a
   * timeout only once the limit has passed, a stop only when the plan was seen stopped before that.
   */
  ghost predicate PxeOutcome(w: World, limit: int, start: real, v: Verdict, polls: nat) {
    && (v == Success ==> polls > 0 && Quiet(w, polls - 1) && w.running(polls - 1) && w.poll(polls - 1)
                         && w.clock(polls - 1) - start < limit as real)
    && (v == TimedOut ==> Quiet(w, polls) && w.clock(polls) - start >= limit as real)
    && (v == PlanStopped ==> Quiet(w, polls) && w.clock(polls) - start < limit as real && !w.running(polls))
  }

  /**
   * `_wait_for_pxe_boot`: in each round the time limit is looked at first, then the plan, then the
   * poll. `polls` is the number of polls made.
   */
  method WaitForPxeBoot(w: World, limit: int, start: real) returns (v: Verdict, polls: nat)
    requires Sleeps(w) && start <= w.clock(0)
    ensures polls <= if limit > 0 then limit else 0
    ensures PxeOutcome(w, limit, start, v, polls)
  {
    var timeout := new Timeout(limit, start);
    var success := false;
    polls := 0;
    while !success && !timeout.HasElapsed(w.clock(polls))
      invariant !success ==> Quiet(w, polls)
      invariant success ==> polls > 0 && Quiet(w, polls - 1) && w.running(polls - 1) && w.poll(polls - 1)
                            && w.clock(polls - 1) - start < limit as real
      invariant polls <= if limit > 0 then limit else 0
      decreases !success, limit - polls
    {
      ClockAdvances(w, polls);
      if !w.running(polls) {
        return PlanStopped, polls;
      }
      if w.poll(polls) {
        success := true;
      }
      polls := polls + 1;
    }
    v := if success then Success else TimedOut;
  }

  /** `_max_waiting_time_for_node` */
  const MAX_WAIT := 3600

  /** `int(time.time())` */
  function Seconds(w: World, k: nat): int {
    w.clock(k).Floor
  }

  /** What the verdict of the node wait means: the last poll decides first, then the plan, then the limit. */
  ghost predicate NodeOutcome(w: World, epoch: int, v: Verdict, polls: nat) {
    && polls >= 1 && Quiet(w, polls - 1)
    && (forall k | 0 <= k < polls - 1 :: Seconds(w, k) - epoch < MAX_WAIT)
    && (v == Success <==> w.poll(polls - 1))
    && (v == PlanStopped <==> !w.poll(polls - 1) && !w.running(polls - 1))
    && (v == TimedOut <==> !w.poll(polls - 1) && w.running(polls - 1) && Seconds(w, polls - 1) - epoch >= MAX_WAIT)
  }

  /**
   * `_wait_for_callback`: in each round the poll comes first, then the plan, then the time limit, so a
   * positive poll beats both errors and a stopped plan beats the limit.
   */
  method WaitForCallback(w: World, epoch: int) returns (v: Verdict, polls: nat)
    requires Sleeps(w) && epoch <= Seconds(w, 0)
    ensures polls <= MAX_WAIT + 1
    ensures NodeOutcome(w, epoch, v, polls)
  {
    polls := 1;
    while !w.poll(polls - 1)
      invariant polls >= 1 && Quiet(w, polls - 1)
      invariant forall k | 0 <= k < polls - 1 :: Seconds(w, k) - epoch < MAX_WAIT
      invariant polls <= MAX_WAIT + 1
      decreases MAX_WAIT + 1 - polls
    {
      if !w.running(polls - 1) {
        return PlanStopped, polls;
      }
      var counter := Seconds(w, polls - 1) - epoch;
      if counter >= MAX_WAIT {
        return TimedOut, polls;
      }
      ClockAdvances(w, polls - 1);
      polls := polls + 1;
    }
    v := Success;
  }

  // ---------- which verdict, from the observations alone ----------

  /** The first positive poll. */
  ghost predicate FirstPoll(w: World, n: nat) {
    w.poll(n) && forall k | 0 <= k < n :: !w.poll(k)
  }

  /** The PXE wait would succeed in round `n`: polled in time, with the plan running until then. */
  ghost predicate PxeInTime(w: World, limit: int, start: real, n: nat) {
    FirstPoll(w, n) && w.clock(n) - start < limit as real && forall k | 0 <= k <= n :: w.running(k)
  }

  lemma {:induction false} ClockOrdered(w: World, i: nat, j: nat)
    requires Sleeps(w) && i <= j
    ensures w.clock(i) <= w.clock(j)
  {
    if i < j {
      ClockOrdered(w, i, j - 1);
    }
  }

  /** The PXE wait succeeds if and only if a poll is positive in time and before the plan stops. */
  lemma PxeSuccessExact(w: World, limit: int, start: real, v: Verdict, polls: nat)
    requires Sleeps(w) && PxeOutcome(w, limit, start, v, polls)
    ensures v == Success <==> exists n: nat :: PxeInTime(w, limit, start, n)
  {
    if v == Success {
      assert PxeInTime(w, limit, start, polls - 1);
    } else {
      forall n: nat
        ensures !PxeInTime(w, limit, start, n)
      {
        if polls <= n {
          ClockOrdered(w, polls, n);
        }
      }
    }
  }

  /** A node that answers in round `n`, the plan running before that and the limit not reached before that. */
  ghost predicate AnswersInTime(w: World, epoch: int, n: nat) {
    FirstPoll(w, n) && forall k | 0 <= k < n :: w.running(k) && Seconds(w, k) - epoch < MAX_WAIT
  }

  /**
   * The node wait succeeds if and only if the node answers by the first round in which the plan is
   * stopped or the limit reached, that round included.
   */
  lemma NodeSuccessExact(w: World, epoch: int, v: Verdict, polls: nat)
    requires NodeOutcome(w, epoch, v, polls)
    ensures v == Success <==> exists n: nat :: AnswersInTime(w, epoch, n)
  {
    if v == Success {
      assert AnswersInTime(w, epoch, polls - 1);
    }
  }
}
