/** OS/tasks.c: block times measured with a wrapping tick count.

    A moment is an epoch, counted by overflows, and a tick count within it; At gives its unbounded time. */
module TimeOuts {
  import opened TimeWheel

  datatype Moment = Moment(epoch: nat, tick: nat)

  ghost function At(m: Moment, M: nat): nat {
    EpochStart(m.epoch, M) + m.tick
  }

  lemma {:induction false} EpochsApart(e: nat, f: nat, M: nat)
    requires e <= f
    ensures EpochStart(e, M) <= EpochStart(f, M)
    ensures e < f ==> EpochStart(e, M) + M <= EpochStart(f, M)
    ensures e + 1 < f ==> EpochStart(e, M) + M + M <= EpochStart(f, M)
    decreases f
  {
    if e < f {
      EpochsApart(e, f - 1, M);
    }
  }

  class TimeOut {
    var xOverflowCount: nat
    var xTimeOnEntering: nat

    /** vTaskSetTimeOutState */
    constructor (xNumOfOverflows: nat, xTickCount: nat)
      ensures xOverflowCount == xNumOfOverflows && xTimeOnEntering == xTickCount
    {
      xOverflowCount, xTimeOnEntering := xNumOfOverflows, xTickCount;
    }

    /** xTaskCheckForTimeOut, for a task whose delay was not aborted. portMAX_DELAY is M - 1. */
    method CheckForTimeOut(xNumOfOverflows: nat, xTickCount: nat, xTicksToWait: nat, M: nat)
      returns (timedOut: bool, remaining: nat)
      requires xTickCount < M && xTimeOnEntering < M && xTicksToWait < M
      modifies this
      ensures (timedOut, remaining, xOverflowCount, xTimeOnEntering)
        == old(Check(xOverflowCount, xTimeOnEntering, xNumOfOverflows, xTickCount, xTicksToWait, M))
      ensures xTicksToWait == M - 1 ==> !timedOut && remaining == xTicksToWait
    {
      var xElapsedTime := WrapSub(xTickCount, xTimeOnEntering, M);
      if xTicksToWait == M - 1 {
        return false, xTicksToWait;
      } else if xNumOfOverflows != xOverflowCount && xTickCount >= xTimeOnEntering {
        return true, 0;
      } else if xElapsedTime < xTicksToWait {
        xOverflowCount, xTimeOnEntering := xNumOfOverflows, xTickCount;
        return false, xTicksToWait - xElapsedTime;
      } else {
        return true, 0;
      }
    }
  }

  /** Result, remaining ticks and new state of one check. */
  function Check(overflowsThen: nat, tickThen: nat, overflows: nat, tick: nat, wait: nat, M: nat): (bool, nat, nat, nat)
    requires tick < M && tickThen < M && wait < M
  {
    if wait == M - 1 then (false, wait, overflowsThen, tickThen)
    else if (overflows != overflowsThen && tick >= tickThen) || wait <= WrapSub(tick, tickThen, M)
      then (true, 0, overflowsThen, tickThen)
    else (false, wait - WrapSub(tick, tickThen, M), overflows, tick)
  }

  /** The branch of a check that reports a wait as not over, when the tick count has overflowed more than once: the
      overflow counts read the same again or the tick count is short of where it was, and the wrapped difference
      is less than the wait. */
  ghost predicate MissesTimeOut(was: Moment, now: Moment, wait: nat, M: nat)
    requires was.tick < M && now.tick < M
  {
    && was.epoch + 1 < now.epoch
    && (OverflowsRead(now.epoch) == OverflowsRead(was.epoch) || now.tick < was.tick)
    && WrapSub(now.tick, was.tick, M) < wait
  }

  /** One check reports a finite wait as over exactly when it is over, unless it misses that; and it can miss that only
      beyond one overflow, where every finite wait is over. */
  lemma {:induction false} CheckExactIff(was: Moment, now: Moment, wait: nat, M: nat)
    requires was.tick < M && now.tick < M && wait < M - 1
    requires was.epoch <= now.epoch && At(was, M) <= At(now, M)
    ensures var (timedOut, remaining, o, t) :=
        Check(OverflowsRead(was.epoch), was.tick, OverflowsRead(now.epoch), now.tick, wait, M);
      (timedOut <==> wait <= At(now, M) - At(was, M)) <==> !MissesTimeOut(was, now, wait, M)
    ensures was.epoch + 1 < now.epoch ==> wait <= At(now, M) - At(was, M)
  {
    EpochsApart(was.epoch, now.epoch, M);
  }

  const TICKS: nat := 0x1_0000_0000

  /** After two overflows a wait of three quarters of the tick range, long over, is reported as not over. */
  lemma {:induction false} MissedAfterTwoOverflows()
    ensures var was, now, wait := Moment(0, 0x8000_0000), Moment(2, 0), 0xC000_0000;
      && wait <= At(now, TICKS) - At(was, TICKS)
      && !Check(OverflowsRead(0), was.tick, OverflowsRead(2), now.tick, wait, TICKS).0
  {
    assert EpochStart(1, TICKS) == TICKS && EpochStart(2, TICKS) == TICKS + TICKS;
    assert OverflowsRead(1) == 1 && OverflowsRead(2) == 2;
  }

  /** Checks at the given moments until one reports a time-out: whether one did, and the ticks left. */
  ghost function Checks(overflowsThen: nat, tickThen: nat, samples: seq<Moment>, wait: nat, M: nat): (bool, nat)
    requires tickThen < M && wait < M && forall i :: 0 <= i < |samples| ==> samples[i].tick < M
    decreases |samples|
  {
    if samples == [] then (false, wait) else
      var (timedOut, remaining, o, t) := Check(overflowsThen, tickThen, OverflowsRead(samples[0].epoch), samples[0].tick, wait, M);
      if timedOut then (true, 0) else Checks(o, t, samples[1..], remaining, M)
  }

  /** Each sample follows the one before it with at most one overflow between them. */
  ghost predicate Frequent(start: Moment, samples: seq<Moment>, M: nat)
    decreases |samples|
  {
    start.tick < M && (samples != [] ==>
      && start.epoch <= samples[0].epoch <= start.epoch + 1
      && At(start, M) <= At(samples[0], M)
      && Frequent(samples[0], samples[1..], M))
  }

  lemma {:induction false} FrequentTicks(start: Moment, samples: seq<Moment>, M: nat)
    requires Frequent(start, samples, M)
    ensures forall i :: 0 <= i < |samples| ==> samples[i].tick < M && At(start, M) <= At(samples[i], M)
    ensures forall i, j :: 0 <= i < j < |samples| ==> At(samples[i], M) <= At(samples[j], M)
    decreases |samples|
  {
    if samples != [] {
      FrequentTicks(samples[0], samples[1..], M);
      forall i | 0 <= i < |samples|
        ensures samples[i].tick < M && At(samples[0], M) <= At(samples[i], M)
      {
        if i != 0 {
          assert samples[i] == samples[1..][i - 1];
        }
      }
      forall i, j | 0 <= i < j < |samples|
        ensures At(samples[i], M) <= At(samples[j], M)
      {
        if i != 0 {
          assert samples[i] == samples[1..][i - 1] && samples[j] == samples[1..][j - 1];
        }
      }
    }
  }

  /** Over any series of checks not too far apart the wait is measured in unbounded time: a time-out is
      reported just when the whole wait has gone by, and until then what is left is the wait
      less all the time elapsed. */
  lemma {:induction false} SeriesExact(start: Moment, samples: seq<Moment>, wait: nat, M: nat)
    requires Frequent(start, samples, M) && wait < M - 1
    ensures forall i :: 0 <= i < |samples| ==> samples[i].tick < M
    ensures var elapsed := if samples == [] then 0 else At(samples[|samples| - 1], M) - At(start, M);
      Checks(OverflowsRead(start.epoch), start.tick, samples, wait, M)
        == if samples != [] && wait <= elapsed then (true, 0) else (false, wait - elapsed)
    decreases |samples|
  {
    FrequentTicks(start, samples, M);
    if samples != [] {
      CheckExactIff(start, samples[0], wait, M);
      assert !MissesTimeOut(start, samples[0], wait, M);
      EpochsApart(start.epoch, samples[0].epoch, M);
      var first := At(samples[0], M) - At(start, M);
      if first < wait {
        SeriesExact(samples[0], samples[1..], wait - first, M);
        assert |samples| > 1 ==> samples[1..][|samples| - 2] == samples[|samples| - 1];
      } else {
        assert first <= At(samples[|samples| - 1], M) - At(start, M);
      }
    }
  }

  /** A wait of portMAX_DELAY ticks never times out and never grows shorter, whatever the series of checks, however far apart
      they are and however often the tick count overflows. */
  lemma {:induction false} IndefiniteNeverTimesOut(overflowsThen: nat, tickThen: nat, samples: seq<Moment>, M: nat)
    requires tickThen < M && forall i :: 0 <= i < |samples| ==> samples[i].tick < M
    ensures Checks(overflowsThen, tickThen, samples, M - 1, M) == (false, M - 1)
    decreases |samples|
  {
    if samples != [] {
      forall i | 0 <= i < |samples[1..]| ensures samples[1..][i].tick < M {
        assert samples[1..][i] == samples[i + 1];
      }
      var (timedOut, remaining, o, t) := Check(overflowsThen, tickThen, OverflowsRead(samples[0].epoch), samples[0].tick, M - 1, M);
      IndefiniteNeverTimesOut(o, t, samples[1..], M);
    }
  }

  /** xTaskDelayUntil: whether the task blocks, and the wake time stored for the next call. */
  method DelayUntil(xPreviousWakeTime: nat, xTimeIncrement: nat, xTickCount: nat, M: nat)
    returns (xShouldDelay: bool, xTimeToWake: nat, blockTime: nat)
    requires xPreviousWakeTime < M && 0 < xTimeIncrement < M && xTickCount < M
    ensures xShouldDelay == ShouldDelay(xPreviousWakeTime, xTimeIncrement, xTickCount, M)
    ensures xTimeToWake == WrapAdd(xPreviousWakeTime, xTimeIncrement, M)
    ensures blockTime == if xShouldDelay then WrapSub(xTimeToWake, xTickCount, M) else 0
  {
    xShouldDelay, blockTime := false, 0;
    xTimeToWake := WrapAdd(xPreviousWakeTime, xTimeIncrement, M);
    if xTickCount < xPreviousWakeTime {
      if xTimeToWake < xPreviousWakeTime && xTimeToWake > xTickCount {
        xShouldDelay := true;
      }
    } else {
      if xTimeToWake < xPreviousWakeTime || xTimeToWake > xTickCount {
        xShouldDelay := true;
      }
    }
    if xShouldDelay {
      blockTime := WrapSub(xTimeToWake, xTickCount, M);
    }
  }

  function ShouldDelay(previous: nat, increment: nat, tick: nat, M: nat): bool
    requires previous < M && increment < M && tick < M
  {
    var wake := WrapAdd(previous, increment, M);
    if tick < previous then tick < wake < previous else wake < previous || tick < wake
  }

  /** The tick count at a time from the epoch before to the epoch after the one that starts at base */
  function TickNear(t: nat, base: nat, M: nat): (r: nat)
    requires base < t + M && t < base + M + M
    ensures r < M
  {
    if t < base + M then TickAt(t, base, M) else t - base - M
  }

  /** With the previous wake time P less than M ticks in the past, a call at N blocks exactly when P plus the
      increment is still to come, and then for exactly the time until it. With P in the future, by less than M ticks,
      it blocks exactly when the new wake time is more than M ticks away, so not always when it should. */
  lemma {:induction false} DelaysUntilWake(P: nat, increment: nat, N: nat, base: nat, M: nat)
    requires base <= N < base + M && 0 < increment < M && base < P + M && P < N + M
    ensures var p, n := TickNear(P, base, M), N - base;
      && (P <= N < P + M ==> (ShouldDelay(p, increment, n, M) <==> N < P + increment))
      && (P <= N < P + increment ==> WrapSub(WrapAdd(p, increment, M), n, M) == P + increment - N)
      && (N < P ==> (ShouldDelay(p, increment, n, M) <==> N + M < P + increment))
  {
  }

  /** At tick 10, with the previous wake time stored as 20, a call for 5 ticks later does not block, though tick 25 is
      still to come. */
  lemma {:induction false} DelayMissedBeforePrevious()
    ensures !ShouldDelay(20, 5, 10, TICKS) && 10 < 20 + 5
  {
  }

  /** The wake time stored after k calls. */
  function StoredAfter(start: nat, increment: nat, k: nat, M: nat): (w: nat)
    requires start < M && increment < M
    ensures w < M
  {
    if k == 0 then start else WrapAdd(StoredAfter(start, increment, k - 1, M), increment, M)
  }

  /** The stored wake time does not depend on when the calls were made, and never drifts. */
  lemma {:induction false} StoredWakeTimeNeverDrifts(start: nat, increment: nat, k: nat, M: nat) returns (wraps: nat)
    requires start < M && increment < M
    ensures StoredAfter(start, increment, k, M) + wraps * M == start + k * increment
  {
    if k == 0 {
      wraps := 0;
    } else {
      wraps := StoredWakeTimeNeverDrifts(start, increment, k - 1, M);
      assert k * increment == (k - 1) * increment + increment;
      if StoredAfter(start, increment, k - 1, M) + increment >= M {
        assert (wraps + 1) * M == wraps * M + M;
        wraps := wraps + 1;
      }
    }
  }
}
