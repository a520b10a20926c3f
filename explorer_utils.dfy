// Helpers of the web explorer (utils.ts): the throttle that rate-limits the
// resize handler, and the two resolution helpers.  The throttle's clock
// (Date.now) and its timer queue (setTimeout / clearTimeout) are modelled
// explicitly: every call and every timer expiry is a method taking the
// current time, and the pending timer is part of the state.

module ExplorerUtils {
  import opened H3Api

  /** What Math.max(x, 0) computes. */
  function NonNegative(x: int): int
  {
    if x > 0 then x else 0
  }

  /** The delay of the timer a throttled call schedules at time now. */
  function Delay(wait: int, now: int, lastTime: int): int
  {
    NonNegative(wait - (now - lastTime))
  }

  /** The delay is never negative, and a timer that fires at or after the
      end of the delay finds at least `wait` elapsed since lastTime, so it
      always runs; with no delay left, `wait` has already elapsed. */
  lemma DelayMeaning(wait: int, now: int, lastTime: int, fireTime: int)
    ensures Delay(wait, now, lastTime) >= 0
    ensures fireTime >= now + Delay(wait, now, lastTime) ==> fireTime - lastTime >= wait
    ensures Delay(wait, now, lastTime) == 0 <==> now - lastTime >= wait
  {
  }

  /** A timer scheduled by a throttled call: when it is due, and the
      arguments of that call. */
  datatype Timer<A> = Timer(due: int, args: A)

  /** The state of one throttled function: the closure variables
      inThrottle, lastTime and the pending timer lastFn, plus the clock and
      the log of the calls of fn (time of call and arguments). */
  class Throttle<A> {
    const wait: int
    var inThrottle: bool
    var lastTime: int
    var pending: Option<Timer<A>>
    var clock: int
    var runs: seq<(int, A)>

    /** Before the first call nothing has run and nothing is pending; after
        it, lastTime is the time of the latest run, at most one timer is
        pending, it is due no earlier than `wait` after lastTime, and the
        runs are spaced at least `wait` apart. */
    ghost predicate Valid()
      reads this
    {
      (!inThrottle ==> runs == [] && pending.None?)
      && (inThrottle ==> |runs| > 0 && runs[|runs| - 1].0 == lastTime && lastTime <= clock)
      && (pending.Some? ==> pending.value.due >= lastTime + wait && pending.value.due >= clock)
      && (forall i | 0 < i < |runs| :: runs[i].0 - runs[i - 1].0 >= wait)
      && (forall i | 0 <= i < |runs| :: runs[i].0 <= clock)
    }

    /** throttle(fn, wait), created at time startTime. */
    constructor(wait: int, startTime: int)
      ensures Valid() && this.wait == wait && clock == startTime
      ensures !inThrottle && pending.None? && runs == []
    {
      this.wait := wait;
      inThrottle := false;
      lastTime := 0;
      pending := None;
      clock := startTime;
      runs := [];
    }

    /** A call of the throttled function at time now.  The first call runs
        fn at once and records the time; every later call cancels the
        pending timer and schedules one with these arguments, due when
        `wait` has passed since the last run (or now, if it has). */
    method Call(now: int, args: A)
      requires Valid() && now >= clock
      modifies this
      ensures Valid() && clock == now && inThrottle
      ensures !old(inThrottle) ==> runs == old(runs) + [(now, args)] && lastTime == now && pending.None?
      ensures old(inThrottle) ==>
        runs == old(runs) && lastTime == old(lastTime)
        && pending == Some(Timer(now + Delay(wait, now, lastTime), args))
    {
      clock := now;
      if !inThrottle {
        runs := runs + [(now, args)];
        lastTime := now;
        inThrottle := true;
      } else {
        DelayMeaning(wait, now, lastTime, now);
        pending := Some(Timer(now + Delay(wait, now, lastTime), args));
      }
    }

    /** The pending timer fires at time now: fn runs with its arguments if
        `wait` has elapsed since the last run; the timer is gone either way,
        and inThrottle stays set. */
    method Fire(now: int)
      requires Valid() && pending.Some? && now >= clock
      modifies this
      ensures Valid() && clock == now && pending.None? && inThrottle == old(inThrottle)
      ensures var t := old(pending).value;
        if now - old(lastTime) >= wait then runs == old(runs) + [(now, t.args)] && lastTime == now
        else runs == old(runs) && lastTime == old(lastTime)
      ensures now >= old(pending).value.due ==> runs == old(runs) + [(now, old(pending).value.args)]
    {
      var t := pending.value;
      clock := now;
      pending := None;
      if now - lastTime >= wait {
        runs := runs + [(now, t.args)];
        lastTime := now;
      }
    }
  }

  /** getMinResolution over the resolutions of the cells: Math.min of the
      list, None for the Infinity of an empty list. */
  function MinResolution(resolutions: seq<int>): (m: Option<int>)
    ensures m.None? <==> resolutions == []
    ensures m.Some? ==> m.value in resolutions && forall r | r in resolutions :: m.value <= r
  {
    if resolutions == [] then None
    else
      var rest := MinResolution(resolutions[1..]);
      assert forall r | r in resolutions :: r == resolutions[0] || r in resolutions[1..];
      if rest.None? || resolutions[0] <= rest.value then Some(resolutions[0]) else rest
  }

  /** H3_AREA has an entry for each resolution below MAX_PRECISION. */
  const MAX_PRECISION: int := 15

  /** Array.prototype.findIndex with the test `value < area`: the first
      index whose entry is below area, or -1. */
  function FindIndexBelow(areas: seq<real>, area: real): (i: int)
    ensures -1 <= i < |areas|
    ensures i >= 0 ==> areas[i] < area && forall j | 0 <= j < i :: areas[j] >= area
    ensures i == -1 ==> forall j | 0 <= j < |areas| :: areas[j] >= area
  {
    if areas == [] then -1
    else if areas[0] < area then 0
    else
      var k := FindIndexBelow(areas[1..], area);
      if k == -1 then -1 else k + 1
  }

  /** getMaximumAcceptableResolution(area) over the table H3_AREA: one
      less than the first resolution whose area entry is below area, and -2
      exactly when no entry is below it. */
  function MaxAcceptableResolution(areas: seq<real>, area: real): (r: int)
    ensures -2 <= r < |areas| - 1
    ensures r == -2 <==> forall j | 0 <= j < |areas| :: areas[j] >= area
    ensures r >= -1 ==> areas[r + 1] < area && forall j | 0 <= j <= r :: areas[j] >= area
  {
    FindIndexBelow(areas, area) - 1
  }

  /** A larger area never gives a larger resolution, as long as the
      smaller area has some entry below it (otherwise the -2 of "none"
      lies below every other result). */
  lemma MaxAcceptableResolutionMonotone(areas: seq<real>, small: real, large: real)
    requires small <= large && FindIndexBelow(areas, small) >= 0
    ensures MaxAcceptableResolution(areas, large) <= MaxAcceptableResolution(areas, small)
  {
    var i := FindIndexBelow(areas, small);
    var k := FindIndexBelow(areas, large);
    assert areas[i] < large;
    if k == -1 || k > i {
      assert false;
    }
  }

  /** With H3_AREA strictly decreasing, the resolution plus one counts the
      entries that are at least area. */
  lemma MaxAcceptableResolutionCounts(areas: seq<real>, area: real)
    requires forall i, j | 0 <= i < j < |areas| :: areas[i] > areas[j]
    requires FindIndexBelow(areas, area) >= 0
    ensures var r := MaxAcceptableResolution(areas, area);
      forall j | 0 <= j < |areas| :: (areas[j] >= area <==> j <= r)
  {
  }
}
