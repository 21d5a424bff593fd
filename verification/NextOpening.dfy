/** next_mask_opening: the next instant a weekly mask opens, walked in elapsed minutes across clock changes. */
module NextOpening {
  import opened Wrappers
  import opened Bits
  import opened WeeklyMask

  /** 15 days: a window can vanish in a skipped hour, so one week isn't enough. */
  const HORIZON := 15 * 1440

  /** The local minute of the week, so many elapsed minutes from now. */
  type LocalClock = k: int -> int | LocalMinutes(k) witness (_ => 0)

  ghost predicate LocalMinutes(clock: int -> int) {
    forall k: int :: 0 <= clock(k) < WEEK_MINUTES
  }

  /** Within the horizon the clock's distance from elapsed time changes at most once, by any amount. */
  ghost predicate OneChange(clock: LocalClock, change: int, before: int, after: int) {
    forall k: int {:trigger clock(k)} | 0 <= k <= HORIZON :: clock(k) == (k + if k < change then before else after) % WEEK_MINUTES
  }

  /**
   * The earliest elapsed minute, counting from now, at which the local minute is in the mask; none only when no minute
   * of the horizon is. A weekly mask with any bit set is always found when the clock changes at most once.
   */
  method NextMaskOpening(mask: int, clock: LocalClock) returns (opening: Option<nat>)
    requires mask >= 0
    ensures opening.Some? ==>
              && opening.value <= HORIZON
              && Bit(mask, clock(opening.value))
              && forall k: int | 0 <= k < opening.value :: !Bit(mask, clock(k))
    ensures opening.None? ==> forall k: int | 0 <= k <= HORIZON :: !Bit(mask, clock(k))
    ensures (&& mask > 0
             && (forall m: nat | Bit(mask, m) :: m < WEEK_MINUTES)
             && exists change, before, after :: OneChange(clock, change, before, after))
            ==> opening.Some?
  {
    opening := Search(mask, clock);
    if mask > 0 && (forall m: nat | Bit(mask, m) :: m < WEEK_MINUTES) {
      if change, before, after :| OneChange(clock, change, before, after) {
        var k := OneChangeOpens(mask, clock, change, before, after);
      }
    }
  }

  method Search(mask: int, clock: LocalClock) returns (opening: Option<nat>)
    requires mask >= 0
    ensures opening.Some? ==>
              && opening.value <= HORIZON
              && Bit(mask, clock(opening.value))
              && forall k: int | 0 <= k < opening.value :: !Bit(mask, clock(k))
    ensures opening.None? ==> forall k: int | 0 <= k <= HORIZON :: !Bit(mask, clock(k))
  {
    if mask == 0 {
      forall k: int | 0 <= k <= HORIZON ensures !Bit(mask, clock(k)) {
        BitConstants(clock(k));
      }
      return None;
    }
    BitTest(mask, clock(0));
    if And(mask, ShiftLeft(1, clock(0))) != 0 {
      return Some(0);
    }
    var cursor := 1;
    while cursor <= HORIZON
      invariant 1 <= cursor <= HORIZON + 1
      invariant forall k: int | 0 <= k < cursor :: !Bit(mask, clock(k))
    {
      BitTest(mask, clock(cursor));
      if And(mask, ShiftLeft(1, clock(cursor))) != 0 {
        return Some(cursor);
      }
      cursor := cursor + 1;
    }
    opening := None;
  }

  lemma Wraps(target: int, from: int, week: int) returns (steps: int)
    requires 0 <= target < week
    ensures 0 <= steps < week && (from + steps) % week == target
  {
    steps := (target - from) % week;
    var q := (target - from) / week;
    assert from + steps == target - q * week;
    ModShift(target, -q, week);
  }

  lemma ModShift(x: int, q: int, week: int)
    requires 0 <= x < week
    ensures (x + q * week) % week == x
  {
    var y := x + q * week;
    var d := y / week - q;
    assert d * week == x - y % week by {
      assert y == (y / week) * week + y % week;
    }
    assert d >= 1 ==> d * week >= week;
    assert d <= -1 ==> d * week <= -week;
  }

  /** Pigeonhole: of the 15 days, one side of the change is an unbroken stretch of at least a week. */
  lemma OneChangeOpens(mask: int, clock: LocalClock, change: int, before: int, after: int) returns (k: int)
    requires mask > 0 && forall m: nat | Bit(mask, m) :: m < WEEK_MINUTES
    requires OneChange(clock, change, before, after)
    ensures 0 <= k <= HORIZON && Bit(mask, clock(k))
  {
    var target := SomeBit(mask);
    if change >= WEEK_MINUTES {
      k := Wraps(target, before, WEEK_MINUTES);
      assert clock(k) == (k + before) % WEEK_MINUTES;
    } else {
      var from := if change < 0 then 0 else change;
      var steps := Wraps(target, from + after, WEEK_MINUTES);
      k := from + steps;
      assert clock(k) == (k + after) % WEEK_MINUTES;
    }
  }

  /** The clock that skips an hour just as minute `target` comes round again. */
  function SkippingClock(target: int): int -> int {
    k => (k + target + 1 + if k < WEEK_MINUTES - 1 then 0 else 60) % WEEK_MINUTES
  }

  /** Why the search doesn't stop after a week: for every minute there is a clock with one change that skips it. */
  lemma OneWeekIsNotEnough(target: int)
    requires 0 <= target < WEEK_MINUTES
    ensures var clock := SkippingClock(target);
            && LocalMinutes(clock)
            && OneChange(clock, WEEK_MINUTES - 1, target + 1, target + 61)
            && forall k: int | 0 <= k <= WEEK_MINUTES :: clock(k) != target
  {
    var clock := SkippingClock(target);
    forall k: int | 0 <= k <= WEEK_MINUTES ensures clock(k) != target {
      var ahead := k + 1 + if k < WEEK_MINUTES - 1 then 0 else 60;
      assert clock(k) == (target + ahead) % WEEK_MINUTES;
    }
    forall k: int {:trigger clock(k)} | 0 <= k <= HORIZON
      ensures clock(k) == (k + if k < WEEK_MINUTES - 1 then target + 1 else target + 61) % WEEK_MINUTES
    {
      assert k + target + 1 + 60 == k + (target + 61);
    }
  }

  /** A group's next opening: none only for a group that is never open within the horizon. */
  method NextGroupOpening(h: Hours, clock: LocalClock) returns (opening: Option<nat>)
    ensures opening.Some? ==> OpenAt(h, clock(opening.value)) && forall k: int | 0 <= k < opening.value :: !OpenAt(h, clock(k))
    ensures (exists m :: OpenAt(h, m)) && (exists change, before, after :: OneChange(clock, change, before, after)) ==> opening.Some?
  {
    var mask := GroupWeeklyMask(h);
    if m :| OpenAt(h, m) {
      assert Bit(mask, m);
      BitConstants(m);
    }
    opening := NextMaskOpening(mask, clock);
  }
}
