/** Weekly availability as a 10080-bit integer: group_weekly_mask, group_is_available and _peak of worker_groups.py. */
module WeeklyMask {
  import opened Bits
  import opened Clock

  const WEEK_MINUTES := 10080

  /** Monday is 0. */
  type Day = d: int | 0 <= d <= 6

  /** One window: from `start` to `end` on each start day, over midnight when `end` isn't later. */
  datatype Window = Window(days: seq<Day>, start: Time, end: Time)

  /** When a group is on. */
  datatype Hours = Hours(enabled: bool, always: bool, windows: seq<Window>)

  /** Minute `m` of the week lies in the window that starts on day `d`, counted round the week. */
  predicate Covers(w: Window, d: Day, m: int)
  {
    (m - d * DAY_MINUTES - Minute(w.start)) % WEEK_MINUTES < (Minute(w.end) - Minute(w.start)) % DAY_MINUTES
  }

  predicate OnSomeDay(w: Window, days: seq<Day>, m: int)
  {
    exists d <- days :: Covers(w, d, m)
  }

  predicate InSomeWindow(windows: seq<Window>, m: int)
  {
    exists w <- windows :: OnSomeDay(w, w.days, m)
  }

  /** The meaning of a group's hours, minute by minute. */
  predicate OpenAt(h: Hours, m: int)
  {
    0 <= m < WEEK_MINUTES && h.enabled && (h.always || InSomeWindow(h.windows, m))
  }

  /** A segment that runs past the end of the week, folded back to its start. */
  function Folded(offset: nat, duration: nat, week: nat): int {
    Or(And(Segment(offset, duration), Ones(week)), ShiftRight(Segment(offset, duration), week))
  }

  lemma FoldedBits(offset: nat, duration: nat, week: nat, i: nat)
    requires offset < week && duration < week
    ensures Folded(offset, duration, week) >= 0
    ensures Bit(Folded(offset, duration, week), i)
       <==> i < week && (offset <= i < offset + duration || i + week < offset + duration)
  {
    var segment := Segment(offset, duration);
    SegmentBits(offset, duration, i);
    SegmentBits(offset, duration, i + week);
    BitOnes(week, i);
    BitAnd(segment, Ones(week), i);
    BitShiftRight(segment, week, i);
    ShiftNonNegative(segment, week);
    BitOr(And(segment, Ones(week)), ShiftRight(segment, week), i);
    OrNonNegative(And(segment, Ones(week)), ShiftRight(segment, week));
  }

  /** From one time of a day or a week to another, counting on past its end. */
  lemma TimeBetween(start: int, end: int, round: int)
    requires 0 <= start < round && 0 <= end < round
    ensures (end - start) % round == if start <= end then end - start else end - start + round
  {
    if start > end {
      assert (end - start + round) / round == 0;
    }
  }

  /** Counting round the week from `offset`. */
  lemma RoundTheWeek(i: int, offset: int, duration: int, week: int)
    requires 0 <= i < week && 0 <= offset < week && 0 <= duration < week
    ensures (i - offset) % week < duration <==> offset <= i < offset + duration || i + week < offset + duration
  {
    TimeBetween(offset, i, week);
  }

  function DayBefore(d: Day): Day {
    if d == 0 then 6 else d - 1
  }

  /** A window in terms of days: within its start day, or from there into the next one when it ends earlier. */
  lemma CoversOnDays(w: Window, from: Day, d: Day, t: int)
    requires 0 <= t < DAY_MINUTES
    ensures Covers(w, from, d * DAY_MINUTES + t) <==>
            var start, end := Minute(w.start), Minute(w.end);
            if start <= end then from == d && start <= t < end
            else (from == d && start <= t) || (from == DayBefore(d) && t < end)
  {
    var start, end := Minute(w.start), Minute(w.end);
    var duration := if start <= end then end - start else end - start + DAY_MINUTES;
    TimeBetween(start, end, DAY_MINUTES);
    var m, offset := d * DAY_MINUTES + t, from * DAY_MINUTES + start;
    RoundTheWeek(m, offset, duration, WEEK_MINUTES);
    assert m - from * DAY_MINUTES - start == m - offset;
    assert offset + duration == (if start <= end then from else from + 1) * DAY_MINUTES + end;
  }

  /** Folding is exactly counting round the week. */
  lemma FoldedCovers(w: Window, d: Day, i: nat, offset: nat, duration: nat, week: nat)
    requires week == WEEK_MINUTES
    requires offset == d * DAY_MINUTES + Minute(w.start)
    requires duration == (Minute(w.end) - Minute(w.start)) % DAY_MINUTES
    ensures Bit(Folded(offset, duration, week), i) <==> i < WEEK_MINUTES && Covers(w, d, i)
  {
    FoldedBits(offset, duration, week, i);
    if i < week {
      RoundTheWeek(i, offset, duration, week);
      assert i - offset == i - d * DAY_MINUTES - Minute(w.start);
    }
  }

  /**
   * The mask has bit `m` set exactly when the group is open at minute `m` of the week, and no bit outside the week,
   * for every set of windows, overlapping or running over the end of the week.
   */
  method GroupWeeklyMask(h: Hours) returns (mask: int)
    ensures mask >= 0
    ensures forall m: nat :: Bit(mask, m) <==> OpenAt(h, m)
  {
    if !h.enabled {
      forall m: nat ensures !Bit(0, m) {
        BitConstants(m);
      }
      return 0;
    }
    if h.always {
      mask := Ones(WEEK_MINUTES);
      forall m: nat ensures Bit(mask, m) <==> OpenAt(h, m) {
        BitOnes(WEEK_MINUTES, m);
      }
      BitOnes(WEEK_MINUTES, 0);
      return;
    }
    mask := 0;
    forall m: nat ensures !Bit(0, m) {
      BitConstants(m);
    }
    var i := 0;
    while i < |h.windows|
      invariant 0 <= i <= |h.windows|
      invariant mask >= 0
      invariant forall m: nat :: Bit(mask, m) <==> m < WEEK_MINUTES && InSomeWindow(h.windows[..i], m)
    {
      var w := h.windows[i];
      var before := mask;
      mask := AddWindow(w, mask);
      assert h.windows[..i + 1] == h.windows[..i] + [w];
      forall m: nat ensures Bit(mask, m) <==> m < WEEK_MINUTES && InSomeWindow(h.windows[..i + 1], m) {
        assert InSomeWindow(h.windows[..i + 1], m) <==> InSomeWindow(h.windows[..i], m) || OnSomeDay(w, w.days, m);
      }
      i := i + 1;
    }
    assert h.windows[..i] == h.windows;
  }

  /** The inner loop: one window's start days. */
  method AddWindow(w: Window, before: int) returns (mask: int)
    requires before >= 0
    ensures mask >= 0
    ensures forall m: nat :: Bit(mask, m) <==> Bit(before, m) || (m < WEEK_MINUTES && OnSomeDay(w, w.days, m))
  {
    mask := before;
    var start, end := Minute(w.start), Minute(w.end);
    var duration := (end - start) % DAY_MINUTES;
    var j := 0;
    while j < |w.days|
      invariant 0 <= j <= |w.days|
      invariant mask >= 0
      invariant forall m: nat :: Bit(mask, m) <==> Bit(before, m) || (m < WEEK_MINUTES && OnSomeDay(w, w.days[..j], m))
    {
      var day := w.days[j];
      var offset := day * DAY_MINUTES + start;
      var segment := Segment(offset, duration);
      var folded := Or(And(segment, Ones(WEEK_MINUTES)), ShiftRight(segment, WEEK_MINUTES));
      var was := mask;
      mask := Or(was, folded);
      FoldedBits(offset, duration, WEEK_MINUTES, 0);
      OrNonNegative(was, folded);
      assert w.days[..j + 1] == w.days[..j] + [day];
      forall m: nat ensures Bit(mask, m) <==> Bit(before, m) || (m < WEEK_MINUTES && OnSomeDay(w, w.days[..j + 1], m)) {
        BitOr(was, folded, m);
        FoldedCovers(w, day, m, offset, duration, WEEK_MINUTES);
        assert OnSomeDay(w, w.days[..j + 1], m) <==> OnSomeDay(w, w.days[..j], m) || Covers(w, day, m);
      }
      j := j + 1;
    }
    assert w.days[..j] == w.days;
  }

  /** Whether a group can start new files at this minute of the local week. */
  method GroupIsAvailable(h: Hours, clockMinute: nat) returns (available: bool)
    requires clockMinute < WEEK_MINUTES
    ensures available <==> OpenAt(h, clockMinute)
  {
    if !h.enabled {
      return false;
    }
    if h.always {
      return true;
    }
    var mask := GroupWeeklyMask(h);
    available := And(mask, ShiftLeft(1, clockMinute)) != 0;
    BitTest(mask, clockMinute);
  }

  /** `mask & (1 << i)` is non-zero exactly when bit `i` is set. */
  lemma {:induction false} BitTest(mask: int, i: nat)
    requires mask >= 0
    ensures And(mask, ShiftLeft(1, i)) != 0 <==> Bit(mask, i)
  {
    var probe := ShiftLeft(1, i);
    PowerLength(i);
    if And(mask, probe) != 0 {
      var k := SomeBit(And(mask, probe));
      BitAnd(mask, probe, k);
      BitShiftLeft(1, i, k);
      OneBit(k - i);
    } else {
      BitConstants(i);
      BitAnd(mask, probe, i);
      BitShiftLeft(1, i, i);
    }
  }

  lemma OneBit(k: nat)
    ensures Bit(1, k) <==> k == 0
  {
    if k > 0 {
      BitConstants(k - 1);
    }
  }
}
