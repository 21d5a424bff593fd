/** The weekly peak: worker_groups.py peels runs of ones off each mask and sweeps signed changes at sorted points. */
module Peak {
  import opened Bits
  import opened WeeklyMask
  import opened WorkerPolicy

  function Change(changes: map<int, int>, point: int): int {
    if point in changes then changes[point] else 0
  }

  /** `changes[point] = changes.get(point, 0) + delta`. */
  function Bumped(changes: map<int, int>, point: int, delta: int): map<int, int> {
    changes[point := Change(changes, point) + delta]
  }

  /** All changes up to and including `x`. */
  function UpTo(changes: map<int, int>, x: int): int
    decreases x + 1
  {
    if x < 0 then 0 else UpTo(changes, x - 1) + Change(changes, x)
  }

  lemma {:induction false} BumpedUpTo(changes: map<int, int>, point: int, delta: int, x: int)
    requires point >= 0
    ensures UpTo(Bumped(changes, point, delta), x) == UpTo(changes, x) + if x >= point then delta else 0
    decreases x + 1
  {
    if x >= 0 {
      BumpedUpTo(changes, point, delta, x - 1);
    }
  }

  lemma {:induction false} NoChangeBetween(changes: map<int, int>, a: int, b: int)
    requires -1 <= a <= b
    requires forall k | k in changes :: !(a < k <= b)
    ensures UpTo(changes, b) == UpTo(changes, a)
    decreases b
  {
    if a < b {
      NoChangeBetween(changes, a, b - 1);
    }
  }

  lemma {:induction false} EmptyUpTo(x: int)
    ensures UpTo(map[], x) == 0
    decreases x + 1
  {
    if x >= 0 {
      EmptyUpTo(x - 1);
    }
  }

  /** The lowest run of ones, as the bit tricks find it: all of it is set, and the bit after it isn't. */
  lemma LowestRun(mask: int, start: nat, shifted: nat, length: int)
    requires mask > 0
    requires start == BitLength(And(mask, -mask)) - 1
    requires shifted == ShiftRight(mask, start)
    requires length == BitLength(Xor(shifted, shifted + 1)) - 1
    ensures length > 0
    ensures forall i: nat | start <= i < start + length :: Bit(mask, i)
    ensures forall i: nat | i < start || i == start + length :: !Bit(mask, i)
  {
    LowestBit(mask);
    PowerLength(TrailingZeros(mask));
    TrailingRun(shifted);
    OnesLength(TrailingOnes(shifted) + 1);
    assert start == TrailingZeros(mask) && length == TrailingOnes(shifted);
    BelowTrailingZeros(mask, start);
    BitShiftRight(mask, start, 0);
    assert shifted % 2 == 1;
    forall i: nat | start <= i <= start + length ensures Bit(mask, i) <==> i < start + length {
      BelowTrailingOnes(shifted, i - start);
      BitShiftRight(mask, start, i - start);
    }
    forall i: nat | i < start ensures !Bit(mask, i) {
      BelowTrailingZeros(mask, i);
    }
  }

  /** One round of the peeling: the lowest run goes off the mask and into the changes. */
  method PeelRun(mask: int, before: map<int, int>, count: int) returns (rest: int, changes: map<int, int>)
    requires mask > 0
    requires forall k | k in before :: 0 <= k <= WEEK_MINUTES
    requires forall m: nat :: Bit(mask, m) ==> m < WEEK_MINUTES
    ensures 0 <= rest < mask
    ensures forall x: nat :: Bit(rest, x) ==> Bit(mask, x)
    ensures forall k | k in changes :: 0 <= k <= WEEK_MINUTES
    ensures forall x: nat :: UpTo(changes, x) == UpTo(before, x) + if Bit(mask, x) && !Bit(rest, x) then count else 0
  {
    LowestBit(mask);
    PowerLength(TrailingZeros(mask));
    var start := BitLength(And(mask, -mask)) - 1;
    ShiftNonNegative(mask, start);
    var shifted := ShiftRight(mask, start);
    var length := BitLength(Xor(shifted, shifted + 1)) - 1;
    LowestRun(mask, start, shifted, length);
    var end := start + length;
    assert Bit(mask, start) && Bit(mask, end - 1);
    var opening := Bumped(before, start, count);
    changes := Bumped(opening, end, -count);
    ClearSmaller(mask, start, length);
    rest := And(mask, Not(Segment(start, length)));
    forall x: nat
      ensures Bit(rest, x) <==> Bit(mask, x) && !(start <= x < end)
      ensures UpTo(changes, x) == UpTo(before, x) + if start <= x < end then count else 0
    {
      BitNot(Segment(start, length), x);
      SegmentBits(start, length, x);
      BitAnd(mask, Not(Segment(start, length)), x);
      BumpedUpTo(before, start, count, x);
      BumpedUpTo(opening, end, -count, x);
    }
  }

  /** The inner loop: one policy's runs as changes of its count. */
  method AddRuns(before: map<int, int>, p: Policy) returns (changes: map<int, int>)
    requires forall k | k in before :: 0 <= k <= WEEK_MINUTES
    ensures forall k | k in changes :: 0 <= k <= WEEK_MINUTES
    ensures forall x: nat :: UpTo(changes, x) == UpTo(before, x) + if OpenAt(p.hours, x) then p.count else 0
  {
    changes := before;
    var mask := GroupWeeklyMask(p.hours);
    while mask != 0
      invariant mask >= 0
      invariant forall m: nat :: Bit(mask, m) ==> OpenAt(p.hours, m)
      invariant forall k | k in changes :: 0 <= k <= WEEK_MINUTES
      invariant forall x: nat :: UpTo(changes, x) == UpTo(before, x) + if OpenAt(p.hours, x) && !Bit(mask, x) then p.count else 0
      decreases mask
    {
      mask, changes := PeelRun(mask, changes, p.count);
    }
    forall x: nat ensures !Bit(0, x) {
      BitConstants(x);
    }
  }

  predicate Ascending(points: seq<int>) {
    forall i, j | 0 <= i < j < |points| :: points[i] < points[j]
  }

  lemma SomeKey(keys: set<int>)
    ensures keys == {} || exists k :: k in keys
  {
    if !exists k :: k in keys {
      assert keys == {};
    }
  }

  /** A dictionary's keys in order. */
  method Sorted(keys: set<int>) returns (points: seq<int>)
    ensures Ascending(points)
    ensures forall k :: k in points <==> k in keys
  {
    points := [];
    var left := keys;
    while left != {}
      invariant left <= keys
      invariant Ascending(points)
      invariant forall k :: k in points <==> k in keys && k !in left
      decreases |left|
    {
      SomeKey(left);
      var k :| k in left;
      var i := 0;
      while i < |points| && points[i] < k
        invariant 0 <= i <= |points|
        invariant forall j | 0 <= j < i :: points[j] < k
      {
        i := i + 1;
      }
      assert forall j | i <= j < |points| :: k < points[j] by {
        assert forall j | 0 <= j < |points| :: points[j] in points;
      }
      points := points[..i] + [k] + points[i..];
      left := left - {k};
    }
  }

  /** Some minute of the week carries this load. */
  predicate Reached(policies: seq<Policy>, load: int) {
    exists m | 0 <= m < WEEK_MINUTES :: Load(policies, m) == load
  }

  /**
   * The peak is exactly the largest load over all minutes of the week: no minute exceeds it, and some minute reaches
   * it (or it is 0 when no minute has a positive load).
   */
  method PeakOf(policies: seq<Policy>) returns (peak: int)
    ensures peak >= 0
    ensures forall m | 0 <= m < WEEK_MINUTES :: Load(policies, m) <= peak
    ensures peak == 0 || Reached(policies, peak)
  {
    var changes: map<int, int> := map[];
    var n := 0;
    forall x: nat ensures UpTo(map[], x) == 0 {
      EmptyUpTo(x);
    }
    while n < |policies|
      invariant 0 <= n <= |policies|
      invariant forall k | k in changes :: 0 <= k <= WEEK_MINUTES
      invariant forall x: nat :: UpTo(changes, x) == Load(policies[..n], x)
    {
      var wasChanges := changes;
      changes := AddRuns(changes, policies[n]);
      assert policies[..n + 1][..n] == policies[..n];
      n := n + 1;
    }
    assert policies[..n] == policies;
    peak := Sweep(changes);
    forall m | 0 <= m < WEEK_MINUTES ensures Load(policies, m) <= peak {
      assert UpTo(changes, m) <= peak;
    }
    if peak != 0 {
      var x: nat :| UpTo(changes, x) == peak;
      ClosedOutside(policies, x);
    }
  }

  lemma {:induction false} ClosedOutside(policies: seq<Policy>, m: int)
    ensures !(0 <= m < WEEK_MINUTES) ==> Load(policies, m) == 0
  {
    if policies != [] {
      ClosedOutside(policies[..|policies| - 1], m);
    }
  }

  /** The sweep over the sorted points: the largest running total, or 0. */
  method Sweep(changes: map<int, int>) returns (peak: int)
    requires forall k | k in changes :: k >= 0
    ensures peak >= 0
    ensures forall x: nat :: UpTo(changes, x) <= peak
    ensures peak == 0 || exists x: nat :: UpTo(changes, x) == peak
  {
    var points := Sorted(changes.Keys);
    var current := 0;
    peak := 0;
    var i := 0;
    ghost var last := -1;
    while i < |points|
      invariant 0 <= i <= |points|
      invariant last == if i == 0 then -1 else points[i - 1]
      invariant last >= -1
      invariant current == UpTo(changes, last)
      invariant peak >= 0
      invariant forall x: nat | x <= last :: UpTo(changes, x) <= peak
      invariant current <= peak
      invariant peak == 0 || exists x: nat :: UpTo(changes, x) == peak
    {
      var point := points[i];
      assert point in points;
      NoneBetween(changes, points, i, last);
      NoChangeBetween(changes, last, point - 1);
      assert UpTo(changes, point) == UpTo(changes, point - 1) + changes[point];
      var was := current;
      current := current + changes[point];
      forall x: nat | last < x < point ensures UpTo(changes, x) == was {
        NoChangeBetween(changes, last, x);
      }
      peak := if current > peak then current else peak;
      last := point;
      i := i + 1;
    }
    forall x: nat | x > last ensures UpTo(changes, x) == current {
      assert forall k | k in changes :: k in points;
      NoChangeBetween(changes, last, x);
    }
  }

  /** No key lies between two neighbouring points. */
  lemma NoneBetween(changes: map<int, int>, points: seq<int>, i: nat, last: int)
    requires Ascending(points) && i < |points|
    requires forall k | k in changes :: k >= 0
    requires forall k :: k in points <==> k in changes.Keys
    requires last == if i == 0 then -1 else points[i - 1]
    ensures last < points[i]
    ensures forall k | k in changes :: !(last < k <= points[i] - 1)
  {
    assert points[i] in points;
    forall k | k in changes ensures !(last < k <= points[i] - 1) {
      var j :| 0 <= j < |points| && points[j] == k;
      assert j < i ==> points[j] <= last;
      assert j > i ==> points[i] < points[j];
    }
  }
}
