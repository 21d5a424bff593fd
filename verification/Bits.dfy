/** The program's bit operations on unbounded two's-complement integers. */
module Bits {
  /** Bit `i`; every negative number has infinitely many ones. Dividing by 2 floors. */
  predicate Bit(n: int, i: nat)
    decreases i
  {
    if i == 0 then n % 2 == 1 else Bit(n / 2, i - 1)
  }

  function Abs(n: int): nat {
    if n < 0 then -n else n
  }

  function And(a: int, b: int): (r: int)
    ensures a >= 0 || b >= 0 ==> r >= 0
    decreases Abs(a)
  {
    if a == 0 || b == 0 then 0
    else if a == -1 then b
    else if b == -1 then a
    else 2 * And(a / 2, b / 2) + (a % 2) * (b % 2)
  }

  function Not(a: int): int {
    -1 - a
  }

  function Or(a: int, b: int): int {
    Not(And(Not(a), Not(b)))
  }

  function Xor(a: nat, b: nat): nat
    decreases a + b
  {
    if a == 0 then b
    else if b == 0 then a
    else 2 * Xor(a / 2, b / 2) + (if a % 2 == b % 2 then 0 else 1)
  }

  function ShiftLeft(n: int, k: nat): int {
    if k == 0 then n else 2 * ShiftLeft(n, k - 1)
  }

  function ShiftRight(n: int, k: nat): int
    decreases k
  {
    if k == 0 then n else ShiftRight(n / 2, k - 1)
  }

  function BitLength(n: nat): nat {
    if n == 0 then 0 else 1 + BitLength(n / 2)
  }

  /** `k` ones. */
  function Ones(k: nat): int {
    ShiftLeft(1, k) - 1
  }

  // Bit by bit ------------------------------------------------------------------------------------------------------

  lemma {:induction false} BitConstants(i: nat)
    ensures !Bit(0, i) && Bit(-1, i)
  {
    if i > 0 {
      BitConstants(i - 1);
    }
  }

  lemma {:induction false} BitAnd(a: int, b: int, i: nat)
    ensures Bit(And(a, b), i) <==> Bit(a, i) && Bit(b, i)
    decreases Abs(a), i
  {
    BitConstants(i);
    if a == 0 || b == 0 || a == -1 || b == -1 {
    } else {
      var r := And(a, b);
      var bit := (a % 2) * (b % 2);
      assert bit == if a % 2 == 1 && b % 2 == 1 then 1 else 0;
      assert r % 2 == bit && r / 2 == And(a / 2, b / 2);
      if i > 0 {
        BitAnd(a / 2, b / 2, i - 1);
      }
    }
  }

  lemma {:induction false} BitNot(a: int, i: nat)
    ensures Bit(Not(a), i) <==> !Bit(a, i)
    decreases i
  {
    assert Not(a) % 2 == 1 - a % 2 && Not(a) / 2 == Not(a / 2);
    if i > 0 {
      BitNot(a / 2, i - 1);
    }
  }

  lemma BitOr(a: int, b: int, i: nat)
    ensures Bit(Or(a, b), i) <==> Bit(a, i) || Bit(b, i)
  {
    BitNot(a, i);
    BitNot(b, i);
    BitAnd(Not(a), Not(b), i);
    BitNot(And(Not(a), Not(b)), i);
  }

  lemma OrNonNegative(a: int, b: int)
    requires a >= 0 && b >= 0
    ensures Or(a, b) >= 0
  {
    AndNegative(Not(a), Not(b));
  }

  lemma {:induction false} AndNegative(a: int, b: int)
    requires a < 0 && b < 0
    ensures And(a, b) < 0
    decreases Abs(a)
  {
    if a != -1 && b != -1 {
      AndNegative(a / 2, b / 2);
    }
  }

  lemma {:induction false} BitShiftLeft(n: int, k: nat, i: nat)
    ensures Bit(ShiftLeft(n, k), i) <==> k <= i && Bit(n, i - k)
  {
    if k > 0 {
      var half := ShiftLeft(n, k - 1);
      assert (2 * half) % 2 == 0 && (2 * half) / 2 == half;
      if i > 0 {
        BitShiftLeft(n, k - 1, i - 1);
      }
    }
  }

  lemma {:induction false} BitShiftRight(n: int, k: nat, i: nat)
    ensures Bit(ShiftRight(n, k), i) <==> Bit(n, i + k)
    decreases k
  {
    if k > 0 {
      BitShiftRight(n / 2, k - 1, i);
    }
  }

  lemma {:induction false} BitOnes(k: nat, i: nat)
    ensures Ones(k) >= 0
    ensures Bit(Ones(k), i) <==> i < k
  {
    if k == 0 {
      BitConstants(i);
    } else {
      var n, half := Ones(k), Ones(k - 1);
      assert n == 2 * half + 1;
      assert n % 2 == 1 && n / 2 == half;
      BitOnes(k - 1, if i > 0 then i - 1 else i);
    }
  }

  lemma {:induction false} ShiftNonNegative(n: int, k: nat)
    requires n >= 0
    ensures ShiftLeft(n, k) >= 0 && ShiftRight(n, k) >= 0
    decreases k
  {
    if k > 0 {
      ShiftNonNegative(n, k - 1);
      ShiftNonNegative(n / 2, k - 1);
    }
  }

  /** A run of `count` ones starting at bit `from`. */
  function Segment(from: nat, count: nat): int {
    ShiftLeft(Ones(count), from)
  }

  lemma SegmentBits(from: nat, count: nat, i: nat)
    ensures Segment(from, count) >= 0
    ensures Bit(Segment(from, count), i) <==> from <= i < from + count
  {
    BitOnes(count, 0);
    ShiftNonNegative(Ones(count), from);
    BitShiftLeft(Ones(count), from, i);
    if from <= i {
      BitOnes(count, i - from);
    }
  }

  /** A positive number has a bit set; zero has none. */
  lemma {:induction false} SomeBit(n: nat) returns (i: nat)
    requires n > 0
    ensures Bit(n, i)
    decreases n
  {
    if n % 2 == 1 {
      i := 0;
    } else {
      var j := SomeBit(n / 2);
      i := j + 1;
    }
  }

  // The run-peeling tricks ------------------------------------------------------------------------------------------

  /** The number of trailing zeros of a positive number. */
  function TrailingZeros(n: nat): nat
    requires n > 0
  {
    if n % 2 == 1 then 0 else 1 + TrailingZeros(n / 2)
  }

  function TrailingOnes(n: nat): nat {
    if n % 2 == 0 then 0 else 1 + TrailingOnes(n / 2)
  }

  lemma {:induction false} AndOwnNot(n: nat)
    ensures And(n, Not(n)) == 0
    decreases n
  {
    if n > 0 {
      assert Not(n) / 2 == Not(n / 2) && Not(n) % 2 == 1 - n % 2;
      AndOwnNot(n / 2);
      assert (n % 2) * (Not(n) % 2) == 0;
    }
  }

  /** `n & -n` keeps the lowest set bit alone. */
  lemma {:induction false} LowestBit(n: int)
    requires n > 0
    ensures And(n, -n) == ShiftLeft(1, TrailingZeros(n))
    decreases n
  {
    var h := n / 2;
    if n % 2 == 1 {
      assert (-n) / 2 == Not(h) && (-n) % 2 == 1;
      AndOwnNot(h);
      if n == 1 {
      } else {
        assert And(n, -n) == 2 * And(h, Not(h)) + 1;
      }
    } else {
      assert (-n) / 2 == -h && (-n) % 2 == 0;
      LowestBit(h);
      assert And(n, -n) == 2 * And(h, -h);
    }
  }

  lemma {:induction false} PowerLength(k: nat)
    ensures ShiftLeft(1, k) > 0
    ensures BitLength(ShiftLeft(1, k)) == k + 1
  {
    if k > 0 {
      PowerLength(k - 1);
      assert ShiftLeft(1, k) / 2 == ShiftLeft(1, k - 1);
    }
  }

  lemma {:induction false} OnesLength(k: nat)
    ensures Ones(k) >= 0
    ensures BitLength(Ones(k)) == k
  {
    if k > 0 {
      OnesLength(k - 1);
      assert Ones(k) == 2 * Ones(k - 1) + 1;
      assert Ones(k) / 2 == Ones(k - 1);
    }
  }

  /** `n ^ (n + 1)` is one more one than `n` ends with. */
  lemma {:induction false} TrailingRun(n: nat)
    ensures Xor(n, n + 1) == Ones(TrailingOnes(n) + 1)
    decreases n
  {
    var h := n / 2;
    if n % 2 == 0 {
      assert (n + 1) / 2 == h;
      XorSelf(h);
      assert Ones(1) == 1;
    } else {
      assert (n + 1) / 2 == h + 1 && (n + 1) % 2 == 0;
      TrailingRun(h);
      assert Xor(n, n + 1) == 2 * Xor(h, h + 1) + 1;
    }
  }

  lemma {:induction false} XorSelf(n: nat)
    ensures Xor(n, n) == 0
    decreases n
  {
    if n > 0 {
      XorSelf(n / 2);
    }
  }

  lemma {:induction false} BelowTrailingZeros(n: nat, i: nat)
    requires n > 0
    ensures i < TrailingZeros(n) ==> !Bit(n, i)
    ensures i == TrailingZeros(n) ==> Bit(n, i)
    decreases n
  {
    if n % 2 == 0 && i > 0 {
      BelowTrailingZeros(n / 2, i - 1);
    }
  }

  lemma {:induction false} BelowTrailingOnes(n: nat, i: nat)
    ensures i < TrailingOnes(n) ==> Bit(n, i)
    ensures i == TrailingOnes(n) ==> !Bit(n, i)
    decreases n
  {
    if n % 2 == 1 && i > 0 {
      BelowTrailingOnes(n / 2, i - 1);
    }
  }

  /** Clearing bits that are all set subtracts them: what makes the peeling loop end. */
  lemma {:induction false} ClearSmaller(n: nat, from: nat, count: nat)
    requires count > 0 && Bit(n, from)
    ensures 0 <= And(n, Not(Segment(from, count))) < n
  {
    SegmentBits(from, count, from);
    var cleared := And(n, Not(Segment(from, count)));
    FewerBits(n, cleared, from, Segment(from, count));
  }

  lemma {:induction false} FewerBits(n: nat, cleared: int, from: nat, segment: int)
    requires cleared == And(n, Not(segment)) && Bit(n, from) && Bit(segment, from)
    ensures 0 <= cleared < n
    decreases from
  {
    AndAtMost(n / 2, Not(segment / 2));
    assert Not(segment) / 2 == Not(segment / 2) && Not(segment) % 2 == 1 - segment % 2;
    if n == 0 {
      BitConstants(from);
    } else if Not(segment) == -1 {
      BitConstants(from);
    } else if Not(segment) == 0 {
    } else {
      assert (n % 2) * (Not(segment) % 2) <= n % 2;
      assert cleared == 2 * And(n / 2, Not(segment / 2)) + (n % 2) * (Not(segment) % 2);
      if from > 0 {
        FewerBits(n / 2, And(n / 2, Not(segment / 2)), from - 1, segment / 2);
      }
    }
  }

  lemma {:induction false} AndAtMost(n: nat, b: int)
    ensures 0 <= And(n, b) <= n
    decreases n
  {
    if n == 0 || b == 0 || b == -1 {
    } else {
      AndAtMost(n / 2, b / 2);
      assert (n % 2) * (b % 2) <= n % 2;
    }
  }
}
