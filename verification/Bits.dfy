/** Bitwise `&` on unbounded integers, as Python computes it, and what it means for alignment. */
module Bits {
  function BitAnd(x: nat, y: nat): nat {
    if x == 0 || y == 0 then 0
    else 2 * BitAnd(x / 2, y / 2) + if x % 2 == 1 && y % 2 == 1 then 1 else 0
  }

  /** `x & ~mask`. */
  function AndNot(x: nat, mask: nat): nat {
    if x == 0 then 0
    else 2 * AndNot(x / 2, mask / 2) + if x % 2 == 1 && mask % 2 == 0 then 1 else 0
  }

  function Pow2(k: nat): (p: nat)
    ensures p >= 1 && (k > 0 ==> p % 2 == 0)
  {
    if k == 0 then 1 else 2 * Pow2(k - 1)
  }

  ghost predicate IsPowerOfTwo(a: nat) {
    exists k: nat :: Pow2(k) == a
  }

  lemma {:induction false} AndSelf(x: nat)
    ensures BitAnd(x, x) == x
  {
    if x > 0 {
      AndSelf(x / 2);
    }
  }

  /** The test `a & (a - 1)` is zero exactly for a power of two. */
  lemma {:induction false} PowerOfTwoTest(a: nat)
    requires a > 0
    ensures BitAnd(a, a - 1) == 0 <==> IsPowerOfTwo(a)
  {
    if a == 1 {
      assert Pow2(0) == 1;
    } else if a % 2 == 0 {
      var b := a / 2;
      PowerOfTwoTest(b);
      assert (a - 1) / 2 == b - 1;
      if IsPowerOfTwo(b) {
        var k: nat :| Pow2(k) == b;
        assert Pow2(k + 1) == a;
      }
      if IsPowerOfTwo(a) {
        var k: nat :| Pow2(k) == a;
        assert Pow2(k - 1) == b;
      }
    } else {
      AndSelf(a / 2);
      assert (a - 1) / 2 == a / 2;
    }
  }

  /** Clearing the bits under a power of two rounds down to a multiple of it. */
  lemma {:induction false} ClearLowBits(x: nat, k: nat) returns (q: nat)
    ensures AndNot(x, Pow2(k) - 1) == q * Pow2(k) <= x < q * Pow2(k) + Pow2(k)
    decreases k
  {
    if k == 0 {
      ClearNothing(x);
      q := x;
    } else if x == 0 {
      q := 0;
    } else {
      var half := Pow2(k - 1);
      q := ClearLowBits(x / 2, k - 1);
      ClearOneMoreBit(x, half - 1);
      TwiceTimes(q, half);
    }
  }

  lemma ClearOneMoreBit(x: nat, mask: nat)
    ensures AndNot(x, 2 * mask + 1) == 2 * AndNot(x / 2, mask)
  {
    assert (2 * mask + 1) / 2 == mask && (2 * mask + 1) % 2 == 1;
  }

  lemma TwiceTimes(q: nat, p: nat)
    ensures q * (2 * p) == 2 * (q * p)
  {
  }

  lemma {:induction false} ClearNothing(x: nat)
    ensures AndNot(x, 0) == x
  {
    if x > 0 {
      ClearNothing(x / 2);
    }
  }

  ghost predicate IsMultiple(m: nat, a: nat) {
    exists j: nat :: m == j * a
  }

  function AlignUp(pos: nat, alignment: nat): nat
    requires alignment > 0
  {
    AndNot(pos + alignment - 1, alignment - 1)
  }

  /** For a power of two, `AlignUp` is the least multiple at or above a position. */
  lemma AlignUpIsLeastMultiple(pos: nat, alignment: nat)
    requires alignment > 0 && IsPowerOfTwo(alignment)
    ensures IsMultiple(AlignUp(pos, alignment), alignment)
    ensures pos <= AlignUp(pos, alignment) < pos + alignment
    ensures forall m: nat :: IsMultiple(m, alignment) && pos <= m ==> AlignUp(pos, alignment) <= m
  {
    var k: nat :| Pow2(k) == alignment;
    var q := ClearLowBits(pos + alignment - 1, k);
    forall m: nat | IsMultiple(m, alignment) && pos <= m
      ensures AlignUp(pos, alignment) <= m
    {
      NoSmallerMultiple(pos, alignment, AlignUp(pos, alignment), q, m);
    }
  }

  lemma NoSmallerMultiple(pos: nat, a: nat, r: nat, q: nat, m: nat)
    requires r == q * a && r < pos + a && IsMultiple(m, a) && pos <= m
    ensures r <= m
  {
    var j: nat :| m == j * a;
    if j < q {
      MultiplesApart(j, q, a);
    } else {
      Monotone(q, j, a);
    }
  }

  lemma {:induction false} MultiplesApart(j: nat, q: nat, a: nat)
    requires j < q
    ensures j * a + a <= q * a
  {
    assert (q - 1) * a + a == q * a;
    Monotone(j, q - 1, a);
  }

  lemma {:induction false} Monotone(j: nat, q: nat, a: nat)
    requires j <= q
    ensures j * a <= q * a
    decreases q - j
  {
    if j < q {
      assert (j + 1) * a == j * a + a;
      Monotone(j + 1, q, a);
    }
  }
}
