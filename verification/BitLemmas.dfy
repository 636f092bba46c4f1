/** How the bitwise operations act on single bits and on powers of two. */
module BitLemmas {
  import opened Bits

  /** Halving and parity go through `Or`. */
  lemma OrStep(x: nat, y: nat)
    ensures Or(x, y) / 2 == Or(x / 2, y / 2)
    ensures Or(x, y) % 2 == 1 <==> x % 2 == 1 || y % 2 == 1
  {
    var half := Or(x / 2, y / 2);
    if x > 0 && y > 0 {
      DoubleHalf(half, x % 2 == 1 || y % 2 == 1);
    }
  }

  lemma DoubleHalf(h: nat, odd: bool)
    ensures var d := (if odd then 1 else 0) + 2 * h; d / 2 == h && (d % 2 == 1 <==> odd)
  {
  }

  lemma {:induction false} OrBit(x: nat, y: nat, i: nat)
    ensures Bit(Or(x, y), i) <==> Bit(x, i) || Bit(y, i)
    decreases i
  {
    OrStep(x, y);
    if i > 0 {
      OrBit(x / 2, y / 2, i - 1);
    }
  }

  lemma {:induction false} ZeroBit(i: nat)
    ensures !Bit(0, i)
  {
    if i > 0 { ZeroBit(i - 1); }
  }

  lemma {:induction false} Pow2Bit(k: nat, i: nat)
    ensures Bit(Pow2(k), i) <==> i == k
  {
    if i > 0 {
      if k > 0 { Pow2Bit(k - 1, i - 1); } else { ZeroBit(i - 1); }
    }
  }

  /** A number with no bit set is zero. */
  lemma {:induction false} SomeBit(x: nat)
    requires x > 0
    ensures exists i: nat :: Bit(x, i)
  {
    if x % 2 == 1 {
      assert Bit(x, 0);
    } else {
      SomeBit(x / 2);
      var i: nat :| Bit(x / 2, i);
      assert Bit(x, i + 1);
    }
  }

  lemma {:induction false} BitBound(x: nat, n: nat, i: nat)
    requires x < Pow2(n) && Bit(x, i)
    ensures i < n
  {
    if n == 0 {
      ZeroBit(i);
    } else if i > 0 {
      BitBound(x / 2, n - 1, i - 1);
    }
  }

  lemma {:induction false} OrBound(x: nat, y: nat, n: nat)
    requires x < Pow2(n) && y < Pow2(n)
    ensures Or(x, y) < Pow2(n)
  {
    if x != 0 && y != 0 {
      OrBound(x / 2, y / 2, n - 1);
    }
  }

  lemma {:induction false} AndPow2(x: nat, i: nat)
    ensures And(x, Pow2(i)) == if Bit(x, i) then Pow2(i) else 0
  {
    if x == 0 {
      ZeroBit(i);
    } else if i > 0 {
      AndPow2(x / 2, i - 1);
    } else {
      assert And(x / 2, 0) == 0;
    }
  }

  /** Clearing a set bit: `x &^ (1 << i)`. */
  lemma {:induction false} ClearBit(x: nat, i: nat, j: nat)
    requires Bit(x, i)
    ensures Pow2(i) <= x
    ensures Bit(x - Pow2(i), j) <==> Bit(x, j) && j != i
  {
    if i == 0 {
      if j > 0 { assert (x - 1) / 2 == x / 2; }
    } else {
      ClearBit(x / 2, i - 1, if j == 0 then 0 else j - 1);
      assert (x - Pow2(i)) / 2 == x / 2 - Pow2(i - 1);
    }
  }

  lemma Pow2Sixteen()
    ensures Pow2(16) == 0x1_0000
  {
    assert Pow2(8) == 0x100;
    assert Pow2(12) == 0x1000;
  }
}
