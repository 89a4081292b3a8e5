/** Bitwise arithmetic on Python's unbounded non-negative integers.

    The control register value is a Python `int`, so `|`, `& ~` and `<<`
    are defined here on `nat` by recursion on the binary expansion instead of
    on a fixed-width bit-vector. Every operation is characterised bit by bit
    (`Bit`), and `BitsDetermineValue` turns bitwise equalities back into
    equalities of numbers. */
module Bits {

  function Pow2(k: nat): (r: nat)
    ensures r >= 1
  {
    if k == 0 then 1 else 2 * Pow2(k - 1)
  }

  /** `(v >> k) & 1` */
  function Bit(v: nat, k: nat): (b: nat)
    ensures b <= 1
  {
    if k == 0 then v % 2 else Bit(v / 2, k - 1)
  }

  /** `x << n` */
  function Shl(x: nat, n: nat): nat
  {
    x * Pow2(n)
  }

  /** `a | b` */
  function Or(a: nat, b: nat): nat
    decreases a + b
  {
    if a == 0 then b
    else if b == 0 then a
    else 2 * Or(a / 2, b / 2) + (if a % 2 == 1 || b % 2 == 1 then 1 else 0)
  }

  /** `a & ~m`: for non-negative `a` the result is non-negative whatever `m` is. */
  function AndNot(a: nat, m: nat): nat
  {
    if a == 0 then 0
    else 2 * AndNot(a / 2, m / 2) + (if a % 2 == 1 && m % 2 == 0 then 1 else 0)
  }

  lemma {:induction false} BitOfZero(k: nat)
    ensures Bit(0, k) == 0
  {
    if k > 0 {
      BitOfZero(k - 1);
    }
  }

  /** Bit `k` of `2*x + c` is `c` at position 0 and bit `k-1` of `x` above. */
  lemma BitOfDouble(x: nat, c: nat, k: nat)
    requires c <= 1
    ensures Bit(2 * x + c, k) == if k == 0 then c else Bit(x, k - 1)
  {
    assert (2 * x + c) / 2 == x;
  }

  lemma {:induction false} BitOr(a: nat, b: nat, k: nat)
    ensures Bit(Or(a, b), k) == if Bit(a, k) == 1 || Bit(b, k) == 1 then 1 else 0
    decreases a + b
  {
    if a == 0 {
      BitOfZero(k);
    } else if b == 0 {
      BitOfZero(k);
    } else {
      var c := if a % 2 == 1 || b % 2 == 1 then 1 else 0;
      BitOfDouble(Or(a / 2, b / 2), c, k);
      if k > 0 {
        BitOr(a / 2, b / 2, k - 1);
      }
    }
  }

  lemma {:induction false} BitAndNot(a: nat, m: nat, k: nat)
    ensures Bit(AndNot(a, m), k) == if Bit(a, k) == 1 && Bit(m, k) == 0 then 1 else 0
    decreases a
  {
    if a == 0 {
      BitOfZero(k);
    } else {
      var c := if a % 2 == 1 && m % 2 == 0 then 1 else 0;
      BitOfDouble(AndNot(a / 2, m / 2), c, k);
      if k > 0 {
        BitAndNot(a / 2, m / 2, k - 1);
      }
    }
  }

  /** `1 << k` has exactly bit `k` set. */
  lemma {:induction false} BitOfPow2(k: nat, j: nat)
    ensures Bit(Pow2(k), j) == if j == k then 1 else 0
  {
    if k == 0 {
      if j > 0 {
        BitOfZero(j - 1);
      }
    } else {
      BitOfDouble(Pow2(k - 1), 0, j);
      if j > 0 {
        BitOfPow2(k - 1, j - 1);
      }
    }
  }

  /** `(1 << w) - 1` has exactly bits `0 .. w-1` set. */
  lemma {:induction false} BitOfLowMask(w: nat, j: nat)
    ensures Bit(Pow2(w) - 1, j) == if j < w then 1 else 0
  {
    if w == 0 {
      BitOfZero(j);
    } else {
      BitOfDouble(Pow2(w - 1) - 1, 1, j);
      if j > 0 {
        BitOfLowMask(w - 1, j - 1);
      }
    }
  }

  /** Shifting left by `n` moves bit `j - n` to position `j` and zero-fills below. */
  lemma {:induction false} BitOfShl(x: nat, n: nat, j: nat)
    ensures Bit(Shl(x, n), j) == if j < n then 0 else Bit(x, j - n)
  {
    if n > 0 {
      assert Shl(x, n) == 2 * Shl(x, n - 1) + 0;
      BitOfDouble(Shl(x, n - 1), 0, j);
      if j > 0 {
        BitOfShl(x, n - 1, j - 1);
      }
    }
  }

  /** A value below `2^w` has no bit at or above `w`. */
  lemma {:induction false} BitAboveWidth(v: nat, w: nat, j: nat)
    requires v < Pow2(w)
    requires j >= w
    ensures Bit(v, j) == 0
  {
    if w == 0 {
      BitOfZero(j);
    } else {
      BitAboveWidth(v / 2, w - 1, j - 1);
    }
  }

  /** A value at or above `2^w` has some bit at or above `w`. */
  lemma {:induction false} HighBitOfWide(v: nat, w: nat) returns (j: nat)
    requires v >= Pow2(w)
    ensures j >= w && Bit(v, j) == 1
  {
    if w == 0 {
      if v % 2 == 1 {
        j := 0;
      } else {
        var j' := HighBitOfWide(v / 2, 0);
        j := j' + 1;
      }
    } else {
      var j' := HighBitOfWide(v / 2, w - 1);
      j := j' + 1;
    }
  }

  /** Two numbers with the same bits are equal. */
  lemma {:induction false} BitsDetermineValue(a: nat, b: nat)
    requires forall k: nat :: Bit(a, k) == Bit(b, k)
    ensures a == b
    decreases a + b
  {
    if a + b > 0 {
      forall k: nat
        ensures Bit(a / 2, k) == Bit(b / 2, k)
      {
        assert Bit(a, k + 1) == Bit(b, k + 1);
      }
      BitsDetermineValue(a / 2, b / 2);
      assert Bit(a, 0) == Bit(b, 0);
    }
  }
}
