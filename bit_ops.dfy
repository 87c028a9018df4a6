/** Python's arbitrary-precision bitwise operators on non-negative integers
    (`&`, `|`, `& ~`, `<<`, `>>`), defined bit by bit, and the facts about
    single bits that the register accessors are proved from. */
module BitOps {

  /** `1 << n`. */
  function Pow2(n: nat): (p: nat)
    ensures p >= 1
  {
    if n == 0 then 1 else 2 * Pow2(n - 1)
  }

  /** `(x >> i) & 1 == 1`: bit i of x is set. */
  predicate Bit(x: nat, i: nat)
  {
    if i == 0 then x % 2 == 1 else Bit(x / 2, i - 1)
  }

  /** `a & b`. */
  function And(a: nat, b: nat): nat
    decreases a
  {
    if a == 0 || b == 0 then 0
    else 2 * And(a / 2, b / 2) + (if a % 2 == 1 && b % 2 == 1 then 1 else 0)
  }

  /** `a | b`. */
  function Or(a: nat, b: nat): nat
    decreases a + b
  {
    if a == 0 then b
    else if b == 0 then a
    else 2 * Or(a / 2, b / 2) + (if a % 2 == 1 || b % 2 == 1 then 1 else 0)
  }

  /** `a & ~b` (Python's `~b` is `-b - 1`, an infinite run of ones above b). */
  function AndNot(a: nat, b: nat): nat
    decreases a
  {
    if a == 0 then 0
    else if b == 0 then a
    else 2 * AndNot(a / 2, b / 2) + (if a % 2 == 1 && b % 2 == 0 then 1 else 0)
  }

  lemma ProductNat(x: nat, p: nat)
    ensures x * p >= 0
  {
  }

  lemma QuotientNat(x: nat, p: nat)
    requires p >= 1
    ensures x / p >= 0
  {
  }

  /** `x << n`. */
  function Shl(x: nat, n: nat): nat
  {
    ProductNat(x, Pow2(n));
    x * Pow2(n)
  }

  /** `x >> n`. */
  function Shr(x: nat, n: nat): nat
  {
    QuotientNat(x, Pow2(n));
    x / Pow2(n)
  }

  // ---------------------------------------------------------------------
  // Bits of the operators

  lemma {:induction false} ZeroHasNoBits(i: nat)
    ensures !Bit(0, i)
    decreases i
  {
    if i > 0 {
      ZeroHasNoBits(i - 1);
    }
  }

  /** Two numbers with the same bits are equal. */
  lemma {:induction false} BitsDetermine(a: nat, b: nat)
    requires forall i: nat :: Bit(a, i) == Bit(b, i)
    ensures a == b
    decreases a + b
  {
    if a + b > 0 {
      assert Bit(a, 0) == Bit(b, 0);
      forall i: nat
        ensures Bit(a / 2, i) == Bit(b / 2, i)
      {
        assert Bit(a, i + 1) == Bit(b, i + 1);
      }
      BitsDetermine(a / 2, b / 2);
    }
  }

  lemma {:induction false} AndBit(a: nat, b: nat, i: nat)
    ensures Bit(And(a, b), i) == (Bit(a, i) && Bit(b, i))
    decreases i
  {
    if a == 0 || b == 0 {
      ZeroHasNoBits(i);
    } else if i > 0 {
      AndBit(a / 2, b / 2, i - 1);
    }
  }

  lemma {:induction false} OrBit(a: nat, b: nat, i: nat)
    ensures Bit(Or(a, b), i) == (Bit(a, i) || Bit(b, i))
    decreases i
  {
    if a == 0 || b == 0 {
      ZeroHasNoBits(i);
    } else if i > 0 {
      OrBit(a / 2, b / 2, i - 1);
    }
  }

  lemma {:induction false} AndNotBit(a: nat, b: nat, i: nat)
    ensures Bit(AndNot(a, b), i) == (Bit(a, i) && !Bit(b, i))
    decreases i
  {
    if a == 0 || b == 0 {
      ZeroHasNoBits(i);
    } else if i > 0 {
      AndNotBit(a / 2, b / 2, i - 1);
    }
  }

  /** `(1 << w) - 1` has exactly the bits 0 .. w-1 set. */
  lemma {:induction false} LowOnesBit(w: nat, i: nat)
    ensures Bit(Pow2(w) - 1, i) == (i < w)
    decreases w
  {
    if w == 0 {
      ZeroHasNoBits(i);
    } else if i > 0 {
      LowOnesBit(w - 1, i - 1);
    }
  }

  lemma {:induction false} ShlBit(x: nat, n: nat, i: nat)
    ensures Bit(Shl(x, n), i) == (n <= i && Bit(x, i - n))
    decreases n
  {
    if n > 0 {
      var p := Pow2(n - 1);
      var y := Shl(x, n - 1);
      assert y == x * p;
      assert x * (2 * p) == 2 * (x * p);
      assert Shl(x, n) == 2 * y;
      assert (2 * y) % 2 == 0 && (2 * y) / 2 == y;
      if i > 0 {
        ShlBit(x, n - 1, i - 1);
      }
    }
  }

  lemma MulAtLeast(d: int, k: int)
    requires d > 0 && k >= 1
    ensures d * k >= d
  {
  }

  lemma DivModUnique(x: int, d: int, q: int, r: int)
    requires d > 0 && 0 <= r < d && x == d * q + r
    ensures x / d == q && x % d == r
  {
    var q', r' := x / d, x % d;
    assert x == d * q' + r';
    if q' > q {
      assert d * q' == d * q + d * (q' - q);
      MulAtLeast(d, q' - q);
    } else if q' < q {
      assert d * q == d * q' + d * (q - q');
      MulAtLeast(d, q - q');
    }
  }

  /** Dividing by `2 * p` is halving, then dividing by p. */
  lemma DivModHalf(x: nat, p: nat)
    requires p >= 1
    ensures x / (2 * p) == (x / 2) / p
    ensures x % (2 * p) == 2 * ((x / 2) % p) + x % 2
  {
    var q, r := (x / 2) / p, (x / 2) % p;
    assert x / 2 == p * q + r;
    assert x == (2 * p) * q + (2 * r + x % 2);
    DivModUnique(x, 2 * p, q, 2 * r + x % 2);
  }

  lemma {:induction false} ShrBit(x: nat, n: nat, i: nat)
    ensures Bit(Shr(x, n), i) == Bit(x, i + n)
    decreases n
  {
    if n > 0 {
      DivModHalf(x, Pow2(n - 1));
      assert Shr(x, n) == Shr(x / 2, n - 1);
      ShrBit(x / 2, n - 1, i);
    }
  }

  /** `x % (1 << n)` keeps exactly the bits below n. */
  lemma {:induction false} ModBit(x: nat, n: nat, i: nat)
    ensures Bit(x % Pow2(n), i) == (i < n && Bit(x, i))
    decreases n
  {
    if n == 0 {
      ZeroHasNoBits(i);
    } else {
      var p := Pow2(n - 1);
      assert Pow2(n) == 2 * p;
      DivModHalf(x, p);
      var low := (x / 2) % p;
      assert x % Pow2(n) == 2 * low + x % 2;
      assert (2 * low + x % 2) % 2 == x % 2 && (2 * low + x % 2) / 2 == low;
      if i > 0 {
        ModBit(x / 2, n - 1, i - 1);
      }
    }
  }

  // ---------------------------------------------------------------------
  // Bits and magnitude

  /** A number below `1 << n` has no bit at n or above. */
  lemma {:induction false} NoBitsAbove(x: nat, n: nat, i: nat)
    requires x < Pow2(n) && n <= i
    ensures !Bit(x, i)
    decreases n
  {
    if n == 0 {
      ZeroHasNoBits(i);
    } else {
      NoBitsAbove(x / 2, n - 1, i - 1);
    }
  }

  /** A number with no bit at n or above is below `1 << n`. */
  lemma {:induction false} BelowPow2(x: nat, n: nat)
    requires forall i: nat :: n <= i ==> !Bit(x, i)
    ensures x < Pow2(n)
    decreases n
  {
    if n == 0 {
      forall i: nat
        ensures Bit(x, i) == Bit(0, i)
      {
        ZeroHasNoBits(i);
      }
      BitsDetermine(x, 0);
    } else {
      forall i: nat | n - 1 <= i
        ensures !Bit(x / 2, i)
      {
        assert !Bit(x, i + 1);
      }
      BelowPow2(x / 2, n - 1);
    }
  }

  /** Bytes are exactly the numbers with no bit at 8 or above. */
  lemma ByteBits(x: nat)
    ensures x < 256 ==> forall i: nat :: 8 <= i ==> !Bit(x, i)
    ensures (forall i: nat :: 8 <= i ==> !Bit(x, i)) ==> x < 256
  {
    assert Pow2(8) == 256;
    forall i: nat | 8 <= i && x < 256
      ensures !Bit(x, i)
    {
      NoBitsAbove(x, 8, i);
    }
    if forall i: nat :: 8 <= i ==> !Bit(x, i) {
      BelowPow2(x, 8);
    }
  }

  /** The bits of `low + (high << n)` with `low < 1 << n`: those of low
      below n, those of high from n on. */
  lemma {:induction false} SplitBit(low: nat, high: nat, n: nat, i: nat)
    requires low < Pow2(n)
    ensures Bit(low + Shl(high, n), i) == if i < n then Bit(low, i) else Bit(high, i - n)
    decreases n
  {
    if n == 0 {
      assert low == 0;
    } else {
      var p := Pow2(n - 1);
      var hp := Shl(high, n - 1);
      assert hp == high * p;
      assert high * (2 * p) == 2 * (high * p);
      assert Shl(high, n) == 2 * hp;
      var t := low + Shl(high, n);
      assert t == 2 * (low / 2 + hp) + low % 2;
      assert t / 2 == low / 2 + hp && t % 2 == low % 2;
      assert low / 2 < p;
      if i > 0 {
        SplitBit(low / 2, high, n - 1, i - 1);
      }
    }
  }
}
