/** Whole numbers as bits: what BigInt's bitwise operators compute on them. */
module Bits {
  /** (n >> k) & 1. */
  predicate Bit(n: nat, k: nat)
    decreases k, n
  {
    if k == 0 then n % 2 == 1 else Bit(n / 2, k - 1)
  }

  /** a ^ b. */
  function Xor(a: nat, b: nat): nat
    decreases a + b
  {
    if a == 0 && b == 0 then 0
    else 2 * Xor(a / 2, b / 2) + (if (a % 2 == 1) != (b % 2 == 1) then 1 else 0)
  }

  /** n << k. */
  function Shl(n: nat, k: nat): nat
    decreases k, n
  {
    if k == 0 then n else Shl(2 * n, k - 1)
  }

  /** n >> k. */
  function Shr(n: nat, k: nat): nat
    decreases k, n
  {
    if k == 0 then n else Shr(n / 2, k - 1)
  }

  /** n & (2^k - 1). */
  function Low(n: nat, k: nat): (r: nat)
    ensures r < Pow2(k)
    decreases k, n
  {
    if k == 0 then 0 else 2 * Low(n / 2, k - 1) + n % 2
  }

  /** Numbers below 2^k. */
  predicate Fits(n: nat, k: nat) {
    Shr(n, k) == 0
  }

  function Pow2(k: nat): nat {
    if k == 0 then 1 else 2 * Pow2(k - 1)
  }

  lemma {:induction false} BitXor(a: nat, b: nat, k: nat)
    ensures Bit(Xor(a, b), k) == (Bit(a, k) != Bit(b, k))
    decreases k
  {
    if a == 0 && b == 0 {
      BitZero(k);
    } else {
      var rest, low := Xor(a / 2, b / 2), if (a % 2 == 1) != (b % 2 == 1) then 1 else 0;
      HalfOf(rest, low);
      assert Xor(a, b) == 2 * rest + low;
      if k > 0 {
        hide Xor;
        BitXor(a / 2, b / 2, k - 1);
      }
    }
  }

  lemma HalfOf(n: nat, low: nat)
    requires low < 2
    ensures (2 * n + low) / 2 == n && (2 * n + low) % 2 == low
  {
  }

  lemma {:induction false} BitZero(k: nat)
    ensures !Bit(0, k)
    decreases k
  {
    if k > 0 {
      BitZero(k - 1);
    }
  }

  /** A number is its bits. */
  lemma {:induction false} BitsDecide(a: nat, b: nat)
    requires forall k: nat :: Bit(a, k) == Bit(b, k)
    ensures a == b
    decreases a + b
  {
    if a + b > 0 {
      assert Bit(a, 0) == Bit(b, 0);
      forall k: nat
        ensures Bit(a / 2, k) == Bit(b / 2, k)
      {
        assert Bit(a, k + 1) == Bit(b, k + 1);
      }
      BitsDecide(a / 2, b / 2);
    }
  }

  lemma {:induction false} BitShl(n: nat, shift: nat, k: nat)
    ensures Bit(Shl(n, shift), k) == (k >= shift && Bit(n, k - shift))
    decreases shift
  {
    if shift > 0 {
      BitShl(2 * n, shift - 1, k);
      if k >= shift {
        assert Bit(2 * n, k - shift + 1) == Bit(n, k - shift);
      } else if k == shift - 1 {
        assert !Bit(2 * n, 0);
      }
    }
  }

  lemma {:induction false} BitShr(n: nat, shift: nat, k: nat)
    ensures Bit(Shr(n, shift), k) == Bit(n, k + shift)
    decreases shift
  {
    if shift > 0 {
      BitShr(n / 2, shift - 1, k);
    }
  }

  lemma {:induction false} BitLow(n: nat, width: nat, k: nat)
    ensures Bit(Low(n, width), k) == (k < width && Bit(n, k))
    decreases width
  {
    if width == 0 {
      BitZero(k);
    } else if k > 0 {
      BitLow(n / 2, width - 1, k - 1);
      assert Low(n, width) / 2 == Low(n / 2, width - 1);
    }
  }

  /** A number that fits in a width has no bit set from there upwards. */
  lemma NoHighBit(n: nat, width: nat, k: nat)
    requires Fits(n, width) && k >= width
    ensures !Bit(n, k)
  {
    BitShr(n, width, k - width);
    BitZero(k - width);
  }

  lemma NoHighBits(n: nat, width: nat)
    requires forall k: nat :: k >= width ==> !Bit(n, k)
    ensures Fits(n, width)
  {
    forall k: nat
      ensures Bit(Shr(n, width), k) == Bit(0, k)
    {
      BitShr(n, width, k);
      BitZero(k);
    }
    BitsDecide(Shr(n, width), 0);
  }

  lemma {:induction false} FitsBelow(n: nat, width: nat)
    ensures Fits(n, width) <==> n < Pow2(width)
    decreases width
  {
    if width > 0 {
      FitsBelow(n / 2, width - 1);
    }
  }

  lemma XorSelf(a: nat)
    ensures Xor(a, a) == 0
  {
    forall k: nat
      ensures Bit(Xor(a, a), k) == Bit(0, k)
    {
      BitXor(a, a, k);
      BitZero(k);
    }
    BitsDecide(Xor(a, a), 0);
  }

  lemma XorZero(a: nat)
    ensures Xor(a, 0) == a
  {
    forall k: nat
      ensures Bit(Xor(a, 0), k) == Bit(a, k)
    {
      BitXor(a, 0, k);
      BitZero(k);
    }
    BitsDecide(Xor(a, 0), a);
  }

  /** Only equal numbers cancel. */
  lemma XorCancels(a: nat, b: nat)
    requires Xor(a, b) == 0
    ensures a == b
  {
    forall k: nat
      ensures Bit(a, k) == Bit(b, k)
    {
      BitXor(a, b, k);
      BitZero(k);
    }
    BitsDecide(a, b);
  }

  lemma XorShuffle(a: nat, b: nat, c: nat, d: nat)
    ensures Xor(Xor(a, b), Xor(c, d)) == Xor(Xor(a, c), Xor(b, d))
  {
    forall k: nat
      ensures Bit(Xor(Xor(a, b), Xor(c, d)), k) == Bit(Xor(Xor(a, c), Xor(b, d)), k)
    {
      BitXor(Xor(a, b), Xor(c, d), k);
      BitXor(a, b, k);
      BitXor(c, d, k);
      BitXor(Xor(a, c), Xor(b, d), k);
      BitXor(a, c, k);
      BitXor(b, d, k);
    }
    BitsDecide(Xor(Xor(a, b), Xor(c, d)), Xor(Xor(a, c), Xor(b, d)));
  }

  lemma XorFits(a: nat, b: nat, width: nat)
    requires Fits(a, width) && Fits(b, width)
    ensures Fits(Xor(a, b), width)
  {
    forall k: nat | k >= width
      ensures !Bit(Xor(a, b), k)
    {
      BitXor(a, b, k);
      NoHighBit(a, width, k);
      NoHighBit(b, width, k);
    }
    NoHighBits(Xor(a, b), width);
  }

  lemma ShlLinear(a: nat, b: nat, shift: nat)
    ensures Shl(Xor(a, b), shift) == Xor(Shl(a, shift), Shl(b, shift))
  {
    forall k: nat
      ensures Bit(Shl(Xor(a, b), shift), k) == Bit(Xor(Shl(a, shift), Shl(b, shift)), k)
    {
      BitShl(Xor(a, b), shift, k);
      BitShl(a, shift, k);
      BitShl(b, shift, k);
      BitXor(Shl(a, shift), Shl(b, shift), k);
      if k >= shift {
        BitXor(a, b, k - shift);
      }
    }
    BitsDecide(Shl(Xor(a, b), shift), Xor(Shl(a, shift), Shl(b, shift)));
  }

  lemma ShrLinear(a: nat, b: nat, shift: nat)
    ensures Shr(Xor(a, b), shift) == Xor(Shr(a, shift), Shr(b, shift))
  {
    forall k: nat
      ensures Bit(Shr(Xor(a, b), shift), k) == Bit(Xor(Shr(a, shift), Shr(b, shift)), k)
    {
      BitShr(Xor(a, b), shift, k);
      BitShr(a, shift, k);
      BitShr(b, shift, k);
      BitXor(Shr(a, shift), Shr(b, shift), k);
      BitXor(a, b, k + shift);
    }
    BitsDecide(Shr(Xor(a, b), shift), Xor(Shr(a, shift), Shr(b, shift)));
  }

  lemma LowLinear(a: nat, b: nat, width: nat)
    ensures Low(Xor(a, b), width) == Xor(Low(a, width), Low(b, width))
  {
    forall k: nat
      ensures Bit(Low(Xor(a, b), width), k) == Bit(Xor(Low(a, width), Low(b, width)), k)
    {
      BitLow(Xor(a, b), width, k);
      BitLow(a, width, k);
      BitLow(b, width, k);
      BitXor(Low(a, width), Low(b, width), k);
      BitXor(a, b, k);
    }
    BitsDecide(Low(Xor(a, b), width), Xor(Low(a, width), Low(b, width)));
  }

  /** Masking keeps a number that already fits, and always fits. */
  lemma LowFits(n: nat, width: nat)
    ensures Fits(Low(n, width), width)
    ensures Fits(n, width) ==> Low(n, width) == n
  {
    forall k: nat | k >= width
      ensures !Bit(Low(n, width), k)
    {
      BitLow(n, width, k);
    }
    NoHighBits(Low(n, width), width);
    if Fits(n, width) {
      forall k: nat
        ensures Bit(Low(n, width), k) == Bit(n, k)
      {
        BitLow(n, width, k);
        if k >= width {
          NoHighBit(n, width, k);
        }
      }
      BitsDecide(Low(n, width), n);
    }
  }

  lemma ShlFits(n: nat, shift: nat, width: nat)
    requires Fits(n, width)
    ensures Fits(Shl(n, shift), width + shift)
  {
    forall k: nat | k >= width + shift
      ensures !Bit(Shl(n, shift), k)
    {
      BitShl(n, shift, k);
      NoHighBit(n, width, k - shift);
    }
    NoHighBits(Shl(n, shift), width + shift);
  }

  lemma FitsMore(n: nat, width: nat, more: nat)
    requires Fits(n, width) && width <= more
    ensures Fits(n, more)
  {
    forall k: nat | k >= more
      ensures !Bit(n, k)
    {
      NoHighBit(n, width, k);
    }
    NoHighBits(n, more);
  }
}
