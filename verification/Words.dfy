/**
 * The machine word behind the replay bitmap, as a natural number with explicit truncation.
 * `BitAnd`, `BitOr` and `Shl` are the machine operators; `Bit` reads one binary digit.
 */
module Words {

  function Pow2(n: nat): (p: nat)
    ensures p > 0
  {
    if n == 0 then 1 else 2 * Pow2(n - 1)
  }

  predicate Bit(x: nat, i: nat)
    decreases i
  {
    if i == 0 then x % 2 == 1 else Bit(x / 2, i - 1)
  }

  function BitAnd(x: nat, y: nat): nat {
    if x == 0 || y == 0 then 0
    else (if x % 2 == 1 && y % 2 == 1 then 1 else 0) + 2 * BitAnd(x / 2, y / 2)
  }

  function BitOr(x: nat, y: nat): nat
    decreases x + y
  {
    if x == 0 then y else if y == 0 then x
    else (if x % 2 == 1 || y % 2 == 1 then 1 else 0) + 2 * BitOr(x / 2, y / 2)
  }

  /** The low `k` binary digits of `x`. */
  function Truncate(x: nat, k: nat): nat
    decreases x, k
  {
    if k == 0 then 0 else x % 2 + 2 * Truncate(x / 2, k - 1)
  }

  /** `x << s` in a `w`-bit word: `s` doublings, each dropping the digit that leaves the word. */
  function Shl(x: nat, s: nat, w: nat): nat
    decreases s
  {
    if s == 0 then x else Shl(Truncate(2 * x, w), s - 1, w)
  }

  lemma {:induction false} ZeroHasNoBits(i: nat)
    ensures !Bit(0, i)
    decreases i
  {
    if i > 0 { ZeroHasNoBits(i - 1); }
  }

  lemma {:induction false} AndBit(x: nat, y: nat, i: nat)
    ensures Bit(BitAnd(x, y), i) == (Bit(x, i) && Bit(y, i))
    decreases i
  {
    if x == 0 || y == 0 {
      ZeroHasNoBits(i);
    } else if i > 0 {
      AndBit(x / 2, y / 2, i - 1);
      assert BitAnd(x, y) / 2 == BitAnd(x / 2, y / 2);
    }
  }

  lemma HalveOr(x: nat, y: nat)
    ensures BitOr(x, y) / 2 == BitOr(x / 2, y / 2)
    ensures BitOr(x, y) % 2 == 1 <==> x % 2 == 1 || y % 2 == 1
  {
  }

  lemma {:induction false} OrBit(x: nat, y: nat, i: nat)
    ensures Bit(BitOr(x, y), i) == (Bit(x, i) || Bit(y, i))
    decreases i
  {
    HalveOr(x, y);
    if i > 0 { OrBit(x / 2, y / 2, i - 1); }
  }

  lemma {:induction false} BitsBelow(x: nat, k: nat, i: nat)
    requires x < Pow2(k) && k <= i
    ensures !Bit(x, i)
    decreases k
  {
    if k == 0 {
      ZeroHasNoBits(i);
    } else {
      BitsBelow(x / 2, k - 1, i - 1);
    }
  }

  /** A non-zero number has a digit. */
  lemma {:induction false} SomeBit(x: nat) returns (i: nat)
    requires x != 0
    ensures Bit(x, i)
    decreases x
  {
    if x % 2 == 1 {
      i := 0;
    } else {
      i := SomeBit(x / 2);
      i := i + 1;
    }
  }

  lemma {:induction false} TruncatedBit(x: nat, k: nat, i: nat)
    requires i < k
    ensures Bit(Truncate(x, k), i) == Bit(x, i)
    decreases i
  {
    if i > 0 {
      TruncatedBit(x / 2, k - 1, i - 1);
      assert Truncate(x, k) / 2 == Truncate(x / 2, k - 1);
    }
  }

  lemma {:induction false} TruncateBelow(x: nat, k: nat)
    ensures Truncate(x, k) < Pow2(k)
    decreases k
  {
    if k > 0 { TruncateBelow(x / 2, k - 1); }
  }

  /** Shifting moves every digit up and drops those that pass the top of the word. */
  lemma {:induction false} ShlBit(x: nat, s: nat, w: nat, i: nat)
    requires i < w
    ensures Bit(Shl(x, s, w), i) == (s <= i && Bit(x, i - s))
    decreases s
  {
    if s > 0 {
      ShlBit(Truncate(2 * x, w), s - 1, w, i);
      if s - 1 <= i {
        TruncatedBit(2 * x, w, i - (s - 1));
        assert 2 * x / 2 == x;
      }
    }
  }

  lemma {:induction false} ShlBelow(x: nat, s: nat, w: nat)
    requires x < Pow2(w)
    ensures Shl(x, s, w) < Pow2(w)
    decreases s
  {
    if s > 0 {
      TruncateBelow(2 * x, w);
      ShlBelow(Truncate(2 * x, w), s - 1, w);
    }
  }

  /** The digit test of the source, `word & (1 << d) != 0`. */
  lemma MaskTestsBit(x: nat, d: nat, w: nat)
    requires d < w
    ensures BitAnd(x, Shl(1, d, w)) != 0 <==> Bit(x, d)
  {
    var mask := Shl(1, d, w);
    ShlBit(1, d, w, d);
    AndBit(x, mask, d);
    ZeroHasNoBits(d);
    if BitAnd(x, mask) != 0 {
      var i := SomeBit(BitAnd(x, mask));
      AndBit(x, mask, i);
      MaskHasOneBit(d, w, i);
    }
  }

  lemma MaskHasOneBit(d: nat, w: nat, i: nat)
    requires d < w
    ensures Bit(Shl(1, d, w), i) == (i == d)
  {
    assert 1 < Pow2(w) by { assert Pow2(w) == 2 * Pow2(w - 1); }
    if i < w {
      ShlBit(1, d, w, i);
      if d < i { ZeroHasNoBits(i - d - 1); }
    } else {
      ShlBelow(1, d, w);
      BitsBelow(Shl(1, d, w), w, i);
    }
  }

  /** The digit update of the source, `word | 1 << d`. */
  lemma SetBit(x: nat, d: nat, w: nat, i: nat)
    requires d < w
    ensures Bit(BitOr(x, Shl(1, d, w)), i) == (i == d || Bit(x, i))
  {
    MaskHasOneBit(d, w, i);
    OrBit(x, Shl(1, d, w), i);
  }

  lemma OneIsBitZero(i: nat)
    ensures Bit(1, i) == (i == 0)
  {
    if i > 0 { ZeroHasNoBits(i - 1); }
  }

  /** The window advance of the source, `(word << shift) | 1`. */
  lemma AdvancedBit(x: nat, shift: nat, w: nat, i: nat)
    requires 0 < shift && i < w
    ensures Bit(BitOr(Shl(x, shift, w), 1), i) == (i == 0 || (shift <= i && Bit(x, i - shift)))
  {
    OneIsBitZero(i);
    OrBit(Shl(x, shift, w), 1, i);
    ShlBit(x, shift, w, i);
  }
}
