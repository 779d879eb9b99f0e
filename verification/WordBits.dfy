/** 32-bit words as the sets of their one-bits: each operation on uint32_t used on the replay
    window is the operation on sets named beside it. A word is a number below 2^32, and the
    operations are defined on its binary digits. */
module WordBits {
  import opened Wrappers

  type Word = s: set<nat> | forall d :: d in s ==> d < 32

  // ---------------------------------------------------------------------------
  // Operations of the machine
  // ---------------------------------------------------------------------------

  function Or(a: nat, b: nat): nat {
    if a == 0 && b == 0 then 0
    else 2 * Or(a / 2, b / 2) + (if a % 2 == 1 || b % 2 == 1 then 1 else 0)
  }

  function And(a: nat, b: nat): nat {
    if a == 0 && b == 0 then 0
    else 2 * And(a / 2, b / 2) + (if a % 2 == 1 && b % 2 == 1 then 1 else 0)
  }

  /** w << k, one place at a time: what leaves the word is lost. */
  function ShiftLeft(w: uint32, k: nat): uint32 {
    if k == 0 then w else 2 * ShiftLeft(w, k - 1) % 0x1_0000_0000
  }

  function Pow2(n: nat): nat {
    if n == 0 then 1 else 2 * Pow2(n - 1)
  }

  // ---------------------------------------------------------------------------
  // Sets of positions
  // ---------------------------------------------------------------------------

  predicate Bit(w: nat, d: nat) {
    if d == 0 then w % 2 == 1 else Bit(w / 2, d - 1)
  }

  /** The positions of the one-bits of w. */
  function Bits(w: nat): Word {
    set d: nat | d < 32 && Bit(w, d)
  }

  /** Positions moved up by k: those that leave the word are lost. */
  function Shl(w: Word, k: nat): Word {
    set d: nat | d < 32 && MovesTo(w, k, d)
  }

  predicate MovesTo(w: Word, k: nat, d: nat) {
    d >= k && d - k in w
  }

  lemma {:induction false} OrBit(a: nat, b: nat, d: nat)
    ensures Bit(Or(a, b), d) <==> Bit(a, d) || Bit(b, d)
  {
    if a == 0 && b == 0 {
      ZeroHasNoBit(d);
    } else if d > 0 {
      OrBit(a / 2, b / 2, d - 1);
    }
  }

  lemma {:induction false} AndBit(a: nat, b: nat, d: nat)
    ensures Bit(And(a, b), d) <==> Bit(a, d) && Bit(b, d)
  {
    if a == 0 && b == 0 {
      ZeroHasNoBit(d);
    } else if d > 0 {
      AndBit(a / 2, b / 2, d - 1);
    }
  }

  lemma {:induction false} ZeroHasNoBit(d: nat)
    ensures !Bit(0, d)
  {
    if d > 0 {
      ZeroHasNoBit(d - 1);
    }
  }

  lemma {:induction false} OrIsBelow(a: nat, b: nat, n: nat)
    requires a < Pow2(n) && b < Pow2(n)
    ensures Or(a, b) < Pow2(n)
  {
    if n > 0 && !(a == 0 && b == 0) {
      OrIsBelow(a / 2, b / 2, n - 1);
    }
  }

  lemma WordBound()
    ensures Pow2(32) == 0x1_0000_0000
  {
    assert Pow2(8) == 0x100;
    assert Pow2(16) == 0x1_0000;
    assert Pow2(24) == 0x100_0000;
  }

  /** `|` is union. */
  lemma OrIsUnion(w: uint32, v: uint32)
    ensures Or(w, v) < 0x1_0000_0000
    ensures Bits(Or(w, v)) == Bits(w) + Bits(v)
  {
    WordBound();
    OrIsBelow(w, v, 32);
    forall d: nat | d < 32
      ensures Bit(Or(w, v), d) <==> Bit(w, d) || Bit(v, d)
    {
      OrBit(w, v, d);
    }
  }

  /** Taking the top bit away leaves the bits below it. */
  lemma {:induction false} WithoutTop(w: nat, n: nat, e: nat)
    requires w >= Pow2(n) && e < n
    ensures Bit(w - Pow2(n), e) <==> Bit(w, e)
  {
    var p := Pow2(n - 1);
    assert Pow2(n) == 2 * p;
    assert (w - 2 * p) / 2 == w / 2 - p && (w - 2 * p) % 2 == w % 2;
    if e > 0 {
      WithoutTop(w / 2, n - 1, e - 1);
    }
  }

  lemma ShiftedOnce(w: uint32, d: nat)
    requires d < 32
    ensures Bit(2 * w % 0x1_0000_0000, d) <==> d >= 1 && Bit(w, d - 1)
  {
    if w < 0x8000_0000 {
      assert 2 * w % 0x1_0000_0000 == 2 * w;
    } else {
      assert 2 * w % 0x1_0000_0000 == 2 * (w - 0x8000_0000);
      if d > 0 {
        WordBound();
        assert Pow2(31) == 0x8000_0000;
        WithoutTop(w, 31, d - 1);
      }
    }
  }

  lemma {:induction false} ShiftedBit(w: uint32, k: nat, d: nat)
    requires d < 32
    ensures Bit(ShiftLeft(w, k), d) <==> d >= k && Bit(w, d - k)
  {
    if k > 0 {
      ShiftedOnce(ShiftLeft(w, k - 1), d);
      if d > 0 {
        ShiftedBit(w, k - 1, d - 1);
      }
    }
  }

  /** `<<` moves every position up. */
  lemma ShiftIsShl(w: uint32, k: nat)
    ensures Bits(ShiftLeft(w, k)) == Shl(Bits(w), k)
  {
    forall d: nat | d < 32
      ensures d in Bits(ShiftLeft(w, k)) <==> d in Shl(Bits(w), k)
    {
      ShiftedBit(w, k, d);
      assert d >= k ==> (d - k in Bits(w) <==> Bit(w, d - k));
    }
  }

  lemma {:induction false} OneBit(e: nat)
    ensures Bit(1, e) <==> e == 0
  {
    if e > 0 {
      ZeroHasNoBit(e - 1);
    }
  }

  /** 1 << k is the word with the one bit k. */
  lemma OneIsSingleton(k: nat)
    requires k < 32
    ensures Bits(ShiftLeft(1, k)) == {k}
  {
    forall d: nat | d < 32
      ensures Bit(ShiftLeft(1, k), d) <==> d == k
    {
      ShiftedBit(1, k, d);
      if d >= k {
        OneBit(d - k);
      }
    }
  }

  lemma {:induction false} SomeBit(w: nat, n: nat) returns (d: nat)
    requires 0 < w < Pow2(n)
    ensures d < n && Bit(w, d)
  {
    if w % 2 == 1 {
      d := 0;
    } else {
      d := SomeBit(w / 2, n - 1);
      d := d + 1;
    }
  }

  lemma {:induction false} AndIsBelow(a: nat, b: nat, n: nat)
    requires a < Pow2(n) && b < Pow2(n)
    ensures And(a, b) < Pow2(n)
  {
    if n > 0 && !(a == 0 && b == 0) {
      AndIsBelow(a / 2, b / 2, n - 1);
    }
  }

  /** `w & v` is nonzero exactly when the sets meet. */
  lemma AndMeets(w: uint32, v: uint32)
    ensures And(w, v) != 0 <==> Bits(w) * Bits(v) != {}
  {
    if And(w, v) != 0 {
      WordBound();
      AndIsBelow(w, v, 32);
      var d := SomeBit(And(w, v), 32);
      AndBit(w, v, d);
      assert d in Bits(w) * Bits(v);
    } else if d :| d in Bits(w) * Bits(v) {
      AndBit(w, v, d);
      ZeroHasNoBit(d);
    }
  }
}
