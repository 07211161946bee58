/** Bit operations on machine words, written out on natural numbers. */
module Words {

  function Pow2(k: nat): (r: nat)
    ensures r >= 1
  {
    if k == 0 then 1 else 2 * Pow2(k - 1)
  }

  const WORD_MAX: nat := 0xFFFF_FFFF_FFFF_FFFF

  predicate Bit(w: nat, k: nat) { if k == 0 then w % 2 == 1 else Bit(w / 2, k - 1) }

  function Or(a: nat, b: nat): nat {
    if a == 0 then b
    else if b == 0 then a
    else 2 * Or(a / 2, b / 2) + if a % 2 == 1 || b % 2 == 1 then 1 else 0
  }

  function And(a: nat, b: nat): nat {
    if a == 0 || b == 0 then 0
    else 2 * And(a / 2, b / 2) + if a % 2 == 1 && b % 2 == 1 then 1 else 0
  }

  /** The position of the lowest set bit. */
  function TrailingZeros(w: nat): nat
    requires w > 0
  {
    if w % 2 == 1 then 0 else 1 + TrailingZeros(w / 2)
  }

  lemma {:induction false} BitOfZero(k: nat)
    ensures !Bit(0, k)
  {
    if k > 0 { BitOfZero(k - 1); }
  }

  lemma {:induction false} BitOr(a: nat, b: nat, k: nat)
    ensures Bit(Or(a, b), k) <==> Bit(a, k) || Bit(b, k)
    decreases a
  {
    if a == 0 || b == 0 {
      BitOfZero(k);
    } else if k > 0 {
      BitOr(a / 2, b / 2, k - 1);
    }
  }

  lemma {:induction false} BitPow2(k: nat, j: nat)
    ensures Bit(Pow2(k), j) <==> j == k
  {
    if k == 0 {
      if j > 0 { BitOfZero(j - 1); }
    } else if j > 0 {
      BitPow2(k - 1, j - 1);
    }
  }

  lemma {:induction false} BitBound(w: nat, n: nat, k: nat)
    requires w < Pow2(n) && Bit(w, k)
    ensures k < n
  {
    if n == 0 {
      BitOfZero(k);
    } else if k > 0 {
      BitBound(w / 2, n - 1, k - 1);
    }
  }

  lemma {:induction false} OrBound(a: nat, b: nat, n: nat)
    requires a < Pow2(n) && b < Pow2(n)
    ensures Or(a, b) < Pow2(n)
    decreases n
  {
    if a != 0 && b != 0 { OrBound(a / 2, b / 2, n - 1); }
  }

  lemma {:induction false} Pow2Mono(a: nat, b: nat)
    requires a <= b
    ensures Pow2(a) <= Pow2(b)
    decreases b
  {
    if a < b { Pow2Mono(a, b - 1); }
  }

  lemma WordSize()
    ensures Pow2(64) == WORD_MAX + 1
  {
    assert Pow2(8) == 256;
    assert Pow2(16) == 0x1_0000 by { assert Pow2(12) == 0x1000; }
    assert Pow2(24) == 0x100_0000 by { assert Pow2(20) == 0x10_0000; }
    assert Pow2(32) == 0x1_0000_0000 by { assert Pow2(28) == 0x1000_0000; }
    assert Pow2(40) == 0x100_0000_0000 by { assert Pow2(36) == 0x10_0000_0000; }
    assert Pow2(48) == 0x1_0000_0000_0000 by { assert Pow2(44) == 0x1000_0000_0000; }
    assert Pow2(56) == 0x100_0000_0000_0000 by { assert Pow2(52) == 0x10_0000_0000_0000; }
    assert Pow2(60) == 0x1000_0000_0000_0000;
  }

  lemma {:induction false} AndSelf(w: nat)
    ensures And(w, w) == w
  {
    if w > 0 { AndSelf(w / 2); }
  }

  /** `w & (w - 1)` clears the lowest set bit and nothing else. */
  lemma {:induction false} ClearLowest(w: nat, k: nat)
    requires w > 0
    ensures And(w, w - 1) < w
    ensures Bit(And(w, w - 1), k) <==> Bit(w, k) && k != TrailingZeros(w)
    ensures Bit(w, TrailingZeros(w))
    ensures Bit(w, k) ==> k >= TrailingZeros(w)
    decreases w
  {
    if w % 2 == 1 {
      AndSelf(w / 2);
      assert (w - 1) / 2 == w / 2;
      if w == 1 { BitOfZero(k); if k > 0 { BitOfZero(k - 1); } }
    } else {
      assert (w - 1) / 2 == w / 2 - 1;
      if k > 0 { ClearLowest(w / 2, k - 1); } else { ClearLowest(w / 2, 0); }
    }
  }

  lemma {:induction false} SomeBit(w: nat)
    requires w > 0
    ensures Bit(w, TrailingZeros(w))
  {
    if w % 2 == 0 { SomeBit(w / 2); }
  }

  ghost predicate AllBits(w: nat, n: nat) { forall i: nat :: i < n ==> Bit(w, i) }

  /** Of the numbers of `n` bits, the largest is the one with all of them set. */
  lemma {:induction false} AllBitsMax(w: nat, n: nat)
    requires w < Pow2(n)
    ensures AllBits(w, n) <==> w == Pow2(n) - 1
  {
    if n > 0 {
      AllBitsMax(w / 2, n - 1);
      if AllBits(w, n) {
        assert Bit(w, 0);
        forall i: nat | i < n - 1 ensures Bit(w / 2, i) { assert Bit(w, i + 1); }
      }
      if w == Pow2(n) - 1 {
        forall i: nat | i < n ensures Bit(w, i) { if i > 0 { assert Bit(w / 2, i - 1); } }
      }
    }
  }
}
