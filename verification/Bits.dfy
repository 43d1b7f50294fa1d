/** Bits of a machine word. A word is a natural number; bit `k` is read and set
    by halving, which is what `w & (1 << k)` and `w | (1 << k)` do. */
module Bits {
  predicate BitAt(w: nat, k: nat) {
    if k == 0 then w % 2 == 1 else BitAt(w / 2, k - 1)
  }

  function SetBit(w: nat, k: nat): nat {
    if k == 0 then w - w % 2 + 1 else 2 * SetBit(w / 2, k - 1) + w % 2
  }

  function Pow2(k: nat): (r: nat)
    ensures r > 0
  {
    if k == 0 then 1 else 2 * Pow2(k - 1)
  }

  /** Setting a bit sets that bit and no other. */
  lemma {:induction false} SetBitAt(w: nat, k: nat, j: nat)
    ensures BitAt(SetBit(w, k), j) <==> j == k || BitAt(w, j)
    decreases k
  {
    if k > 0 {
      var half := SetBit(w / 2, k - 1);
      assert (2 * half + w % 2) / 2 == half && (2 * half + w % 2) % 2 == w % 2;
      if j > 0 {
        SetBitAt(w / 2, k - 1, j - 1);
      }
    } else {
      assert SetBit(w, 0) / 2 == w / 2 && SetBit(w, 0) % 2 == 1;
    }
  }

  /** A word keeps its width. */
  lemma {:induction false} SetBitFits(w: nat, k: nat, width: nat)
    requires k < width && w < Pow2(width)
    ensures SetBit(w, k) < Pow2(width)
    decreases k
  {
    if k > 0 {
      SetBitFits(w / 2, k - 1, width - 1);
    } else {
      assert Pow2(width) % 2 == 0;
    }
  }

  lemma {:induction false} ZeroHasNoBits(k: nat)
    ensures !BitAt(0, k)
  {
    if k > 0 {
      ZeroHasNoBits(k - 1);
    }
  }
}
