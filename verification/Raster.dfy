/** Pixel memory laid out row by row, addressed by row and column. */
module Raster {
  import opened Bits

  type u32 = p: int | 0 <= p < 0x1_0000_0000

  /** Offset of the first pixel of row `y`: `y * w`, counted off row by row. */
  function Off(w: nat, y: nat): nat {
    if y == 0 then 0 else Off(w, y - 1) + w
  }

  lemma {:induction false} OffMul(w: nat, y: nat)
    ensures Off(w, y) == y * w
  {
    if y > 0 {
      OffMul(w, y - 1);
    }
  }

  lemma {:induction false} OffMono(w: nat, y: nat, z: nat)
    requires y < z
    ensures Off(w, y) + w <= Off(w, z)
  {
    if y + 1 < z {
      OffMono(w, y, z - 1);
    }
  }

  function Px(w: nat, y: nat, x: nat): nat {
    Off(w, y) + x
  }

  /** The offset as the code computes it. */
  method Offset(w: nat, y: nat, x: nat) returns (p: nat)
    ensures p == Px(w, y, x)
  {
    OffMul(w, y);
    p := y * w + x;
  }

  /** The pixel at row `y` and column `x`; reads outside the memory give 0. */
  function At(s: seq<u32>, w: nat, y: nat, x: nat): u32 {
    if Px(w, y, x) < |s| then s[Px(w, y, x)] else 0
  }

  ghost predicate IsScreen(s: seq<u32>, w: nat, h: nat) {
    |s| == Off(w, h)
  }

  /** A run of `len` pixels in row `r` touches no pixel of any other row, and stays in the memory. */
  lemma RowSegment(w: nat, h: nat, r: nat, x0: nat, len: nat)
    requires r < h && x0 + len <= w
    ensures Px(w, r, x0) + len <= Off(w, h)
    ensures forall y: nat, x: nat :: y < h && x < w ==>
              && Px(w, y, x) < Off(w, h)
              && (Px(w, r, x0) <= Px(w, y, x) < Px(w, r, x0) + len <==> y == r && x0 <= x < x0 + len)
  {
    OffMono(w, r, h);
    forall y: nat, x: nat | y < h && x < w
      ensures Px(w, y, x) < Off(w, h)
      ensures Px(w, r, x0) <= Px(w, y, x) < Px(w, r, x0) + len <==> y == r && x0 <= x < x0 + len
    {
      OffMono(w, y, h);
      if y < r { OffMono(w, y, r); }
      if r < y { OffMono(w, r, y); }
    }
  }

  /** What a write confined to one run of a row does to the screen. */
  lemma RowWrite(before: seq<u32>, after: seq<u32>, w: nat, h: nat, r: nat, x0: nat, len: nat)
    requires IsScreen(before, w, h) && |after| == |before| && r < h && x0 + len <= w
    requires forall p :: 0 <= p < |before| && !(Px(w, r, x0) <= p < Px(w, r, x0) + len) ==> after[p] == before[p]
    ensures Px(w, r, x0) + len <= |before|
    ensures forall y: nat, x: nat :: y < h && x < w && !(y == r && x0 <= x < x0 + len) ==> At(after, w, y, x) == At(before, w, y, x)
    ensures forall x: nat :: x0 <= x < x0 + len ==>
              At(after, w, r, x) == after[Px(w, r, x0) + (x - x0)] && At(before, w, r, x) == before[Px(w, r, x0) + (x - x0)]
  {
    RowSegment(w, h, r, x0, len);
  }

  /** Offset `Px(w, y, x)` lies in row `y`, column `x`. */
  lemma RowOf(w: nat, y: nat, x: nat)
    requires x < w
    ensures Px(w, y, x) / w == y && Px(w, y, x) % w == x
  {
    OffMul(w, y);
    DivModUnique(Px(w, y, x), w, y, x);
  }
}
