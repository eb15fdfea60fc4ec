/**
 * Rasters on one pixel grid, as the script combines them: a pixel either
 * holds a value or is masked (no data). Pixels past the end of a sequence
 * are masked.
 */
module Raster {
  import opened Wrappers

  type Raster<T> = seq<Option<T>>

  /** The pixel at `i`, masked outside the sequence. */
  function At<T>(r: Raster<T>, i: int): Option<T> {
    if 0 <= i < |r| then r[i] else None
  }

  function Max(a: nat, b: nat): nat { if a < b then b else a }

  // ---------------------------------------------------------------- image operators

  /** An empty byte image painted with 1 over the covered pixels. */
  function Paint(covered: seq<bool>): Raster<int> {
    seq(|covered|, i requires 0 <= i < |covered| => if covered[i] then Some(1) else None)
  }

  /** Masks every pixel whose value is 0. */
  function SelfMask(r: Raster<int>): Raster<int> {
    seq(|r|, i requires 0 <= i < |r| => if r[i] == Some(0) then None else r[i])
  }

  /** Replaces every masked pixel by 0. */
  function Unmask(r: Raster<int>): Raster<int> {
    seq(|r|, i requires 0 <= i < |r| => Some(r[i].GetOr(0)))
  }

  /** Pixel-wise sum; masked where either operand is. */
  function Add(a: Raster<int>, b: Raster<int>): Raster<int> {
    seq(Max(|a|, |b|), i requires 0 <= i < Max(|a|, |b|) =>
      if At(a, i).Some? && At(b, i).Some? then Some(At(a, i).value + At(b, i).value) else None)
  }

  /** Pixel-wise difference `a - b`; masked where either operand is. */
  function Subtract(a: Raster<int>, b: Raster<int>): Raster<int> {
    seq(Max(|a|, |b|), i requires 0 <= i < Max(|a|, |b|) =>
      if At(a, i).Some? && At(b, i).Some? then Some(At(a, i).value - At(b, i).value) else None)
  }

  function Abs(r: Raster<int>): Raster<int> {
    seq(|r|, i requires 0 <= i < |r| => if r[i].Some? && r[i].value < 0 then Some(-r[i].value) else r[i])
  }

  /** 1 where the pixel is above `c`, 0 where it is not, masked where it is masked. */
  function GreaterThan(r: Raster<int>, c: int): Raster<int> {
    seq(|r|, i requires 0 <= i < |r| => if r[i].None? then None else Some(if r[i].value > c then 1 else 0))
  }

  /** 1 where the pixel is at most `c`, 0 where it is not. */
  function AtMost(r: Raster<int>, c: int): Raster<int> {
    seq(|r|, i requires 0 <= i < |r| => if r[i].None? then None else Some(if r[i].value <= c then 1 else 0))
  }

  /** 1 where the pixel is at least `c`, 0 where it is not. */
  function AtLeast(r: Raster<int>, c: int): Raster<int> {
    seq(|r|, i requires 0 <= i < |r| => if r[i].None? then None else Some(if r[i].value >= c then 1 else 0))
  }

  /** Keeps a pixel of `img` only where `mask` holds a non-zero value. */
  function UpdateMask<T>(img: Raster<T>, mask: Raster<int>): Raster<T> {
    seq(|img|, i requires 0 <= i < |img| => if At(mask, i).Some? && At(mask, i).value != 0 then img[i] else None)
  }

  /** A pixel of `img` survives `UpdateMask` exactly when the mask holds a non-zero value there, and keeps its value. */
  lemma UpdateMaskAt<T>(img: Raster<T>, mask: Raster<int>, i: int)
    ensures At(UpdateMask(img, mask), i) ==
      if At(mask, i).Some? && At(mask, i).value != 0 then At(img, i) else None
  {
  }

  // ---------------------------------------------------------------- habitat masks

  /** Whether pixel `i` is covered by a feature. */
  predicate Covered(covered: seq<bool>, i: int) {
    0 <= i < |covered| && covered[i]
  }

  /** A presence mask: every pixel that holds a value holds 1. */
  predicate IsPresenceMask(r: Raster<int>) {
    forall i :: 0 <= i < |r| && r[i].Some? ==> r[i].value == 1
  }

  /** A habitat rasterised: 1 on covered pixels, masked elsewhere. */
  function HabitatMask(covered: seq<bool>): (r: Raster<int>)
    ensures |r| == |covered| && IsPresenceMask(r)
  {
    SelfMask(Paint(covered))
  }

  /** Covered pixels hold 1 and all others are no data, never 0; an empty collection gives an all-no-data mask. */
  lemma HabitatMaskAt(covered: seq<bool>)
    ensures IsPresenceMask(HabitatMask(covered))
    ensures forall i :: At(HabitatMask(covered), i) == if Covered(covered, i) then Some(1) else None
    ensures (forall i :: 0 <= i < |covered| ==> !covered[i]) ==> forall i :: At(HabitatMask(covered), i).None?
  {
  }

  /** The union of three masks: no data made 0, summed, tested above 0, and masked where the test fails. */
  function UnionMask(m: Raster<int>, sg: Raster<int>, sm: Raster<int>): (r: Raster<int>)
    ensures |r| == Max(Max(|m|, |sg|), |sm|) && IsPresenceMask(r)
  {
    SelfMask(GreaterThan(Add(Add(Unmask(m), Unmask(sg)), Unmask(sm)), 0))
  }

  /**
   * For presence masks on one grid, a union pixel holds 1 exactly where at
   * least one of the three masks holds a value, and is no data (not 0)
   * everywhere else.
   */
  lemma {:induction false} UnionMaskAt(m: Raster<int>, sg: Raster<int>, sm: Raster<int>, i: int)
    requires |m| == |sg| == |sm|
    requires IsPresenceMask(m) && IsPresenceMask(sg) && IsPresenceMask(sm)
    ensures At(UnionMask(m, sg, sm), i) ==
      if At(m, i).Some? || At(sg, i).Some? || At(sm, i).Some? then Some(1) else None
  {
    var um, usg, usm := Unmask(m), Unmask(sg), Unmask(sm);
    var total := Add(Add(um, usg), usm);
    var n := Max(Max(|m|, |sg|), |sm|);
    assert |total| == n;
    if 0 <= i < n {
      var v := (if At(m, i).Some? then 1 else 0) + (if At(sg, i).Some? then 1 else 0) + (if At(sm, i).Some? then 1 else 0);
      assert At(um, i) == (if i < |m| then Some(if m[i].Some? then 1 else 0) else None);
      assert At(usg, i) == (if i < |sg| then Some(if sg[i].Some? then 1 else 0) else None);
      assert At(usm, i) == (if i < |sm| then Some(if sm[i].Some? then 1 else 0) else None);
      assert total[i] == Some(v);
    }
  }
}
