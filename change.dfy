/**
 * The NDVI change layer. The model keeps NDVI in raw MODIS units (the
 * stored integer, ten thousand times the index) and compares exactly, so a
 * threshold of 0.05 becomes 500; the script compares scaled floating-point
 * values, where a delta of exactly the threshold may round either way.
 */
module Change {
  import opened Wrappers
  import opened Raster

  /** A delta at or below minus the threshold is loss. */
  predicate IsLoss(d: int, thr: int) { d <= -thr }

  /** A delta at or above the threshold is gain. */
  predicate IsGain(d: int, thr: int) { d >= thr }

  /** The change between two composites, masked to the national extent. */
  function DeltaNdvi(baseline: Raster<int>, comparison: Raster<int>, ausMask: Raster<int>): (r: Raster<int>)
    ensures forall i :: At(r, i).Some? <==>
      At(baseline, i).Some? && At(comparison, i).Some? && At(ausMask, i).Some? && At(ausMask, i).value != 0
    ensures forall i :: At(r, i).Some? ==> At(r, i).value == At(comparison, i).value - At(baseline, i).value
  {
    UpdateMask(Subtract(comparison, baseline), ausMask)
  }

  function LossMask(d: Raster<int>, thr: int): Raster<int> { AtMost(d, -thr) }

  function GainMask(d: Raster<int>, thr: int): Raster<int> { AtLeast(d, thr) }

  /**
   * Each delta pixel is classified: 1 in the loss mask exactly when it is
   * loss and 1 in the gain mask exactly when it is gain; a masked delta
   * pixel stays masked in both. With a positive threshold no pixel is both
   * and a pixel closer to 0 than the threshold is neither; with threshold 0
   * a zero delta is both.
   */
  lemma ClassifyAt(d: Raster<int>, thr: int, i: int)
    ensures At(d, i).None? ==> At(LossMask(d, thr), i).None? && At(GainMask(d, thr), i).None?
    ensures At(d, i).Some? ==>
      At(LossMask(d, thr), i) == Some(if IsLoss(At(d, i).value, thr) then 1 else 0) &&
      At(GainMask(d, thr), i) == Some(if IsGain(At(d, i).value, thr) then 1 else 0)
    ensures thr > 0 ==> !(At(LossMask(d, thr), i) == Some(1) && At(GainMask(d, thr), i) == Some(1))
    ensures At(d, i).Some? && -thr < At(d, i).value < thr ==>
      At(LossMask(d, thr), i) == Some(0) && At(GainMask(d, thr), i) == Some(0)
    ensures At(d, i) == Some(0) && thr == 0 ==>
      At(LossMask(d, thr), i) == Some(1) && At(GainMask(d, thr), i) == Some(1)
  {
  }

  /**
   * The filtered change layer of `renderDeltaBC`: masked to the habitat
   * union and, with a positive threshold, to large changes. The script
   * defines this renderer but never calls it, so the filter never reaches
   * the map; the function specifies what it would draw.
   */
  function DisplayDelta(t1: Raster<int>, t2: Raster<int>, unionMask: Raster<int>, thr: int): Raster<int> {
    var diff := UpdateMask(Subtract(t2, t1), unionMask);
    if thr > 0 then UpdateMask(diff, AtLeast(Abs(diff), thr)) else diff
  }

  /**
   * A pixel of the filtered layer is the habitat-masked delta where that delta
   * is at least the threshold in size, or anywhere when the threshold is
   * not positive; with a positive threshold, the kept pixels are exactly
   * the loss and gain pixels.
   */
  lemma DisplayDeltaAt(t1: Raster<int>, t2: Raster<int>, unionMask: Raster<int>, thr: int, i: int)
    ensures var diff := UpdateMask(Subtract(t2, t1), unionMask);
      At(DisplayDelta(t1, t2, unionMask, thr), i) ==
        if At(diff, i).Some? && (thr <= 0 || At(diff, i).value >= thr || At(diff, i).value <= -thr)
        then At(diff, i) else None
    ensures var diff := UpdateMask(Subtract(t2, t1), unionMask);
      thr > 0 ==>
        (At(DisplayDelta(t1, t2, unionMask, thr), i).Some? <==>
          At(diff, i).Some? && (IsLoss(At(diff, i).value, thr) || IsGain(At(diff, i).value, thr)))
  {
    var diff := UpdateMask(Subtract(t2, t1), unionMask);
    if thr > 0 {
      UpdateMaskAt(diff, AtLeast(Abs(diff), thr), i);
    }
  }
}
