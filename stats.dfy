/**
 * Per-habitat area, loss and gain statistics for one region: pixel area in
 * hectares masked by each habitat, masked again by the loss and gain masks,
 * and summed over the region where habitat exists.
 */
module Stats {
  import opened Wrappers
  import opened Raster
  import opened Change

  // ---------------------------------------------------------------- bands

  /** Pixel area in square metres converted to hectares. */
  function Hectares(pxAreaM2: Raster<real>): (r: Raster<real>)
    ensures |r| == |pxAreaM2|
    ensures forall i :: 0 <= i < |r| ==> (r[i].Some? <==> pxAreaM2[i].Some?)
    ensures forall i :: 0 <= i < |r| && r[i].Some? ==> r[i].value * 10000.0 == pxAreaM2[i].value
    ensures NonNegative(pxAreaM2) ==> NonNegative(r)
  {
    seq(|pxAreaM2|, i requires 0 <= i < |pxAreaM2| =>
      if pxAreaM2[i].Some? then Some(pxAreaM2[i].value / 10000.0) else None)
  }

  /** One band per habitat and one for the union. */
  datatype Bands = Bands(m: Raster<real>, sg: Raster<real>, sm: Raster<real>, all: Raster<real>)

  /** The hectare raster masked by each habitat mask and by the union mask. */
  function AreaHaBands(ha: Raster<real>, mMask: Raster<int>, sgMask: Raster<int>, smMask: Raster<int>, allMask: Raster<int>): (r: Bands)
    ensures SubBand(r.m, ha) && SubBand(r.sg, ha) && SubBand(r.sm, ha) && SubBand(r.all, ha)
    ensures NonNegative(ha) ==> NonNegativeBands(r)
  {
    MaskedIsSubBand(ha, mMask);
    MaskedIsSubBand(ha, sgMask);
    MaskedIsSubBand(ha, smMask);
    MaskedIsSubBand(ha, allMask);
    Bands(UpdateMask(ha, mMask), UpdateMask(ha, sgMask), UpdateMask(ha, smMask), UpdateMask(ha, allMask))
  }

  /** Every band of `b` masked again by `mask`. */
  function MaskBands(b: Bands, mask: Raster<int>): Bands {
    Bands(UpdateMask(b.m, mask), UpdateMask(b.sg, mask), UpdateMask(b.sm, mask), UpdateMask(b.all, mask))
  }

  /** Wherever `sub` holds a value, `sup` holds the same value. */
  predicate SubBand(sub: Raster<real>, sup: Raster<real>) {
    forall i :: 0 <= i < |sub| && sub[i].Some? ==> At(sup, i) == sub[i]
  }

  /** No pixel holds a value in both rasters. */
  predicate Disjoint(a: Raster<real>, b: Raster<real>) {
    forall i :: 0 <= i < |a| && a[i].Some? ==> At(b, i).None?
  }

  predicate NonNegative(r: Raster<real>) {
    forall i :: 0 <= i < |r| && r[i].Some? ==> r[i].value >= 0.0
  }

  /** Masking only removes pixels: a band masked again is a sub-band of the band. */
  lemma MaskedIsSubBand(band: Raster<real>, mask: Raster<int>)
    ensures SubBand(UpdateMask(band, mask), band)
  {
    forall i | At(UpdateMask(band, mask), i).Some?
      ensures At(band, i) == At(UpdateMask(band, mask), i)
    {
      UpdateMaskAt(band, mask, i);
    }
  }

  // ---------------------------------------------------------------- region sums

  /** Whether pixel `i` lies in the region. */
  predicate InRegion(region: seq<bool>, i: int) {
    0 <= i < |region| && region[i]
  }

  /** What pixel `i` adds to a sum over the region: its value, or nothing. */
  function Contribution(band: Raster<real>, region: seq<bool>, i: int): Option<real> {
    if InRegion(region, i) then At(band, i) else None
  }

  /** Sum of two partial sums, where `None` means no pixel contributed. */
  function Plus(a: Option<real>, b: Option<real>): Option<real> {
    match (a, b)
    case (None, _) => b
    case (_, None) => a
    case (Some(x), Some(y)) => Some(x + y)
  }

  /** A partial sum read as a number, with no data read as 0. */
  function Val(a: Option<real>): real { a.GetOr(0.0) }

  /** `a` is no data, or both hold values and `a`'s is at most `b`'s. */
  predicate OptLe(a: Option<real>, b: Option<real>) {
    a.None? || (b.Some? && a.value <= b.value)
  }

  /** The sum over the first `n` pixels of the region; `None` when none of them contributes. */
  function SumTo(band: Raster<real>, region: seq<bool>, n: nat): Option<real> {
    if n == 0 then None else Plus(SumTo(band, region, n - 1), Contribution(band, region, n - 1))
  }

  /** The sum reducer over a region: `None` when no pixel contributes. */
  function RegionSum(band: Raster<real>, region: seq<bool>): (r: Option<real>)
    ensures r.None? <==> forall i :: 0 <= i < |band| ==> Contribution(band, region, i).None?
  {
    SumToNone(band, region, |band|);
    SumTo(band, region, |band|)
  }

  /** A partial sum is no data exactly when none of its pixels contributes. */
  lemma {:induction false} SumToNone(band: Raster<real>, region: seq<bool>, n: nat)
    ensures SumTo(band, region, n).None? <==> forall i :: 0 <= i < n ==> Contribution(band, region, i).None?
  {
    if n > 0 {
      SumToNone(band, region, n - 1);
    }
  }

  /** Pixels past the end of the band add nothing. */
  lemma {:induction false} SumPastEnd(band: Raster<real>, region: seq<bool>, n: nat)
    requires n >= |band|
    ensures SumTo(band, region, n) == RegionSum(band, region)
  {
    if n > |band| {
      SumPastEnd(band, region, n - 1);
    }
  }

  /** A sum over non-negative pixels is non-negative. */
  lemma {:induction false} SumNonNegative(band: Raster<real>, region: seq<bool>, n: nat)
    requires NonNegative(band)
    ensures Val(SumTo(band, region, n)) >= 0.0
    ensures SumTo(band, region, n).Some? ==> SumTo(band, region, n).value >= 0.0
  {
    if n > 0 {
      SumNonNegative(band, region, n - 1);
    }
  }

  /** Over non-negative pixels, a sub-band sums to no more than the band, and holds a value only where the band does. */
  lemma {:induction false} SubBandSum(sub: Raster<real>, sup: Raster<real>, region: seq<bool>, n: nat)
    requires SubBand(sub, sup) && NonNegative(sup)
    ensures OptLe(SumTo(sub, region, n), SumTo(sup, region, n))
  {
    if n > 0 {
      SubBandSum(sub, sup, region, n - 1);
      SumNonNegative(sup, region, n - 1);
      var c, d := Contribution(sub, region, n - 1), Contribution(sup, region, n - 1);
      assert c.Some? ==> d == c;
      assert d.Some? ==> d.value >= 0.0;
    }
  }

  /** Over non-negative pixels, a sub-band's region sum is at most the band's. */
  lemma SubBandRegionSum(sub: Raster<real>, sup: Raster<real>, region: seq<bool>)
    requires SubBand(sub, sup) && NonNegative(sup)
    ensures OptLe(RegionSum(sub, region), RegionSum(sup, region))
  {
    var n := Max(|sub|, |sup|);
    SubBandSum(sub, sup, region, n);
    SumPastEnd(sub, region, n);
    SumPastEnd(sup, region, n);
  }

  /** Two disjoint sub-bands of a non-negative band together sum, over a region, to at most the band's sum. */
  lemma DisjointRegionSum(a: Raster<real>, b: Raster<real>, sup: Raster<real>, region: seq<bool>)
    requires SubBand(a, sup) && SubBand(b, sup) && NonNegative(sup) && Disjoint(a, b)
    ensures Val(RegionSum(a, region)) + Val(RegionSum(b, region)) <= Val(RegionSum(sup, region))
  {
    var n := Max(Max(|a|, |b|), |sup|);
    DisjointSubBandsSum(a, b, sup, region, n);
    SumPastEnd(a, region, n);
    SumPastEnd(b, region, n);
    SumPastEnd(sup, region, n);
  }

  /** Two sub-bands that never share a pixel together sum to no more than the band. */
  lemma {:induction false} DisjointSubBandsSum(a: Raster<real>, b: Raster<real>, sup: Raster<real>, region: seq<bool>, n: nat)
    requires SubBand(a, sup) && SubBand(b, sup) && NonNegative(sup) && Disjoint(a, b)
    ensures Val(SumTo(a, region, n)) + Val(SumTo(b, region, n)) <= Val(SumTo(sup, region, n))
  {
    if n > 0 {
      DisjointSubBandsSum(a, b, sup, region, n - 1);
      var ca, cb, cs := Contribution(a, region, n - 1), Contribution(b, region, n - 1), Contribution(sup, region, n - 1);
      assert ca.Some? ==> cs == ca;
      assert cb.Some? ==> cs == cb;
      assert !(ca.Some? && cb.Some?);
      assert cs.Some? ==> cs.value >= 0.0;
      assert Val(SumTo(a, region, n)) == Val(SumTo(a, region, n - 1)) + Val(ca);
      assert Val(SumTo(b, region, n)) == Val(SumTo(b, region, n - 1)) + Val(cb);
      assert Val(SumTo(sup, region, n)) == Val(SumTo(sup, region, n - 1)) + Val(cs);
    }
  }

  /** Sums over two regions agree when every pixel of the band that holds a value is in both or in neither. */
  lemma {:induction false} SumSameContributions(band: Raster<real>, r1: seq<bool>, r2: seq<bool>, n: nat)
    requires forall i :: At(band, i).Some? ==> (InRegion(r1, i) <==> InRegion(r2, i))
    ensures SumTo(band, r1, n) == SumTo(band, r2, n)
  {
    if n > 0 {
      SumSameContributions(band, r1, r2, n - 1);
      assert Contribution(band, r1, n - 1) == Contribution(band, r2, n - 1);
    }
  }

  // ---------------------------------------------------------------- the statistics

  datatype Habitats = Habitats(m: Option<real>, sg: Option<real>, sm: Option<real>, all: Option<real>)

  /** The nested result: areas, loss and gain, each per habitat and for all habitats. */
  datatype StatsDict = StatsDict(areas: Habitats, loss: Habitats, gain: Habitats)

  function SumBands(b: Bands, region: seq<bool>): Habitats {
    Habitats(RegionSum(b.m, region), RegionSum(b.sg, region), RegionSum(b.sm, region), RegionSum(b.all, region))
  }

  /**
   * The requested region intersected with the union mask's geometry, read
   * as the region's pixels where the union mask has data.
   */
  function EffectiveRegion(geom: seq<bool>, allMask: Raster<int>): (r: seq<bool>)
    ensures |r| == |geom|
    ensures forall i :: InRegion(r, i) ==> InRegion(geom, i) && At(allMask, i).Some?
  {
    seq(|geom|, i requires 0 <= i < |geom| => geom[i] && At(allMask, i).Some?)
  }

  /** The three habitat masks and their union, rasterised from coverage on one grid. */
  datatype Masks = Masks(m: Raster<int>, sg: Raster<int>, sm: Raster<int>, all: Raster<int>)

  function BuildMasks(mCov: seq<bool>, sgCov: seq<bool>, smCov: seq<bool>): Masks {
    var m, sg, sm := HabitatMask(mCov), HabitatMask(sgCov), HabitatMask(smCov);
    Masks(m, sg, sm, UnionMask(m, sg, sm))
  }

  /** The area bands, then the loss and gain bands derived from them. */
  function StatBands(pxAreaM2: Raster<real>, masks: Masks, d: Raster<int>, thr: int): (Bands, Bands, Bands) {
    var haBands := AreaHaBands(Hectares(pxAreaM2), masks.m, masks.sg, masks.sm, masks.all);
    (haBands, MaskBands(haBands, LossMask(d, thr)), MaskBands(haBands, GainMask(d, thr)))
  }

  /**
   * The fast statistics for one region geometry (as pixel membership):
   * the twelve bands summed over the region's part of the union mask.
   */
  function FastStats(geom: seq<bool>, pxAreaM2: Raster<real>, mCov: seq<bool>, sgCov: seq<bool>, smCov: seq<bool>,
                     ausMask: Raster<int>, baseline: Raster<int>, comparison: Raster<int>, thr: int): StatsDict
  {
    var masks := BuildMasks(mCov, sgCov, smCov);
    var bands := StatBands(pxAreaM2, masks, DeltaNdvi(baseline, comparison, ausMask), thr);
    var gEff := EffectiveRegion(geom, masks.all);
    StatsDict(SumBands(bands.0, gEff), SumBands(bands.1, gEff), SumBands(bands.2, gEff))
  }

  // ---------------------------------------------------------------- what the statistics promise

  /** Every band of `sub` is a sub-band of the same band of `sup`. */
  predicate SubBands(sub: Bands, sup: Bands) {
    SubBand(sub.m, sup.m) && SubBand(sub.sg, sup.sg) && SubBand(sub.sm, sup.sm) && SubBand(sub.all, sup.all)
  }

  predicate NonNegativeBands(b: Bands) {
    NonNegative(b.m) && NonNegative(b.sg) && NonNegative(b.sm) && NonNegative(b.all)
  }

  predicate DisjointBands(a: Bands, b: Bands) {
    Disjoint(a.m, b.m) && Disjoint(a.sg, b.sg) && Disjoint(a.sm, b.sm) && Disjoint(a.all, b.all)
  }

  lemma MaskedNonNegative(band: Raster<real>, mask: Raster<int>)
    requires NonNegative(band)
    ensures NonNegative(UpdateMask(band, mask))
  {
  }

  /** A habitat's area band lies inside the all-habitats band: the union mask covers each habitat mask. */
  lemma {:induction false} HabitatInsideUnion(ha: Raster<real>, mCov: seq<bool>, sgCov: seq<bool>, smCov: seq<bool>)
    requires |mCov| == |sgCov| == |smCov|
    ensures var masks := BuildMasks(mCov, sgCov, smCov);
      var a := AreaHaBands(ha, masks.m, masks.sg, masks.sm, masks.all);
      SubBand(a.m, a.all) && SubBand(a.sg, a.all) && SubBand(a.sm, a.all)
  {
    var masks := BuildMasks(mCov, sgCov, smCov);
    var a := AreaHaBands(ha, masks.m, masks.sg, masks.sm, masks.all);
    HabitatMaskAt(mCov);
    HabitatMaskAt(sgCov);
    HabitatMaskAt(smCov);
    forall i | 0 <= i < |ha|
      ensures At(a.all, i) == (if At(masks.m, i).Some? || At(masks.sg, i).Some? || At(masks.sm, i).Some? then ha[i] else None)
    {
      UnionMaskAt(masks.m, masks.sg, masks.sm, i);
      UpdateMaskAt(ha, masks.all, i);
    }
    forall i | 0 <= i < |ha|
      ensures At(a.m, i).Some? ==> At(masks.m, i).Some?
      ensures At(a.sg, i).Some? ==> At(masks.sg, i).Some?
      ensures At(a.sm, i).Some? ==> At(masks.sm, i).Some?
    {
      UpdateMaskAt(ha, masks.m, i);
      UpdateMaskAt(ha, masks.sg, i);
      UpdateMaskAt(ha, masks.sm, i);
    }
  }

  /** The band relations behind every bound: non-negative areas, loss and gain inside area, habitats inside all, and loss and gain apart when the threshold is positive. */
  lemma {:induction false} BandFacts(pxAreaM2: Raster<real>, mCov: seq<bool>, sgCov: seq<bool>, smCov: seq<bool>, d: Raster<int>, thr: int)
    requires NonNegative(pxAreaM2) && |mCov| == |sgCov| == |smCov|
    ensures var bands := StatBands(pxAreaM2, BuildMasks(mCov, sgCov, smCov), d, thr);
      NonNegativeBands(bands.0) && SubBands(bands.1, bands.0) && SubBands(bands.2, bands.0) &&
      SubBand(bands.0.m, bands.0.all) && SubBand(bands.0.sg, bands.0.all) && SubBand(bands.0.sm, bands.0.all) &&
      (thr > 0 ==> DisjointBands(bands.1, bands.2))
  {
    var masks := BuildMasks(mCov, sgCov, smCov);
    var ha := Hectares(pxAreaM2);
    var bands := StatBands(pxAreaM2, masks, d, thr);
    var a, l, g := bands.0, bands.1, bands.2;
    MaskedNonNegative(ha, masks.m);
    MaskedNonNegative(ha, masks.sg);
    MaskedNonNegative(ha, masks.sm);
    MaskedNonNegative(ha, masks.all);
    HabitatInsideUnion(ha, mCov, sgCov, smCov);
    var lm, gm := LossMask(d, thr), GainMask(d, thr);
    MaskedIsSubBand(a.m, lm);
    MaskedIsSubBand(a.sg, lm);
    MaskedIsSubBand(a.sm, lm);
    MaskedIsSubBand(a.all, lm);
    MaskedIsSubBand(a.m, gm);
    MaskedIsSubBand(a.sg, gm);
    MaskedIsSubBand(a.sm, gm);
    MaskedIsSubBand(a.all, gm);
    if thr > 0 {
      forall i | 0 <= i < |ha|
        ensures !(At(lm, i) == Some(1) && At(gm, i) == Some(1))
        ensures At(lm, i).Some? && At(lm, i).value != 0 ==> At(lm, i) == Some(1)
        ensures At(gm, i).Some? && At(gm, i).value != 0 ==> At(gm, i) == Some(1)
      {
        ClassifyAt(d, thr, i);
      }
      forall b: Raster<real> | b == a.m || b == a.sg || b == a.sm || b == a.all
        ensures Disjoint(UpdateMask(b, lm), UpdateMask(b, gm))
      {
        forall i | 0 <= i < |b| && UpdateMask(b, lm)[i].Some?
          ensures At(UpdateMask(b, gm), i).None?
        {
          UpdateMaskAt(b, lm, i);
          UpdateMaskAt(b, gm, i);
        }
      }
    }
  }

  /** Per habitat, a sub-band's sum is at most the band's. */
  lemma HabitatSumsBounded(sub: Bands, sup: Bands, region: seq<bool>)
    requires SubBands(sub, sup) && NonNegativeBands(sup)
    ensures var s, t := SumBands(sub, region), SumBands(sup, region);
      OptLe(s.m, t.m) && OptLe(s.sg, t.sg) && OptLe(s.sm, t.sm) && OptLe(s.all, t.all)
  {
    SubBandRegionSum(sub.m, sup.m, region);
    SubBandRegionSum(sub.sg, sup.sg, region);
    SubBandRegionSum(sub.sm, sup.sm, region);
    SubBandRegionSum(sub.all, sup.all, region);
  }

  /**
   * What the statistics promise, for non-negative pixel areas and habitat
   * coverage on one grid: every loss and gain figure is at most the
   * matching area and is no data whenever the area is; each habitat's area
   * is at most the all-habitats area; with a positive threshold loss and
   * gain together are at most the area; and no figure is negative.
   */
  lemma {:induction false} StatsBounds(geom: seq<bool>, pxAreaM2: Raster<real>, mCov: seq<bool>, sgCov: seq<bool>, smCov: seq<bool>,
                                       ausMask: Raster<int>, baseline: Raster<int>, comparison: Raster<int>, thr: int)
    requires NonNegative(pxAreaM2) && |mCov| == |sgCov| == |smCov|
    ensures var s := FastStats(geom, pxAreaM2, mCov, sgCov, smCov, ausMask, baseline, comparison, thr);
      OptLe(s.loss.m, s.areas.m) && OptLe(s.loss.sg, s.areas.sg) && OptLe(s.loss.sm, s.areas.sm) && OptLe(s.loss.all, s.areas.all) &&
      OptLe(s.gain.m, s.areas.m) && OptLe(s.gain.sg, s.areas.sg) && OptLe(s.gain.sm, s.areas.sm) && OptLe(s.gain.all, s.areas.all) &&
      OptLe(s.areas.m, s.areas.all) && OptLe(s.areas.sg, s.areas.all) && OptLe(s.areas.sm, s.areas.all) &&
      Val(s.areas.m) >= 0.0 && Val(s.areas.sg) >= 0.0 && Val(s.areas.sm) >= 0.0 && Val(s.areas.all) >= 0.0 &&
      (thr > 0 ==>
        Val(s.loss.m) + Val(s.gain.m) <= Val(s.areas.m) && Val(s.loss.sg) + Val(s.gain.sg) <= Val(s.areas.sg) &&
        Val(s.loss.sm) + Val(s.gain.sm) <= Val(s.areas.sm) && Val(s.loss.all) + Val(s.gain.all) <= Val(s.areas.all))
  {
    var masks := BuildMasks(mCov, sgCov, smCov);
    var d := DeltaNdvi(baseline, comparison, ausMask);
    var bands := StatBands(pxAreaM2, masks, d, thr);
    var a, l, g := bands.0, bands.1, bands.2;
    var gEff := EffectiveRegion(geom, masks.all);
    BandFacts(pxAreaM2, mCov, sgCov, smCov, d, thr);
    HabitatSumsBounded(l, a, gEff);
    HabitatSumsBounded(g, a, gEff);
    SubBandRegionSum(a.m, a.all, gEff);
    SubBandRegionSum(a.sg, a.all, gEff);
    SubBandRegionSum(a.sm, a.all, gEff);
    SumNonNegative(a.m, gEff, |a.m|);
    SumNonNegative(a.sg, gEff, |a.sg|);
    SumNonNegative(a.sm, gEff, |a.sm|);
    SumNonNegative(a.all, gEff, |a.all|);
    if thr > 0 {
      DisjointRegionSum(l.m, g.m, a.m, gEff);
      DisjointRegionSum(l.sg, g.sg, a.sg, gEff);
      DisjointRegionSum(l.sm, g.sm, a.sm, gEff);
      DisjointRegionSum(l.all, g.all, a.all, gEff);
    }
  }

  /** A band with no pixel holding a value sums to no data, not 0. */
  lemma {:induction false} SumOfNothing(band: Raster<real>, region: seq<bool>, n: nat)
    requires forall i :: 0 <= i < |band| ==> band[i].None?
    ensures SumTo(band, region, n).None?
  {
    if n > 0 {
      SumOfNothing(band, region, n - 1);
    }
  }

  /** Every pixel of `b` that holds a value is a pixel where `mask` holds one. */
  predicate Inside(b: Raster<real>, mask: Raster<int>) {
    forall i :: 0 <= i < |b| && b[i].Some? ==> At(mask, i).Some?
  }

  /** A band inside a mask has the same sum over a region and over the region's part of the mask. */
  lemma InsideSameSum(b: Raster<real>, mask: Raster<int>, geom: seq<bool>)
    requires Inside(b, mask)
    ensures RegionSum(b, EffectiveRegion(geom, mask)) == RegionSum(b, geom)
  {
    SumSameContributions(b, EffectiveRegion(geom, mask), geom, |b|);
  }

  lemma SubBandInside(sub: Raster<real>, sup: Raster<real>, mask: Raster<int>)
    requires SubBand(sub, sup) && Inside(sup, mask)
    ensures Inside(sub, mask)
  {
  }

  /** Every band of the statistics lies inside the union mask. */
  lemma {:induction false} BandsInsideUnion(pxAreaM2: Raster<real>, mCov: seq<bool>, sgCov: seq<bool>, smCov: seq<bool>, d: Raster<int>, thr: int)
    requires |mCov| == |sgCov| == |smCov|
    ensures var masks := BuildMasks(mCov, sgCov, smCov);
      var bands := StatBands(pxAreaM2, masks, d, thr);
      Inside(bands.0.m, masks.all) && Inside(bands.0.sg, masks.all) && Inside(bands.0.sm, masks.all) && Inside(bands.0.all, masks.all) &&
      Inside(bands.1.m, masks.all) && Inside(bands.1.sg, masks.all) && Inside(bands.1.sm, masks.all) && Inside(bands.1.all, masks.all) &&
      Inside(bands.2.m, masks.all) && Inside(bands.2.sg, masks.all) && Inside(bands.2.sm, masks.all) && Inside(bands.2.all, masks.all)
  {
    var masks := BuildMasks(mCov, sgCov, smCov);
    var bands := StatBands(pxAreaM2, masks, d, thr);
    var a, l, g := bands.0, bands.1, bands.2;
    var ha := Hectares(pxAreaM2);
    HabitatInsideUnion(ha, mCov, sgCov, smCov);
    assert Inside(a.all, masks.all) by {
      forall i | 0 <= i < |a.all| && a.all[i].Some? ensures At(masks.all, i).Some? {
        UpdateMaskAt(ha, masks.all, i);
      }
    }
    SubBandInside(a.m, a.all, masks.all);
    SubBandInside(a.sg, a.all, masks.all);
    SubBandInside(a.sm, a.all, masks.all);
    var lm, gm := LossMask(d, thr), GainMask(d, thr);
    MaskedIsSubBand(a.m, lm);
    MaskedIsSubBand(a.sg, lm);
    MaskedIsSubBand(a.sm, lm);
    MaskedIsSubBand(a.all, lm);
    MaskedIsSubBand(a.m, gm);
    MaskedIsSubBand(a.sg, gm);
    MaskedIsSubBand(a.sm, gm);
    MaskedIsSubBand(a.all, gm);
    SubBandInside(l.m, a.m, masks.all);
    SubBandInside(l.sg, a.sg, masks.all);
    SubBandInside(l.sm, a.sm, masks.all);
    SubBandInside(l.all, a.all, masks.all);
    SubBandInside(g.m, a.m, masks.all);
    SubBandInside(g.sg, a.sg, masks.all);
    SubBandInside(g.sm, a.sm, masks.all);
    SubBandInside(g.all, a.all, masks.all);
  }

  lemma InsideSameSums(b: Bands, mask: Raster<int>, geom: seq<bool>)
    requires Inside(b.m, mask) && Inside(b.sg, mask) && Inside(b.sm, mask) && Inside(b.all, mask)
    ensures SumBands(b, EffectiveRegion(geom, mask)) == SumBands(b, geom)
  {
    InsideSameSum(b.m, mask, geom);
    InsideSameSum(b.sg, mask, geom);
    InsideSameSum(b.sm, mask, geom);
    InsideSameSum(b.all, mask, geom);
  }

  /**
   * Cutting the region down to the union mask changes none of the twelve
   * sums: every band pixel that holds a value lies inside the union.
   */
  lemma EffectiveRegionKeepsSums(geom: seq<bool>, pxAreaM2: Raster<real>, mCov: seq<bool>, sgCov: seq<bool>, smCov: seq<bool>,
                                 ausMask: Raster<int>, baseline: Raster<int>, comparison: Raster<int>, thr: int)
    requires |mCov| == |sgCov| == |smCov|
    ensures var masks := BuildMasks(mCov, sgCov, smCov);
      var bands := StatBands(pxAreaM2, masks, DeltaNdvi(baseline, comparison, ausMask), thr);
      FastStats(geom, pxAreaM2, mCov, sgCov, smCov, ausMask, baseline, comparison, thr) ==
        StatsDict(SumBands(bands.0, geom), SumBands(bands.1, geom), SumBands(bands.2, geom))
  {
    var masks := BuildMasks(mCov, sgCov, smCov);
    var d := DeltaNdvi(baseline, comparison, ausMask);
    var bands := StatBands(pxAreaM2, masks, d, thr);
    BandsInsideUnion(pxAreaM2, mCov, sgCov, smCov, d, thr);
    InsideSameSums(bands.0, masks.all, geom);
    InsideSameSums(bands.1, masks.all, geom);
    InsideSameSums(bands.2, masks.all, geom);
  }

  /** A habitat with no features has no-data area, loss and gain, not zero. */
  lemma EmptyHabitatHasNoData(geom: seq<bool>, pxAreaM2: Raster<real>, mCov: seq<bool>, sgCov: seq<bool>, smCov: seq<bool>,
                              ausMask: Raster<int>, baseline: Raster<int>, comparison: Raster<int>, thr: int)
    requires forall i :: 0 <= i < |mCov| ==> !mCov[i]
    ensures var s := FastStats(geom, pxAreaM2, mCov, sgCov, smCov, ausMask, baseline, comparison, thr);
      s.areas.m.None? && s.loss.m.None? && s.gain.m.None?
  {
    var masks := BuildMasks(mCov, sgCov, smCov);
    var d := DeltaNdvi(baseline, comparison, ausMask);
    var bands := StatBands(pxAreaM2, masks, d, thr);
    var gEff := EffectiveRegion(geom, masks.all);
    HabitatMaskAt(mCov);
    var am := bands.0.m;
    assert forall i :: 0 <= i < |am| ==> am[i].None?;
    SumOfNothing(am, gEff, |am|);
    SumOfNothing(bands.1.m, gEff, |bands.1.m|);
    SumOfNothing(bands.2.m, gEff, |bands.2.m|);
  }

  /**
   * The seagrass and saltmarsh figures do not depend on the mangrove
   * coverage: an empty (or any other) mangrove collection leaves them as
   * they are. Only the all-habitats figures see the change.
   */
  lemma {:induction false} OtherHabitatsUnaffected(geom: seq<bool>, pxAreaM2: Raster<real>, mCov: seq<bool>, mCov': seq<bool>,
                                                   sgCov: seq<bool>, smCov: seq<bool>,
                                                   ausMask: Raster<int>, baseline: Raster<int>, comparison: Raster<int>, thr: int)
    requires |mCov| == |mCov'| == |sgCov| == |smCov|
    ensures var s := FastStats(geom, pxAreaM2, mCov, sgCov, smCov, ausMask, baseline, comparison, thr);
      var s' := FastStats(geom, pxAreaM2, mCov', sgCov, smCov, ausMask, baseline, comparison, thr);
      s.areas.sg == s'.areas.sg && s.loss.sg == s'.loss.sg && s.gain.sg == s'.gain.sg &&
      s.areas.sm == s'.areas.sm && s.loss.sm == s'.loss.sm && s.gain.sm == s'.gain.sm
  {
    EffectiveRegionKeepsSums(geom, pxAreaM2, mCov, sgCov, smCov, ausMask, baseline, comparison, thr);
    EffectiveRegionKeepsSums(geom, pxAreaM2, mCov', sgCov, smCov, ausMask, baseline, comparison, thr);
  }

  /** A baseline year without any capture gives no-data loss and gain everywhere, never 0. */
  lemma NoSignalHasNoChange(geom: seq<bool>, pxAreaM2: Raster<real>, mCov: seq<bool>, sgCov: seq<bool>, smCov: seq<bool>,
                            ausMask: Raster<int>, baseline: Raster<int>, comparison: Raster<int>, thr: int)
    requires forall i :: 0 <= i < |baseline| ==> baseline[i].None?
    ensures var s := FastStats(geom, pxAreaM2, mCov, sgCov, smCov, ausMask, baseline, comparison, thr);
      s.loss == Habitats(None, None, None, None) && s.gain == Habitats(None, None, None, None)
  {
    var masks := BuildMasks(mCov, sgCov, smCov);
    var d := DeltaNdvi(baseline, comparison, ausMask);
    var bands := StatBands(pxAreaM2, masks, d, thr);
    var gEff := EffectiveRegion(geom, masks.all);
    assert forall i :: At(d, i).None?;
    forall b: Raster<real> | b in [bands.1.m, bands.1.sg, bands.1.sm, bands.1.all, bands.2.m, bands.2.sg, bands.2.sm, bands.2.all]
      ensures SumTo(b, gEff, |b|).None?
    {
      SumOfNothing(b, gEff, |b|);
    }
  }

  /** Every loss and gain figure that is not missing is non-negative. */
  lemma NonNegativeFigures(geom: seq<bool>, pxAreaM2: Raster<real>, mCov: seq<bool>, sgCov: seq<bool>, smCov: seq<bool>,
                           ausMask: Raster<int>, baseline: Raster<int>, comparison: Raster<int>, thr: int)
    requires NonNegative(pxAreaM2) && |mCov| == |sgCov| == |smCov|
    ensures var s := FastStats(geom, pxAreaM2, mCov, sgCov, smCov, ausMask, baseline, comparison, thr);
      forall h :: h in [s.loss.m, s.loss.sg, s.loss.sm, s.loss.all, s.gain.m, s.gain.sg, s.gain.sm, s.gain.all] ==>
        h.Some? ==> h.value >= 0.0
  {
    var masks := BuildMasks(mCov, sgCov, smCov);
    var d := DeltaNdvi(baseline, comparison, ausMask);
    var bands := StatBands(pxAreaM2, masks, d, thr);
    var gEff := EffectiveRegion(geom, masks.all);
    BandFacts(pxAreaM2, mCov, sgCov, smCov, d, thr);
    var l, g := bands.1, bands.2;
    MaskedNonNegative(bands.0.m, LossMask(d, thr));
    MaskedNonNegative(bands.0.sg, LossMask(d, thr));
    MaskedNonNegative(bands.0.sm, LossMask(d, thr));
    MaskedNonNegative(bands.0.all, LossMask(d, thr));
    MaskedNonNegative(bands.0.m, GainMask(d, thr));
    MaskedNonNegative(bands.0.sg, GainMask(d, thr));
    MaskedNonNegative(bands.0.sm, GainMask(d, thr));
    MaskedNonNegative(bands.0.all, GainMask(d, thr));
    SumNonNegative(l.m, gEff, |l.m|);
    SumNonNegative(l.sg, gEff, |l.sg|);
    SumNonNegative(l.sm, gEff, |l.sm|);
    SumNonNegative(l.all, gEff, |l.all|);
    SumNonNegative(g.m, gEff, |g.m|);
    SumNonNegative(g.sg, gEff, |g.sg|);
    SumNonNegative(g.sm, gEff, |g.sm|);
    SumNonNegative(g.all, gEff, |g.all|);
  }
}
