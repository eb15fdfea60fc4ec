/**
 * The null guards of the statistics panel: a missing figure is shown as a
 * dash, never as 0.
 */
module StatsPanel {
  import opened Wrappers
  import opened Stats

  /** Hectares to square kilometres; a missing figure stays missing. */
  function ToKm2(ha: Option<real>): (km2: Option<real>)
    ensures km2.None? <==> ha.None?
    ensures km2.Some? ==> km2.value * 100.0 == ha.value
  {
    if ha.None? then None else Some(ha.value / 100.0)
  }

  /** A percentage cell: the dash, or the share before formatting. */
  datatype PctCell = Dash | Percent(share: real)

  /** `valueHa` as a percentage of `denomHa`; the dash when either is missing or the denominator is 0. */
  function Pct(valueHa: Option<real>, denomHa: Option<real>): (p: PctCell)
    ensures p.Dash? <==> valueHa.None? || denomHa.None? || denomHa.value == 0.0
    ensures p.Percent? ==> p.share * denomHa.value == 100.0 * valueHa.value
  {
    if valueHa.None? || denomHa.None? || denomHa.value == 0.0 then Dash
    else Percent(100.0 * valueHa.value / denomHa.value)
  }

  /** A non-negative part of a positive whole is between 0 and 100 percent. */
  lemma PctOfPart(part: Option<real>, whole: Option<real>)
    requires OptLe(part, whole)
    requires part.Some? ==> part.value >= 0.0
    ensures Pct(part, whole).Percent? ==> 0.0 <= Pct(part, whole).share <= 100.0
  {
    if Pct(part, whole).Percent? {
      var v, w, p := part.value, whole.value, Pct(part, whole).share;
      assert w > 0.0;
      assert p * w == 100.0 * v;
      assert p * w <= 100.0 * w;
    }
  }

  /** A loss or gain figure is a non-negative part of its area. */
  predicate PartOf(part: Option<real>, whole: Option<real>) {
    OptLe(part, whole) && (part.Some? ==> part.value >= 0.0)
  }

  /** The eight percentage cells of the panel. */
  function PanelCells(s: StatsDict): seq<PctCell> {
    [Pct(s.loss.all, s.areas.all), Pct(s.gain.all, s.areas.all),
     Pct(s.loss.m, s.areas.m), Pct(s.gain.m, s.areas.m),
     Pct(s.loss.sg, s.areas.sg), Pct(s.gain.sg, s.areas.sg),
     Pct(s.loss.sm, s.areas.sm), Pct(s.gain.sm, s.areas.sm)]
  }

  lemma CellsInRange(s: StatsDict)
    requires PartOf(s.loss.m, s.areas.m) && PartOf(s.loss.sg, s.areas.sg) && PartOf(s.loss.sm, s.areas.sm) && PartOf(s.loss.all, s.areas.all)
    requires PartOf(s.gain.m, s.areas.m) && PartOf(s.gain.sg, s.areas.sg) && PartOf(s.gain.sm, s.areas.sm) && PartOf(s.gain.all, s.areas.all)
    ensures forall p :: p in PanelCells(s) ==> p.Dash? || 0.0 <= p.share <= 100.0
  {
    PctOfPart(s.loss.m, s.areas.m);
    PctOfPart(s.loss.sg, s.areas.sg);
    PctOfPart(s.loss.sm, s.areas.sm);
    PctOfPart(s.loss.all, s.areas.all);
    PctOfPart(s.gain.m, s.areas.m);
    PctOfPart(s.gain.sg, s.areas.sg);
    PctOfPart(s.gain.sm, s.areas.sm);
    PctOfPart(s.gain.all, s.areas.all);
  }

  /**
   * Every loss and gain cell of the panel, for the figures the statistics
   * produce, is the dash or a share between 0 and 100 percent.
   */
  lemma PanelPercentagesInRange(geom: seq<bool>, pxAreaM2: Raster.Raster<real>, mCov: seq<bool>, sgCov: seq<bool>, smCov: seq<bool>,
                                ausMask: Raster.Raster<int>, baseline: Raster.Raster<int>, comparison: Raster.Raster<int>, thr: int)
    requires NonNegative(pxAreaM2) && |mCov| == |sgCov| == |smCov|
    ensures forall p :: p in PanelCells(FastStats(geom, pxAreaM2, mCov, sgCov, smCov, ausMask, baseline, comparison, thr)) ==>
      p.Dash? || 0.0 <= p.share <= 100.0
  {
    var s := FastStats(geom, pxAreaM2, mCov, sgCov, smCov, ausMask, baseline, comparison, thr);
    StatsBounds(geom, pxAreaM2, mCov, sgCov, smCov, ausMask, baseline, comparison, thr);
    NonNegativeFigures(geom, pxAreaM2, mCov, sgCov, smCov, ausMask, baseline, comparison, thr);
    CellsInRange(s);
  }
}
