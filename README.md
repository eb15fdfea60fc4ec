# Australia Blue-Carbon Explorer: a verified model of its decision logic

The Blue-Carbon Explorer is an Earth Engine script. It maps mangroves,
seagrasses and saltmarshes across Australian states, and it reports habitat
area together with NDVI loss and gain between two years. Most of the script
builds lazy server-side image graphs or drives widgets. This project models
the client-side logic that sits around those calls, and the pixel algebra of
the masks and statistics. It then proves what that logic promises.

- `wrappers.dfy` (`Wrappers`): `Option`, standing for the script's `null`.
- `text.dfy` (`Text`): the string order used by the default sort, and `String(n)`
  for integers, with injectivity (so `String(y)` is a sound cache key).
- `years.dfy` (`Years`): the `YEARS` builder. It is a push loop over
  2001, 2006, … ≤ 2024, and then it forces `'2024'` onto the end.
- `regions.dfy` (`Regions`): region-field detection (a scan that stops at the
  first hit), cleaning of region values, the state selector's item list
  (a union in a map, then sorted keys), `toGaulName` and `geomForState`.
- `ndvi_cache.dfy` (`NdviCache`): the per-year composite cache, as a class
  with a `map<string, Composite>` field. A composite is a freshly allocated
  object, so handle identity is modelled.
- `raster.dfy` (`Raster`): a raster is a `seq<Option<T>>` on one grid, where
  `None` is a masked (no-data) pixel. The file has the image operators the
  script uses, the habitat masks, and the union mask.
- `change.dfy` (`Change`): the NDVI delta, the loss and gain masks, and the
  filtered delta layer of `renderDeltaBC`. The script defines that renderer
  but never calls it, so its filter never reaches the map; the model keeps
  it as the specification of line 96. NDVI is in raw MODIS units
  (ten thousand times the index). The model chooses integer arithmetic, so
  the 0.05 threshold becomes 500; the script itself compares scaled values
  in floating point (see `Change.ClassifyAt` under "## Left out").
- `stats.dfy` (`Stats`): the area bands, the loss and gain bands, the region
  sum, and the twelve-figure statistics dictionary.
- `stats_panel.dfy` (`StatsPanel`): the `toKm2` and `pct` null guards.

Two facts about the script that a reader might not expect:

- With threshold 0, a zero delta satisfies both `d <= -thr` and `d >= thr`
  (Australia_Blue_Carbon_Explorer.js:135-136), so it counts as loss and as
  gain (`Change.ClassifyAt`).
- `deltaNdvi` masks the delta with the national mask `ausMask`, not with the
  habitat union (Australia_Blue_Carbon_Explorer.js:118). Loss and gain still
  stay inside habitat, because the loss and gain bands are area bands masked
  again, and the area bands are habitat-masked.

## Model

| member | source | states |
|---|---|---|
| `Text.DecimalInjective` | Australia_Blue_Carbon_Explorer.js:72 | different years have different `String(y)` keys |
| `Text.StrictlySortedUnique` | Australia_Blue_Carbon_Explorer.js:392 | two strictly sorted lists with the same elements are equal, so a sorted union is fully determined |
| `Text.BelowTotal` | Australia_Blue_Carbon_Explorer.js:392 | any two different strings are ordered by the sort's comparison |
| `Text.BelowTransitive` | Australia_Blue_Carbon_Explorer.js:392 | the sort's comparison is transitive |
| `Text.DecimalString` | Australia_Blue_Carbon_Explorer.js:72 | `String(n)` is never empty and starts with `-` exactly for a negative `n`; `Text.DecimalInjective` proves it injective |
| `Years.BuildYears` | Australia_Blue_Carbon_Explorer.js:11 | the push loop and the forced last entry produce the labels of the stepped years, with `last` appended exactly when the stepping missed it |
| `Years.ForcedLastLabel` | Australia_Blue_Carbon_Explorer.js:11 | testing the last label against `String(last)` gives the same decision as testing the last number against `last` |
| `Years.SteppedShape` | Australia_Blue_Carbon_Explorer.js:11 | the stepped years start at the first year, stay within the bounds and strictly increase |
| `Years.YearNumbersShape` | Australia_Blue_Carbon_Explorer.js:11 | the year list ends with the last year, holds it exactly once, strictly increases, and starts with the first year |
| `Years.LabelsShape` | Australia_Blue_Carbon_Explorer.js:11 | as labels, the first entry is `String(first)` and `String(last)` is the final entry and occurs nowhere else |
| `Years.ConfiguredYears` | Australia_Blue_Carbon_Explorer.js:11 | the configured list is 2001, 2006, 2011, 2016, 2021, 2024, from `'2001'` to `'2024'` |
| `Regions.DetectField` | Australia_Blue_Carbon_Explorer.js:354-363 | the result is the earliest candidate that occurs in the property names; it is `None` exactly when no candidate occurs; missing names count as an empty list |
| `Regions.Clean` | Australia_Blue_Carbon_Explorer.js:367-369 | a string is kept exactly when it occurs among the values and is not null, undefined, `''`, `'null'` or `'None'` |
| `Regions.CleanKeepsOrder` | Australia_Blue_Carbon_Explorer.js:367-369 | the filter keeps the order of the strings it keeps: sorted input without duplicates gives sorted output without duplicates |
| `Regions.DistinctValues` | Australia_Blue_Carbon_Explorer.js:364-372 | no field gives the empty list; otherwise a string is in the result exactly when it is a fetched value that is not a placeholder |
| `Regions.DistinctValuesSorted` | Australia_Blue_Carbon_Explorer.js:364-372 | over the server's sorted distinct values, the result is sorted, has no duplicates and contains no placeholder |
| `Regions.InsertSorted` | Australia_Blue_Carbon_Explorer.js:392 | inserting into a sorted duplicate-free list keeps it sorted and duplicate-free, and adds exactly the new value |
| `Regions.AddAll` | Australia_Blue_Carbon_Explorer.js:388-390 | after the `forEach`, the union object's keys are the old keys plus the list's values |
| `Regions.SortKeys` | Australia_Blue_Carbon_Explorer.js:392 | the sorted keys are strictly sorted and are exactly the union's keys |
| `Regions.StateItems` | Australia_Blue_Carbon_Explorer.js:387-392 | the first item is `'All States'`; the rest is sorted, has no duplicates, and holds exactly the values of the three lists |
| `Regions.StateItemsDetermined` | Australia_Blue_Carbon_Explorer.js:392 | any sorted duplicate-free list of the union is the same list |
| `Regions.BuildStateSelector` | Australia_Blue_Carbon_Explorer.js:375-392 | each dataset's field is the earliest candidate among its property names, or none exactly when no candidate is there; a dataset without a state field contributes nothing; the item list starts with `'All States'` and the rest is the sorted, placeholder-free union of the cleaned values |
| `Regions.ToGaulName` | Australia_Blue_Carbon_Explorer.js:182 | a name outside the map passes through, and every result that is in the map maps to itself; the per-state table is `Regions.ToGaulNameSpec` |
| `Regions.ToGaulNameSpec` | Australia_Blue_Carbon_Explorer.js:37-46 | each abbreviation maps to its full name, full names and unknown names are unchanged, and normalising twice equals normalising once |
| `Regions.FirstNamed` | Australia_Blue_Carbon_Explorer.js:186 | the result is the geometry of the first boundary with that name, or `None` exactly when no boundary has it |
| `Regions.GeomForState` | Australia_Blue_Carbon_Explorer.js:182-187 | `'All States'` gives the national geometry; any other value gives the first boundary, in dataset order, named by its normalised name, or an unresolved-region error exactly when there is none |
| `Regions.SameStateSameGeometry` | Australia_Blue_Carbon_Explorer.js:182-187 | every selector value, `'All States'` included, selects the same geometry as its normalised name, so `'NSW'` and `'New South Wales'` do too |
| `NdviCache.Cache.constructor` | Australia_Blue_Carbon_Explorer.js:70 | the cache starts empty |
| `NdviCache.Cache.ImageForYear` | Australia_Blue_Carbon_Explorer.js:71-84 | a stored key returns the stored handle and leaves the cache unchanged; a new key builds a fresh composite and stores it under `String(y)`; entries are only ever added; the handle is for year `y` |
| `NdviCache.RequestTwice` | Australia_Blue_Carbon_Explorer.js:71-84 | two requests for one year return the same handle |
| `Raster.HabitatMask` | Australia_Blue_Carbon_Explorer.js:64-66 | a habitat mask is a presence mask on the coverage grid: every pixel with data holds 1 |
| `Raster.UnionMask` | Australia_Blue_Carbon_Explorer.js:67 | the union is a presence mask: every pixel with data holds 1 |
| `Raster.HabitatMaskAt` | Australia_Blue_Carbon_Explorer.js:64-66 | a painted, self-masked habitat holds 1 on covered pixels and no data elsewhere; an empty collection gives an all-no-data mask |
| `Raster.UnionMaskAt` | Australia_Blue_Carbon_Explorer.js:67 | a union pixel is 1 exactly where at least one habitat mask is defined, and no data (never 0) elsewhere |
| `Change.DeltaNdvi` | Australia_Blue_Carbon_Explorer.js:114-120 | a delta pixel has data exactly where both composites have data and the national mask is non-zero, and it is the comparison value minus the baseline value |
| `Change.LossMask` | Australia_Blue_Carbon_Explorer.js:135 | defines the loss mask; its contract is `Change.ClassifyAt` |
| `Change.GainMask` | Australia_Blue_Carbon_Explorer.js:136 | defines the gain mask; its contract is `Change.ClassifyAt` |
| `Change.DisplayDelta` | Australia_Blue_Carbon_Explorer.js:94-96 | defines the filter of the uncalled `renderDeltaBC`; its contract is `Change.DisplayDeltaAt` |
| `Change.ClassifyAt` | Australia_Blue_Carbon_Explorer.js:135-136 | loss is `d <= -thr` and gain is `d >= thr`; with `thr > 0` no pixel is both and `abs(d) < thr` is neither; with `thr = 0` a zero delta is both; no-data deltas stay no data |
| `Change.DisplayDeltaAt` | Australia_Blue_Carbon_Explorer.js:94-96 | the filtered delta keeps a habitat pixel when `abs(d) >= thr` if `thr > 0`, and every habitat pixel otherwise; with `thr > 0` it shows exactly the loss and gain pixels |
| `Stats.Hectares` | Australia_Blue_Carbon_Explorer.js:107 | a hectare pixel has data exactly where the pixel area has, and times 10000 it is the area in square metres; non-negative areas give non-negative hectares |
| `Stats.AreaHaBands` | Australia_Blue_Carbon_Explorer.js:123-130 | every area band is part of the hectare raster, with the same values, and is non-negative when the hectare raster is |
| `Stats.RegionSum` | Australia_Blue_Carbon_Explorer.js:150-157 | the sum is no data exactly when no pixel of the band in the region has data |
| `Stats.EffectiveRegion` | Australia_Blue_Carbon_Explorer.js:148 | the effective region, as modelled, keeps only pixels of the requested region where the union mask has data |
| `Stats.FastStats` | Australia_Blue_Carbon_Explorer.js:132-179 | defines the twelve figures; their contracts are `Stats.StatsBounds`, `Stats.EffectiveRegionKeepsSums`, `Stats.EmptyHabitatHasNoData`, `Stats.OtherHabitatsUnaffected` and `Stats.NoSignalHasNoChange` |
| `Stats.MaskedIsSubBand` | Australia_Blue_Carbon_Explorer.js:139-140 | every pixel of a loss or gain band is in its area band with the same value |
| `Stats.HabitatInsideUnion` | Australia_Blue_Carbon_Explorer.js:123-130 | each habitat's area band lies inside the all-habitats band |
| `Stats.BandFacts` | Australia_Blue_Carbon_Explorer.js:123-146 | the area bands are non-negative, loss and gain bands lie inside their area bands, habitat bands lie inside the all band, and with `thr > 0` loss and gain share no pixel |
| `Stats.SubBandSum` | Australia_Blue_Carbon_Explorer.js:150-157 | over non-negative pixels, a sub-band sums to at most the band and has data only where the band has data |
| `Stats.DisjointSubBandsSum` | Australia_Blue_Carbon_Explorer.js:150-157 | two disjoint sub-bands together sum to at most the band |
| `Stats.SumNonNegative` | Australia_Blue_Carbon_Explorer.js:150-157 | a sum over non-negative pixels is non-negative |
| `Stats.SumOfNothing` | Australia_Blue_Carbon_Explorer.js:150-157 | a band with no defined pixel sums to no data, not 0 |
| `Stats.StatsBounds` | Australia_Blue_Carbon_Explorer.js:132-179 | every loss and gain figure is at most its area; each habitat area is at most the all-habitats area; areas are non-negative; with `thr > 0` loss plus gain is at most the area |
| `Stats.NonNegativeFigures` | Australia_Blue_Carbon_Explorer.js:132-179 | every loss and gain figure that has data is non-negative |
| `Stats.EffectiveRegionKeepsSums` | Australia_Blue_Carbon_Explorer.js:148-157 | intersecting the region with the union mask, read as keeping the region's pixels where the union has data, changes none of the twelve sums; so whatever footprint `allMaskFix.geometry()` has, it cannot change a figure as long as it covers the union's pixels |
| `Stats.EmptyHabitatHasNoData` | Australia_Blue_Carbon_Explorer.js:64-67 | a habitat with no features has no-data area, loss and gain |
| `Stats.OtherHabitatsUnaffected` | Australia_Blue_Carbon_Explorer.js:123-157 | the seagrass and saltmarsh figures are the same whatever the mangrove coverage, so an empty mangrove collection leaves them unchanged |
| `Stats.NoSignalHasNoChange` | Australia_Blue_Carbon_Explorer.js:114-120 | a baseline without any capture gives no-data loss and gain, never zero |
| `StatsPanel.ToKm2` | Australia_Blue_Carbon_Explorer.js:457 | null stays null; otherwise the km² figure times 100 is the hectare figure |
| `StatsPanel.Pct` | Australia_Blue_Carbon_Explorer.js:465-468 | the dash exactly when either figure is null or the denominator is 0; otherwise the share times the denominator is 100 times the value |
| `StatsPanel.PctOfPart` | Australia_Blue_Carbon_Explorer.js:465-468 | a non-negative part of a whole is shown as the dash or a share between 0 and 100 |
| `StatsPanel.PanelCells` | Australia_Blue_Carbon_Explorer.js:481-484 | defines the eight loss and gain cells; their contract is `StatsPanel.PanelPercentagesInRange` |
| `StatsPanel.PanelPercentagesInRange` | Australia_Blue_Carbon_Explorer.js:481-484 | every loss and gain cell of the panel is the dash or a share between 0 and 100 |

## Left out

- Earth Engine primitives are not modelled: the median composite over a date range, the 0.0001 scale, `paint`'s rasterisation of polygons, `reproject`, `pixelArea`, `Geometry.intersection` and `reduceRegion`. Composites are opaque handles in the cache. Their pixel values, the pixel areas, the habitat coverage and the region membership enter the statistics as parameters on one shared grid. Reprojection is the identity on that grid.
- The sum reducer's options (`scale`, `maxPixels`, `tileScale`, `bestEffort`) are not modelled.
- Stats.RegionSum: giving no data (null) when no pixel contributes is an assumption about `reduceRegion`'s sum reducer; lines 150-157 do not show it. The statistics panel's null guards exist for that case.
- Stats.EffectiveRegion: `allMaskFix.geometry()` at line 148 is the image's footprint in Earth Engine, not its unmasked pixels, and for an image built from `ee.Image()` that footprint may be unbounded. The model reads the intersection as keeping the region's pixels where the union has data; `Stats.EffectiveRegionKeepsSums` shows the sums are the same either way.
- DistinctValues: the server-side `distinct().sort()` is not modelled. The evaluated list is a parameter, and `DistinctValuesSorted` assumes that the list's strings are strictly sorted, which is what the server promises.
- Non-string attribute values (numbers) in a region field are not modelled. Region values are null, undefined or strings.
- String order is by Unicode code point. JavaScript compares UTF-16 code units, and the two orders differ only for characters outside the Basic Multilingual Plane.
- `toGaulName` and the union object are modelled as plain maps. JavaScript object keys inherited from `Object.prototype` (`'toString'`, `'constructor'`, `'__proto__'`) are not modelled.
- The `(mStates||[])` guards at lines 388-390 are not modelled, because `distinctValues` always passes a list.
- The cache's truthiness test at line 73 is modelled as key membership, because a stored composite is always truthy.
- The asynchronous `evaluate` callbacks (lines 354-522) are modelled as one sequential method over values that are already fetched.
- Change.ClassifyAt: the script scales NDVI by 0.0001 in floating point (lines 79, 135-136), so a raw delta of exactly ±thr may fall on either side of the threshold through rounding (1500·0.0001 − 1000·0.0001 is 0.04999999999999999, not gain at 0.05). The model compares exact integers and counts such a pixel as loss or gain. Deltas other than exactly ±thr are classified the same.
- Thresholds are integers in raw NDVI units. A null or NaN threshold at line 96 is not modelled.
- Not modelled, as widget wiring with no stateable logic: the map, layers, legend, panels, dropdown syncing, `applyState`'s layer filtering and map centring, outlines, and the click inspector and chart (lines 189-345, 394-423, 506-529).
- `renderNdviForYear`'s `parseInt` fallback (line 87) is not modelled.
- CSV export (lines 488-502) is I/O and is not modelled.
- Number formatting (`toLocaleString`, `toFixed`) is not modelled. `Pct` returns the share before formatting, and areas are exact reals, not floating point.
