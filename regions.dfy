/**
 * Region resolution: which attribute of a habitat dataset names the state,
 * the cleaned list of state values, the state selector's item list, and the
 * normalisation of a selector value to a boundary of the administrative
 * reference dataset.
 */
module Regions {
  import opened Wrappers
  import opened Text

  /** The selector entry that stands for the whole country. */
  const AllStates := "All States"

  /** Attribute names that may hold the state, in the order they are tried. */
  const StateCandidates: seq<string> :=
    ["ste_name21", "STE_NAME21", "STATE", "STATE_NAME", "State_Name", "state", "STATE_NAME21"]

  /** Abbreviations and full names of the states, each mapped to the full name the boundary dataset uses. */
  const GaulNameMap: map<string, string> := map[
    "NSW" := "New South Wales", "New South Wales" := "New South Wales",
    "QLD" := "Queensland", "Queensland" := "Queensland",
    "VIC" := "Victoria", "Victoria" := "Victoria",
    "TAS" := "Tasmania", "Tasmania" := "Tasmania",
    "SA" := "South Australia", "South Australia" := "South Australia",
    "WA" := "Western Australia", "Western Australia" := "Western Australia",
    "NT" := "Northern Territory", "Northern Territory" := "Northern Territory",
    "ACT" := "Australian Capital Territory", "Australian Capital Territory" := "Australian Capital Territory"
  ]

  // ---------------------------------------------------------------- field detection

  /** The property names read from a dataset's first feature; `None` when the evaluation gave nothing. */
  function NamesOrEmpty(names: Option<seq<string>>): seq<string> {
    names.GetOr([])
  }

  /**
   * `found` is the earliest candidate that is among the property names, and
   * `None` exactly when no candidate is.
   */
  predicate EarliestCandidate(found: Option<string>, names: Option<seq<string>>, candidates: seq<string>) {
    (found.None? <==> forall i :: 0 <= i < |candidates| ==> candidates[i] !in NamesOrEmpty(names)) &&
    (found.Some? ==>
      exists i ::
        0 <= i < |candidates| && candidates[i] == found.value && found.value in NamesOrEmpty(names) &&
        forall j :: 0 <= j < i ==> candidates[j] !in NamesOrEmpty(names))
  }

  /**
   * Scans the candidates in order and stops at the first one that is among
   * the property names; `None` when no candidate is.
   */
  method DetectField(names: Option<seq<string>>, candidates: seq<string>) returns (found: Option<string>)
    ensures EarliestCandidate(found, names, candidates)
  {
    var ns := if names.Some? then names.value else [];
    found := None;
    var i := 0;
    while i < |candidates|
      invariant 0 <= i <= |candidates|
      invariant forall j :: 0 <= j < i ==> candidates[j] !in ns
    {
      if candidates[i] in ns {
        found := Some(candidates[i]);
        return;
      }
      i := i + 1;
    }
  }

  // ---------------------------------------------------------------- value cleaning

  /** A value as it comes back from evaluating a list of attribute values. */
  datatype JsValue = JsNull | JsUndefined | JsString(s: string)

  /** The values the cleaning filter drops. */
  predicate IsPlaceholder(v: JsValue) {
    match v
    case JsNull => true
    case JsUndefined => true
    case JsString(s) => s == "" || s == "null" || s == "None"
  }

  /** The strings among `vals`, in order. */
  function StringsOf(vals: seq<JsValue>): seq<string> {
    if vals == [] then []
    else (if vals[0].JsString? then [vals[0].s] else []) + StringsOf(vals[1..])
  }

  /** The filter: keeps, in order, every value that is not a placeholder. */
  function Clean(vals: seq<JsValue>): (r: seq<string>)
    ensures forall x :: x in r <==> JsString(x) in vals && !IsPlaceholder(JsString(x))
  {
    if vals == [] then []
    else
      var rest := Clean(vals[1..]);
      assert vals == [vals[0]] + vals[1..];
      if IsPlaceholder(vals[0]) then rest else [vals[0].s] + rest
  }

  /** Whatever `Clean` keeps is one of the strings of `vals`, and the filter keeps their order. */
  lemma {:induction false} CleanKeepsOrder(vals: seq<JsValue>)
    requires StrictlySorted(StringsOf(vals))
    ensures StrictlySorted(Clean(vals))
    ensures forall x :: x in Clean(vals) ==> x in StringsOf(vals)
  {
    if vals != [] {
      var tail := StringsOf(vals[1..]);
      var sv := StringsOf(vals);
      assert sv == (if vals[0].JsString? then [vals[0].s] else []) + tail;
      assert StrictlySorted(tail) by {
        forall i, j | 0 <= i < j < |tail| ensures Below(tail[i], tail[j]) {
          var k := |sv| - |tail|;
          assert sv[k + i] == tail[i] && sv[k + j] == tail[j];
        }
      }
      CleanKeepsOrder(vals[1..]);
      if !IsPlaceholder(vals[0]) {
        var r := Clean(vals);
        assert r == [vals[0].s] + Clean(vals[1..]);
        forall i, j | 0 <= i < j < |r| ensures Below(r[i], r[j]) {
          if i == 0 {
            assert r[j] in tail;
            var k :| 0 <= k < |tail| && tail[k] == r[j];
            assert sv[0] == vals[0].s && sv[k + 1] == tail[k];
          }
        }
      }
    }
  }

  /**
   * The cleaned values of a dataset's region field. `fetched` is the
   * evaluated server result of taking the field's distinct values sorted
   * (`None` when the evaluation gave nothing); no field means no values.
   */
  function DistinctValues(field: Option<string>, fetched: Option<seq<JsValue>>): (r: seq<string>)
    ensures field.None? ==> r == []
    ensures field.Some? ==> forall x :: x in r <==> JsString(x) in fetched.GetOr([]) && !IsPlaceholder(JsString(x))
  {
    if field.None? then [] else Clean(fetched.GetOr([]))
  }

  /** When the server's list is sorted without duplicates, so is the cleaned list, and it holds no placeholder. */
  lemma DistinctValuesSorted(field: Option<string>, fetched: Option<seq<JsValue>>)
    requires StrictlySorted(StringsOf(fetched.GetOr([])))
    ensures StrictlySorted(DistinctValues(field, fetched))
    ensures forall x :: x in DistinctValues(field, fetched) ==> x != "" && x != "null" && x != "None"
  {
    if field.Some? {
      CleanKeepsOrder(fetched.GetOr([]));
    }
  }

  // ---------------------------------------------------------------- state item list

  /** `xs` sorted without duplicates, with `x` put in its place (no change when it is there already). */
  function Insert(xs: seq<string>, x: string): seq<string> {
    if xs == [] then [x]
    else if x == xs[0] then xs
    else if Below(x, xs[0]) then [x] + xs
    else [xs[0]] + Insert(xs[1..], x)
  }

  lemma {:induction false} InsertSorted(xs: seq<string>, x: string)
    requires StrictlySorted(xs)
    ensures StrictlySorted(Insert(xs, x))
    ensures forall y :: y in Insert(xs, x) <==> y in xs || y == x
  {
    if xs != [] && x != xs[0] && !Below(x, xs[0]) {
      var tail := xs[1..];
      assert StrictlySorted(tail) by {
        forall i, j | 0 <= i < j < |tail| ensures Below(tail[i], tail[j]) {
          assert tail[i] == xs[i + 1] && tail[j] == xs[j + 1];
        }
      }
      InsertSorted(tail, x);
      BelowTotal(x, xs[0]);
      var r := Insert(xs, x);
      assert r == [xs[0]] + Insert(tail, x);
      forall j | 0 < j < |r| ensures Below(r[0], r[j]) {
        assert r[j] in Insert(tail, x);
        if r[j] != x {
          var k :| 0 <= k < |tail| && tail[k] == r[j];
          assert xs[k + 1] == r[j];
        }
      }
      assert xs == [xs[0]] + tail;
    } else if xs != [] && Below(x, xs[0]) {
      var r := Insert(xs, x);
      forall i, j | 0 <= i < j < |r| ensures Below(r[i], r[j]) {
        if i == 0 && j > 1 {
          BelowTransitive(x, xs[0], xs[j - 1]);
        }
      }
    }
  }

  /** `forEach` over one list, setting `unionSet[x] = true` for each value. */
  method AddAll(unionSet: map<string, bool>, xs: seq<string>) returns (u: map<string, bool>)
    ensures forall x :: x in u <==> x in unionSet || x in xs
  {
    u := unionSet;
    var i := 0;
    while i < |xs|
      invariant 0 <= i <= |xs|
      invariant forall x :: x in u <==> x in unionSet || x in xs[..i]
    {
      u := u[xs[i] := true];
      assert xs[..i + 1] == xs[..i] + [xs[i]];
      i := i + 1;
    }
    assert xs[..i] == xs;
  }

  /** The keys of the union, sorted. */
  method SortKeys(keys: set<string>) returns (sorted: seq<string>)
    ensures StrictlySorted(sorted)
    ensures forall x :: x in sorted <==> x in keys
  {
    sorted := [];
    var remaining := keys;
    while remaining != {}
      invariant remaining <= keys
      invariant StrictlySorted(sorted)
      invariant forall x :: x in sorted <==> x in keys && x !in remaining
      decreases remaining
    {
      var x :| x in remaining;
      InsertSorted(sorted, x);
      sorted := Insert(sorted, x);
      remaining := remaining - {x};
    }
  }

  /**
   * The state selector's items: the sentinel, then the union of the three
   * datasets' state lists, sorted, each value once.
   */
  method StateItems(mStates: seq<string>, sgStates: seq<string>, smStates: seq<string>) returns (items: seq<string>)
    ensures |items| >= 1 && items[0] == AllStates
    ensures StrictlySorted(items[1..])
    ensures forall x :: x in items[1..] <==> x in mStates || x in sgStates || x in smStates
  {
    var unionSet: map<string, bool> := map[];
    unionSet := AddAll(unionSet, mStates);
    unionSet := AddAll(unionSet, sgStates);
    unionSet := AddAll(unionSet, smStates);
    var keys := SortKeys(unionSet.Keys);
    items := [AllStates] + keys;
    assert items[1..] == keys;
  }

  /** The sorted part of the item list is fully determined by the union: any correct sort gives the same list. */
  lemma StateItemsDetermined(a: seq<string>, b: seq<string>, mStates: seq<string>, sgStates: seq<string>, smStates: seq<string>)
    requires StrictlySorted(a) && StrictlySorted(b)
    requires forall x :: x in a <==> x in mStates || x in sgStates || x in smStates
    requires forall x :: x in b <==> x in mStates || x in sgStates || x in smStates
    ensures a == b
  {
    StrictlySortedUnique(a, b);
  }

  /**
   * A habitat dataset as the resolver sees it: the property names of its
   * first feature, and for each field the evaluated sorted distinct values.
   */
  datatype Dataset = Dataset(propertyNames: Option<seq<string>>, sortedDistinct: string -> Option<seq<JsValue>>)

  /** The cleaned state values of a dataset under the field detected for it. */
  function StatesOf(d: Dataset, field: Option<string>): seq<string> {
    DistinctValues(field, if field.Some? then d.sortedDistinct(field.value) else None)
  }

  /**
   * The resolver chain run once at start-up: detect the state field of each
   * dataset, clean its values, and build the selector items from the union.
   */
  method BuildStateSelector(m: Dataset, sg: Dataset, sm: Dataset)
    returns (mField: Option<string>, sgField: Option<string>, smField: Option<string>, items: seq<string>)
    ensures EarliestCandidate(mField, m.propertyNames, StateCandidates)
    ensures EarliestCandidate(sgField, sg.propertyNames, StateCandidates)
    ensures EarliestCandidate(smField, sm.propertyNames, StateCandidates)
    ensures |items| >= 1 && items[0] == AllStates && StrictlySorted(items[1..])
    ensures forall x :: x in items[1..] <==> x in StatesOf(m, mField) || x in StatesOf(sg, sgField) || x in StatesOf(sm, smField)
    ensures forall x :: x in items[1..] ==> x != "" && x != "null" && x != "None"
  {
    mField := DetectField(m.propertyNames, StateCandidates);
    sgField := DetectField(sg.propertyNames, StateCandidates);
    smField := DetectField(sm.propertyNames, StateCandidates);
    var mStates := StatesOf(m, mField);
    var sgStates := StatesOf(sg, sgField);
    var smStates := StatesOf(sm, smField);
    items := StateItems(mStates, sgStates, smStates);
  }

  // ---------------------------------------------------------------- names and geometries

  /** The boundary dataset's name for a selector value; unknown names pass through. */
  function ToGaulName(name: string): (r: string)
    ensures name !in GaulNameMap ==> r == name
    ensures r in GaulNameMap ==> GaulNameMap[r] == r
  {
    if name in GaulNameMap then GaulNameMap[name] else name
  }

  /** Abbreviations map to full names, full names to themselves, and normalising twice changes nothing. */
  lemma ToGaulNameSpec(name: string)
    ensures ToGaulName("NSW") == ToGaulName("New South Wales") == "New South Wales"
    ensures ToGaulName("QLD") == ToGaulName("Queensland") == "Queensland"
    ensures ToGaulName("VIC") == ToGaulName("Victoria") == "Victoria"
    ensures ToGaulName("TAS") == ToGaulName("Tasmania") == "Tasmania"
    ensures ToGaulName("SA") == ToGaulName("South Australia") == "South Australia"
    ensures ToGaulName("WA") == ToGaulName("Western Australia") == "Western Australia"
    ensures ToGaulName("NT") == ToGaulName("Northern Territory") == "Northern Territory"
    ensures ToGaulName("ACT") == ToGaulName("Australian Capital Territory") == "Australian Capital Territory"
    ensures name !in GaulNameMap ==> ToGaulName(name) == name
    ensures ToGaulName(ToGaulName(name)) == ToGaulName(name)
  {
  }

  /** An opaque geometry handle. */
  datatype Geometry = Geometry(id: nat)

  /** One feature of the administrative boundary dataset. */
  datatype Boundary = Boundary(adm1Name: string, geometry: Geometry)

  /** The result of resolving a selector: a geometry, or no boundary of that name. */
  datatype Resolved = Found(geometry: Geometry) | UnresolvedRegion

  /** The first boundary, in dataset order, called `name`. */
  function FirstNamed(boundaries: seq<Boundary>, name: string): (r: Option<Geometry>)
    ensures r.None? <==> forall i :: 0 <= i < |boundaries| ==> boundaries[i].adm1Name != name
    ensures r.Some? ==>
      exists i ::
        0 <= i < |boundaries| && boundaries[i].adm1Name == name && boundaries[i].geometry == r.value &&
        forall j :: 0 <= j < i ==> boundaries[j].adm1Name != name
  {
    if boundaries == [] then None
    else if boundaries[0].adm1Name == name then Some(boundaries[0].geometry)
    else
      var r := FirstNamed(boundaries[1..], name);
      if r.Some? then
        var i :| 0 <= i < |boundaries| - 1 && boundaries[1..][i].adm1Name == name &&
          boundaries[1..][i].geometry == r.value && forall j :: 0 <= j < i ==> boundaries[1..][j].adm1Name != name;
        assert forall j :: 0 <= j < i + 1 ==> boundaries[j].adm1Name != name by {
          forall j | 0 <= j < i + 1 ensures boundaries[j].adm1Name != name {
            if j > 0 { assert boundaries[j] == boundaries[1..][j - 1]; }
          }
        }
        r
      else
        r
  }

  /**
   * The geometry for a selector value: the national geometry for the
   * sentinel, otherwise the first boundary whose name is the normalised value.
   */
  function GeomForState(stateVal: string, national: Geometry, boundaries: seq<Boundary>): (r: Resolved)
    ensures stateVal == AllStates ==> r == Found(national)
    ensures stateVal != AllStates ==>
      (r.UnresolvedRegion? <==> forall i :: 0 <= i < |boundaries| ==> boundaries[i].adm1Name != ToGaulName(stateVal))
    ensures stateVal != AllStates && r.Found? ==>
      exists i ::
        0 <= i < |boundaries| && boundaries[i].adm1Name == ToGaulName(stateVal) && boundaries[i].geometry == r.geometry &&
        forall j :: 0 <= j < i ==> boundaries[j].adm1Name != ToGaulName(stateVal)
  {
    if stateVal == AllStates then Found(national)
    else
      match FirstNamed(boundaries, ToGaulName(stateVal))
      case Some(g) => Found(g)
      case None => UnresolvedRegion
  }

  /** A selector value and its normalised name select the same geometry; so do an abbreviation and its full name. */
  lemma SameStateSameGeometry(name: string, national: Geometry, boundaries: seq<Boundary>)
    ensures GeomForState(name, national, boundaries) == GeomForState(ToGaulName(name), national, boundaries)
    ensures GeomForState("NSW", national, boundaries) == GeomForState("New South Wales", national, boundaries)
  {
    ToGaulNameSpec(name);
    if name != AllStates {
      assert ToGaulName(name) != AllStates;
    }
    ToGaulNameSpec("NSW");
    assert ToGaulName("NSW") == ToGaulName("New South Wales");
  }
}
