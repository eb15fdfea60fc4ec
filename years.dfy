/**
 * The year list offered by the year selector: every fifth year from the
 * first year, with the last year forced onto the end when the stepping
 * misses it.
 */
module Years {
  import opened Text

  const FirstYear := 2001
  const LastYear := 2024
  const YearStep := 5

  /** `first`, `first + step`, ... up to and including `last`. */
  function Stepped(first: int, last: int, step: int): seq<int>
    requires step > 0
    decreases last + step - first
  {
    if first > last then [] else [first] + Stepped(first + step, last, step)
  }

  /** The numbers behind the year list: the stepped years, then `last` unless it is already the final one. */
  function YearNumbers(first: int, last: int, step: int): seq<int>
    requires step > 0
  {
    var ys := Stepped(first, last, step);
    if ys != [] && ys[|ys| - 1] == last then ys else ys + [last]
  }

  /** `String(y)` of every number. */
  function Labels(ys: seq<int>): (r: seq<string>)
    ensures |r| == |ys|
  {
    if ys == [] then [] else [DecimalString(ys[0])] + Labels(ys[1..])
  }

  lemma {:induction false} LabelsAt(ys: seq<int>, i: int)
    requires 0 <= i < |ys|
    ensures Labels(ys)[i] == DecimalString(ys[i])
  {
    if i > 0 {
      LabelsAt(ys[1..], i - 1);
    }
  }

  lemma {:induction false} LabelsConcat(a: seq<int>, b: seq<int>)
    ensures Labels(a + b) == Labels(a) + Labels(b)
  {
    if a != [] {
      assert (a + b)[1..] == a[1..] + b;
      LabelsConcat(a[1..], b);
    } else {
      assert a + b == b;
    }
  }

  lemma PushLabel(pushed: seq<int>, y: int)
    ensures Labels(pushed + [y]) == Labels(pushed) + [DecimalString(y)]
  {
    LabelsConcat(pushed, [y]);
    assert Labels([y]) == [DecimalString(y)];
  }

  /** Comparing the last label with `String(last)` decides the same as comparing the last number with `last`. */
  lemma ForcedLastLabel(xs: seq<int>, last: int)
    ensures var arr := Labels(xs);
      (if |arr| == 0 || arr[|arr| - 1] != DecimalString(last) then arr + [DecimalString(last)] else arr) ==
      Labels(if xs != [] && xs[|xs| - 1] == last then xs else xs + [last])
  {
    PushLabel(xs, last);
    if xs != [] {
      LabelsAt(xs, |xs| - 1);
      if Labels(xs)[|xs| - 1] == DecimalString(last) {
        DecimalInjective(xs[|xs| - 1], last);
      }
    }
  }

  /** The immediately invoked builder: a push loop followed by the forced last entry. */
  method BuildYears(first: int, last: int, step: int) returns (arr: seq<string>)
    requires step > 0
    ensures arr == Labels(YearNumbers(first, last, step))
  {
    arr := [];
    ghost var pushed: seq<int> := [];
    var y := first;
    while y <= last
      invariant pushed + Stepped(y, last, step) == Stepped(first, last, step)
      invariant arr == Labels(pushed)
      decreases last + step - y
    {
      assert pushed + [y] + Stepped(y + step, last, step) == pushed + Stepped(y, last, step);
      PushLabel(pushed, y);
      arr := arr + [DecimalString(y)];
      pushed := pushed + [y];
      y := y + step;
    }
    assert pushed == Stepped(first, last, step);
    ForcedLastLabel(pushed, last);
    if |arr| == 0 || arr[|arr| - 1] != DecimalString(last) {
      arr := arr + [DecimalString(last)];
    }
  }

  /** The stepped years stay within [first, last] and strictly increase. */
  lemma {:induction false} SteppedShape(first: int, last: int, step: int)
    requires step > 0
    ensures var ys := Stepped(first, last, step);
      (first <= last ==> ys != [] && ys[0] == first) &&
      (forall i :: 0 <= i < |ys| ==> first <= ys[i] <= last) &&
      (forall i, j :: 0 <= i < j < |ys| ==> ys[i] < ys[j])
    decreases last + step - first
  {
    if first <= last {
      SteppedShape(first + step, last, step);
      var ys := Stepped(first, last, step);
      assert ys == [first] + Stepped(first + step, last, step);
    }
  }

  /**
   * Whatever the bounds, the year list ends with `last`, holds it exactly
   * once and strictly increases; when `first <= last` it starts with `first`.
   */
  lemma YearNumbersShape(first: int, last: int, step: int)
    requires step > 0
    ensures var ys := YearNumbers(first, last, step);
      ys != [] && ys[|ys| - 1] == last &&
      (first <= last ==> ys[0] == first) &&
      (forall i, j :: 0 <= i < j < |ys| ==> ys[i] < ys[j]) &&
      (forall i :: 0 <= i < |ys| && ys[i] == last ==> i == |ys| - 1)
  {
    SteppedShape(first, last, step);
    var xs := Stepped(first, last, step);
    var ys := YearNumbers(first, last, step);
    if !(xs != [] && xs[|xs| - 1] == last) {
      assert ys == xs + [last];
      assert forall i :: 0 <= i < |xs| ==> xs[i] < last by {
        forall i | 0 <= i < |xs| ensures xs[i] < last {
          if i < |xs| - 1 { assert xs[i] < xs[|xs| - 1]; }
        }
      }
    }
  }

  /** Labels of a list that ends with its only `last`: the label of `last` is the final one and occurs nowhere else. */
  lemma LastLabelOnce(ys: seq<int>, last: int)
    requires ys != [] && ys[|ys| - 1] == last
    requires forall i :: 0 <= i < |ys| && ys[i] == last ==> i == |ys| - 1
    ensures Labels(ys)[|ys| - 1] == DecimalString(last)
    ensures forall i :: 0 <= i < |ys| && Labels(ys)[i] == DecimalString(last) ==> i == |ys| - 1
  {
    LabelsAt(ys, |ys| - 1);
    forall i | 0 <= i < |ys| && Labels(ys)[i] == DecimalString(last)
      ensures i == |ys| - 1
    {
      LabelsAt(ys, i);
      DecimalInjective(ys[i], last);
    }
  }

  /** As labels, the last year appears exactly once, at the end, and the first label is the first year. */
  lemma LabelsShape(first: int, last: int, step: int)
    requires step > 0 && first <= last
    ensures var r := Labels(YearNumbers(first, last, step));
      r != [] && r[0] == DecimalString(first) && r[|r| - 1] == DecimalString(last) &&
      forall i :: 0 <= i < |r| && r[i] == DecimalString(last) ==> i == |r| - 1
  {
    YearNumbersShape(first, last, step);
    var ys := YearNumbers(first, last, step);
    LabelsAt(ys, 0);
    LastLabelOnce(ys, last);
  }

  /** The configured list is 2001, 2006, 2011, 2016, 2021, 2024. */
  lemma ConfiguredYears()
    ensures YearNumbers(FirstYear, LastYear, YearStep) == [2001, 2006, 2011, 2016, 2021, 2024]
    ensures Labels(YearNumbers(FirstYear, LastYear, YearStep))[0] == "2001"
    ensures Labels(YearNumbers(FirstYear, LastYear, YearStep))[5] == "2024"
  {
    assert Stepped(2026, 2024, 5) == [];
    assert Stepped(2001, 2024, 5) == [2001, 2006, 2011, 2016, 2021];
    var ys := YearNumbers(FirstYear, LastYear, YearStep);
    LabelsAt(ys, 0);
    LabelsAt(ys, 5);
    assert DecimalString(2001) == "2001";
    assert DecimalString(2024) == "2024";
  }
}
