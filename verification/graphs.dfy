/** The pure parts of `initGraphs`: the annotation records handed to the
    charting library (`createAnnotations`) and the text of the y-axis labels
    (`appendYAxisLabels`). */
module Graphs {
  import opened Wrappers
  import Decimal

  /** An annotation as the page lists it: a date, a caption and an optional
      tick height */
  datatype AnnotationSpec = AnnotationSpec(x: string, text: string, tickHeight: Option<int>)

  /** An annotation as handed to the charting library */
  datatype Annotation = Annotation(
    x: string,
    text: string,
    series: string,
    shortText: nat,
    width: int,
    height: int,
    cssClass: string,
    tickWidth: int,
    tickHeight: int)

  const MarkerSize: int := 24
  const TickWidth: int := 2
  const DefaultTickHeight: int := 20

  /** Every annotation's class list begins with this; its number follows */
  const ClassPrefix: string := "tooltip-hidden annotation-"

  /** The CSS class of the annotation numbered `number` */
  function AnnotationClass(number: nat): (c: string)
    ensures |c| > |ClassPrefix| && c[..|ClassPrefix|] == ClassPrefix
    ensures AnnotationNumber(c) == Some(number)
  {
    var c := ClassPrefix + Decimal.Show(number);
    assert c[|ClassPrefix|..] == Decimal.Show(number);
    Decimal.ParseShow(number);
    c
  }

  /** The number an annotation class names, read back from the digits after
      the prefix; None for a class not of that shape */
  function AnnotationNumber(c: string): Option<nat> {
    if |c| > |ClassPrefix| && c[..|ClassPrefix|] == ClassPrefix && Decimal.AllDigits(c[|ClassPrefix|..])
    then Some(Decimal.Parse(c[|ClassPrefix|..]))
    else None
  }

  /** The truthiness fallback on the tick height: an absent or zero height
      becomes the default */
  function TickHeightOr(h: Option<int>): (r: int)
    ensures r != 0
    ensures h.Some? && h.value != 0 ==> r == h.value
    ensures h.None? || h.value == 0 ==> r == DefaultTickHeight
  {
    match h
    case Some(v) => if v != 0 then v else DefaultTickHeight
    case None => DefaultTickHeight
  }

  /** The annotation at position `i` of a list of annotations for `series` */
  function Decorate(series: string, spec: AnnotationSpec, i: nat): Annotation {
    Annotation(
      spec.x, spec.text, series, i + 1, MarkerSize, MarkerSize,
      AnnotationClass(i + 1), TickWidth, TickHeightOr(spec.tickHeight))
  }

  /** `createAnnotations(seriesName, annotations)` */
  function CreateAnnotations(series: string, specs: seq<AnnotationSpec>): (r: seq<Annotation>)
    ensures |r| == |specs|
    ensures forall i :: 0 <= i < |r| ==>
              && r[i].x == specs[i].x && r[i].text == specs[i].text
              && r[i].series == series
              && r[i].shortText == i + 1
              && r[i].width == 24 && r[i].height == 24 && r[i].tickWidth == 2
              && r[i].cssClass == "tooltip-hidden annotation-" + Decimal.Show(i + 1)
              && r[i].tickHeight != 0
              && (specs[i].tickHeight.Some? && specs[i].tickHeight.value != 0 ==>
                    r[i].tickHeight == specs[i].tickHeight.value)
              && (specs[i].tickHeight.None? || specs[i].tickHeight.value == 0 ==>
                    r[i].tickHeight == 20)
  {
    seq(|specs|, i requires 0 <= i < |specs| => Decorate(series, specs[i], i))
  }

  /** The class of each created annotation reads back as its position plus
      one, which is what the tooltip lookup by annotation number relies on */
  lemma {:induction false} AnnotationNumberOfCreated(series: string, specs: seq<AnnotationSpec>, i: nat)
    requires i < |specs|
    ensures AnnotationNumber(CreateAnnotations(series, specs)[i].cssClass) == Some(i + 1)
  {
  }

  /** No two created annotations share a class */
  lemma {:induction false} CreatedClassesDistinct(series: string, specs: seq<AnnotationSpec>, i: nat, j: nat)
    requires i < j < |specs|
    ensures CreateAnnotations(series, specs)[i].cssClass != CreateAnnotations(series, specs)[j].cssClass
  {
  }

  /** The spec a created annotation carries: its own date, caption and height */
  function SpecOf(a: Annotation): AnnotationSpec {
    AnnotationSpec(a.x, a.text, Some(a.tickHeight))
  }

  /** Creating annotations from already created ones, for the same series,
      gives them back unchanged */
  lemma {:induction false} CreateAnnotationsIdempotent(series: string, specs: seq<AnnotationSpec>)
    ensures var r := CreateAnnotations(series, specs);
            CreateAnnotations(series, seq(|r|, i requires 0 <= i < |r| => SpecOf(r[i]))) == r
  {
  }

  /** The text of the y-axis label for `value`: the number, followed by the
      unit except on the zero label */
  function YLabel(value: nat, unit: string): string {
    Decimal.Show(value) + (if value != 0 then unit else "")
  }

  /** The shape of the y-axis labels for `maxValue` and `unit`: one label per
      value from `maxValue` down to 0, the last one a bare "0" and every
      other one its number followed by the unit */
  ghost predicate IsYAxis(labels: seq<string>, maxValue: int, unit: string) {
    && |labels| == (if maxValue >= 0 then maxValue + 1 else 0)
    && (maxValue >= 0 ==> labels[maxValue] == "0")
    && (forall k :: 0 <= k < |labels| - 1 ==> labels[k] == Decimal.Show(maxValue - k) + unit)
  }

  /** The label loop of `appendYAxisLabels(containerSelector, maxValue, unit)` */
  method YAxisLabels(maxValue: int, unit: string) returns (labels: seq<string>)
    ensures IsYAxis(labels, maxValue, unit)
  {
    labels := [];
    var i := maxValue;
    while i >= 0
      invariant i <= maxValue && (maxValue >= 0 ==> i >= -1) && (maxValue < 0 ==> i == maxValue)
      invariant |labels| == maxValue - i
      invariant forall k :: 0 <= k < |labels| ==> labels[k] == YLabel(maxValue - k, unit)
      decreases i + 1
    {
      labels := labels + [YLabel(i, unit)];
      i := i - 1;
    }
  }

  /** The number a label shows: the digits it starts with */
  function LabelValue(text: string): nat {
    Decimal.Parse(Decimal.LeadingDigits(text))
  }

  /** For a unit that does not start with a digit, the labels read back as
      the values `maxValue`, `maxValue - 1`, ..., 0, so they strictly decrease */
  lemma {:induction false} YAxisValues(labels: seq<string>, maxValue: int, unit: string)
    requires IsYAxis(labels, maxValue, unit)
    requires |unit| == 0 || !Decimal.IsDigit(unit[0])
    ensures forall k :: 0 <= k < |labels| ==> LabelValue(labels[k]) == maxValue - k
    ensures forall k, l :: 0 <= k < l < |labels| ==> LabelValue(labels[k]) > LabelValue(labels[l])
  {
    forall k | 0 <= k < |labels|
      ensures LabelValue(labels[k]) == maxValue - k
    {
      var n: nat := maxValue - k;
      if k < |labels| - 1 {
        Decimal.LeadingDigitsOfShown(Decimal.Show(n), unit);
      } else {
        assert labels[k] == Decimal.Show(0);
        Decimal.LeadingDigitsOfShown(Decimal.Show(0), "");
        assert Decimal.Show(0) + "" == Decimal.Show(0);
      }
      Decimal.ParseShow(n);
    }
  }
}
