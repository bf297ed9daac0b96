/** The stacked bar chart of `initBarCharts`: each entity's row total is the
    sum of its variants' pageviews, rows are ordered by descending total,
    and each variant's segment is as wide, in percent, as its share of the
    largest total. */
module BarChart {
  import Sequences

  datatype Variant = Variant(name: string, pageviews: int)

  datatype Entity = Entity(name: string, isNew: bool, variants: seq<Variant>)

  /** A bar segment: its tooltip's title and count, and its width in percent */
  datatype Segment = Segment(title: string, pageviews: int, width: real)

  /** A chart row: its label, whether it carries the `new` class, its
      segments in order, and the total it displays */
  datatype Row = Row(name: string, isNew: bool, segments: seq<Segment>, total: int)

  /** The sum of the variants' pageviews */
  function Pageviews(vs: seq<Variant>): int {
    if |vs| == 0 then 0 else vs[0].pageviews + Pageviews(vs[1..])
  }

  /** An entity's row total */
  function RowTotal(e: Entity): int {
    Pageviews(e.variants)
  }

  lemma {:induction false} PageviewsAppend(a: seq<Variant>, b: seq<Variant>)
    ensures Pageviews(a + b) == Pageviews(a) + Pageviews(b)
  {
    if |a| == 0 {
      assert a + b == b;
    } else {
      assert (a + b)[1..] == a[1..] + b;
      PageviewsAppend(a[1..], b);
    }
  }

  predicate NonNegative(vs: seq<Variant>) {
    forall i :: 0 <= i < |vs| ==> vs[i].pageviews >= 0
  }

  /** With no negative counts, no variant outweighs the total */
  lemma {:induction false} VariantAtMostTotal(vs: seq<Variant>, i: nat)
    requires NonNegative(vs)
    requires i < |vs|
    ensures 0 <= vs[i].pageviews <= Pageviews(vs)
    ensures Pageviews(vs) >= 0
  {
    if i > 0 {
      VariantAtMostTotal(vs[1..], i - 1);
    } else if |vs| > 1 {
      VariantAtMostTotal(vs[1..], 0);
    }
  }

  /** `calculateRowTotal`: the `reduce` from 0, left to right */
  method CalculateRowTotal(e: Entity) returns (total: int)
    ensures total == RowTotal(e)
  {
    total := 0;
    var i := 0;
    while i < |e.variants|
      invariant 0 <= i <= |e.variants|
      invariant total == Pageviews(e.variants[..i])
    {
      PageviewsAppend(e.variants[..i], [e.variants[i]]);
      assert e.variants[..i + 1] == e.variants[..i] + [e.variants[i]];
      total := total + e.variants[i].pageviews;
      i := i + 1;
    }
    assert e.variants[..i] == e.variants;
  }

  /** Rows in non-increasing order of total */
  predicate Descending(s: seq<Entity>) {
    forall i, j :: 0 <= i < j < |s| ==> RowTotal(s[i]) >= RowTotal(s[j])
  }

  /** Places `x` after every entity with a larger total and before the rest,
      so that it precedes entities with the same total */
  function Insert(x: Entity, s: seq<Entity>): (r: seq<Entity>)
    requires Descending(s)
    ensures multiset(r) == multiset(s) + multiset{x}
    ensures |r| == |s| + 1
    ensures r[0] == x || (|s| > 0 && r[0] == s[0])
    ensures Descending(r)
  {
    if |s| == 0 || RowTotal(s[0]) <= RowTotal(x) then
      ConsDescending(x, s);
      [x] + s
    else
      var rest := Insert(x, s[1..]);
      assert s == [s[0]] + s[1..];
      ConsDescending(s[0], rest);
      [s[0]] + rest
  }

  /** A descending list stays descending under a head at least as large as
      its first element */
  lemma {:induction false} ConsDescending(e: Entity, s: seq<Entity>)
    requires Descending(s)
    requires |s| > 0 ==> RowTotal(e) >= RowTotal(s[0])
    ensures Descending([e] + s)
  {
  }

  /** The copy-and-sort in `renderStackedBarChart`: a comparator on row
      totals, larger first, under the stable sort ECMAScript requires */
  function SortByTotal(s: seq<Entity>): (r: seq<Entity>)
    ensures multiset(r) == multiset(s)
    ensures |r| == |s|
    ensures Descending(r)
  {
    if |s| == 0 then []
    else
      var rest := SortByTotal(s[1..]);
      assert s == [s[0]] + s[1..];
      Insert(s[0], rest)
  }

  /** The entities of `s` whose total is `t`, in their order in `s` */
  function WithTotal(s: seq<Entity>, t: int): seq<Entity> {
    if |s| == 0 then []
    else if RowTotal(s[0]) == t then [s[0]] + WithTotal(s[1..], t)
    else WithTotal(s[1..], t)
  }

  lemma {:induction false} InsertIsStable(x: Entity, s: seq<Entity>, t: int)
    requires Descending(s)
    ensures WithTotal(Insert(x, s), t) == WithTotal([x] + s, t)
  {
    if |s| == 0 || RowTotal(s[0]) <= RowTotal(x) {
    } else {
      var rest := Insert(x, s[1..]);
      assert ([s[0]] + rest)[1..] == rest;
      InsertIsStable(x, s[1..], t);
      assert ([x] + s[1..])[1..] == s[1..];
      assert ([x] + s)[1..] == s;
      if RowTotal(x) == t {
        assert ([s[0]] + s[1..])[1..] == s[1..];
      }
      assert s == [s[0]] + s[1..];
    }
  }

  /** Entities with equal totals keep their input order */
  lemma {:induction false} SortIsStable(s: seq<Entity>, t: int)
    ensures WithTotal(SortByTotal(s), t) == WithTotal(s, t)
  {
    if |s| > 0 {
      SortIsStable(s[1..], t);
      InsertIsStable(s[0], SortByTotal(s[1..]), t);
      assert ([s[0]] + SortByTotal(s[1..]))[1..] == SortByTotal(s[1..]);
    }
  }

  function Max(a: int, b: int): int {
    if a >= b then a else b
  }

  /** `Math.max(...totals)` over a non-empty list */
  function MaxTotal(s: seq<Entity>): (m: int)
    requires |s| > 0
    ensures forall i :: 0 <= i < |s| ==> RowTotal(s[i]) <= m
    ensures exists i :: 0 <= i < |s| && RowTotal(s[i]) == m
  {
    if |s| == 1 then RowTotal(s[0])
    else
      var m := MaxTotal(s[..|s| - 1]);
      assert forall i :: 0 <= i < |s| - 1 ==> s[..|s| - 1][i] == s[i];
      Max(m, RowTotal(s[|s| - 1]))
  }

  /** The largest total does not depend on the order of the rows */
  lemma {:induction false} MaxTotalOfPermutation(a: seq<Entity>, b: seq<Entity>)
    requires |a| > 0
    requires multiset(a) == multiset(b)
    ensures |b| > 0 && MaxTotal(a) == MaxTotal(b)
  {
    assert a[0] in multiset(b);
    var i :| 0 <= i < |a| && RowTotal(a[i]) == MaxTotal(a);
    assert a[i] in multiset(b);
    var j :| 0 <= j < |b| && RowTotal(b[j]) == MaxTotal(b);
    assert b[j] in multiset(a);
  }

  /** For non-empty data, the largest total is the first sorted row's total */
  lemma {:induction false} MaxIsFirstSorted(data: seq<Entity>)
    requires |data| > 0
    ensures MaxTotal(data) == RowTotal(SortByTotal(data)[0])
  {
    MaxTotalOfPermutation(SortByTotal(data), data);
  }

  /** The exact width, in percent, of a segment with `pageviews` views */
  function Width(pageviews: int, maxTotal: int): real
    requires maxTotal != 0
  {
    (pageviews as real / maxTotal as real) * 100.0
  }

  /** `createBarSegment(variant, maxTotal)` */
  function CreateBarSegment(v: Variant, maxTotal: int): (s: Segment)
    requires maxTotal != 0
    ensures s.title == v.name && s.pageviews == v.pageviews
  {
    Segment(v.name, v.pageviews, Width(v.pageviews, maxTotal))
  }

  /** A segment's width is its pageviews' share of the maximum, in percent */
  lemma {:induction false} SegmentWidth(v: Variant, maxTotal: int)
    requires maxTotal != 0
    ensures CreateBarSegment(v, maxTotal).width * (maxTotal as real) == (v.pageviews as real) * 100.0
  {
  }

  /** The segments of `createBarContainer(variants, maxTotal)`, one per variant */
  function Segments(vs: seq<Variant>, maxTotal: int): (r: seq<Segment>)
    requires maxTotal != 0
    ensures |r| == |vs|
    ensures forall i :: 0 <= i < |vs| ==> r[i] == CreateBarSegment(vs[i], maxTotal)
  {
    if |vs| == 0 then [] else [CreateBarSegment(vs[0], maxTotal)] + Segments(vs[1..], maxTotal)
  }

  /** The summed width of a row's segments */
  function TotalWidth(segments: seq<Segment>): real {
    if |segments| == 0 then 0.0 else segments[0].width + TotalWidth(segments[1..])
  }

  /** A row's segments together are as wide as its total's share of the maximum */
  lemma {:induction false} TotalWidthOfSegments(vs: seq<Variant>, maxTotal: int)
    requires maxTotal != 0
    ensures TotalWidth(Segments(vs, maxTotal)) * (maxTotal as real) == (Pageviews(vs) as real) * 100.0
  {
    if |vs| > 0 {
      var segs := Segments(vs, maxTotal);
      assert segs[1..] == Segments(vs[1..], maxTotal);
      TotalWidthOfSegments(vs[1..], maxTotal);
      SegmentWidth(vs[0], maxTotal);
      var w0 := segs[0].width;
      var rest := TotalWidth(segs[1..]);
      calc {
        TotalWidth(segs) * (maxTotal as real);
        (w0 + rest) * (maxTotal as real);
        w0 * (maxTotal as real) + rest * (maxTotal as real);
        (vs[0].pageviews as real) * 100.0 + (Pageviews(vs[1..]) as real) * 100.0;
      }
    }
  }

  /** `createChartRow(warframe, maxTotal)` */
  function CreateChartRow(e: Entity, maxTotal: int): (r: Row)
    requires maxTotal != 0
    ensures r.name == e.name
    ensures r.isNew <==> e.isNew
    ensures r.total == RowTotal(e)
    ensures |r.segments| == |e.variants|
    ensures forall i :: 0 <= i < |e.variants| ==>
              r.segments[i].title == e.variants[i].name && r.segments[i].pageviews == e.variants[i].pageviews
  {
    Row(e.name, e.isNew, Segments(e.variants, maxTotal), RowTotal(e))
  }

  /** A row's segments together are as wide as its total's share of the
      maximum, in percent */
  lemma {:induction false} RowWidth(e: Entity, maxTotal: int)
    requires maxTotal != 0
    ensures var r := CreateChartRow(e, maxTotal);
            TotalWidth(r.segments) * (maxTotal as real) == (r.total as real) * 100.0
  {
    TotalWidthOfSegments(e.variants, maxTotal);
  }

  /** The rows `forEach` appends, in order */
  function Rows(es: seq<Entity>, maxTotal: int): (r: seq<Row>)
    requires maxTotal != 0
    ensures |r| == |es|
    ensures forall i :: 0 <= i < |es| ==> r[i] == CreateChartRow(es[i], maxTotal)
  {
    if |es| == 0 then [] else [CreateChartRow(es[0], maxTotal)] + Rows(es[1..], maxTotal)
  }

  /** What `renderStackedBarChart` demands of its data beyond what it
      handles: a non-zero largest total, since every width divides by it */
  predicate Renderable(data: seq<Entity>) {
    |data| > 0 ==> MaxTotal(data) != 0
  }

  /** `renderStackedBarChart(data, container)`: the rows it appends */
  function RenderStackedBarChart(data: seq<Entity>): (rows: seq<Row>)
    requires Renderable(data)
    ensures |rows| == |data|
    ensures forall i, j :: 0 <= i < j < |rows| ==> rows[i].total >= rows[j].total
    ensures |data| > 0 ==> rows[0].total == MaxTotal(data)
  {
    if |data| == 0 then []
    else
      var sorted := SortByTotal(data);
      MaxIsFirstSorted(data);
      MaxTotalOfPermutation(data, sorted);
      Rows(sorted, MaxTotal(sorted))
  }

  /** Reordering the entities only reorders their rows */
  lemma {:induction false} RowsOfPermutation(a: seq<Entity>, b: seq<Entity>, maxTotal: int)
    requires maxTotal != 0
    requires multiset(a) == multiset(b)
    ensures multiset(Rows(a, maxTotal)) == multiset(Rows(b, maxTotal))
  {
    var f := (e: Entity) => CreateChartRow(e, maxTotal);
    assert Rows(a, maxTotal) == Sequences.Map(f, a);
    assert Rows(b, maxTotal) == Sequences.Map(f, b);
    Sequences.MapPermutation(f, a, b);
  }

  /** The rendered rows are the input's rows, reordered */
  lemma {:induction false} RenderedRowsArePermutation(data: seq<Entity>)
    requires |data| > 0 && MaxTotal(data) != 0
    ensures multiset(RenderStackedBarChart(data)) == multiset(Rows(data, MaxTotal(data)))
  {
    MaxTotalOfPermutation(data, SortByTotal(data));
    RowsOfPermutation(SortByTotal(data), data, MaxTotal(data));
  }

  /** With no negative counts the total is not negative */
  lemma {:induction false} PageviewsNonNegative(vs: seq<Variant>)
    requires NonNegative(vs)
    ensures Pageviews(vs) >= 0
  {
    if |vs| > 0 {
      PageviewsNonNegative(vs[1..]);
    }
  }

  /** A row whose total lies between 0 and the maximum fills between none
      and all of the width; a row at the maximum fills all of it */
  lemma {:induction false} RowWidthBound(e: Entity, maxTotal: int)
    requires maxTotal > 0
    requires 0 <= RowTotal(e) <= maxTotal
    ensures var w := TotalWidth(CreateChartRow(e, maxTotal).segments);
            0.0 <= w <= 100.0 && (RowTotal(e) == maxTotal ==> w == 100.0)
  {
    RowWidth(e, maxTotal);
    var w := TotalWidth(CreateChartRow(e, maxTotal).segments);
    WidthBound(w, RowTotal(e) as real, maxTotal as real);
  }

  lemma {:induction false} WidthBound(w: real, total: real, m: real)
    requires m > 0.0
    requires 0.0 <= total <= m
    requires w * m == total * 100.0
    ensures 0.0 <= w <= 100.0
    ensures total == m ==> w == 100.0
  {
  }

  /** With no negative counts and a row total at most the maximum, each of
      the row's segments is between 0 and 100 percent wide */
  lemma {:induction false} SegmentWidthBound(e: Entity, maxTotal: int, i: nat)
    requires maxTotal > 0
    requires NonNegative(e.variants)
    requires RowTotal(e) <= maxTotal
    requires i < |e.variants|
    ensures 0.0 <= CreateChartRow(e, maxTotal).segments[i].width <= 100.0
  {
    VariantAtMostTotal(e.variants, i);
    SegmentWidth(e.variants[i], maxTotal);
    WidthBound(CreateChartRow(e, maxTotal).segments[i].width, e.variants[i].pageviews as real, maxTotal as real);
  }

  /** With non-negative counts and a positive maximum, every row's segments
      fill at most the full width, and the first row fills exactly all of it */
  lemma {:induction false} RenderedWidths(data: seq<Entity>)
    requires |data| > 0 && MaxTotal(data) > 0
    requires forall e :: e in data ==> NonNegative(e.variants)
    ensures var rows := RenderStackedBarChart(data);
            && TotalWidth(rows[0].segments) == 100.0
            && forall i :: 0 <= i < |rows| ==> 0.0 <= TotalWidth(rows[i].segments) <= 100.0
  {
    var sorted := SortByTotal(data);
    MaxTotalOfPermutation(data, sorted);
    MaxIsFirstSorted(data);
    var m := MaxTotal(sorted);
    var rows := Rows(sorted, m);
    assert RenderStackedBarChart(data) == rows;
    forall i | 0 <= i < |rows|
      ensures 0.0 <= TotalWidth(rows[i].segments) <= 100.0
    {
      assert sorted[i] in multiset(data);
      PageviewsNonNegative(sorted[i].variants);
      RowWidthBound(sorted[i], m);
    }
    RowWidthBound(sorted[0], m);
  }
}
