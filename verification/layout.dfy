/** Positioned text and the grouping of page-one items into visual lines,
    the first stage of name detection (utils/anonymizer.ts). Coordinates are
    page coordinates with y growing upwards, so a larger y is higher on the
    page. */
module Layout {
  import opened Options
  import opened Sorting
  import opened Seqs

  /** One run of text as the document parser lays it out. */
  datatype TextItem = TextItem(str: string, x: real, y: real, width: real, height: real, fontHeight: real)

  /** A visual line: the y of the item that opened it and its items. */
  datatype Line = Line(y: real, items: seq<TextItem>)

  /** Only items strictly above this y take part in name detection. */
  const UpperRegionCutoff: real := 400.0
  /** Items whose y differs from a line's y by less than this join it. */
  const LineTolerance: real := 5.0

  function Abs(r: real): (a: real)
    ensures a >= 0.0 && (a == r || a == -r)
  {
    if r < 0.0 then -r else r
  }

  /** `items.filter(item => item.y > 400)`. */
  function UpperRegion(items: seq<TextItem>): (r: seq<TextItem>)
    ensures |r| <= |items|
    decreases |items|
  {
    if items == [] then []
    else
      var last := items[|items| - 1];
      UpperRegion(items[..|items| - 1]) + (if last.y > UpperRegionCutoff then [last] else [])
  }

  /** The filter keeps exactly the items above the cut-off. */
  lemma {:induction false} UpperRegionSelects(items: seq<TextItem>)
    ensures forall it :: it in UpperRegion(items) <==> it in items && it.y > UpperRegionCutoff
    decreases |items|
  {
    if items != [] {
      var front := items[..|items| - 1];
      UpperRegionSelects(front);
      assert items == front + [items[|items| - 1]];
    }
  }

  predicate Near(line: Line, y: real) {
    Abs(line.y - y) < LineTolerance
  }

  /** `lines.find(line => Math.abs(line.y - item.y) < 5)`, as an index. */
  function FindLine(lines: seq<Line>, y: real, from: nat := 0): (r: Option<nat>)
    requires from <= |lines|
    ensures r.Some? ==> from <= r.value < |lines| && Near(lines[r.value], y)
    ensures r.Some? ==> forall k :: from <= k < r.value ==> !Near(lines[k], y)
    ensures r.None? ==> forall k :: from <= k < |lines| ==> !Near(lines[k], y)
    decreases |lines| - from
  {
    if from == |lines| then None
    else if Near(lines[from], y) then Some(from)
    else FindLine(lines, y, from + 1)
  }

  /** One step of the grouping loop: the item joins the first line within
      tolerance, or opens a new line at the bottom of the list. */
  function AddToLine(lines: seq<Line>, item: TextItem): seq<Line> {
    match FindLine(lines, item.y)
    case Some(k) => lines[k := Line(lines[k].y, lines[k].items + [item])]
    case None => lines + [Line(item.y, [item])]
  }

  /** The lines the grouping loop builds from `items`, in creation order. */
  function GroupLines(items: seq<TextItem>): seq<Line>
    decreases |items|
  {
    if items == [] then []
    else AddToLine(GroupLines(items[..|items| - 1]), items[|items| - 1])
  }

  /** The grouping loop of detectCandidateName. */
  method GroupIntoLines(searchItems: seq<TextItem>) returns (lines: seq<Line>)
    ensures lines == GroupLines(searchItems)
  {
    lines := [];
    for n := 0 to |searchItems|
      invariant lines == GroupLines(searchItems[..n])
    {
      var item := searchItems[n];
      var existing := FindLine(lines, item.y);
      if existing.Some? {
        var k := existing.value;
        lines := lines[k := Line(lines[k].y, lines[k].items + [item])];
      } else {
        lines := lines + [Line(item.y, [item])];
      }
      assert searchItems[..n + 1][..n] == searchItems[..n];
    }
    assert searchItems[..|searchItems|] == searchItems;
  }

  /** The items of all lines, line after line. */
  function AllItems(lines: seq<Line>): seq<TextItem>
    decreases |lines|
  {
    if lines == [] then [] else AllItems(lines[..|lines| - 1]) + lines[|lines| - 1].items
  }

  /** No line is empty and a line's y is that of its first item. */
  ghost predicate LinesOpened(lines: seq<Line>) {
    forall k :: 0 <= k < |lines| ==> |lines[k].items| > 0 && lines[k].y == lines[k].items[0].y
  }

  /** Every item lies within tolerance of its line. */
  ghost predicate ItemsNearLine(lines: seq<Line>) {
    forall k, it :: 0 <= k < |lines| && it in lines[k].items ==> Near(lines[k], it.y)
  }

  /** Any two lines are at least the tolerance apart. */
  ghost predicate LinesApart(lines: seq<Line>) {
    forall k, m :: 0 <= k < m < |lines| ==> Abs(lines[k].y - lines[m].y) >= LineTolerance
  }

  /** The shape the grouping loop keeps. */
  ghost predicate WellGrouped(lines: seq<Line>) {
    LinesOpened(lines) && ItemsNearLine(lines) && LinesApart(lines)
  }

  lemma AllItemsUpdate(lines: seq<Line>, k: nat, item: TextItem)
    requires k < |lines|
    ensures multiset(AllItems(lines[k := Line(lines[k].y, lines[k].items + [item])]))
         == multiset(AllItems(lines)) + multiset{item}
  {
    var updated := lines[k := Line(lines[k].y, lines[k].items + [item])];
    UpdateKeepsOthers(lines, k, Line(lines[k].y, lines[k].items + [item]));
    AllItemsSplit(lines, k);
    AllItemsSplit(updated, k);
  }

  lemma {:induction false} JoinLineKeepsShape(lines: seq<Line>, k: nat, item: TextItem)
    requires WellGrouped(lines)
    requires k < |lines| && Near(lines[k], item.y)
    ensures WellGrouped(lines[k := Line(lines[k].y, lines[k].items + [item])])
  {
    var r := lines[k := Line(lines[k].y, lines[k].items + [item])];
    assert LinesOpened(r) by {
      forall m | 0 <= m < |r| ensures |r[m].items| > 0 && r[m].y == r[m].items[0].y {
        if m == k {
          assert r[m].items[0] == lines[k].items[0];
        }
      }
    }
    assert ItemsNearLine(r) by {
      forall m, it | 0 <= m < |r| && it in r[m].items ensures Near(r[m], it.y) {
        if m == k && it != item {
          assert it in lines[k].items;
        }
      }
    }
    assert LinesApart(r) by {
      forall m, m' | 0 <= m < m' < |r| ensures Abs(r[m].y - r[m'].y) >= LineTolerance {
        assert r[m].y == lines[m].y && r[m'].y == lines[m'].y;
      }
    }
  }

  lemma {:induction false} OpenLineKeepsShape(lines: seq<Line>, item: TextItem)
    requires WellGrouped(lines)
    requires forall k :: 0 <= k < |lines| ==> !Near(lines[k], item.y)
    ensures WellGrouped(lines + [Line(item.y, [item])])
  {
    var r := lines + [Line(item.y, [item])];
    assert LinesOpened(r) by {
      forall m | 0 <= m < |r| ensures |r[m].items| > 0 && r[m].y == r[m].items[0].y {
        if m < |lines| { assert r[m] == lines[m]; }
      }
    }
    assert ItemsNearLine(r) by {
      forall m, it | 0 <= m < |r| && it in r[m].items ensures Near(r[m], it.y) {
        if m < |lines| { assert r[m] == lines[m]; }
      }
    }
    assert LinesApart(r) by {
      forall m, m' | 0 <= m < m' < |r| ensures Abs(r[m].y - r[m'].y) >= LineTolerance {
        assert r[m] == lines[m];
        if m' < |lines| { assert r[m'] == lines[m']; }
      }
    }
  }

  lemma {:induction false} AddToLineKeepsShape(lines: seq<Line>, item: TextItem)
    requires WellGrouped(lines)
    ensures WellGrouped(AddToLine(lines, item))
    ensures multiset(AllItems(AddToLine(lines, item))) == multiset(AllItems(lines)) + multiset{item}
  {
    match FindLine(lines, item.y)
    case Some(k) =>
      JoinLineKeepsShape(lines, k, item);
      AllItemsUpdate(lines, k, item);
    case None =>
      OpenLineKeepsShape(lines, item);
      var r := lines + [Line(item.y, [item])];
      assert r[..|lines|] == lines;
  }

  /** Grouping neither loses nor invents items, and yields well-formed
      lines. */
  lemma {:induction false} GroupLinesShape(items: seq<TextItem>)
    ensures WellGrouped(GroupLines(items))
    ensures multiset(AllItems(GroupLines(items))) == multiset(items)
    decreases |items|
  {
    if items != [] {
      var front, last := items[..|items| - 1], items[|items| - 1];
      var prev := GroupLines(front);
      GroupLinesShape(front);
      AddToLineKeepsShape(prev, last);
      MultisetOfLast(items);
    }
  }

  function ItemX(it: TextItem): real { it.x }
  function NegY(line: Line): real { -line.y }

  /** The lines of the upper region, top of the page first: grouped, then
      `lines.sort((a, b) => b.y - a.y)`. */
  function SortedLines(items: seq<TextItem>): seq<Line> {
    SortBy(GroupLines(UpperRegion(items)), NegY)
  }

  /** The lines name detection works on: sorted from the top of the page
      down, each non-empty and opened by its first item, each item within
      tolerance of its line, distinct lines at least the tolerance apart,
      and together holding exactly the items above the cut-off. */
  lemma SortedLinesShape(items: seq<TextItem>)
    ensures var lines := SortedLines(items);
      (forall k, m :: 0 <= k < m < |lines| ==> lines[k].y >= lines[m].y)
      && LinesOpened(lines)
      && ItemsNearLine(lines)
      && (forall l1, l2 :: l1 in lines && l2 in lines && l1 != l2 ==> Abs(l1.y - l2.y) >= LineTolerance)
      && multiset(AllItems(lines)) == multiset(UpperRegion(items))
  {
    var grouped := GroupLines(UpperRegion(items));
    var lines := SortedLines(items);
    GroupLinesShape(UpperRegion(items));
    SortBySortsAndPermutes(grouped, NegY);
    SameElements(grouped, lines);
    forall k, m | 0 <= k < m < |lines| ensures lines[k].y >= lines[m].y {
      assert NegY(lines[k]) <= NegY(lines[m]);
    }
    LinesOpenedByElement(grouped, lines);
    ItemsNearByElement(grouped, lines);
    ApartByElement(grouped, lines);
    SortedAllItems(grouped, lines);
  }

  lemma SameElements(a: seq<Line>, b: seq<Line>)
    requires multiset(a) == multiset(b)
    ensures forall l :: l in a <==> l in b
  {
    forall l ensures l in a <==> l in b {
      assert l in a <==> l in multiset(a);
      assert l in b <==> l in multiset(b);
    }
  }

  lemma LinesOpenedByElement(a: seq<Line>, b: seq<Line>)
    requires LinesOpened(a) && forall l :: l in b ==> l in a
    ensures LinesOpened(b)
  {
    forall k | 0 <= k < |b| ensures |b[k].items| > 0 && b[k].y == b[k].items[0].y {
      assert b[k] in a;
    }
  }

  lemma ItemsNearByElement(a: seq<Line>, b: seq<Line>)
    requires ItemsNearLine(a) && forall l :: l in b ==> l in a
    ensures ItemsNearLine(b)
  {
    forall k, it | 0 <= k < |b| && it in b[k].items ensures Near(b[k], it.y) {
      assert b[k] in a;
    }
  }

  lemma ApartByElement(a: seq<Line>, b: seq<Line>)
    requires LinesApart(a) && forall l :: l in b ==> l in a
    ensures forall l1, l2 :: l1 in b && l2 in b && l1 != l2 ==> Abs(l1.y - l2.y) >= LineTolerance
  {
    forall l1, l2 | l1 in b && l2 in b && l1 != l2 ensures Abs(l1.y - l2.y) >= LineTolerance {
      var k1 :| 0 <= k1 < |a| && a[k1] == l1;
      var k2 :| 0 <= k2 < |a| && a[k2] == l2;
      if k1 > k2 {
        assert Abs(a[k2].y - a[k1].y) >= LineTolerance;
      }
    }
  }

  /** Reordering lines reorders their items but keeps them. */
  lemma {:induction false} SortedAllItems(a: seq<Line>, b: seq<Line>)
    requires multiset(a) == multiset(b)
    ensures multiset(AllItems(a)) == multiset(AllItems(b))
    decreases |a|
  {
    if a != [] {
      var n := |a| - 1;
      var last := a[n];
      MultisetOfLast(a);
      assert last in multiset(b);
      var k :| 0 <= k < |b| && b[k] == last;
      var rest := b[..k] + b[k + 1..];
      MultisetRemove(b, k);
      MultisetCancel(multiset(a[..n]), multiset(rest), last);
      SortedAllItems(a[..n], rest);
      AllItemsRemove(b, k);
      assert AllItems(a) == AllItems(a[..n]) + last.items;
    }
  }

  lemma {:induction false} AllItemsConcat(x: seq<Line>, y: seq<Line>)
    ensures AllItems(x + y) == AllItems(x) + AllItems(y)
    decreases |y|
  {
    if y == [] {
      assert x + y == x;
    } else {
      var front := y[..|y| - 1];
      AllItemsConcat(x, front);
      assert (x + y)[..|x + y| - 1] == x + front;
    }
  }

  lemma AllItemsSplit(b: seq<Line>, k: nat)
    requires k < |b|
    ensures AllItems(b) == AllItems(b[..k]) + b[k].items + AllItems(b[k + 1..])
  {
    var p, q := b[..k], b[k + 1..];
    SplitAround(b, k);
    AllItemsConcat(p + [b[k]], q);
    AllItemsConcat(p, [b[k]]);
    assert [b[k]][..0] == [];
  }

  lemma AllItemsRemove(b: seq<Line>, k: nat)
    requires k < |b|
    ensures multiset(AllItems(b)) == multiset(AllItems(b[..k] + b[k + 1..])) + multiset(b[k].items)
  {
    AllItemsSplit(b, k);
    AllItemsConcat(b[..k], b[k + 1..]);
  }
}
