/** detectCandidateName (utils/anonymizer.ts:19-173): the owner's name of a
    CV, guessed from the positioned text items of its first page. The items
    above the cut-off are grouped into lines and the lines sorted from the
    top down; a scan for a field label decides first, and only when it
    finds nothing does the merge-and-score fallback run. */
module NameDetector {
  import opened Options
  import opened Strings
  import opened Sorting
  import opened Layout
  import opened Labels
  import opened Heuristic

  /** A line after `line.items.sort((a, b) => a.x - b.x)`. */
  function SortItems(line: Line): (r: Line)
    ensures r.y == line.y && |r.items| == |line.items|
  {
    Line(line.y, SortBy(line.items, ItemX))
  }

  /** Every line with its items sorted by x. */
  function SortEach(lines: seq<Line>): (r: seq<Line>)
    ensures |r| == |lines|
  {
    seq(|lines|, i requires 0 <= i < |lines| => SortItems(lines[i]))
  }

  /** What detectCandidateName returns: nothing for an empty input; else
      the label scan's value over the sorted lines of the upper region,
      and only when that finds nothing, the fallback's best candidate. */
  function CandidateName(items: seq<TextItem>): Option<string> {
    if items == [] then None
    else
      var lines := SortedLines(items);
      var found := LabelSearch(lines);
      if found.Some? then found else BestCandidate(Candidates(lines))
  }

  /** The label pass over the sorted lines: each line's items are sorted
      in place when the scan reaches it, and the line below is seen as it
      stands, not yet sorted. When nothing is found every line has been
      sorted. */
  method LabelPass(sorted: seq<Line>) returns (found: Option<string>, lines: seq<Line>)
    ensures found == LabelSearch(sorted)
    ensures found.None? ==> lines == SortEach(sorted)
  {
    lines := sorted;
    ghost var attempts := SearchAttempts(sorted);
    for i := 0 to |lines|
      invariant |lines| == |sorted|
      invariant forall k :: 0 <= k < i ==> lines[k] == SortItems(sorted[k])
      invariant forall k :: i <= k < |lines| ==> lines[k] == sorted[k]
      invariant LabelSearch(sorted) == FirstSome(attempts, i)
    {
      lines := lines[i := Line(lines[i].y, SortBy(lines[i].items, ItemX))];
      var below := if i + 1 < |lines| then Some(lines[i + 1].items) else None;
      assert below == Below(sorted, i);
      found := ScanLineForLabel(lines[i].items, below);
      assert attempts[i] == found;
      if found.Some? {
        return;
      }
    }
    found := None;
  }

  /** The body of detectCandidateName. */
  method DetectCandidateName(items: seq<TextItem>) returns (name: Option<string>)
    ensures name == CandidateName(items)
  {
    if |items| == 0 {
      return None;
    }
    var searchItems := UpperRegion(items);
    var lines := GroupIntoLines(searchItems);
    lines := SortBy(lines, NegY);
    var found;
    found, lines := LabelPass(lines);
    if found.Some? {
      return found;
    }
    CandidatesOfSortedLines(SortedLines(items));
    var candidates := MergeCandidates(lines);
    name := PickBestCandidate(candidates);
  }

  lemma SortEachPrefix(lines: seq<Line>, n: nat)
    requires n <= |lines|
    ensures SortEach(lines)[..n] == SortEach(lines[..n])
  {
  }

  /** The fallback sorts each line again; sorting an already sorted line
      changes nothing, so it sees the same candidates as on lines that were
      never sorted. */
  lemma {:induction false} CandidatesOfSortedLines(lines: seq<Line>)
    ensures Candidates(SortEach(lines)) == Candidates(lines)
    decreases |lines|
  {
    if lines != [] {
      var n := |lines| - 1;
      var items := lines[n].items;
      SortEachPrefix(lines, n);
      CandidatesOfSortedLines(lines[..n]);
      SortBySortsAndPermutes(items, ItemX);
      SortByIdempotent(SortBy(items, ItemX), ItemX);
      assert SortEach(lines)[n] == Line(lines[n].y, SortBy(items, ItemX));
    }
  }

  /** After the label pass each line holds its own items, sorted from left
      to right. */
  lemma SortEachShape(lines: seq<Line>, k: nat)
    requires k < |lines|
    ensures SortEach(lines)[k].y == lines[k].y
    ensures multiset(SortEach(lines)[k].items) == multiset(lines[k].items)
    ensures SortedBy(SortEach(lines)[k].items, ItemX)
  {
    SortBySortsAndPermutes(lines[k].items, ItemX);
  }

  /** `items.filter(...)` distributes over concatenation. */
  lemma {:induction false} UpperRegionConcat(a: seq<TextItem>, b: seq<TextItem>)
    ensures UpperRegion(a + b) == UpperRegion(a) + UpperRegion(b)
    decreases |b|
  {
    if b != [] {
      var n := |b| - 1;
      var keep := if b[n].y > UpperRegionCutoff then [b[n]] else [];
      assert (a + b)[..|a + b| - 1] == a + b[..n];
      assert (a + b)[|a + b| - 1] == b[n];
      assert UpperRegion(a + b) == UpperRegion(a + b[..n]) + keep;
      assert UpperRegion(b) == UpperRegion(b[..n]) + keep;
      UpperRegionConcat(a, b[..n]);
    } else {
      assert a + b == a;
    }
  }

  /** Nothing passes the filter when every item is at or below the cut-off. */
  lemma UpperRegionEmpty(items: seq<TextItem>)
    requires forall it :: it in items ==> it.y <= UpperRegionCutoff
    ensures UpperRegion(items) == []
  {
    UpperRegionSelects(items);
    if UpperRegion(items) != [] {
      assert UpperRegion(items)[0] in UpperRegion(items);
    }
  }

  /** Items at or below the cut-off never influence the result: inserting
      any number of them anywhere into any input, the empty one included,
      leaves the name unchanged. */
  lemma LowItemsIgnored(a: seq<TextItem>, low: seq<TextItem>, b: seq<TextItem>)
    requires forall it :: it in low ==> it.y <= UpperRegionCutoff
    ensures CandidateName(a + low + b) == CandidateName(a + b)
  {
    UpperRegionConcat(a + low, b);
    UpperRegionConcat(a, low);
    UpperRegionConcat(a, b);
    UpperRegionEmpty(low);
    SameUpperRegion(a + low + b, a + b);
  }

  /** The name depends on the items above the cut-off only, whether or not
      either input is empty. */
  lemma SameUpperRegion(x: seq<TextItem>, y: seq<TextItem>)
    requires UpperRegion(x) == UpperRegion(y)
    ensures CandidateName(x) == CandidateName(y)
  {
    if x == [] || y == [] {
      assert SortedLines(x) == [];
    }
    assert SortedLines(x) == SortedLines(y);
  }

  /** An input with nothing above the cut-off, the empty one included, has
      no name. */
  lemma NothingAboveCutoff(items: seq<TextItem>)
    requires forall it :: it in items ==> it.y <= UpperRegionCutoff
    ensures CandidateName(items).None?
  {
    UpperRegionEmpty(items);
    assert SortedLines(items) == [];
  }

  /** A standalone label with another item to its right on its line, met
      before any other hit of the scan, decides the name: the neighbour's
      trimmed text, and the fallback never runs. */
  lemma StandaloneLabelDecides(items: seq<TextItem>, i: nat, j: nat)
    requires i < |SortedLines(items)|
    requires FirstAt(SearchAttempts(SortedLines(items)), 0, i)
    requires j + 1 < |SortBy(SortedLines(items)[i].items, ItemX)|
    requires FirstAt(LineAttempts(SortBy(SortedLines(items)[i].items, ItemX), Below(SortedLines(items), i)), 0, j)
    requires IsLabelToken(Trim(SortBy(SortedLines(items)[i].items, ItemX)[j].str))
    ensures CandidateName(items) == Some(Trim(SortBy(SortedLines(items)[i].items, ItemX)[j + 1].str))
  {
    StandaloneLabelTakesRightNeighbour(SortedLines(items), i, j);
  }

  /** When the label scan finds nothing, a name is the cleaned text of the
      earliest best-scoring candidate that passes the filters: at least
      three characters, ASCII letters at both ends, no `@` and no digit. */
  lemma FallbackNameIsNameLike(items: seq<TextItem>)
    requires items != [] && LabelSearch(SortedLines(items)).None?
    ensures var cands := Candidates(SortedLines(items));
      CandidateName(items) == BestCandidate(cands)
      && (CandidateName(items).Some? ==>
            exists k :: 0 <= k < |cands| && FirstMaximum(Offers(cands), |cands|, k)
              && CandidateName(items) == Cleaned(cands[k]))
    ensures CandidateName(items).Some? ==>
      var r := CandidateName(items).value;
      |r| >= 3 && IsAsciiLetter(r[0]) && IsAsciiLetter(r[|r| - 1]) && '@' !in r && !HasDigit(r)
  {
    var cands := Candidates(SortedLines(items));
    assert CandidateName(items) == BestCandidate(cands);
    BestCandidateIsFirstMaximum(cands);
    BestCandidateIsNameLike(cands);
  }
}
