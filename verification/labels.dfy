/** Label-based name detection, the first strategy of detectCandidateName
    (utils/anonymizer.ts:50-96): a field label such as "Nombre" either
    stands alone, with the value to its right or on the line below
    (case A), or opens the item, as in "Nombre: Ana García" (case B). */
module Labels {
  import opened Options
  import opened Strings
  import opened Sorting
  import opened Patterns
  import opened Layout

  /** The recognised labels, in the order case B tries them. */
  const NameLabels: seq<string> :=
    ["nombre", "name", "candidato", "postulante", "nombres", "apellidos", "fullname", "full name"]

  /** On the line below a label, an item whose x differs from the label's
      by less than this is taken as the value. */
  const LabelColumnTolerance: real := 50.0

  /** `s.replace(/[:.]/g, '')`. */
  function DropColonsAndDots(s: string): (r: string)
    ensures ':' !in r && '.' !in r
    decreases |s|
  {
    if s == [] then []
    else
      var front, last := s[..|s| - 1], s[|s| - 1];
      assert s == front + [last];
      DropColonsAndDots(front) + (if last == ':' || last == '.' then [] else [last])
  }

  /** The removal works character by character: it distributes over
      concatenation, so the characters kept stay in their order. */
  lemma {:induction false} DropColonsAndDotsConcat(a: string, b: string)
    ensures DropColonsAndDots(a + b) == DropColonsAndDots(a) + DropColonsAndDots(b)
    decreases |b|
  {
    if b == [] {
      assert a + b == a;
    } else {
      var n := |b| - 1;
      assert (a + b)[..|a + b| - 1] == a + b[..n];
      assert (a + b)[|a + b| - 1] == b[n];
      DropColonsAndDotsConcat(a, b[..n]);
    }
  }

  /** Exactly the colons and dots are removed: a character is kept when it
      is in `s` and is neither, and text without them is left unchanged. */
  lemma {:induction false} DropColonsAndDotsKeeps(s: string)
    ensures forall c :: c in DropColonsAndDots(s) <==> c in s && c != ':' && c != '.'
    ensures (':' !in s && '.' !in s) ==> DropColonsAndDots(s) == s
    decreases |s|
  {
    if s != [] {
      var front, last := s[..|s| - 1], s[|s| - 1];
      assert s == front + [last];
      DropColonsAndDotsKeeps(front);
    }
  }

  /** Case A: the trimmed item, lower-cased and without colons and dots,
      is one of the labels. */
  predicate IsLabelToken(text: string) {
    DropColonsAndDots(ToLower(text)) in NameLabels
  }

  /** What case B extracts for one label: the trimmed rest of `text` after
      the match of `^label\s*[:.]?\s+`, or nothing when the pattern does
      not match. */
  function LabelValue(text: string, tag: string): (v: Option<string>)
    ensures v.Some? <==> LabelPrefixEnd(text, tag).Some?
    ensures v.Some? ==> |v.value| < |text| - |tag|
  {
    match LabelPrefixEnd(text, tag)
    case Some(e) => Some(Trim(text[e..]))
    case None => None
  }

  /** A value is only kept when it is longer than two characters. */
  function LongEnough(v: Option<string>): Option<string> {
    if v.Some? && |v.value| > 2 then v else None
  }

  /** The outcome of case B for each label, in list order. */
  function InlineAttempts(text: string): seq<Option<string>> {
    seq(|NameLabels|, k requires 0 <= k < |NameLabels| => LongEnough(LabelValue(text, NameLabels[k])))
  }

  /** Case B: the value of the first label whose value is longer than two
      characters. A label that matches with a shorter value does not stop
      the search. */
  function InlineLabelValue(text: string): Option<string> {
    FirstSome(InlineAttempts(text))
  }

  /** What case B returns is the value of some label, longer than two
      characters, and every label before that one either did not match or
      left a value of at most two characters. */
  lemma InlineLabelValueIsFirstLongValue(text: string)
    ensures InlineLabelValue(text).Some? ==> |InlineLabelValue(text).value| > 2
    ensures InlineLabelValue(text).Some? ==>
      exists k :: 0 <= k < |NameLabels| && LabelValue(text, NameLabels[k]) == InlineLabelValue(text)
        && ShortOrAbsentBefore(text, k)
    ensures InlineLabelValue(text).None? ==> ShortOrAbsentBefore(text, |NameLabels|)
  {
    var attempts := InlineAttempts(text);
    var v := InlineLabelValue(text);
    FirstSomeIsFirst(attempts, 0);
    if v.Some? {
      var k :| 0 <= k < |attempts| && attempts[k] == v && FirstAt(attempts, 0, k);
      assert LabelValue(text, NameLabels[k]) == v;
      assert ShortOrAbsentBefore(text, k) by {
        forall k' | 0 <= k' < k ensures ShortOrAbsent(text, k') {
          assert attempts[k'].None?;
        }
      }
    } else {
      forall k' | 0 <= k' < |NameLabels| ensures ShortOrAbsent(text, k') {
        assert attempts[k'].None?;
      }
    }
  }

  /** Label `k` does not match `text`, or leaves a value of at most two
      characters. */
  predicate ShortOrAbsent(text: string, k: nat)
    requires k < |NameLabels|
  {
    var v := LabelValue(text, NameLabels[k]);
    v.None? || |v.value| <= 2
  }

  predicate ShortOrAbsentBefore(text: string, k: nat)
    requires k <= |NameLabels|
  {
    forall k' :: 0 <= k' < k ==> ShortOrAbsent(text, k')
  }

  /** The case-B loop over the labels. */
  method FindInlineValue(text: string) returns (value: Option<string>)
    ensures value == InlineLabelValue(text)
  {
    for k := 0 to |NameLabels|
      invariant InlineLabelValue(text) == FirstSome(InlineAttempts(text), k)
    {
      var e := LabelPrefixEnd(text, NameLabels[k]);
      if e.Some? {
        var v := Trim(text[e.value..]);
        if |v| > 2 {
          return Some(v);
        }
      }
    }
    return None;
  }

  predicate Aligned(it: TextItem, x: real) {
    Abs(it.x - x) < LabelColumnTolerance
  }

  /** `items.find(it => Math.abs(it.x - x) < 50)`, as an index. */
  function FindAligned(items: seq<TextItem>, x: real, from: nat := 0): (r: Option<nat>)
    requires from <= |items|
    ensures r.Some? ==> from <= r.value < |items| && Aligned(items[r.value], x)
    ensures r.Some? ==> forall k :: from <= k < r.value ==> !Aligned(items[k], x)
    ensures r.None? ==> forall k :: from <= k < |items| ==> !Aligned(items[k], x)
    decreases |items| - from
  {
    if from == |items| then None
    else if Aligned(items[from], x) then Some(from)
    else FindAligned(items, x, from + 1)
  }

  /** No item before index `k` lies within 50 units of `x`. */
  predicate NoneAlignedBefore(items: seq<TextItem>, x: real, k: nat)
    requires k <= |items|
  {
    forall k' :: 0 <= k' < k ==> !Aligned(items[k'], x)
  }

  /** The value item on the line below a standalone label at `x`: the first
      aligned item, else the line's first item, and nothing only when the
      line is empty. */
  function ValueBelow(items: seq<TextItem>, x: real): (r: Option<TextItem>)
    ensures r.None? <==> items == []
    ensures r.Some? ==> r.value in items
    ensures forall k :: 0 <= k < |items| && Aligned(items[k], x) && NoneAlignedBefore(items, x, k) ==>
      r == Some(items[k])
    ensures items != [] && NoneAlignedBefore(items, x, |items|) ==> r == Some(items[0])
  {
    match FindAligned(items, x)
    case Some(k) => Some(items[k])
    case None => if items == [] then None else Some(items[0])
  }

  /** The outcome of looking at item `j` of a line whose items are `items`;
      `below` holds the items of the next line, when there is one. */
  function LabelAt(items: seq<TextItem>, j: nat, below: Option<seq<TextItem>>): (v: Option<string>)
    requires j < |items|
  {
    var item := items[j];
    var text := Trim(item.str);
    if IsLabelToken(text) && j + 1 < |items| then Some(Trim(items[j + 1].str))
    else if IsLabelToken(text) && below.Some? && below.value != [] then
      Some(Trim(ValueBelow(below.value, item.x).value.str))
    else InlineLabelValue(text)
  }

  /** The outcome of each item of a line, left to right. */
  function LineAttempts(items: seq<TextItem>, below: Option<seq<TextItem>>): seq<Option<string>> {
    seq(|items|, j requires 0 <= j < |items| => LabelAt(items, j, below))
  }

  /** The first hit among the items of a line. */
  function ScanLine(items: seq<TextItem>, below: Option<seq<TextItem>>): Option<string> {
    FirstSome(LineAttempts(items, below))
  }

  /** The body of the loop over the items of one line: cases A and B for
      item `j`. */
  method LookAtItem(items: seq<TextItem>, j: nat, below: Option<seq<TextItem>>) returns (value: Option<string>)
    requires j < |items|
    ensures value == LabelAt(items, j, below)
  {
    var item := items[j];
    var text := Trim(item.str);
    if IsLabelToken(text) {
      if j + 1 < |items| {
        return Some(Trim(items[j + 1].str));
      }
      if below.Some? {
        var valueItem := ValueBelow(below.value, item.x);
        if valueItem.Some? {
          return Some(Trim(valueItem.value.str));
        }
      }
    }
    value := FindInlineValue(text);
  }

  /** The loop over the items of one line. */
  method ScanLineForLabel(items: seq<TextItem>, below: Option<seq<TextItem>>) returns (value: Option<string>)
    ensures value == ScanLine(items, below)
  {
    ghost var attempts := LineAttempts(items, below);
    for j := 0 to |items|
      invariant ScanLine(items, below) == FirstSome(attempts, j)
    {
      value := LookAtItem(items, j, below);
      assert attempts[j] == value;
      if value.Some? {
        return;
      }
    }
    return None;
  }

  /** The items of the line below line `i`, as they stand when line `i`
      is scanned: not yet sorted by x. */
  function Below(lines: seq<Line>, i: nat): Option<seq<TextItem>> {
    if i + 1 < |lines| then Some(lines[i + 1].items) else None
  }

  /** The outcome of scanning each line, top to bottom, its items taken
      left to right. */
  function SearchAttempts(lines: seq<Line>): seq<Option<string>> {
    seq(|lines|, i requires 0 <= i < |lines| => ScanLine(SortBy(lines[i].items, ItemX), Below(lines, i)))
  }

  /** The first hit of the label scan over all lines. */
  function LabelSearch(lines: seq<Line>): Option<string> {
    FirstSome(SearchAttempts(lines))
  }

  /** A standalone label whose line holds another item to its right yields
      that item's trimmed text, provided no earlier item of the scan had an
      outcome. */
  lemma StandaloneLabelTakesRightNeighbour(lines: seq<Line>, i: nat, j: nat)
    requires i < |lines|
    requires FirstAt(SearchAttempts(lines), 0, i)
    requires j + 1 < |SortBy(lines[i].items, ItemX)|
    requires FirstAt(LineAttempts(SortBy(lines[i].items, ItemX), Below(lines, i)), 0, j)
    requires IsLabelToken(Trim(SortBy(lines[i].items, ItemX)[j].str))
    ensures LabelSearch(lines) == Some(Trim(SortBy(lines[i].items, ItemX)[j + 1].str))
  {
    var items := SortBy(lines[i].items, ItemX);
    var attempts := LineAttempts(items, Below(lines, i));
    assert attempts[j] == Some(Trim(items[j + 1].str));
    FirstSomeAt(attempts, 0, j);
    FirstSomeAt(SearchAttempts(lines), 0, i);
  }

  /** A standalone label that ends its line takes its value from the line
      below, in the order that line was grouped in: the first item there
      within 50 units of the label's x, else that line's first item. */
  lemma StandaloneLabelLooksBelow(lines: seq<Line>, i: nat, j: nat)
    requires i + 1 < |lines| && lines[i + 1].items != []
    requires FirstAt(SearchAttempts(lines), 0, i)
    requires j + 1 == |SortBy(lines[i].items, ItemX)|
    requires FirstAt(LineAttempts(SortBy(lines[i].items, ItemX), Below(lines, i)), 0, j)
    requires IsLabelToken(Trim(SortBy(lines[i].items, ItemX)[j].str))
    ensures LabelSearch(lines).Some?
    ensures exists it :: it in lines[i + 1].items && LabelSearch(lines) == Some(Trim(it.str))
    ensures var below, x := lines[i + 1].items, SortBy(lines[i].items, ItemX)[j].x;
      forall k :: 0 <= k < |below| && Aligned(below[k], x) && NoneAlignedBefore(below, x, k) ==>
        LabelSearch(lines) == Some(Trim(below[k].str))
    ensures var below, x := lines[i + 1].items, SortBy(lines[i].items, ItemX)[j].x;
      NoneAlignedBefore(below, x, |below|) ==> LabelSearch(lines) == Some(Trim(below[0].str))
  {
    var items := SortBy(lines[i].items, ItemX);
    var attempts := LineAttempts(items, Below(lines, i));
    var v := ValueBelow(lines[i + 1].items, items[j].x).value;
    assert attempts[j] == Some(Trim(v.str));
    FirstSomeAt(attempts, 0, j);
    FirstSomeAt(SearchAttempts(lines), 0, i);
  }

  /** Whatever an item that is not a standalone label yields is a case-B
      value, longer than two characters. */
  lemma InlineHitIsLong(items: seq<TextItem>, j: nat, below: Option<seq<TextItem>>)
    requires j < |items|
    requires !IsLabelToken(Trim(items[j].str))
    ensures LabelAt(items, j, below) == InlineLabelValue(Trim(items[j].str))
    ensures LabelAt(items, j, below).Some? ==> |LabelAt(items, j, below).value| > 2
  {
    InlineLabelValueIsFirstLongValue(Trim(items[j].str));
  }
}
