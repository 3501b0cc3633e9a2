/** The fallback of detectCandidateName when no label is found
    (utils/anonymizer.ts:99-172): items of a line that lie close together
    are merged into candidates, candidates that cannot be a name are
    filtered out, and the one with the largest font, then the highest
    position, wins. */
module Heuristic {
  import opened Options
  import opened Strings
  import opened Sorting
  import opened Patterns
  import opened Layout

  /** A merged run of text on one line. */
  datatype Candidate = Candidate(text: string, fontHeight: real, y: real)

  /** Items closer than this to the right edge of the group being built
      join that group. */
  const MergeGap: real := 25.0

  /** The group being built: its merged text, its tallest font and the right
      edge of its last item. */
  datatype Group = Group(text: string, fontHeight: real, xEnd: real)

  /** Where the merge loop of a line stands: the candidates pushed so far
      and the group being built. */
  datatype Progress = Progress(done: seq<Candidate>, current: Group)

  function Max(a: real, b: real): (m: real)
    ensures m >= a && m >= b && (m == a || m == b)
  {
    if a >= b then a else b
  }

  /** A group holding the one item `it`. */
  function Open(it: TextItem): Group {
    Group(it.str, it.fontHeight, it.x + it.width)
  }

  /** Item `i` is too far from the right edge of item `i - 1` to join its
      group, so it opens a new one. */
  predicate IsBreak(items: seq<TextItem>, i: nat)
    requires 1 <= i < |items|
  {
    items[i].x - (items[i - 1].x + items[i - 1].width) >= MergeGap
  }

  /** The number of breaks among items 1 to `n - 1`. */
  function Breaks(items: seq<TextItem>, n: nat): nat
    requires 1 <= n <= |items|
    decreases n
  {
    if n == 1 then 0 else Breaks(items, n - 1) + (if IsBreak(items, n - 1) then 1 else 0)
  }

  /** The merge loop of one line after it has seen `items[..n]`, `y` being
      the line's y. */
  function MergeState(items: seq<TextItem>, y: real, n: nat): Progress
    requires 1 <= n <= |items|
    decreases n
  {
    if n == 1 then Progress([], Open(items[0]))
    else
      var p := MergeState(items, y, n - 1);
      var g := p.current;
      var it := items[n - 1];
      if it.x - g.xEnd < MergeGap then
        Progress(p.done, Group(g.text + " " + it.str, Max(g.fontHeight, it.fontHeight), it.x + it.width))
      else
        Progress(p.done + [Candidate(g.text, g.fontHeight, y)], Open(it))
  }

  /** The candidates of one line whose items are `items`, left to right. */
  function MergeLine(items: seq<TextItem>, y: real): seq<Candidate> {
    if items == [] then []
    else
      var p := MergeState(items, y, |items|);
      p.done + [Candidate(p.current.text, p.current.fontHeight, y)]
  }

  function Texts(cands: seq<Candidate>): seq<string> {
    seq(|cands|, k requires 0 <= k < |cands| => cands[k].text)
  }

  function Strs(items: seq<TextItem>): seq<string> {
    seq(|items|, k requires 0 <= k < |items| => items[k].str)
  }

  /** The right edge of the group being built is always the right edge of
      the last item seen, so a break depends on two neighbouring items only
      and each break pushes exactly one candidate. */
  lemma {:induction false} MergeStateEdges(items: seq<TextItem>, y: real, n: nat)
    requires 1 <= n <= |items|
    ensures MergeState(items, y, n).current.xEnd == items[n - 1].x + items[n - 1].width
    ensures |MergeState(items, y, n).done| == Breaks(items, n)
    decreases n
  {
    if n > 1 {
      MergeStateEdges(items, y, n - 1);
    }
  }

  /** Item `a` opens a group: it is the first item or follows a break. */
  predicate OpensGroup(items: seq<TextItem>, a: nat)
    requires a < |items|
  {
    a == 0 || IsBreak(items, a)
  }

  /** `items[a..b]` is one group, or the start of one: it is opened at `a`
      and no item after `a` breaks away from it. */
  predicate IsGroup(items: seq<TextItem>, a: nat, b: nat)
    requires a < b <= |items|
  {
    OpensGroup(items, a) && forall k :: a < k < b ==> !IsBreak(items, k)
  }

  /** `h` is the largest font height among `items[a..b]`. */
  predicate TallestIn(items: seq<TextItem>, a: nat, b: nat, h: real)
    requires a < b <= |items|
  {
    (forall k :: a <= k < b ==> items[k].fontHeight <= h)
    && exists k :: a <= k < b && items[k].fontHeight == h
  }

  /** `h` is the largest font height of a whole group among `items[..n]`,
      one that a break ends. */
  predicate TallestOfGroupBefore(items: seq<TextItem>, n: nat, h: real)
    requires n <= |items|
  {
    exists a, b :: 0 <= a < b < n && IsBreak(items, b) && IsGroup(items, a, b) && TallestIn(items, a, b, h)
  }

  /** The item opening the group being built after `items[..n]` is seen:
      the last item that follows a break, else the first. */
  function GroupStart(items: seq<TextItem>, n: nat): (g: nat)
    requires 1 <= n <= |items|
    ensures g < n
    decreases n
  {
    if n == 1 then 0 else if IsBreak(items, n - 1) then n - 1 else GroupStart(items, n - 1)
  }

  /** Every candidate carries the line's y and the largest font height of
      its own group: the group being built runs from `GroupStart` to the
      last item seen, and each candidate pushed is a whole group, ended by
      a break. */
  lemma {:induction false} MergeStateOrigins(items: seq<TextItem>, y: real, n: nat)
    requires 1 <= n <= |items|
    ensures forall c :: c in MergeState(items, y, n).done ==> c.y == y
    ensures forall m :: 0 <= m < |MergeState(items, y, n).done| ==>
      TallestOfGroupBefore(items, n, MergeState(items, y, n).done[m].fontHeight)
    ensures IsGroup(items, GroupStart(items, n), n)
    ensures TallestIn(items, GroupStart(items, n), n, MergeState(items, y, n).current.fontHeight)
    decreases n
  {
    if n > 1 {
      var p := MergeState(items, y, n - 1);
      var q := MergeState(items, y, n);
      var g := GroupStart(items, n - 1);
      var it := items[n - 1];
      MergeStateOrigins(items, y, n - 1);
      MergeStateEdges(items, y, n - 1);
      var k0 :| g <= k0 < n - 1 && items[k0].fontHeight == p.current.fontHeight;
      if !IsBreak(items, n - 1) {
        assert q.done == p.done;
        if q.current.fontHeight == p.current.fontHeight {
          assert items[k0].fontHeight == q.current.fontHeight;
        } else {
          assert it.fontHeight == q.current.fontHeight;
        }
        forall m | 0 <= m < |q.done| ensures TallestOfGroupBefore(items, n, q.done[m].fontHeight) {
          assert TallestOfGroupBefore(items, n - 1, p.done[m].fontHeight);
          var a, b :| 0 <= a < b < n - 1 && IsBreak(items, b) && IsGroup(items, a, b)
            && TallestIn(items, a, b, p.done[m].fontHeight);
        }
      } else {
        assert q.done == p.done + [Candidate(p.current.text, p.current.fontHeight, y)];
        assert items[n - 1].fontHeight == q.current.fontHeight;
        forall m | 0 <= m < |q.done| ensures TallestOfGroupBefore(items, n, q.done[m].fontHeight) {
          if m < |p.done| {
            assert TallestOfGroupBefore(items, n - 1, p.done[m].fontHeight);
            var a, b :| 0 <= a < b < n - 1 && IsBreak(items, b) && IsGroup(items, a, b)
              && TallestIn(items, a, b, p.done[m].fontHeight);
          } else {
            assert IsGroup(items, g, n - 1) && TallestIn(items, g, n - 1, q.done[m].fontHeight);
          }
        }
      }
    } else {
      assert items[0].fontHeight == MergeState(items, y, n).current.fontHeight;
    }
  }

  /** Joining with a space, `a + " " + b` in the last place is the join of
      the pieces with `a` last, followed by a space and `b`. */
  lemma JoinExtendLast(parts: seq<string>, a: string, b: string)
    ensures JoinWith(parts + [a + " " + b], " ") == JoinWith(parts + [a], " ") + " " + b
  {
    if parts == [] {
      assert parts + [a + " " + b] == [a + " " + b];
      assert parts + [a] == [a];
    } else {
      JoinAppend(parts, a + " " + b, " ");
      JoinAppend(parts, a, " ");
    }
  }

  /** Merging loses no text and changes no order: the space-joined texts of
      the candidates pushed and of the group being built are the
      space-joined strings of the items seen. */
  lemma {:induction false} MergeStateText(items: seq<TextItem>, y: real, n: nat)
    requires 1 <= n <= |items|
    ensures JoinWith(Texts(MergeState(items, y, n).done) + [MergeState(items, y, n).current.text], " ")
      == JoinWith(Strs(items[..n]), " ")
    decreases n
  {
    var p := MergeState(items, y, n);
    if n == 1 {
      assert Texts(p.done) + [p.current.text] == Strs(items[..1]);
    } else {
      var q := MergeState(items, y, n - 1);
      MergeStateText(items, y, n - 1);
      var it := items[n - 1];
      assert Strs(items[..n]) == Strs(items[..n - 1]) + [it.str];
      JoinAppend(Strs(items[..n - 1]), it.str, " ");
      if it.x - q.current.xEnd < MergeGap {
        JoinExtendLast(Texts(q.done), q.current.text, it.str);
      } else {
        var c := Candidate(q.current.text, q.current.fontHeight, y);
        assert Texts(p.done) == Texts(q.done) + [q.current.text];
        JoinAppend(Texts(q.done) + [q.current.text], it.str, " ");
      }
    }
  }

  /** Candidates once pushed stay: the candidates after `items[..m]` are
      a prefix of those after `items[..n]`. */
  lemma {:induction false} DonePrefix(items: seq<TextItem>, y: real, m: nat, n: nat)
    requires 1 <= m <= n <= |items|
    ensures MergeState(items, y, m).done <= MergeState(items, y, n).done
    decreases n
  {
    if m < n {
      DonePrefix(items, y, m, n - 1);
    }
  }

  /** The text of the group being built is the space-joined strings of its
      own items, from `GroupStart` to the last item seen. */
  lemma {:induction false} CurrentText(items: seq<TextItem>, y: real, n: nat)
    requires 1 <= n <= |items|
    ensures MergeState(items, y, n).current.text == JoinWith(Strs(items[GroupStart(items, n)..n]), " ")
    decreases n
  {
    var g := GroupStart(items, n);
    if n == 1 {
      assert Strs(items[g..n]) == [items[0].str];
    } else {
      MergeStateEdges(items, y, n - 1);
      var it := items[n - 1];
      if IsBreak(items, n - 1) {
        assert Strs(items[g..n]) == [it.str];
      } else {
        CurrentText(items, y, n - 1);
        assert Strs(items[g..n]) == Strs(items[g..n - 1]) + [it.str];
        JoinAppend(Strs(items[g..n - 1]), it.str, " ");
      }
    }
  }

  /** Each break closes one group and pushes it as one candidate: the break
      at item `b` pushes candidate number `Breaks(items, b + 1) - 1`, whose
      text is the space-joined strings of the items from `GroupStart(items,
      b)` up to the break, whose font height is the largest among them, and
      whose y is the line's. Later items never change it. */
  lemma PushedCandidateIsItsGroup(items: seq<TextItem>, y: real, n: nat, b: nat)
    requires 1 <= b < n <= |items| && IsBreak(items, b)
    ensures var m := Breaks(items, b + 1) - 1;
      var done := MergeState(items, y, n).done;
      0 <= m < |done|
      && IsGroup(items, GroupStart(items, b), b)
      && done[m].text == JoinWith(Strs(items[GroupStart(items, b)..b]), " ")
      && TallestIn(items, GroupStart(items, b), b, done[m].fontHeight)
      && done[m].y == y
  {
    var p := MergeState(items, y, b);
    var q := MergeState(items, y, b + 1);
    MergeStateEdges(items, y, b);
    MergeStateEdges(items, y, b + 1);
    assert q.done == p.done + [Candidate(p.current.text, p.current.fontHeight, y)];
    var m := |q.done| - 1;
    DonePrefix(items, y, b + 1, n);
    assert MergeState(items, y, n).done[m] == q.done[m];
    CurrentText(items, y, b);
    MergeStateOrigins(items, y, b);
  }

  /** A non-empty line yields at least one and at most as many candidates
      as it has items, one more than it has breaks, all at the line's y,
      with the text of its items joined by spaces. */
  lemma MergeLineShape(items: seq<TextItem>, y: real)
    requires items != []
    ensures |MergeLine(items, y)| == Breaks(items, |items|) + 1
    ensures 1 <= |MergeLine(items, y)| <= |items|
    ensures forall c :: c in MergeLine(items, y) ==> c.y == y
    ensures JoinWith(Texts(MergeLine(items, y)), " ") == JoinWith(Strs(items), " ")
  {
    var p := MergeState(items, y, |items|);
    MergeStateEdges(items, y, |items|);
    MergeStateOrigins(items, y, |items|);
    MergeStateText(items, y, |items|);
    BreaksBound(items, |items|);
    assert Texts(MergeLine(items, y)) == Texts(p.done) + [p.current.text];
    assert items[..|items|] == items;
  }

  lemma {:induction false} BreaksBound(items: seq<TextItem>, n: nat)
    requires 1 <= n <= |items|
    ensures Breaks(items, n) < n
    decreases n
  {
    if n > 1 {
      BreaksBound(items, n - 1);
    }
  }

  /** The candidates of all lines, line after line, each line's items taken
      after `line.items.sort((a, b) => a.x - b.x)`; an empty line yields
      none. */
  function Candidates(lines: seq<Line>): seq<Candidate>
    decreases |lines|
  {
    if lines == [] then []
    else
      var last := lines[|lines| - 1];
      Candidates(lines[..|lines| - 1]) + MergeLine(SortBy(last.items, ItemX), last.y)
  }

  /** Every candidate lies on one of the lines, and there are no more
      candidates than items. */
  lemma {:induction false} CandidatesShape(lines: seq<Line>)
    ensures |Candidates(lines)| <= |AllItems(lines)|
    ensures forall c :: c in Candidates(lines) ==> exists l :: l in lines && c.y == l.y
    decreases |lines|
  {
    if lines != [] {
      var front, last := lines[..|lines| - 1], lines[|lines| - 1];
      CandidatesShape(front);
      var items := SortBy(last.items, ItemX);
      if items != [] {
        MergeLineShape(items, last.y);
      }
      forall c | c in Candidates(lines) ensures exists l :: l in lines && c.y == l.y {
        if c in Candidates(front) {
          var l :| l in front && c.y == l.y;
          assert l in lines;
        } else {
          assert c in MergeLine(items, last.y);
          assert last in lines;
        }
      }
    }
  }

  /** The merge loop over the items of one line, already sorted by x. */
  method MergeLineLoop(items: seq<TextItem>, y: real) returns (merged: seq<Candidate>)
    ensures merged == MergeLine(items, y)
  {
    if |items| == 0 {
      return [];
    }
    merged := [];
    var text := items[0].str;
    var fontHeight := items[0].fontHeight;
    var xEnd := items[0].x + items[0].width;
    for k := 1 to |items|
      invariant merged == MergeState(items, y, k).done
      invariant Group(text, fontHeight, xEnd) == MergeState(items, y, k).current
    {
      var item := items[k];
      var distance := item.x - xEnd;
      if distance < MergeGap {
        text := text + " " + item.str;
        xEnd := item.x + item.width;
        fontHeight := Max(fontHeight, item.fontHeight);
      } else {
        merged := merged + [Candidate(text, fontHeight, y)];
        text := item.str;
        fontHeight := item.fontHeight;
        xEnd := item.x + item.width;
      }
    }
    merged := merged + [Candidate(text, fontHeight, y)];
  }

  /** The loop over the lines of the fallback: each line's items are sorted
      by x and merged. */
  method MergeCandidates(lines: seq<Line>) returns (candidates: seq<Candidate>)
    ensures candidates == Candidates(lines)
  {
    candidates := [];
    for i := 0 to |lines|
      invariant candidates == Candidates(lines[..i])
    {
      assert lines[..i + 1][..i] == lines[..i];
      var items := SortBy(lines[i].items, ItemX);
      var merged := MergeLineLoop(items, lines[i].y);
      candidates := candidates + merged;
    }
    assert lines[..|lines|] == lines;
  }

  // ---------------------------------------------------------------------
  // Filtering and scoring

  /** Words that mark a heading rather than a name. */
  const StopWords: seq<string> := [
    "curriculum", "vitae", "resume", "cv", "hoja", "de", "vida",
    "perfil", "profesional", "autobiografia", "datos", "personales",
    "contacto", "experiencia", "educaci\U{00F3}n", "formaci\U{00F3}n", "informaci\U{00F3}n",
    "personal", "laboral", "acad\U{00E9}mica", "sobre", "m\U{00ED}", "mi", "resumen"
  ]

  /** `words.every(w => stopWords.some(sw => w.includes(sw)))`. */
  predicate AllStopWords(words: seq<string>)
    decreases |words|
  {
    words == [] || (HasStopWord(words[0]) && AllStopWords(words[1..]))
  }

  /** `stopWords.some(sw => w.includes(sw))`, from index `k` of the list. */
  predicate HasStopWord(w: string, k: nat := 0)
    requires k <= |StopWords|
    decreases |StopWords| - k
  {
    k < |StopWords| && (Contains(w, StopWords[k]) || HasStopWord(w, k + 1))
  }

  /** `/\d/.test(s)`. */
  predicate HasDigit(s: string) {
    exists k :: 0 <= k < |s| && IsAsciiDigit(s[k])
  }

  /** What a candidate offers as a name once the filters have passed: the
      trimmed text without its leading and trailing non-letters; nothing
      when the trimmed text is shorter than 3, holds an `@` or a digit,
      consists of stop-word-bearing words only, or leaves fewer than 3
      characters once cleaned. */
  function Cleaned(c: Candidate): Option<string> {
    var text := Trim(c.text);
    var lower := ToLower(text);
    if |text| < 3 then None
    else if '@' in lower then None
    else if HasDigit(text) then None
    else if AllStopWords(SplitOnWhitespace(lower)) then None
    else
      var clean := StripNonLetterEnds(text);
      if |clean| < 3 then None
      else Some(clean)
  }

  /** A name offered by a candidate is at least three characters long,
      starts and ends with an ASCII letter, holds no `@` and no digit, and
      lies within the trimmed text of a candidate whose words are not all
      stop-word-bearing. */
  lemma CleanedIsNameLike(c: Candidate)
    ensures Cleaned(c).Some? ==>
      var r := Cleaned(c).value;
      |r| >= 3 && Contains(Trim(c.text), r)
      && IsAsciiLetter(r[0]) && IsAsciiLetter(r[|r| - 1])
      && '@' !in r && !HasDigit(r)
      && !AllStopWords(SplitOnWhitespace(ToLower(Trim(c.text))))
  {
    var text := Trim(c.text);
    var lower := ToLower(text);
    if Cleaned(c).Some? {
      var r := StripNonLetterEnds(text);
      assert Cleaned(c) == Some(r);
      StripEndsKeepsMiddle(text, IsNotAsciiLetter);
    }
  }

  /** `fontHeight * 100 + y`: one point of font outweighs 100 units of
      height on the page. */
  function Score(c: Candidate): real {
    c.fontHeight * 100.0 + c.y
  }

  /** What a candidate brings to the scoring loop: the name it offers, if
      it passes the filters, and its score. */
  datatype Offer = Offer(name: Option<string>, score: real)

  function Offers(cands: seq<Candidate>): seq<Offer> {
    seq(|cands|, k requires 0 <= k < |cands| => Offer(Cleaned(cands[k]), Score(cands[k])))
  }

  /** The scoring loop after `offers[..n]`: the best score so far (starting
      at -1) and the name that earned it. A later offer only wins with a
      strictly larger score. */
  function BestOf(offers: seq<Offer>, n: nat): (real, Option<string>)
    requires n <= |offers|
    decreases n
  {
    if n == 0 then (-1.0, None)
    else
      var (maxScore, best) := BestOf(offers, n - 1);
      var o := offers[n - 1];
      if o.name.Some? && o.score > maxScore then (o.score, o.name) else (maxScore, best)
  }

  function BestCandidate(cands: seq<Candidate>): Option<string> {
    BestOf(Offers(cands), |cands|).1
  }

  /** The filters and the score of one candidate, as the body of the
      scoring loop applies them. */
  method Filter(cand: Candidate) returns (clean: Option<string>, score: real)
    ensures Offer(clean, score) == Offer(Cleaned(cand), Score(cand))
  {
    var text := Trim(cand.text);
    var lower := ToLower(text);
    score := Score(cand);
    if |text| < 3 || '@' in lower || HasDigit(text) || AllStopWords(SplitOnWhitespace(lower)) {
      return None, score;
    }
    var cleanText := StripNonLetterEnds(text);
    if |cleanText| < 3 {
      return None, score;
    }
    return Some(cleanText), score;
  }

  /** The scoring loop of the fallback. */
  method PickBestCandidate(cands: seq<Candidate>) returns (best: Option<string>)
    ensures best == BestCandidate(cands)
  {
    best := None;
    var maxScore := -1.0;
    for n := 0 to |cands|
      invariant (maxScore, best) == BestOf(Offers(cands), n)
    {
      maxScore, best := Consider(cands, n, maxScore, best);
    }
  }

  /** One round of the scoring loop: candidate `n` replaces the best so far
      when it survives the filters and scores strictly more. */
  method Consider(cands: seq<Candidate>, n: nat, maxScore: real, best: Option<string>)
    returns (maxScore': real, best': Option<string>)
    requires n < |cands| && (maxScore, best) == BestOf(Offers(cands), n)
    ensures (maxScore', best') == BestOf(Offers(cands), n + 1)
  {
    maxScore', best' := maxScore, best;
    var clean, score := Filter(cands[n]);
    assert Offers(cands)[n] == Offer(clean, score);
    if clean.None? {
      return;
    }
    if score > maxScore {
      maxScore', best' := score, clean;
    }
  }

  /** Offer `k` has a name and no offer among the first `n` that has one
      scores more; none before `k` scores as much. */
  ghost predicate FirstMaximum(offers: seq<Offer>, n: nat, k: nat)
    requires k < n <= |offers|
  {
    offers[k].name.Some?
    && (forall k' :: 0 <= k' < n && offers[k'].name.Some? ==> offers[k'].score <= offers[k].score)
    && (forall k' :: 0 <= k' < k && offers[k'].name.Some? ==> offers[k'].score < offers[k].score)
  }

  /** No offer among the first `n` that has a name scores above -1. */
  ghost predicate NoneAbove(offers: seq<Offer>, n: nat)
    requires n <= |offers|
  {
    forall k' :: 0 <= k' < n && offers[k'].name.Some? ==> offers[k'].score <= -1.0
  }

  lemma {:induction false} BestOfIsFirstMaximum(offers: seq<Offer>, n: nat)
    requires n <= |offers|
    ensures BestOf(offers, n).1.None? ==> BestOf(offers, n).0 == -1.0 && NoneAbove(offers, n)
    ensures BestOf(offers, n).1.Some? ==>
      exists k :: 0 <= k < n && FirstMaximum(offers, n, k) && offers[k].score > -1.0
        && BestOf(offers, n) == (offers[k].score, offers[k].name)
    decreases n
  {
    if n > 0 {
      BestOfIsFirstMaximum(offers, n - 1);
      var (maxScore, best) := BestOf(offers, n - 1);
      var o := offers[n - 1];
      if best.None? {
        if o.name.Some? && o.score > maxScore {
          assert FirstMaximum(offers, n, n - 1);
        }
      } else {
        var k :| 0 <= k < n - 1 && FirstMaximum(offers, n - 1, k) && offers[k].score > -1.0
          && BestOf(offers, n - 1) == (offers[k].score, offers[k].name);
        if o.name.Some? && o.score > maxScore {
          assert FirstMaximum(offers, n, n - 1);
        } else {
          assert FirstMaximum(offers, n, k);
        }
      }
    }
  }

  /** The fallback picks the name of the earliest candidate that passes the
      filters with the largest score `fontHeight * 100 + y`, provided that
      score is above -1; it picks nothing when no candidate passing the
      filters scores above -1. */
  lemma BestCandidateIsFirstMaximum(cands: seq<Candidate>)
    ensures BestCandidate(cands).Some? ==>
      exists k :: 0 <= k < |cands| && FirstMaximum(Offers(cands), |cands|, k) && Score(cands[k]) > -1.0
        && BestCandidate(cands) == Cleaned(cands[k])
    ensures BestCandidate(cands).None? ==> NoneAbove(Offers(cands), |cands|)
  {
    var offers := Offers(cands);
    BestOfIsFirstMaximum(offers, |cands|);
    if BestCandidate(cands).Some? {
      var k :| 0 <= k < |cands| && FirstMaximum(offers, |cands|, k) && offers[k].score > -1.0
        && BestOf(offers, |cands|) == (offers[k].score, offers[k].name);
      assert offers[k] == Offer(Cleaned(cands[k]), Score(cands[k]));
    }
  }

  /** The fallback's name is at least three characters long, has ASCII
      letters at both ends and holds no `@` and no digit. */
  lemma BestCandidateIsNameLike(cands: seq<Candidate>)
    ensures BestCandidate(cands).Some? ==>
      var r := BestCandidate(cands).value;
      |r| >= 3 && IsAsciiLetter(r[0]) && IsAsciiLetter(r[|r| - 1]) && '@' !in r && !HasDigit(r)
  {
    BestCandidateIsFirstMaximum(cands);
    if BestCandidate(cands).Some? {
      var k :| 0 <= k < |cands| && FirstMaximum(Offers(cands), |cands|, k) && Score(cands[k]) > -1.0
        && BestCandidate(cands) == Cleaned(cands[k]);
      CleanedIsNameLike(cands[k]);
    }
  }
}
