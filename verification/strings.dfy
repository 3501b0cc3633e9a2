/** The JavaScript string primitives the anonymizer relies on: `trim`,
    ASCII `toLowerCase`/`toUpperCase`, `includes`, `split(' ')`,
    `split(/\s+/)` and `join`. */
module Strings {

  /** The characters JavaScript's `trim` removes and the regular-expression
      class `\s` matches: the WhiteSpace and LineTerminator code points of
      ECMAScript. */
  predicate IsWhitespace(c: char) {
    c == ' ' || c == '\t' || c == '\n' || c == '\r' || c == '\U{000B}' || c == '\U{000C}'
    || c == '\U{00A0}' || c == '\U{1680}' || ('\U{2000}' <= c <= '\U{200A}')
    || c == '\U{2028}' || c == '\U{2029}' || c == '\U{202F}' || c == '\U{205F}'
    || c == '\U{3000}' || c == '\U{FEFF}'
  }

  predicate IsAsciiDigit(c: char) { '0' <= c <= '9' }
  predicate IsAsciiUpper(c: char) { 'A' <= c <= 'Z' }
  predicate IsAsciiLower(c: char) { 'a' <= c <= 'z' }
  predicate IsAsciiLetter(c: char) { IsAsciiUpper(c) || IsAsciiLower(c) }

  /** The position of an ASCII letter in the alphabet, from 0. */
  function LetterIndex(c: char): int
    requires IsAsciiLetter(c)
  {
    if IsAsciiUpper(c) then c as int - 'A' as int else c as int - 'a' as int
  }

  /** A capital becomes the small letter at the same place in the alphabet;
      every other character is kept. */
  function LowerChar(c: char): (d: char)
    ensures !IsAsciiUpper(d)
    ensures IsAsciiLetter(d) <==> IsAsciiLetter(c)
    ensures IsAsciiUpper(c) ==> IsAsciiLower(d) && LetterIndex(d) == LetterIndex(c)
    ensures !IsAsciiUpper(c) ==> d == c
  {
    if IsAsciiUpper(c) then (c as int + 32) as char else c
  }

  /** A small letter becomes the capital at the same place in the alphabet;
      every other character is kept. */
  function UpperChar(c: char): (d: char)
    ensures !IsAsciiLower(d)
    ensures IsAsciiLetter(d) <==> IsAsciiLetter(c)
    ensures IsAsciiLower(c) ==> IsAsciiUpper(d) && LetterIndex(d) == LetterIndex(c)
    ensures !IsAsciiLower(c) ==> d == c
  {
    if IsAsciiLower(c) then (c as int - 32) as char else c
  }

  /** Lower-casing and upper-casing undo each other on the ASCII letters. */
  lemma CaseRoundTrip(c: char)
    ensures IsAsciiUpper(c) ==> UpperChar(LowerChar(c)) == c
    ensures IsAsciiLower(c) ==> LowerChar(UpperChar(c)) == c
    ensures !IsAsciiLetter(c) ==> LowerChar(c) == c && UpperChar(c) == c
  {
  }

  /** `toLowerCase`, restricted to the ASCII letters. */
  function ToLower(s: string): (r: string)
    ensures |r| == |s|
    ensures forall i :: 0 <= i < |s| ==> r[i] == LowerChar(s[i])
  {
    seq(|s|, i requires 0 <= i < |s| => LowerChar(s[i]))
  }

  /** `toUpperCase`, restricted to the ASCII letters. */
  function ToUpper(s: string): (r: string)
    ensures |r| == |s|
    ensures forall i :: 0 <= i < |s| ==> r[i] == UpperChar(s[i])
  {
    seq(|s|, i requires 0 <= i < |s| => UpperChar(s[i]))
  }

  /** `needle` occurs in `hay` starting at index `i`. */
  predicate OccursAt(hay: string, needle: string, i: int) {
    0 <= i && i + |needle| <= |hay| && hay[i..i + |needle|] == needle
  }

  /** `hay.includes(needle)`. */
  predicate Contains(hay: string, needle: string) {
    exists i :: 0 <= i <= |hay| - |needle| && OccursAt(hay, needle, i)
  }

  /** The end of the whitespace run of `s` that starts at `p`. */
  function WhitespaceRunEnd(s: string, p: nat): (q: nat)
    requires p <= |s|
    ensures p <= q <= |s|
    ensures forall k :: p <= k < q ==> IsWhitespace(s[k])
    ensures q < |s| ==> !IsWhitespace(s[q])
    decreases |s| - p
  {
    if p < |s| && IsWhitespace(s[p]) then WhitespaceRunEnd(s, p + 1) else p
  }

  /** `s` without its longest prefix and its longest suffix of characters
      that `drop` holds of, removed one character at a time. */
  function StripEnds(s: string, drop: char -> bool): (r: string)
    ensures |r| <= |s|
    ensures r != [] ==> !drop(r[0]) && !drop(r[|r| - 1])
    decreases |s|
  {
    if s != [] && drop(s[0]) then StripEnds(s[1..], drop)
    else if s != [] && drop(s[|s| - 1]) then StripEnds(s[..|s| - 1], drop)
    else s
  }

  /** Outside `s[i..i + n]` every character is one `drop` holds of. */
  predicate PaddedBy(s: string, drop: char -> bool, i: nat, n: nat)
    requires i + n <= |s|
  {
    (forall k :: 0 <= k < i ==> drop(s[k]))
    && (forall k :: i + n <= k < |s| ==> drop(s[k]))
  }

  /** Stripping removes characters from the ends only: `s` is the result
      with droppable characters on either side. */
  lemma {:induction false} StripEndsPadded(s: string, drop: char -> bool)
    ensures exists i :: (0 <= i <= |s| - |StripEnds(s, drop)| && OccursAt(s, StripEnds(s, drop), i)
                         && PaddedBy(s, drop, i, |StripEnds(s, drop)|))
    decreases |s|
  {
    var r := StripEnds(s, drop);
    if s != [] && drop(s[0]) {
      var t := s[1..];
      assert r == StripEnds(t, drop);
      StripEndsPadded(t, drop);
      var i :| 0 <= i <= |t| - |r| && OccursAt(t, r, i) && PaddedBy(t, drop, i, |r|);
      PaddedAfterDrop(s, drop, r, i);
      assert 0 <= i + 1 <= |s| - |r| && OccursAt(s, r, i + 1) && PaddedBy(s, drop, i + 1, |r|);
    } else if s != [] && drop(s[|s| - 1]) {
      var t := s[..|s| - 1];
      assert r == StripEnds(t, drop);
      StripEndsPadded(t, drop);
      var i :| 0 <= i <= |t| - |r| && OccursAt(t, r, i) && PaddedBy(t, drop, i, |r|);
      PaddedBeforeDrop(s, drop, r, i);
      assert 0 <= i <= |s| - |r| && OccursAt(s, r, i) && PaddedBy(s, drop, i, |r|);
    } else {
      assert r == s;
      assert OccursAt(s, r, 0) && PaddedBy(s, drop, 0, |r|);
    }
  }

  lemma PaddedAfterDrop(s: string, drop: char -> bool, r: string, i: nat)
    requires s != [] && drop(s[0]) && i + |r| <= |s| - 1
    requires OccursAt(s[1..], r, i) && PaddedBy(s[1..], drop, i, |r|)
    ensures OccursAt(s, r, i + 1) && PaddedBy(s, drop, i + 1, |r|)
  {
    var t := s[1..];
    assert s[i + 1..i + 1 + |r|] == t[i..i + |r|];
    forall k | 0 <= k < i + 1 ensures drop(s[k]) {
      if k > 0 { assert s[k] == t[k - 1]; }
    }
    forall k | i + 1 + |r| <= k < |s| ensures drop(s[k]) {
      assert s[k] == t[k - 1];
    }
  }

  lemma PaddedBeforeDrop(s: string, drop: char -> bool, r: string, i: nat)
    requires s != [] && drop(s[|s| - 1]) && i + |r| <= |s| - 1
    requires OccursAt(s[..|s| - 1], r, i) && PaddedBy(s[..|s| - 1], drop, i, |r|)
    ensures OccursAt(s, r, i) && PaddedBy(s, drop, i, |r|)
  {
    var t := s[..|s| - 1];
    assert s[i..i + |r|] == t[i..i + |r|];
    forall k | 0 <= k < i ensures drop(s[k]) {
      assert s[k] == t[k];
    }
    forall k | i + |r| <= k < |s| ensures drop(s[k]) {
      if k < |s| - 1 { assert s[k] == t[k]; }
    }
  }

  /** The result is empty exactly when every character of `s` is droppable,
      and every character it keeps comes from `s`. */
  lemma StripEndsKeepsMiddle(s: string, drop: char -> bool)
    ensures StripEnds(s, drop) == [] <==> forall k :: 0 <= k < |s| ==> drop(s[k])
    ensures exists i :: (0 <= i <= |s| - |StripEnds(s, drop)| && OccursAt(s, StripEnds(s, drop), i)
                         && PaddedBy(s, drop, i, |StripEnds(s, drop)|))
    ensures forall c :: c in StripEnds(s, drop) ==> c in s
  {
    var r := StripEnds(s, drop);
    StripEndsPadded(s, drop);
    var i :| 0 <= i <= |s| - |r| && OccursAt(s, r, i) && PaddedBy(s, drop, i, |r|);
    if r != [] {
      assert r[0] == s[i];
    }
    forall c | c in r ensures c in s {
      var k :| 0 <= k < |r| && r[k] == c;
      assert s[i + k] == c;
    }
  }

  /** `s.trim()`. */
  function Trim(s: string): string {
    StripEnds(s, IsWhitespace)
  }

  /** `s.split(' ')`: the pieces between single space characters, empty
      pieces included. */
  function SplitOnSpace(s: string): (parts: seq<string>)
    ensures |parts| >= 1
    ensures forall p :: p in parts ==> ' ' !in p
  {
    if s == [] then [[]]
    else
      var rest := SplitOnSpace(s[1..]);
      if s[0] == ' ' then [[]] + rest
      else [[s[0]] + rest[0]] + rest[1..]
  }

  /** `parts.join(sep)`. */
  function JoinWith(parts: seq<string>, sep: string): string {
    if |parts| == 0 then []
    else if |parts| == 1 then parts[0]
    else parts[0] + sep + JoinWith(parts[1..], sep)
  }

  /** `s.split(/\s+/)`: the pieces between maximal runs of whitespace. A
      leading or trailing run yields an empty first or last piece, as in
      JavaScript. */
  function SplitOnWhitespace(s: string): (words: seq<string>)
    ensures |words| >= 1
    ensures forall k, j :: 0 <= k < |words| && 0 <= j < |words[k]| ==> !IsWhitespace(words[k][j])
    ensures forall k :: 0 < k < |words| - 1 ==> words[k] != []
    ensures words[0] == [] <==> s == [] || IsWhitespace(s[0])
    decreases |s|
  {
    if s == [] then [[]]
    else if IsWhitespace(s[0]) then [[]] + SplitOnWhitespace(s[WhitespaceRunEnd(s, 0)..])
    else
      var rest := SplitOnWhitespace(s[1..]);
      [[s[0]] + rest[0]] + rest[1..]
  }

  lemma {:induction false} JoinAppend(parts: seq<string>, p: string, sep: string)
    requires |parts| >= 1
    ensures JoinWith(parts + [p], sep) == JoinWith(parts, sep) + sep + p
  {
    if |parts| == 1 {
      assert parts + [p] == [parts[0], p];
      assert [parts[0], p][1..] == [p];
    } else {
      assert (parts + [p])[1..] == parts[1..] + [p];
      JoinAppend(parts[1..], p, sep);
    }
  }

  /** Joining the pieces of `s.split(' ')` with a space gives `s` back. */
  lemma {:induction false} SplitOnSpaceJoin(s: string)
    ensures JoinWith(SplitOnSpace(s), " ") == s
  {
    if s != [] {
      var rest := SplitOnSpace(s[1..]);
      SplitOnSpaceJoin(s[1..]);
      if s[0] == ' ' {
        assert ([[]] + rest)[1..] == rest;
      } else {
        var parts := [[s[0]] + rest[0]] + rest[1..];
        if |rest| > 1 {
          assert parts[1..] == rest[1..];
        }
      }
    }
  }

  /** Splitting at a space distributes over the two sides of it. */
  lemma {:induction false} SplitOnSpaceConcat(a: string, b: string)
    ensures SplitOnSpace(a + " " + b) == SplitOnSpace(a) + SplitOnSpace(b)
  {
    if a == [] {
      assert a + " " + b == [' '] + b;
      assert ([' '] + b)[1..] == b;
    } else {
      assert (a + " " + b)[1..] == a[1..] + " " + b;
      SplitOnSpaceConcat(a[1..], b);
    }
  }

  /** A piece with no space in it is not split. */
  lemma {:induction false} SplitOnSpaceSingle(p: string)
    requires ' ' !in p
    ensures SplitOnSpace(p) == [p]
  {
    if p != [] {
      SplitOnSpaceSingle(p[1..]);
      assert [p[0]] + p[1..] == p;
    }
  }

  /** Splitting the space-joined pieces gives the pieces back, when no piece
      holds a space. */
  lemma {:induction false} JoinSplitOnSpace(parts: seq<string>)
    requires |parts| >= 1
    requires forall p :: p in parts ==> ' ' !in p
    ensures SplitOnSpace(JoinWith(parts, " ")) == parts
  {
    if |parts| == 1 {
      SplitOnSpaceSingle(parts[0]);
    } else {
      JoinSplitOnSpace(parts[1..]);
      SplitOnSpaceConcat(parts[0], JoinWith(parts[1..], " "));
      SplitOnSpaceSingle(parts[0]);
      assert [parts[0]] + parts[1..] == parts;
    }
  }

  /** `s` with every maximal run of whitespace replaced by one space,
      defined character by character: a whitespace character followed by
      another one is dropped, one followed by anything else becomes a
      space. */
  function Collapse(s: string): (r: string)
    ensures |r| <= |s|
    decreases |s|
  {
    if s == [] then []
    else if IsWhitespace(s[0]) && |s| > 1 && IsWhitespace(s[1]) then Collapse(s[1..])
    else [if IsWhitespace(s[0]) then ' ' else s[0]] + Collapse(s[1..])
  }

  /** A whitespace run starting at `p` collapses to one space. */
  lemma {:induction false} CollapseRun(s: string, p: nat)
    requires p < |s| && IsWhitespace(s[p])
    ensures Collapse(s[p..]) == " " + Collapse(s[WhitespaceRunEnd(s, p)..])
    decreases |s| - p
  {
    var t := s[p..];
    assert t[1..] == s[p + 1..];
    if p + 1 < |s| && IsWhitespace(s[p + 1]) {
      assert t[1] == s[p + 1];
      CollapseRun(s, p + 1);
    } else {
      assert WhitespaceRunEnd(s, p) == p + 1;
    }
  }

  lemma JoinConsFirst(c: char, parts: seq<string>, sep: string)
    requires |parts| >= 1
    ensures JoinWith([[c] + parts[0]] + parts[1..], sep) == [c] + JoinWith(parts, sep)
  {
    var q := [[c] + parts[0]] + parts[1..];
    assert q[1..] == parts[1..];
  }

  /** Joining the pieces of `s.split(/\s+/)` with a space gives `s` with
      each whitespace run collapsed to one space: no text is lost and the
      order is kept. */
  lemma {:induction false} SplitOnWhitespaceJoin(s: string)
    ensures JoinWith(SplitOnWhitespace(s), " ") == Collapse(s)
    decreases |s|
  {
    if s != [] {
      if IsWhitespace(s[0]) {
        var q := WhitespaceRunEnd(s, 0);
        var rest := SplitOnWhitespace(s[q..]);
        SplitOnWhitespaceJoin(s[q..]);
        CollapseRun(s, 0);
        assert s[0..] == s;
        assert ([[]] + rest)[1..] == rest;
      } else {
        SplitOnWhitespaceJoin(s[1..]);
        JoinConsFirst(s[0], SplitOnWhitespace(s[1..]), " ");
      }
    }
  }

  /** A word holding no whitespace is one piece. */
  predicate IsWord(w: string) {
    w != [] && forall j :: 0 <= j < |w| ==> !IsWhitespace(w[j])
  }

  /** A piece without whitespace followed by a space and text that does not
      start with whitespace splits into that piece and the pieces of the
      text. */
  lemma {:induction false} SplitOnWhitespaceConcat(a: string, b: string)
    requires forall j :: 0 <= j < |a| ==> !IsWhitespace(a[j])
    requires b == [] || !IsWhitespace(b[0])
    ensures SplitOnWhitespace(a + " " + b) == [a] + SplitOnWhitespace(b)
    decreases |a|
  {
    var s := a + " " + b;
    if a == [] {
      assert s == [' '] + b;
      assert WhitespaceRunEnd(s, 0) == 1 by {
        assert WhitespaceRunEnd(s, 1) == 1;
      }
      assert s[1..] == b;
    } else {
      assert s[1..] == a[1..] + " " + b;
      SplitOnWhitespaceConcat(a[1..], b);
      assert [a[0]] + a[1..] == a;
    }
  }

  /** A piece without whitespace is not split. */
  lemma {:induction false} SplitOnWhitespaceSingle(a: string)
    requires forall j :: 0 <= j < |a| ==> !IsWhitespace(a[j])
    ensures SplitOnWhitespace(a) == [a]
    decreases |a|
  {
    if a != [] {
      SplitOnWhitespaceSingle(a[1..]);
      assert [a[0]] + a[1..] == a;
    }
  }

  /** Splitting space-joined words gives the words back. */
  lemma {:induction false} JoinSplitOnWhitespace(words: seq<string>)
    requires |words| >= 1
    requires forall k :: 0 <= k < |words| ==> IsWord(words[k])
    ensures SplitOnWhitespace(JoinWith(words, " ")) == words
    decreases |words|
  {
    if |words| == 1 {
      SplitOnWhitespaceSingle(words[0]);
    } else {
      var rest := words[1..];
      JoinSplitOnWhitespace(rest);
      JoinStartsWith(rest);
      SplitOnWhitespaceConcat(words[0], JoinWith(rest, " "));
      assert [words[0]] + rest == words;
    }
  }

  /** The space-joined words start with the first character of the first. */
  lemma JoinStartsWith(words: seq<string>)
    requires |words| >= 1 && words[0] != []
    ensures JoinWith(words, " ") != [] && JoinWith(words, " ")[0] == words[0][0]
  {
  }
}
