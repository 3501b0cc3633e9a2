/** getInitials (utils/anonymizer.ts:11-17): the initials shown for a name,
    `name.split(' ').map(n => n[0]).join('').toUpperCase()`. The first
    character of an empty piece is `undefined`, which `join` writes as
    nothing, so an empty piece contributes no letter. */
module Initials {
  import opened Strings
  import opened Seqs

  /** `n[0]`, as `join('')` writes it. */
  function Head(piece: string): (r: string)
    ensures |r| <= 1
  {
    if piece == [] then [] else [piece[0]]
  }

  function GetInitials(name: string): (r: string) {
    ToUpper(FlatMap(Head, SplitOnSpace(name)))
  }

  lemma ToUpperAppend(a: string, b: string)
    ensures ToUpper(a + b) == ToUpper(a) + ToUpper(b)
  {
  }

  /** Initials of names joined by a space are the initials of each, one
      after the other. */
  lemma InitialsOfSpaceJoin(a: string, b: string)
    ensures GetInitials(a + " " + b) == GetInitials(a) + GetInitials(b)
  {
    SplitOnSpaceConcat(a, b);
    FlatMapAppend(Head, SplitOnSpace(a), SplitOnSpace(b));
    ToUpperAppend(FlatMap(Head, SplitOnSpace(a)), FlatMap(Head, SplitOnSpace(b)));
  }

  /** A single word yields its first character, upper-cased; an empty name
      yields nothing. */
  lemma InitialsOfWord(w: string)
    requires ' ' !in w
    ensures GetInitials(w) == if w == [] then [] else [UpperChar(w[0])]
  {
    SplitOnSpaceSingle(w);
    assert [w][..0] == [];
    assert FlatMap(Head, [w]) == Head(w);
  }

  /** Words without spaces joined by single spaces yield one letter per
      word: the word's first character, upper-cased. */
  lemma {:induction false} InitialsOfWords(words: seq<string>)
    requires |words| >= 1
    requires forall i :: 0 <= i < |words| ==> words[i] != [] && ' ' !in words[i]
    ensures GetInitials(JoinWith(words, " ")) == seq(|words|, i requires 0 <= i < |words| => UpperChar(words[i][0]))
    decreases |words|
  {
    if |words| == 1 {
      InitialsOfWord(words[0]);
    } else {
      var rest := words[1..];
      InitialsOfWords(rest);
      InitialsOfWord(words[0]);
      InitialsOfSpaceJoin(words[0], JoinWith(rest, " "));
    }
  }

  /** There is at most one initial per piece of `split(' ')`, and none is a
      lower-case ASCII letter. */
  lemma {:induction false} InitialsBound(name: string)
    ensures |GetInitials(name)| <= |SplitOnSpace(name)|
    ensures forall k :: 0 <= k < |GetInitials(name)| ==> !IsAsciiLower(GetInitials(name)[k])
  {
    FlatMapBound(Head, SplitOnSpace(name));
  }

  lemma {:induction false} FlatMapBound(f: string -> string, pieces: seq<string>)
    requires forall p :: |f(p)| <= 1
    ensures |FlatMap(f, pieces)| <= |pieces|
    decreases |pieces|
  {
    if pieces != [] {
      FlatMapBound(f, pieces[..|pieces| - 1]);
    }
  }
}
