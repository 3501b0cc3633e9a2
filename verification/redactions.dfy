/** identifyRedactions (utils/anonymizer.ts:175-269): which text items of a
    page are to be blacked out, and why. Each item yields at most one match
    for a custom keyword and at most one match for an email, a phone number,
    the candidate's full name or a part of it, tried in that order. */
module Redactions {
  import opened Options
  import opened Strings
  import opened Patterns
  import opened Layout
  import opened Seqs

  datatype MatchType = Custom | Email | Phone | Name | NamePartial

  /** A redaction: the box and the text of the item that triggered it, and
      the reason. */
  datatype RedactionMatch = RedactionMatch(x: real, y: real, width: real, height: real, text: string, kind: MatchType)

  /** The match an item yields for a reason. */
  function Box(item: TextItem, kind: MatchType): RedactionMatch {
    RedactionMatch(item.x, item.y, item.width, item.height, item.str, kind)
  }

  /** The candidate name counts only when it is present and not empty, as
      the truthiness tests of JavaScript have it. */
  predicate HasName(name: Option<string>) {
    name.Some? && name.value != []
  }

  /** `customWords.map(w => w.trim().toLowerCase()).filter(w => w.length > 0)`. */
  function CustomKeywords(words: seq<string>): (r: seq<string>)
    ensures |r| <= |words|
    decreases |words|
  {
    if words == [] then []
    else
      var w := ToLower(Trim(words[|words| - 1]));
      CustomKeywords(words[..|words| - 1]) + (if |w| > 0 then [w] else [])
  }

  /** The keywords are the non-empty trimmed and lower-cased custom words. */
  lemma {:induction false} CustomKeywordsAre(words: seq<string>)
    ensures forall k :: k in CustomKeywords(words) <==> k != [] && exists w :: w in words && k == ToLower(Trim(w))
    decreases |words|
  {
    if words != [] {
      var front, last := words[..|words| - 1], words[|words| - 1];
      CustomKeywordsAre(front);
      assert words == front + [last];
      forall k | k != [] && (exists w :: w in words && k == ToLower(Trim(w)))
        ensures k in CustomKeywords(words)
      {
        var w :| w in words && k == ToLower(Trim(w));
        if w != last {
          assert w in front;
        }
      }
    }
  }

  /** `parts.filter(part => part.length >= 3).map(p => p.toLowerCase())`. */
  function LongLowered(parts: seq<string>): (r: seq<string>)
    ensures |r| <= |parts|
    decreases |parts|
  {
    if parts == [] then []
    else
      var p := parts[|parts| - 1];
      LongLowered(parts[..|parts| - 1]) + (if |p| >= 3 then [ToLower(p)] else [])
  }

  /** The parts of the candidate name used for partial matching: the
      lower-cased pieces of `split(/\s+/)` that are at least three
      characters long, or none without a name. */
  function NameParts(name: Option<string>): seq<string> {
    if HasName(name) then LongLowered(SplitOnWhitespace(name.value)) else []
  }

  /** The name parts are the lower-cased pieces of at least three
      characters, in order, and there are none without a name. */
  lemma {:induction false} LongLoweredAre(parts: seq<string>)
    ensures forall p :: p in LongLowered(parts) <==> exists w :: w in parts && |w| >= 3 && p == ToLower(w)
    decreases |parts|
  {
    if parts != [] {
      var front, last := parts[..|parts| - 1], parts[|parts| - 1];
      LongLoweredAre(front);
      assert parts == front + [last];
      forall p | exists w :: w in parts && |w| >= 3 && p == ToLower(w)
        ensures p in LongLowered(parts)
      {
        var w :| w in parts && |w| >= 3 && p == ToLower(w);
        if w != last {
          assert w in front;
        }
      }
    }
  }

  /** Some word of `words` from index `k` on occurs in `lower`: the inner
      loops over the keywords and the name parts, which stop at the first
      hit. */
  predicate ContainsAny(lower: string, words: seq<string>, k: nat := 0)
    requires k <= |words|
    decreases |words| - k
  {
    k < |words| && (Contains(lower, words[k]) || ContainsAny(lower, words, k + 1))
  }

  lemma {:induction false} ContainsAnyIsSome(lower: string, words: seq<string>, k: nat)
    requires k <= |words|
    ensures ContainsAny(lower, words, k) <==> exists j :: k <= j < |words| && Contains(lower, words[j])
    decreases |words| - k
  {
    if k < |words| {
      ContainsAnyIsSome(lower, words, k + 1);
    }
  }

  /** The reason an item is redacted for, besides a custom keyword: an
      email first, then a phone number, then the full candidate name, then
      a part of it; the first that applies wins. */
  function PrimaryKind(text: string, name: Option<string>, parts: seq<string>): Option<MatchType> {
    if MatchesEmail(text) then Some(Email)
    else if MatchesPhone(text) then Some(Phone)
    else if HasName(name) && Contains(ToLower(text), ToLower(name.value)) then Some(Name)
    else if HasName(name) && ContainsAny(ToLower(text), parts) then Some(NamePartial)
    else None
  }

  /** The matches one item yields: a custom match when a keyword occurs
      in its lower-cased text, then the match for its primary reason. */
  function Classify(item: TextItem, name: Option<string>, keywords: seq<string>, parts: seq<string>): seq<RedactionMatch> {
    (if ContainsAny(ToLower(item.str), keywords) then [Box(item, Custom)] else [])
    + (match PrimaryKind(item.str, name, parts)
       case Some(kind) => [Box(item, kind)]
       case None => [])
  }

  /** The matches of `items`, item after item. */
  function RedactAll(items: seq<TextItem>, name: Option<string>, keywords: seq<string>, parts: seq<string>)
    : seq<RedactionMatch>
  {
    FlatMap(item => Classify(item, name, keywords, parts), items)
  }

  /** What identifyRedactions returns. The page index and the page height
      take no part in it. */
  function Redactions(items: seq<TextItem>, pageIndex: int, pageHeight: real, candidateName: Option<string>,
                      customWords: seq<string>): seq<RedactionMatch> {
    RedactAll(items, candidateName, CustomKeywords(customWords), NameParts(candidateName))
  }

  // ---------------------------------------------------------------------
  // The loops

  /** The inner loop over a list of words: does any of them occur in
      `lower`? It stops at the first that does. */
  method AnyOccurs(lower: string, words: seq<string>) returns (hit: bool)
    ensures hit == ContainsAny(lower, words)
  {
    for k := 0 to |words|
      invariant ContainsAny(lower, words) == ContainsAny(lower, words, k)
    {
      if Contains(lower, words[k]) {
        return true;
      }
    }
    return false;
  }

  /** The body of the loop over the items: the custom check, then the
      checks that end the item's turn once one of them matches. */
  method ClassifyItem(item: TextItem, name: Option<string>, keywords: seq<string>, parts: seq<string>)
    returns (found: seq<RedactionMatch>)
    ensures found == Classify(item, name, keywords, parts)
  {
    var text := item.str;
    var lower := ToLower(text);
    found := [];
    var custom := AnyOccurs(lower, keywords);
    if custom {
      found := found + [Box(item, Custom)];
    }
    if MatchesEmail(text) {
      return found + [Box(item, Email)];
    }
    if MatchesPhone(text) {
      return found + [Box(item, Phone)];
    }
    if HasName(name) {
      if Contains(lower, ToLower(name.value)) {
        return found + [Box(item, Name)];
      }
      var partial := AnyOccurs(lower, parts);
      if partial {
        found := found + [Box(item, NamePartial)];
      }
    }
  }

  /** identifyRedactions. */
  method IdentifyRedactions(items: seq<TextItem>, pageIndex: int, pageHeight: real, candidateName: Option<string>,
                            customWords: seq<string>) returns (matches: seq<RedactionMatch>)
    ensures matches == Redactions(items, pageIndex, pageHeight, candidateName, customWords)
  {
    var nameParts := NameParts(candidateName);
    var keywords := CustomKeywords(customWords);
    matches := [];
    for n := 0 to |items|
      invariant matches == RedactAll(items[..n], candidateName, keywords, nameParts)
    {
      var found := ClassifyItem(items[n], candidateName, keywords, nameParts);
      assert items[..n + 1][..n] == items[..n];
      matches := matches + found;
    }
    assert items[..|items|] == items;
  }

  // ---------------------------------------------------------------------
  // Properties

  /** One item yields nothing, one match, or a custom match followed by
      one for another reason; every match carries the item's box and
      text. */
  lemma ClassifyShape(item: TextItem, name: Option<string>, keywords: seq<string>, parts: seq<string>)
    ensures var found := Classify(item, name, keywords, parts);
      |found| <= 2
      && (forall m :: m in found ==> m == Box(item, m.kind))
      && (|found| == 2 ==> found[0].kind == Custom && found[1].kind != Custom)
      && (|found| == 1 && found[0].kind == Custom ==> PrimaryKind(item.str, name, parts).None?)
  {
  }

  /** Matches come item after item: the matches of two runs of items are
      those of the first run followed by those of the second. */
  lemma RedactAllAppend(a: seq<TextItem>, b: seq<TextItem>, name: Option<string>,
                        keywords: seq<string>, parts: seq<string>)
    ensures RedactAll(a + b, name, keywords, parts)
         == RedactAll(a, name, keywords, parts) + RedactAll(b, name, keywords, parts)
  {
    FlatMapAppend(item => Classify(item, name, keywords, parts), a, b);
  }

  /** There are at most two matches per item, and every match copies the
      box and the text of some item. */
  lemma {:induction false} RedactAllBounded(items: seq<TextItem>, name: Option<string>,
                                            keywords: seq<string>, parts: seq<string>)
    ensures |RedactAll(items, name, keywords, parts)| <= 2 * |items|
    ensures forall m :: m in RedactAll(items, name, keywords, parts) ==>
      exists it :: it in items && m == Box(it, m.kind)
    decreases |items|
  {
    if items != [] {
      var n := |items| - 1;
      RedactAllBounded(items[..n], name, keywords, parts);
      ClassifyShape(items[n], name, keywords, parts);
      forall m | m in RedactAll(items, name, keywords, parts)
        ensures exists it :: it in items && m == Box(it, m.kind)
      {
        if m in RedactAll(items[..n], name, keywords, parts) {
          var it :| it in items[..n] && m == Box(it, m.kind);
          assert it in items;
        } else {
          assert m in Classify(items[n], name, keywords, parts);
          assert items[n] in items;
        }
      }
    }
  }

  /** An email match ends the item's turn: no phone or name match follows.
      A phone match does the same for the name checks. A custom match ends
      nothing: the item can yield a custom and an email match together. */
  lemma Precedence(item: TextItem, name: Option<string>, keywords: seq<string>, parts: seq<string>)
    ensures MatchesEmail(item.str) ==>
      Classify(item, name, keywords, parts)[|Classify(item, name, keywords, parts)| - 1] == Box(item, Email)
    ensures !MatchesEmail(item.str) && MatchesPhone(item.str) ==>
      Classify(item, name, keywords, parts)[|Classify(item, name, keywords, parts)| - 1] == Box(item, Phone)
    ensures MatchesEmail(item.str) && ContainsAny(ToLower(item.str), keywords) ==>
      Classify(item, name, keywords, parts) == [Box(item, Custom), Box(item, Email)]
  {
  }

  /** Without a candidate name, or with an empty one, no name or
      name-partial match is made. */
  lemma {:induction false} NoNameNoNameMatches(items: seq<TextItem>, candidateName: Option<string>,
                                               keywords: seq<string>)
    requires !HasName(candidateName)
    ensures forall m :: m in RedactAll(items, candidateName, keywords, NameParts(candidateName)) ==>
      m.kind != Name && m.kind != NamePartial
    decreases |items|
  {
    if items != [] {
      NoNameNoNameMatches(items[..|items| - 1], candidateName, keywords);
    }
  }

  /** An item yields a custom match exactly when one of the keywords
      occurs in its lower-cased text. */
  lemma CustomMatchIff(item: TextItem, name: Option<string>, keywords: seq<string>, parts: seq<string>)
    ensures (exists m :: m in Classify(item, name, keywords, parts) && m.kind == Custom)
      <==> exists k :: k in keywords && Contains(ToLower(item.str), k)
  {
    var lower := ToLower(item.str);
    ContainsAnyIsSome(lower, keywords, 0);
    if exists k :: k in keywords && Contains(lower, k) {
      var k :| k in keywords && Contains(lower, k);
      var j :| 0 <= j < |keywords| && keywords[j] == k;
      assert Box(item, Custom) in Classify(item, name, keywords, parts);
    }
  }

  /** With no custom word that is non-empty once trimmed there are no
      keywords, so no custom match is made. */
  lemma BlankCustomWordsMatchNothing(customWords: seq<string>)
    requires forall w :: w in customWords ==> Trim(w) == []
    ensures CustomKeywords(customWords) == []
  {
    CustomKeywordsAre(customWords);
  }

  /** A name-partial match is made only when the item holds neither an
      email nor a phone number, the full lower-cased name does not occur in
      its lower-cased text, and some whitespace-separated piece of the name
      of at least three characters does, lower-cased. */
  lemma NamePartialCondition(item: TextItem, name: Option<string>, keywords: seq<string>)
    requires PrimaryKind(item.str, name, NameParts(name)) == Some(NamePartial)
    ensures !MatchesEmail(item.str) && !MatchesPhone(item.str)
    ensures HasName(name) && !Contains(ToLower(item.str), ToLower(name.value))
    ensures exists w :: w in SplitOnWhitespace(name.value) && |w| >= 3 && Contains(ToLower(item.str), ToLower(w))
  {
    var parts := NameParts(name);
    var lower := ToLower(item.str);
    ContainsAnyIsSome(lower, parts, 0);
    var j :| 0 <= j < |parts| && Contains(lower, parts[j]);
    LongLoweredAre(SplitOnWhitespace(name.value));
    assert parts[j] in parts;
  }
}
