/** The fixed regular expressions of the anonymizer, each written out as a
    predicate on strings. `RegExp.test` succeeds when the pattern matches
    somewhere in the string, so each `Matches…` predicate asks for a start
    position from which the pattern matches. */
module Patterns {
  import opened Strings
  import opened Options

  // ---------------------------------------------------------------------
  // Email: /\b[A-Za-z0-9._%+-]+@[A-Za-z0-9.-]+\.[A-Z|a-z]{2,}\b/

  /** `\w`: the characters between which `\b` looks for a change. */
  predicate IsWordChar(c: char) { IsAsciiLetter(c) || IsAsciiDigit(c) || c == '_' }

  /** `\b` at position `p` of `s`. */
  predicate WordBoundary(s: string, p: int)
    requires 0 <= p <= |s|
  {
    (p > 0 && IsWordChar(s[p - 1])) != (p < |s| && IsWordChar(s[p]))
  }

  predicate IsLocalPartChar(c: char) {
    IsAsciiLetter(c) || IsAsciiDigit(c) || c == '.' || c == '_' || c == '%' || c == '+' || c == '-'
  }

  predicate IsDomainChar(c: char) { IsAsciiLetter(c) || IsAsciiDigit(c) || c == '.' || c == '-' }

  /** `[A-Z|a-z]`: the `|` inside the brackets is a literal bar. */
  predicate IsTopLevelChar(c: char) { IsAsciiLetter(c) || c == '|' }

  /** `s[i..j]` is an address whose `@` is at `at` and whose last dot is
      at `dot`. */
  predicate EmailSpan(s: string, i: int, at: int, dot: int, j: int)
    requires 0 <= i < at < dot < j <= |s|
  {
    WordBoundary(s, i)
    && (forall k :: i <= k < at ==> IsLocalPartChar(s[k]))
    && s[at] == '@'
    && at + 1 < dot
    && (forall k :: at < k < dot ==> IsDomainChar(s[k]))
    && s[dot] == '.'
    && j - dot - 1 >= 2
    && (forall k :: dot < k < j ==> IsTopLevelChar(s[k]))
    && WordBoundary(s, j)
  }

  /** The pattern matches `s[i..j]`, with the `@` at `at` and the last dot
      at `dot`. */
  predicate EmailAt(s: string, i: int, at: int, dot: int, j: int) {
    0 <= i < at < dot < j <= |s| && EmailSpan(s, i, at, dot, j)
  }

  predicate MatchesEmail(s: string) {
    exists i, at, dot, j :: 0 <= i < |s| && 0 <= at < |s| && 0 <= dot < |s| && 0 <= j <= |s|
      && EmailAt(s, i, at, dot, j)
  }

  // ---------------------------------------------------------------------
  // Spanish phone: /(?:(?:\+|00)34[\s.-]?)?[6789](?:[\s.-]?\d){8}/

  predicate IsPhoneSeparator(c: char) { IsWhitespace(c) || c == '.' || c == '-' }

  /** `(?:[\s.-]?\d){n}` can match starting at `q`. */
  predicate SeparatedDigits(s: string, q: nat, n: nat)
    decreases n
  {
    n == 0
    || (q < |s| && IsAsciiDigit(s[q]) && SeparatedDigits(s, q + 1, n - 1))
    || (q + 1 < |s| && IsPhoneSeparator(s[q]) && IsAsciiDigit(s[q + 1]) && SeparatedDigits(s, q + 2, n - 1))
  }

  /** `[6789](?:[\s.-]?\d){8}` can match starting at `q`. */
  predicate MobileAt(s: string, q: nat) {
    q < |s| && (s[q] == '6' || s[q] == '7' || s[q] == '8' || s[q] == '9') && SeparatedDigits(s, q + 1, 8)
  }

  /** `(?:\+|00)34[\s.-]?` matches exactly `s[i..q]`. */
  predicate CountryCodeSpan(s: string, i: nat, q: nat) {
    i <= q <= |s|
    && ((q - i >= 3 && s[i..i + 3] == "+34" && (q == i + 3 || (q == i + 4 && IsPhoneSeparator(s[i + 3]))))
     || (q - i >= 4 && s[i..i + 4] == "0034" && (q == i + 4 || (q == i + 5 && IsPhoneSeparator(s[i + 4])))))
  }

  /** The whole Spanish pattern, optional country code included, can match
      starting at `i`. */
  predicate SpanishPhoneAt(s: string, i: nat) {
    MobileAt(s, i) || exists q :: i <= q <= |s| && CountryCodeSpan(s, i, q) && MobileAt(s, q)
  }

  predicate MatchesSpanishPhone(s: string) {
    exists i :: 0 <= i < |s| && SpanishPhoneAt(s, i)
  }

  /** Because the country code is optional and `test` looks anywhere, it
      never decides whether the Spanish pattern matches: a match exists
      exactly when a mobile number does. */
  lemma SpanishCountryCodeIrrelevant(s: string)
    ensures MatchesSpanishPhone(s) <==> exists q :: 0 <= q < |s| && MobileAt(s, q)
  {
    if MatchesSpanishPhone(s) {
      var i :| 0 <= i < |s| && SpanishPhoneAt(s, i);
      if !MobileAt(s, i) {
        var q :| i <= q <= |s| && CountryCodeSpan(s, i, q) && MobileAt(s, q);
        assert 0 <= q < |s|;
      }
    }
    if exists q :: 0 <= q < |s| && MobileAt(s, q) {
      var q :| 0 <= q < |s| && MobileAt(s, q);
      assert SpanishPhoneAt(s, q);
    }
  }

  // ---------------------------------------------------------------------
  // International phone: /\+(?:[0-9] ?){6,14}[0-9]/

  /** `(?:[0-9] ?){n}[0-9]` can match starting at `q`. */
  predicate DigitGroupsThenDigit(s: string, q: nat, n: nat)
    decreases n
  {
    if n == 0 then q < |s| && IsAsciiDigit(s[q])
    else
      q < |s| && IsAsciiDigit(s[q])
      && (DigitGroupsThenDigit(s, q + 1, n - 1)
          || (q + 1 < |s| && s[q + 1] == ' ' && DigitGroupsThenDigit(s, q + 2, n - 1)))
  }

  /** `\+(?:[0-9] ?){n}[0-9]` can match starting at `i`. */
  predicate InternationalAt(s: string, i: nat, n: nat) {
    i < |s| && s[i] == '+' && DigitGroupsThenDigit(s, i + 1, n)
  }

  predicate MatchesInternationalPhone(s: string) {
    exists i, n :: 0 <= i < |s| && 6 <= n <= 14 && InternationalAt(s, i, n)
  }

  /** The phone test of the matcher: either pattern. */
  predicate MatchesPhone(s: string) {
    MatchesSpanishPhone(s) || MatchesInternationalPhone(s)
  }

  lemma {:induction false} SeparatedDigitsHasDigit(s: string, q: nat, n: nat)
    requires n > 0 && SeparatedDigits(s, q, n)
    ensures exists k :: q <= k < |s| && IsAsciiDigit(s[k])
  {}

  lemma {:induction false} DigitGroupsHasDigit(s: string, q: nat, n: nat)
    requires DigitGroupsThenDigit(s, q, n)
    ensures exists k :: q <= k < |s| && IsAsciiDigit(s[k])
  {
    assert q < |s| && IsAsciiDigit(s[q]);
  }

  /** An address always holds an `@`: text without one is never classified
      as an email. */
  lemma EmailNeedsAt(s: string)
    ensures MatchesEmail(s) ==> '@' in s
  {
    if MatchesEmail(s) {
      var i, at, dot, j :| 0 <= i < |s| && 0 <= at < |s| && 0 <= dot < |s| && 0 <= j <= |s|
        && EmailAt(s, i, at, dot, j);
      EmailAtHoldsAt(s, i, at, dot, j);
    }
  }

  lemma EmailAtHoldsAt(s: string, i: int, at: int, dot: int, j: int)
    requires EmailAt(s, i, at, dot, j)
    ensures '@' in s
  {
    assert s[at] == '@';
  }

  /** A phone number always holds an ASCII digit: text without one is never
      classified as a phone. */
  lemma PhoneNeedsDigit(s: string)
    ensures MatchesPhone(s) ==> exists k :: 0 <= k < |s| && IsAsciiDigit(s[k])
  {
    if MatchesSpanishPhone(s) {
      SpanishCountryCodeIrrelevant(s);
      var q :| 0 <= q < |s| && MobileAt(s, q);
      assert IsAsciiDigit(s[q]);
    } else if MatchesInternationalPhone(s) {
      var i, n :| 0 <= i < |s| && 6 <= n <= 14 && InternationalAt(s, i, n);
      DigitGroupsHasDigit(s, i + 1, n);
    }
  }

  // ---------------------------------------------------------------------
  // Inline label: new RegExp(`^${label}\\s*[:.]?\\s+`, 'i')

  /** `s` ends in a colon or a dot followed by whitespace at position `q`. */
  predicate SeparatorAt(s: string, q: nat) {
    q + 1 < |s| && (s[q] == ':' || s[q] == '.') && IsWhitespace(s[q + 1])
  }

  /** `text` begins with `tag`, compared case-insensitively on ASCII
      letters (what the `i` flag does for the lower-case ASCII labels). */
  predicate StartsWithLabel(text: string, tag: string) {
    |tag| <= |text| && ToLower(text[..|tag|]) == tag
  }

  /** `text[..e]` splits as the tag, whitespace up to `a`, an optional
      colon or dot up to `b`, and whitespace (at least one) up to `e`. */
  ghost predicate LabelSplit(text: string, tag: string, a: int, b: int, e: int) {
    |tag| <= a <= b < e <= |text|
    && (forall k :: |tag| <= k < a ==> IsWhitespace(text[k]))
    && (b == a || (b == a + 1 && (text[a] == ':' || text[a] == '.')))
    && (forall k :: b <= k < e ==> IsWhitespace(text[k]))
  }

  /** `text[..e]` is a match of `tag\s*[:.]?\s+`. */
  ghost predicate LabelPatternSpan(text: string, tag: string, e: int) {
    StartsWithLabel(text, tag) && exists a, b :: LabelSplit(text, tag, a, b, e)
  }

  /** Where the match of `^tag\s*[:.]?\s+` in `text` ends, or None when the
      pattern does not match. The greedy `\s*` takes the whole whitespace
      run after the tag; a colon or dot after the run is taken only when
      whitespace follows it, and otherwise the last character of the run
      serves as `\s+`. */
  function LabelPrefixEnd(text: string, tag: string): (e: Option<nat>)
    ensures e.Some? ==> |tag| < e.value <= |text|
  {
    if !StartsWithLabel(text, tag) then None
    else
      var q := WhitespaceRunEnd(text, |tag|);
      if SeparatorAt(text, q) then Some(WhitespaceRunEnd(text, q + 1))
      else if q > |tag| then Some(q)
      else None
  }

  /** Every way of matching the pattern ends where the greedy match would
      allow: in the whitespace run after the tag, or in the run after a
      separator that directly follows it. */
  lemma LabelSplitBounds(text: string, tag: string, a: int, b: int, e: int)
    requires StartsWithLabel(text, tag) && LabelSplit(text, tag, a, b, e)
    ensures var q := WhitespaceRunEnd(text, |tag|);
      a <= q
      && (b == a ==> a < q && e <= q)
      && (b != a ==> a == q && SeparatorAt(text, q) && e <= WhitespaceRunEnd(text, q + 1))
  {
    var q := WhitespaceRunEnd(text, |tag|);
    if b != a {
      assert IsWhitespace(text[q + 1]);
    }
  }

  /** LabelPrefixEnd is the regular expression: it returns the end of the
      longest match, and None exactly when nothing matches. */
  lemma LabelPrefixEndIsLongestMatch(text: string, tag: string)
    ensures LabelPrefixEnd(text, tag).Some? ==>
      LabelPatternSpan(text, tag, LabelPrefixEnd(text, tag).value)
      && forall e' :: LabelPatternSpan(text, tag, e') ==> e' <= LabelPrefixEnd(text, tag).value
    ensures LabelPrefixEnd(text, tag).None? ==> forall e' :: !LabelPatternSpan(text, tag, e')
  {
    forall e' | LabelPatternSpan(text, tag, e')
      ensures LabelPrefixEnd(text, tag).Some? && e' <= LabelPrefixEnd(text, tag).value
    {
      var a, b :| LabelSplit(text, tag, a, b, e');
      LabelSplitBounds(text, tag, a, b, e');
    }
    if StartsWithLabel(text, tag) {
      var q := WhitespaceRunEnd(text, |tag|);
      if SeparatorAt(text, q) {
        assert LabelSplit(text, tag, q, q + 1, WhitespaceRunEnd(text, q + 1));
      } else if q > |tag| {
        assert LabelSplit(text, tag, q - 1, q - 1, q);
      }
    }
  }

  // ---------------------------------------------------------------------
  // Clean-up: text.replace(/^[^a-zA-Z]+|[^a-zA-Z]+$/g, '')

  predicate IsNotAsciiLetter(c: char) { !IsAsciiLetter(c) }

  /** What the global replace leaves: the leading and the trailing run of
      characters other than ASCII letters are removed. */
  function StripNonLetterEnds(text: string): string {
    StripEnds(text, IsNotAsciiLetter)
  }
}
