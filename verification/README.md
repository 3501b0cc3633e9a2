# CV anonymiser: name detection and redaction, modelled in Dafny

This project models `utils/anonymizer.ts`, the part of the CV anonymiser
that decides what to black out on a page. Text is given as positioned text
items, each with a string, a box and a font height. The file has three
operations.

- **`detectCandidateName`** guesses the CV owner's name from the items of
  the first page. It drops items at or below y = 400 and groups the rest
  into lines: an item joins the first line whose y is within 5 units,
  else it opens a new line. It sorts the lines from the top down.
  - **Label pass.** The lines are scanned from the top down, and the
    items of each line from left to right, for a name label such as
    "Nombre". A standalone label takes its value from its right
    neighbour, or else from the line below: the first item within 50
    units of the label's x, else that line's first item. An item starting
    with a label, such as "Nombre: Ana García", yields the rest of the
    item when that is longer than two characters.
  - **Fallback.** Only when no label is found, adjacent items closer than
    25 units are merged into candidates. The candidates are filtered
    (length, `@`, digits, stop words, non-letter ends) and scored as
    `fontHeight * 100 + y`.
- **`identifyRedactions`** turns each item into zero, one or two matches.
  There is a custom-keyword match, then the first of email, phone, full
  candidate name and name part. Each match copies the item's box and text.
- **`getInitials`** builds the initials shown for a name.

Modules, one per file:

| module | file | what it holds |
|---|---|---|
| `Seqs` | seqs.dfy | `FlatMap` (append what each element yields) and small facts about sequences and multisets |
| `Options` | options.dfy | `Option`, and `FirstSome`: the first success of a series of attempts |
| `Strings` | strings.dfy | `trim`, ASCII case conversion, `includes`, `split(' ')`, `split(/\s+/)`, `join` |
| `Sorting` | sorting.dfy | `Array.prototype.sort` with a numeric comparator: a stable sort |
| `Patterns` | patterns.dfy | the regular expressions: email, Spanish and international phone, the inline label, the non-letter clean-up |
| `Layout` | layout.dfy | `TextItem`, lines, the upper-region filter, line grouping, line sorting |
| `Labels` | labels.dfy | the label pass, cases A and B |
| `Heuristic` | heuristic.dfy | the fallback: merging, filters, scoring |
| `NameDetector` | name_detector.dfy | `detectCandidateName` as a whole |
| `Redactions` | redactions.dfy | `identifyRedactions` |
| `Initials` | initials.dfy | `getInitials` |

Each loop of the source is a method with a loop. The method is proved
equal to a specification function, and the properties are proved about
that function. A library call (`filter`, `find`, `sort`, `split`, `trim`,
`RegExp.test`) is a function.

The arrays that `detectCandidateName` builds and sorts in place are local
and reachable from nowhere else. They are therefore `seq` values, and an
in-place sort is a reassignment (`lines := lines[i := ...]`).

Three details of the code shape the model.

- The y > 400 filter is applied inside `detectCandidateName`
  (utils/anonymizer.ts:36), not by its caller.
- In case A, the line below a label is read before the label pass has
  sorted it by x (utils/anonymizer.ts:54, 73-74). `find` and `items[0]`
  therefore see that line in grouping order. `Labels.Below` models this.
- The fallback breaks ties with a strict `>` starting from -1
  (utils/anonymizer.ts:138, 166). So the earliest of equally scored
  candidates wins, and a candidate scoring -1 or less is never chosen.

## Model

| member | source | states |
|---|---|---|
| `Strings.IsWhitespace` | utils/anonymizer.ts:58 | the characters `trim` removes and `\s` matches (also at :151): the ECMAScript WhiteSpace and LineTerminator code points |
| `Strings.StripEnds` | utils/anonymizer.ts:58 | `trim` (and the clean-up of :156) leaves a result no longer than the input whose first and last characters are not stripped |
| `Strings.Trim` | utils/anonymizer.ts:58 | `trim` is `StripEnds` over the JavaScript whitespace class, so the three `StripEnds` lemmas below pin it |
| `Strings.StripEndsPadded` | utils/anonymizer.ts:58 | the stripped string occurs in the input, with only strippable characters on either side of it |
| `Strings.StripEndsKeepsMiddle` | utils/anonymizer.ts:156-157 | the result is empty exactly when every character is strippable, and every character it keeps comes from the input |
| `Strings.LowerChar` | utils/anonymizer.ts:59 | a capital becomes the small letter at the same place in the alphabet; every other character is kept |
| `Strings.UpperChar` | utils/anonymizer.ts:16 | a small letter becomes the capital at the same place in the alphabet; every other character is kept |
| `Strings.CaseRoundTrip` | utils/anonymizer.ts:16 | upper-casing a lowered capital and lowering an upper-cased small letter give the letter back |
| `Strings.ToLower` | utils/anonymizer.ts:59 | `toLowerCase` keeps the length and lowers each character by `LowerChar`, position by position |
| `Strings.ToUpper` | utils/anonymizer.ts:16 | `toUpperCase` keeps the length and upper-cases each character by `UpperChar`, position by position |
| `Strings.WhitespaceRunEnd` | utils/anonymizer.ts:151 | the end of a whitespace run: everything before it from the start is whitespace, the character at it is not |
| `Strings.SplitOnSpace` | utils/anonymizer.ts:13 | `split(' ')` yields at least one piece and no piece holds a space |
| `Strings.SplitOnSpaceJoin` | utils/anonymizer.ts:13 | joining the pieces of `split(' ')` with a space gives the string back |
| `Strings.JoinSplitOnSpace` | utils/anonymizer.ts:13 | splitting space-joined pieces without spaces gives the pieces back |
| `Strings.SplitOnSpaceConcat` | utils/anonymizer.ts:13 | splitting `a + " " + b` gives the pieces of `a` followed by those of `b` |
| `Strings.SplitOnWhitespace` | utils/anonymizer.ts:151 | `split(/\s+/)` yields at least one piece, no piece holds whitespace, only the first and the last piece can be empty, and the first is empty exactly when the text is empty or starts with whitespace |
| `Strings.SplitOnWhitespaceJoin` | utils/anonymizer.ts:151 | joining the pieces of `split(/\s+/)` with a space gives the input with each whitespace run collapsed to one space (`Collapse`, defined character by character): no text is lost and the order is kept |
| `Strings.JoinSplitOnWhitespace` | utils/anonymizer.ts:196 | splitting space-joined non-empty words without whitespace gives the words back |
| `Strings.SplitOnWhitespaceConcat` | utils/anonymizer.ts:151 | splitting `a + " " + b`, `a` without whitespace and `b` not starting with whitespace, gives `a` followed by the pieces of `b` |
| `Strings.SplitOnWhitespaceSingle` | utils/anonymizer.ts:151 | text without whitespace is one piece |
| `Strings.JoinWith` | utils/anonymizer.ts:15 | `join(sep)`: the pieces with `sep` between neighbours; pinned by the round trips with both splits |
| `Strings.Contains` | utils/anonymizer.ts:146 | `includes`: the needle occurs at some index of the text |
| `Sorting.SortBy` | utils/anonymizer.ts:48 | `sort` with a numeric comparator (also at :54 and :106): a stable insertion sort by ascending key that keeps the length; pinned by `SortBySortsAndPermutes` and `SortByStable` |
| `Sorting.SortBySortsAndPermutes` | utils/anonymizer.ts:48 | the sort returns a rearrangement of its input (same multiset) in ascending key order |
| `Sorting.InsertPermutes` | utils/anonymizer.ts:54 | one insertion step adds the element and keeps every other |
| `Sorting.InsertSorted` | utils/anonymizer.ts:54 | one insertion step keeps a sorted sequence sorted |
| `Sorting.SortByStable` | utils/anonymizer.ts:106 | the sort is stable: the elements sharing a key keep their order, which with the above fixes the result |
| `Sorting.SortByIdempotent` | utils/anonymizer.ts:106 | sorting a sorted sequence changes nothing, so the second sort of a line is a no-op |
| `Options.FirstSomeAt` | utils/anonymizer.ts:51-96 | the first success of the scan is its result; nothing after it is looked at |
| `Options.FirstSomeIsFirst` | utils/anonymizer.ts:51-96 | a result is an attempt with no success before it; no result means every attempt failed |
| `Patterns.SpanishCountryCodeIrrelevant` | utils/anonymizer.ts:189 | under `test`, the optional `+34`/`0034` prefix never decides a match: the pattern matches exactly when a mobile number does |
| `Patterns.MatchesEmail` | utils/anonymizer.ts:186 | the email pattern occurs somewhere in the text; `EmailNeedsAt` states what it requires |
| `Patterns.MatchesSpanishPhone` | utils/anonymizer.ts:189 | the Spanish phone pattern occurs somewhere in the text; pinned by `SpanishCountryCodeIrrelevant` and `PhoneNeedsDigit` |
| `Patterns.MatchesInternationalPhone` | utils/anonymizer.ts:192 | the international phone pattern occurs somewhere in the text; `PhoneNeedsDigit` states what it requires |
| `Patterns.MatchesPhone` | utils/anonymizer.ts:232 | the phone test: the Spanish pattern or the international one; `PhoneNeedsDigit` states what it requires |
| `Patterns.StripNonLetterEnds` | utils/anonymizer.ts:156 | the clean-up is `StripEnds` over the characters that are not ASCII letters; pinned by the `StripEnds` lemmas |
| `Patterns.EmailNeedsAt` | utils/anonymizer.ts:186 | text without `@` never matches the email pattern |
| `Patterns.PhoneNeedsDigit` | utils/anonymizer.ts:189-192 | text without an ASCII digit never matches either phone pattern |
| `Patterns.LabelPrefixEnd` | utils/anonymizer.ts:86 | the end of a match of `^label\s*[:.]?\s+` lies after the label and within the text |
| `Patterns.LabelSplitBounds` | utils/anonymizer.ts:86 | every way of matching the label pattern ends within the greedy whitespace runs |
| `Patterns.LabelPrefixEndIsLongestMatch` | utils/anonymizer.ts:86-89 | `LabelPrefixEnd` ends a match of the pattern, the longest one, and is absent exactly when nothing matches |
| `Layout.UpperRegion` | utils/anonymizer.ts:36 | the filter keeps no more items than it is given |
| `Layout.UpperRegionSelects` | utils/anonymizer.ts:36 | the filter keeps exactly the items with y > 400 |
| `Layout.FindLine` | utils/anonymizer.ts:39 | `find` returns the first line within 5 units of the item's y, or nothing when none is |
| `Layout.AddToLine` | utils/anonymizer.ts:39-44 | one grouping step: the item joins the first line within 5 units, else opens a line; pinned by `AddToLineKeepsShape` |
| `Layout.GroupLines` | utils/anonymizer.ts:38-45 | the grouping of all items in order; pinned by `GroupLinesShape` |
| `Layout.SortedLines` | utils/anonymizer.ts:36-48 | the lines of the items above the cut-off, sorted from the top down; pinned by `SortedLinesShape` |
| `Layout.GroupIntoLines` | utils/anonymizer.ts:38-45 | the grouping loop builds `GroupLines` of its input |
| `Layout.GroupLinesShape` | utils/anonymizer.ts:38-45 | the lines hold exactly the input items, none empty, each opened by its first item, each item within 5 units of its line, lines at least 5 units apart |
| `Layout.AddToLineKeepsShape` | utils/anonymizer.ts:39-44 | one grouping step keeps that shape and adds exactly the item to the lines' items |
| `Layout.SortedLinesShape` | utils/anonymizer.ts:36-48 | the sorted lines run from the top of the page down and keep the shape and the items above the cut-off |
| `Layout.SortedAllItems` | utils/anonymizer.ts:48 | reordering lines keeps the multiset of their items |
| `Labels.DropColonsAndDots` | utils/anonymizer.ts:59 | `replace(/[:.]/g, '')` leaves no colon and no dot |
| `Labels.DropColonsAndDotsConcat` | utils/anonymizer.ts:59 | the removal distributes over concatenation, so the kept characters stay in order |
| `Labels.DropColonsAndDotsKeeps` | utils/anonymizer.ts:59 | a character is kept exactly when it is neither a colon nor a dot, and text without either is unchanged |
| `Labels.IsLabelToken` | utils/anonymizer.ts:58-62 | case A: the trimmed item, lower-cased and without colons and dots, is one of the eight labels |
| `Labels.LabelValue` | utils/anonymizer.ts:86-89 | case B yields a value exactly when the label pattern matches, shorter than the text after the label |
| `Labels.InlineLabelValueIsFirstLongValue` | utils/anonymizer.ts:82-94 | case B returns the value of a label that is longer than two characters, every earlier label not matching or leaving at most two |
| `Labels.FindInlineValue` | utils/anonymizer.ts:82-94 | the loop over the labels computes `InlineLabelValue` |
| `Labels.FindAligned` | utils/anonymizer.ts:74 | `find` returns the first item within 50 units of the label's x, or nothing when none is |
| `Labels.ValueBelow` | utils/anonymizer.ts:74-75 | the value below is the first item of that line within 50 units of the label's x, else the line's first item; absent only when the line is empty |
| `Labels.LabelAt` | utils/anonymizer.ts:57-94 | the outcome of one item: its right neighbour if it is a standalone label, else the line below, else case B; `LookAtItem` is proved to compute it |
| `Labels.InlineLabelValue` | utils/anonymizer.ts:82-94 | case B as the first long label value; pinned by `InlineLabelValueIsFirstLongValue` |
| `Labels.ScanLine` | utils/anonymizer.ts:56-95 | the first present outcome among a line's items, left to right; `ScanLineForLabel` is proved to compute it |
| `Labels.Below` | utils/anonymizer.ts:72-73 | the items of the next line, if there is one, as they stand before the label pass sorts that line |
| `Labels.LabelSearch` | utils/anonymizer.ts:51-96 | the first hit of the scan over the lines, each sorted by x, top to bottom; `LabelPass` is proved to compute it |
| `Labels.LookAtItem` | utils/anonymizer.ts:57-94 | the body of the item loop computes `LabelAt`: right neighbour, else the line below, else case B |
| `Labels.ScanLineForLabel` | utils/anonymizer.ts:56-95 | the loop over a line's items returns the first item outcome that is present |
| `Labels.StandaloneLabelTakesRightNeighbour` | utils/anonymizer.ts:62-69 | a standalone label, met first, with an item to its right yields that item's trimmed text |
| `Labels.StandaloneLabelLooksBelow` | utils/anonymizer.ts:71-78 | a standalone label, met first, ending its line yields the trimmed text of the first item of the next line within 50 units of its x, in grouping order, else of that line's first item |
| `Labels.InlineHitIsLong` | utils/anonymizer.ts:81-93 | an item that is not a standalone label yields only a case-B value longer than two characters |
| `Heuristic.Max` | utils/anonymizer.ts:123 | `Math.max` is at least both arguments and is one of them |
| `Heuristic.IsBreak` | utils/anonymizer.ts:114-119 | item `i` lies 25 units or more to the right of the right edge of item `i - 1`, so it opens a new group; `MergeStateEdges` shows this is the loop's distance test |
| `Heuristic.MergeState` | utils/anonymizer.ts:110-131 | the merge loop's candidates and open group after a prefix of the line; pinned by `MergeStateEdges`, `MergeStateOrigins`, `MergeStateText` and `PushedCandidateIsItsGroup`, and `MergeLineLoop` is proved to follow it |
| `Heuristic.MergeStateEdges` | utils/anonymizer.ts:112-130 | the group's right edge is that of its last item, and each break pushes exactly one candidate |
| `Heuristic.MergeStateOrigins` | utils/anonymizer.ts:111-133 | every candidate carries the line's y; the group being built runs from its opening item to the last item seen with no break inside, and its font height is the largest of that group; each candidate pushed has the largest font height of a whole group ended by a break, and `PushedCandidateIsItsGroup` says which |
| `Heuristic.DonePrefix` | utils/anonymizer.ts:126 | a pushed candidate is never changed or removed: the candidates after fewer items are a prefix of those after more |
| `Heuristic.CurrentText` | utils/anonymizer.ts:110-128 | the text of the group being built is the space-joined strings of its own items, from its opening item to the last item seen |
| `Heuristic.PushedCandidateIsItsGroup` | utils/anonymizer.ts:119-128 | the break at item `b` pushes candidate number `Breaks(items, b + 1) - 1`, which is exactly the group it closes: its text is the space-joined strings of that group's items, its font height the largest among them, its y the line's |
| `Heuristic.MergeLine` | utils/anonymizer.ts:108-133 | the candidates of one line; pinned by `MergeLineShape`, `MergeStateText`, `MergeStateOrigins` and `PushedCandidateIsItsGroup` |
| `Heuristic.Candidates` | utils/anonymizer.ts:104-134 | the candidates of all lines in order, each line sorted by x; pinned by `CandidatesShape` |
| `Heuristic.MergeStateText` | utils/anonymizer.ts:110-129 | merging loses no text and keeps the order: the space-joined candidate texts are the space-joined item strings |
| `Heuristic.MergeLineShape` | utils/anonymizer.ts:108-133 | a non-empty line yields between one candidate and one per item, one more than the breaks, all at the line's y, with all its text |
| `Heuristic.BreaksBound` | utils/anonymizer.ts:114-130 | there are fewer breaks than items seen |
| `Heuristic.CandidatesShape` | utils/anonymizer.ts:104-134 | no more candidates than items, and each lies on one of the lines |
| `Heuristic.MergeLineLoop` | utils/anonymizer.ts:110-133 | the merge loop of a line computes `MergeLine` |
| `Heuristic.MergeCandidates` | utils/anonymizer.ts:104-134 | the loop over the lines computes `Candidates` |
| `Heuristic.CleanedIsNameLike` | utils/anonymizer.ts:141-157 | a filtered name is at least 3 long, within the trimmed text, ASCII letters at both ends, no `@`, no digit, from text not made only of stop-word-bearing words |
| `Heuristic.HasDigit` | utils/anonymizer.ts:147 | `/\d/.test`: some character is an ASCII digit |
| `Heuristic.HasStopWord` | utils/anonymizer.ts:152 | `stopWords.some(sw => w.includes(sw))`: one of the 24 stop words occurs in the word |
| `Heuristic.AllStopWords` | utils/anonymizer.ts:152 | `words.every(...)`: every word holds a stop word; `CleanedIsNameLike` states that a passing candidate fails it |
| `Heuristic.Cleaned` | utils/anonymizer.ts:141-157 | the filters of one candidate and its cleaned text; pinned by `CleanedIsNameLike` |
| `Heuristic.Score` | utils/anonymizer.ts:164 | `fontHeight * 100 + y` |
| `Heuristic.BestOf` | utils/anonymizer.ts:137-170 | the scoring loop after a prefix of the offers: the best score from -1 and its name, replaced only on a strictly larger score; pinned by `BestOfIsFirstMaximum`, and `Consider` advances it by one round |
| `Heuristic.BestCandidate` | utils/anonymizer.ts:137-172 | the fallback's choice; pinned by `BestCandidateIsFirstMaximum` and `BestCandidateIsNameLike` |
| `Heuristic.Filter` | utils/anonymizer.ts:141-164 | the filters and the score of one candidate are `Cleaned` and `Score` |
| `Heuristic.Consider` | utils/anonymizer.ts:140-170 | one round of the scoring loop advances `BestOf` by one candidate |
| `Heuristic.PickBestCandidate` | utils/anonymizer.ts:137-172 | the scoring loop computes `BestCandidate` |
| `Heuristic.BestOfIsFirstMaximum` | utils/anonymizer.ts:166-169 | the best so far is the first offer of maximal score above -1, or nothing when no offer scores above -1 |
| `Heuristic.BestCandidateIsFirstMaximum` | utils/anonymizer.ts:137-172 | the fallback returns the cleaned text of the earliest best-scoring passing candidate, or nothing when none scores above -1 |
| `Heuristic.BestCandidateIsNameLike` | utils/anonymizer.ts:137-172 | a fallback name is at least 3 long, has ASCII letters at both ends, no `@` and no digit |
| `NameDetector.CandidateName` | utils/anonymizer.ts:19-173 | no name for an empty input, else the label scan's value, else the fallback's; `DetectCandidateName` is proved to compute it |
| `NameDetector.SortEach` | utils/anonymizer.ts:54 | every line with its items sorted by x, keeping the number of lines; pinned by `SortEachShape` |
| `NameDetector.LabelPass` | utils/anonymizer.ts:51-96 | the label loop, sorting each line as it goes, returns `LabelSearch`; when it finds nothing every line has been sorted |
| `NameDetector.DetectCandidateName` | utils/anonymizer.ts:19-173 | the whole function computes `CandidateName` |
| `NameDetector.CandidatesOfSortedLines` | utils/anonymizer.ts:104-106 | the fallback's second sort of each line changes none of the candidates |
| `NameDetector.SortEachShape` | utils/anonymizer.ts:54 | after the label pass each line holds its own items, in ascending x |
| `NameDetector.UpperRegionConcat` | utils/anonymizer.ts:36 | the filter distributes over concatenation |
| `NameDetector.LowItemsIgnored` | utils/anonymizer.ts:36 | inserting items with y <= 400 anywhere into any input, the empty one included, leaves the name unchanged |
| `NameDetector.SameUpperRegion` | utils/anonymizer.ts:36 | two inputs with the same items above the cut-off get the same name |
| `NameDetector.NothingAboveCutoff` | utils/anonymizer.ts:20-36 | an input with nothing above the cut-off, the empty one included, has no name |
| `NameDetector.StandaloneLabelDecides` | utils/anonymizer.ts:62-69 | a standalone label met first with a right neighbour decides the name, and the fallback never runs |
| `NameDetector.FallbackNameIsNameLike` | utils/anonymizer.ts:99-172 | with no label found, the name is the earliest best-scoring candidate's cleaned text: at least 3 long, ASCII letters at both ends, no `@`, no digit |
| `Redactions.HasName` | utils/anonymizer.ts:241 | the truthiness test of `candidateName` (also at :195): present and not empty |
| `Redactions.LongLowered` | utils/anonymizer.ts:196 | the pieces of at least 3 characters, lower-cased, in order, no more than the pieces; pinned by `LongLoweredAre` |
| `Redactions.ContainsAny` | utils/anonymizer.ts:209-264 | the inner loops over the keywords and the name parts: some word from index `k` on occurs in the text; pinned by `ContainsAnyIsSome`, and `AnyOccurs` is proved to compute it |
| `Redactions.CustomKeywords` | utils/anonymizer.ts:200-202 | the custom words trimmed, lower-cased, blanks dropped; pinned by `CustomKeywordsAre` |
| `Redactions.NameParts` | utils/anonymizer.ts:195-197 | the lower-cased pieces of 3 or more characters of a present, non-empty name; pinned by `LongLoweredAre` |
| `Redactions.PrimaryKind` | utils/anonymizer.ts:222-264 | the first of email, phone, full name and name part that applies to the text |
| `Redactions.Classify` | utils/anonymizer.ts:204-265 | the matches of one item: a custom match, then the primary match; pinned by `ClassifyShape`, `Precedence` and `CustomMatchIff` |
| `Redactions.RedactAll` | utils/anonymizer.ts:204-266 | the matches of all items in item order; pinned by `RedactAllAppend` and `RedactAllBounded` |
| `Redactions.Redactions` | utils/anonymizer.ts:175-269 | `identifyRedactions`: keywords and name parts prepared once, then `RedactAll`; `IdentifyRedactions` is proved to compute it |
| `Redactions.CustomKeywordsAre` | utils/anonymizer.ts:200-202 | the keywords are exactly the non-empty trimmed, lower-cased custom words |
| `Redactions.BlankCustomWordsMatchNothing` | utils/anonymizer.ts:200-202 | custom words that are all blank once trimmed give no keyword |
| `Redactions.LongLoweredAre` | utils/anonymizer.ts:195-197 | the name parts are exactly the lower-cased pieces of at least 3 characters |
| `Redactions.ContainsAnyIsSome` | utils/anonymizer.ts:209-264 | the inner loops hit exactly when some word occurs in the lower-cased text |
| `Redactions.AnyOccurs` | utils/anonymizer.ts:209-264 | the inner loop with `break` computes `ContainsAny` |
| `Redactions.ClassifyItem` | utils/anonymizer.ts:205-265 | the body of the item loop computes `Classify` |
| `Redactions.IdentifyRedactions` | utils/anonymizer.ts:175-269 | the whole function computes `Redactions` |
| `Redactions.ClassifyShape` | utils/anonymizer.ts:204-265 | an item yields at most two matches, a second one only after a custom match, each with the item's box and text |
| `Redactions.RedactAllAppend` | utils/anonymizer.ts:204-266 | matches come in item order: the matches of two runs of items are those of the first followed by those of the second |
| `Redactions.RedactAllBounded` | utils/anonymizer.ts:204-266 | at most two matches per item, each copying the box and text of an input item |
| `Redactions.Precedence` | utils/anonymizer.ts:209-238 | an email match ends the item's turn, a phone match ends it before the name checks, and a custom match ends nothing |
| `Redactions.NoNameNoNameMatches` | utils/anonymizer.ts:195-241 | with no candidate name, or an empty one, no name or name-partial match is made |
| `Redactions.CustomMatchIff` | utils/anonymizer.ts:209-219 | an item yields a custom match exactly when a keyword occurs in its lower-cased text |
| `Redactions.NamePartialCondition` | utils/anonymizer.ts:241-263 | a name-partial match means no email, no phone, the full lower-cased name absent, and some piece of at least 3 characters present |
| `Initials.Head` | utils/anonymizer.ts:14 | `n[0]` as `join('')` writes it: the first character, or nothing for an empty piece; at most one character |
| `Initials.GetInitials` | utils/anonymizer.ts:11-17 | the first character of each piece of `split(' ')`, an empty piece giving nothing, joined and upper-cased; pinned by the lemmas below |
| `Initials.InitialsOfSpaceJoin` | utils/anonymizer.ts:11-17 | the initials of `a + " " + b` are those of `a` followed by those of `b` |
| `Initials.InitialsOfWord` | utils/anonymizer.ts:11-17 | a word without spaces yields its first character upper-cased; the empty name yields nothing |
| `Initials.InitialsOfWords` | utils/anonymizer.ts:11-17 | space-joined words yield one letter per word, its first character upper-cased |
| `Initials.InitialsBound` | utils/anonymizer.ts:11-17 | at most one initial per piece, and no initial is a lower-case ASCII letter |

## Left out

- The React components, the PDF reading and the page drawing are not part of this model. They are I/O and calls into pdf.js and pdf-lib.
- JavaScript numbers are modelled as reals. NaN, infinities and floating-point rounding are not modelled. This covers `fontHeight * 100 + y`, `x + width` and the differences compared with 5, 25 and 50.
- Case conversion is ASCII only. Accented capitals are not lowered, so an upper-case "EDUCACIÓN" does not reach the stop word "educación". JavaScript's `toLowerCase` would lower it.
- Strings are sequences of Unicode scalar values, while JavaScript strings are sequences of UTF-16 code units. So the length tests (`< 3`, `> 2`, `>= 3`) differ for characters outside the Basic Multilingual Plane. Likewise `n[0]` in `getInitials` (utils/anonymizer.ts:14) takes the first code unit of such a character, a lone surrogate, where `Initials.GetInitials` takes the whole character.
- Only the fixed regular expressions of the file are modelled, each as a predicate. `\b` and `\d` are the ASCII classes they are without the `u` flag.
- `pageIndex` and `pageHeight` are parameters of `Redactions.IdentifyRedactions` with no effect, as in the source.
- A null or undefined `items` cannot be passed: a Dafny sequence is always present.
- `candidateName` is an `Option<string>`. `None` stands for `undefined`, and an empty string counts as no name, as JavaScript's truthiness test has it.
- The untyped result array of `identifyRedactions` is a sequence of `RedactionMatch` values. The type names `custom`, `email`, `phone`, `name` and `name-partial` are the constructors of `MatchType`.
- `Sorting.SortBy` is modelled as a stable insertion sort over values. Any stable sort yields the same result, since `SortByStable` and `SortBySortsAndPermutes` fix it. The in-place mutation of the arrays is modelled by reassigning sequences.
