# Word-frequency counter (`IWordsStatistics`)

A Dafny model of the word counter behind the `IWordsStatistics` interface
of the `Challenge` project. The counter has two operations:

- `AddWord(word)` refuses a null word with an `ArgumentNullException`. It
  silently ignores a word that is empty or made only of white space. Any
  other word is lower-cased and cut to its first ten characters, and the
  count of that key goes up by one.
- `GetStatistics()` returns one `(word, count)` pair per key. Pairs are
  ordered by count, highest first, and pairs with equal counts by word in
  ascending order.

The C# implementation of `WordsStatistics` is not available, so the model
follows `cs/Challenge/WordsStatistics_Tests.cs`, which fixes the counter's
behaviour call by call. Equal counts are ordered by word, ascending, not by
first-seen order. The tests at lines 131-144 and 162-177 add `b` before `a`
and expect `a` first.

## Layout

- `normalization.dfy` — module `Normalization`: the white-space test (the
  .NET `char.IsWhiteSpace` set), the fold table, truncation to ten
  characters, and what a key is.
- `ordering.dfy` — module `Ordering`: the `WordCount` pair, lexicographic
  order on words, the report order `Precedes`, and the proof that a sorted
  report is unique.
- `tally.dfy` — module `Tally`: the tally as a `map<string, nat>`; `Add`
  (one call of `AddWord` on a value) and `TallyOf` (a whole history of
  calls); counts equal occurrences.
- `statistics.dfy` — module `Statistics`: the class `WordsStatistics`. Its
  `counts` map is updated in place by `AddWord`. `GetStatistics` builds the
  report with an insertion-sort loop and only reads the map.
- `scenarios.dfy` — module `Scenarios`: each test of the test file
  replayed as a verified method on a fresh counter.

## Model

| member | source | states |
|---|---|---|
| `Normalization.IsWhiteSpace` | cs/Challenge/WordsStatistics_Tests.cs:84-89 | the white-space characters: TAB, LF, VT, FF, CR, space, NEL, no-break space and the other Unicode space, line and paragraph separators, as .NET classifies them |
| `Normalization.IsBlank` | cs/Challenge/WordsStatistics_Tests.cs:70-89 | the discard rule: a word is discarded when it is empty or every character is white space |
| `Normalization.LowerChar` | cs/Challenge/WordsStatistics_Tests.cs:156-160 | the folded character is lower case, a lower-case character is left alone, and folding never changes whether a character is white space |
| `Normalization.Normalize` | cs/Challenge/WordsStatistics_Tests.cs:55-60 | the key has exactly `min(length, 10)` characters, each the lower-case form of the word's character at that place |
| `Normalization.NormalizeIsKey` | cs/Challenge/WordsStatistics_Tests.cs:216-221 | a word that is not blank yields a non-empty, lower-case key of at most ten characters, even when that key is all spaces |
| `Normalization.KeyIsFixedPoint` | cs/Challenge/WordsStatistics_Tests.cs:47-52 | the keys are exactly the non-empty strings that normalisation leaves unchanged |
| `Normalization.NormalizeIdempotent` | cs/Challenge/WordsStatistics_Tests.cs:55-60 | normalising a key again gives the same key |
| `Normalization.SamePrefixSameKey` | cs/Challenge/WordsStatistics_Tests.cs:55-60 | two words of ten or more characters that agree on their first ten are counted under one key |
| `Normalization.FoldMergesOnlyPartners` | cs/Challenge/WordsStatistics_Tests.cs:46-52 | two characters fold alike exactly when they are equal or one is the other's lower-case form, so different letters are never merged |
| `Normalization.FoldedAlikeSameKey` | cs/Challenge/WordsStatistics_Tests.cs:46-60 | two words share a key if and only if their cut lengths agree and their kept characters agree after folding |
| `Normalization.NonWhiteCharKeeps` | cs/Challenge/WordsStatistics_Tests.cs:180-184 | one non-white character anywhere in a word is enough for it to be counted |
| `Ordering.WordLess` | cs/Challenge/WordsStatistics_Tests.cs:130-144 | the word order for equal counts: lexicographic by character code, a proper prefix first |
| `Ordering.Precedes` | cs/Challenge/WordsStatistics_Tests.cs:91-144 | the report order: a higher count first, and for equal counts the word that comes first |
| `Ordering.WordLessIrreflexive` | cs/Challenge/WordsStatistics_Tests.cs:131-144 | no word comes before itself |
| `Ordering.WordLessTransitive` | cs/Challenge/WordsStatistics_Tests.cs:131-144 | word order is transitive |
| `Ordering.WordLessTotal` | cs/Challenge/WordsStatistics_Tests.cs:131-144 | of two different words, one comes before the other |
| `Ordering.WordLessAsymmetric` | cs/Challenge/WordsStatistics_Tests.cs:131-144 | two words are never each before the other |
| `Ordering.PrecedesIrreflexive` | cs/Challenge/WordsStatistics_Tests.cs:92-111 | no pair is reported before itself |
| `Ordering.PrecedesTransitive` | cs/Challenge/WordsStatistics_Tests.cs:92-111 | report order is transitive |
| `Ordering.PrecedesTotal` | cs/Challenge/WordsStatistics_Tests.cs:113-128 | of two different pairs, one is reported before the other, including pairs with equal counts |
| `Ordering.PrecedesAsymmetric` | cs/Challenge/WordsStatistics_Tests.cs:230-243 | two pairs are never each before the other |
| `Ordering.SortedUnique` | cs/Challenge/WordsStatistics_Tests.cs:92-144 | two sorted sequences with the same pairs are equal, so the order leaves no freedom |
| `Ordering.SortedDistinct` | cs/Challenge/WordsStatistics_Tests.cs:38-44 | a sorted sequence holds no pair twice |
| `Tally.Add` | cs/Challenge/WordsStatistics_Tests.cs:70-89 | a blank word leaves the tally unchanged; any other word adds its key with its count one higher than before (one if new), and no other count changes |
| `Tally.TallyOf` | cs/Challenge/WordsStatistics_Tests.cs:91-111 | the tally after a history of `AddWord` calls, each applying `Add` in order from an empty tally; it never has more entries than there were words |
| `Tally.AddPreservesWellFormed` | cs/Challenge/WordsStatistics_Tests.cs:31-36 | counting a word keeps every key a normalised word with count at least one |
| `Tally.AddNewKey` | cs/Challenge/WordsStatistics_Tests.cs:38-44 | a word whose key is not yet counted adds exactly one entry |
| `Tally.TallyOfAppend` | cs/Challenge/WordsStatistics_Tests.cs:186-194 | the tally after one more word is the previous tally with that word added |
| `Tally.TallyCountsOccurrences` | cs/Challenge/WordsStatistics_Tests.cs:162-177 | a key is counted exactly when some word of the history maps to it, and its count is the number of such words |
| `Tally.TallyKeys` | cs/Challenge/WordsStatistics_Tests.cs:38-44 | the tally's keys are the keys of the words that were not discarded |
| `Tally.TallyWellFormed` | cs/Challenge/WordsStatistics_Tests.cs:26-36 | every tally reached from an empty counter has normalised keys with counts of at least one |
| `Tally.RepeatCount` | cs/Challenge/WordsStatistics_Tests.cs:186-194 | adding the same non-blank word `n` times leaves one key with count `n` |
| `Tally.DistinctKeysDistinctEntries` | cs/Challenge/WordsStatistics_Tests.cs:253-262 | non-blank words with pairwise different keys give as many entries as words |
| `Statistics.ReportWordsDistinct` | cs/Challenge/WordsStatistics_Tests.cs:38-44 | a report never names a word twice |
| `Statistics.ReportUnique` | cs/Challenge/WordsStatistics_Tests.cs:92-144 | for a given tally there is exactly one sorted report that lists it |
| `Statistics.ReportSizeIsDistinctKeys` | cs/Challenge/WordsStatistics_Tests.cs:253-262 | the report of a history has one entry per distinct key of its non-blank words |
| `Statistics.ReportCountsOccurrences` | cs/Challenge/WordsStatistics_Tests.cs:162-177 | each reported count is the number of words counted under that key, and at least one |
| `Statistics.InsertSorted` | cs/Challenge/WordsStatistics_Tests.cs:92-144 | inserting a pair into a sorted sequence gives a sorted sequence holding exactly the old pairs and the new one |
| `Statistics.WordsStatistics.constructor` | cs/Challenge/WordsStatistics_Tests.cs:19-29 | a new counter holds an empty tally |
| `Statistics.WordsStatistics.AddWord` | cs/Challenge/WordsStatistics_Tests.cs:62-89 | a null word fails with `ArgumentNull` and leaves the tally unchanged; any other word succeeds and the new tally is `Add` of the old one; the invariant is kept |
| `Statistics.WordsStatistics.GetStatistics` | cs/Challenge/WordsStatistics_Tests.cs:92-144 | the report is sorted by count, highest first, then by word, and lists the tally exactly: one pair per key with its count; every reported word is a normalised key and every count is at least one; the tally is only read |
| `Scenarios.EmptyAfterCreation` | cs/Challenge/WordsStatistics_Tests.cs:25-29 | a new counter reports nothing |
| `Scenarios.ContainsItemAfterAddition` | cs/Challenge/WordsStatistics_Tests.cs:31-36 | `abc` gives the report `[(abc, 1)]` |
| `Scenarios.ManyItemsAfterAdditionOfDifferentWords` | cs/Challenge/WordsStatistics_Tests.cs:38-44 | `abc`, `def` give two entries |
| `Scenarios.UpperAndLowerCase` | cs/Challenge/WordsStatistics_Tests.cs:46-52 | `ABC`, `abc` give `[(abc, 2)]` |
| `Scenarios.TruncateWord` | cs/Challenge/WordsStatistics_Tests.cs:54-60 | `12345678901234567890`, `1234567890` give `[(1234567890, 2)]` |
| `Scenarios.NullWord` | cs/Challenge/WordsStatistics_Tests.cs:62-68 | a null word fails with `ArgumentNull`, and the report stays empty |
| `Scenarios.WhiteSpaces` | cs/Challenge/WordsStatistics_Tests.cs:70-75 | two spaces give an empty report |
| `Scenarios.EmptyString` | cs/Challenge/WordsStatistics_Tests.cs:77-82 | the empty string gives an empty report |
| `Scenarios.StringWithDelimiters` | cs/Challenge/WordsStatistics_Tests.cs:84-89 | line feeds, tabs and a space give an empty report |
| `Scenarios.OrderByCount` | cs/Challenge/WordsStatistics_Tests.cs:91-111 | `c, a, a, a, b, b` give `[(a, 3), (b, 2), (c, 1)]` |
| `Scenarios.OrderTieTwoWords` | cs/Challenge/WordsStatistics_Tests.cs:113-128 | `a, a, b, b` give `[(a, 2), (b, 2)]` |
| `Scenarios.OrderTieByWord` | cs/Challenge/WordsStatistics_Tests.cs:130-144 | `c, b, a, a, b` give `[(a, 2), (b, 2), (c, 1)]`: the tie is broken by word, not by first sight |
| `Scenarios.RussianB` | cs/Challenge/WordsStatistics_Tests.cs:155-160 | `Б` gives `[(б, 1)]` |
| `Scenarios.ManyAAndBWords` | cs/Challenge/WordsStatistics_Tests.cs:162-177 | `n` rounds of `b`, `a` give `[(a, n), (b, n)]` for every `n > 0` |
| `Scenarios.WordWithDelimiterInside` | cs/Challenge/WordsStatistics_Tests.cs:179-184 | `a b` gives `[(a b, 1)]` |
| `Scenarios.WorkCorrectAfterGetStatistics` | cs/Challenge/WordsStatistics_Tests.cs:186-194 | `a, a`, a report, then `a` give `[(a, 3)]` |
| `Scenarios.FirstTenSpaces` | cs/Challenge/WordsStatistics_Tests.cs:215-221 | ten spaces followed by `123` give the key of ten spaces |
| `Scenarios.ShouldCutElevenSymbols` | cs/Challenge/WordsStatistics_Tests.cs:223-228 | `12345678901` gives `[(1234567890, 1)]` |
| `Scenarios.GetStatisticsOrder` | cs/Challenge/WordsStatistics_Tests.cs:230-243 | `a, b, b` give `[(b, 2), (a, 1)]` |
| `Scenarios.Isolation` | cs/Challenge/WordsStatistics_Tests.cs:245-251 | a word added to a second counter does not appear in the first counter's report |
| `Scenarios.DecimalString` | cs/Challenge/WordsStatistics_Tests.cs:256-258 | the numeral of a non-negative integer is a non-empty string of decimal digits |
| `Scenarios.DecimalRoundTrip` | cs/Challenge/WordsStatistics_Tests.cs:256-258 | reading a numeral back gives the number, so different numbers have different numerals |
| `Scenarios.DecimalLength` | cs/Challenge/WordsStatistics_Tests.cs:256-258 | a number below `10^k` has at most `k` digits |
| `Scenarios.DecimalIsOwnKey` | cs/Challenge/WordsStatistics_Tests.cs:256-258 | the numeral of a non-negative 32-bit integer is not blank and is its own key |
| `Scenarios.ManyUniqueWords` | cs/Challenge/WordsStatistics_Tests.cs:253-262 | adding the numerals of `0` to `n - 1`, for `n` up to 2^31, gives `n` entries |

## Left out

- Timing: `Timeout(1000)` and the two loops that only measure speed
  (`TestWorkWithO1`, lines 146-153, and `TestManySameWords`, lines
  264-275). A verifier cannot check running time. For lines 253-262 only
  the number of entries is modelled.
- Object identity: lines 206-213 expect two reports to hold distinct
  `WordCount` objects. Reports here are values, so there is no identity to
  compare.
- Deferred enumeration: lines 196-204 expect a report taken before a
  further `AddWord` to equal one taken after. That holds only if the report
  is a live, lazily evaluated view of the tally. Here `GetStatistics`
  returns a value computed from the tally at the time of the call, and
  nothing is proved about reports kept across later additions.
- Culture: `ToLower` depends on the current culture. It is replaced by a
  fixed fold table: `A`-`Z`, Cyrillic `А`-`Я` and `Ѐ`-`Џ` (including
  `Ё`). Every other character is left unchanged.
- Culture: the word comparison for equal counts depends on the culture's
  string comparer. It is replaced by lexicographic order on character code
  points.
- White space: the white-space test is the .NET `char.IsWhiteSpace` set
  applied to every character. Whether the implementation uses
  `string.IsNullOrWhiteSpace` or trimming is not visible; both agree on
  this set.
- Normalization.Normalize: a key is the first ten Unicode scalar values of
  the word, not the first ten UTF-16 code units as in .NET. The two differ
  only for words with characters above U+FFFF in their first ten, where
  .NET can keep fewer characters or split a surrogate pair.
- Integer width: counts are unbounded naturals. A 32-bit count would
  overflow after 2^31 - 1 additions of one word; this is not modelled.
- Test scaffolding: the NUnit attributes, the FluentAssertions calls, and
  the virtual `CreateStatistics` factory (lines 11-23) are not modelled.
  The factory becomes the `WordsStatistics` constructor, and each scenario
  starts from a fresh counter, as `SetUp` does.
- Null: the null reference becomes the `None` case of an `Option<string>`
  argument, and the exception becomes the `Fail(ArgumentNull)` outcome.
