/**
 The counter's documented behaviour, call by call: each method drives a new
 `WordsStatistics` through one sequence of calls and states what it ends
 with. The lemmas named `...Tally` work out, for one such sequence, the
 tally it leaves.
 */
module Scenarios {
  import opened Normalization
  import opened Ordering
  import opened Tally
  import opened Statistics

  // ---------------------------------------------------------------------
  // The report of a small tally, entry by entry

  lemma ReportOfOne(m: map<string, nat>, report: seq<WordCount>, x: WordCount)
    requires Sorted(report) && ListsExactly(m, report)
    requires m == map[x.word := x.count]
    ensures report == [x]
  {
    assert report[0].word == x.word;
  }

  lemma ReportOfTwo(m: map<string, nat>, report: seq<WordCount>, x: WordCount, y: WordCount)
    requires Sorted(report) && ListsExactly(m, report)
    requires m == map[x.word := x.count, y.word := y.count]
    requires x.word != y.word && Precedes(x, y)
    ensures report == [x, y]
  {
    var expected := [x, y];
    assert ListsExactly(m, expected);
    ReportUnique(m, report, expected);
  }

  lemma ReportOfThree(m: map<string, nat>, report: seq<WordCount>, x: WordCount, y: WordCount, z: WordCount)
    requires Sorted(report) && ListsExactly(m, report)
    requires m == map[x.word := x.count, y.word := y.count, z.word := z.count]
    requires x.word != y.word && y.word != z.word && x.word != z.word
    requires Precedes(x, y) && Precedes(y, z)
    ensures report == [x, y, z]
  {
    var expected := [x, y, z];
    PrecedesTransitive(x, y, z);
    ThreeListed(m, x, y, z);
    ReportUnique(m, report, expected);
  }

  lemma ThreeListed(m: map<string, nat>, x: WordCount, y: WordCount, z: WordCount)
    requires m == map[x.word := x.count, y.word := y.count, z.word := z.count]
    requires x.word != y.word && y.word != z.word && x.word != z.word
    ensures ListsExactly(m, [x, y, z])
  {
    assert m.Keys == {x.word, y.word, z.word};
  }

  /** The one-letter words used below are counted under themselves. */
  lemma SingleLetterKeys()
    ensures !IsBlank("a") && Normalize("a") == "a"
    ensures !IsBlank("b") && Normalize("b") == "b"
    ensures !IsBlank("c") && Normalize("c") == "c"
  {
    assert !IsWhiteSpace("a"[0]) && !IsWhiteSpace("b"[0]) && !IsWhiteSpace("c"[0]);
  }

  // ---------------------------------------------------------------------
  // Scenarios

  /** A new counter reports nothing. */
  method EmptyAfterCreation() returns (report: seq<WordCount>)
    ensures report == []
  {
    var stats := new WordsStatistics();
    report := stats.GetStatistics();
  }

  /** One word gives one entry with count 1. */
  method ContainsItemAfterAddition() returns (report: seq<WordCount>)
    ensures report == [WordCount("abc", 1)]
  {
    var stats := new WordsStatistics();
    var _ := stats.AddWord(Some("abc"));
    report := stats.GetStatistics();
    AbcTally();
    ReportOfOne(stats.counts, report, WordCount("abc", 1));
  }

  lemma AbcTally()
    ensures Add(map[], "abc") == map["abc" := 1]
    ensures Add(Add(map[], "ABC"), "abc") == map["abc" := 2]
  {
    assert !IsWhiteSpace("abc"[0]) && !IsWhiteSpace("ABC"[0]);
    assert Normalize("abc") == "abc";
    assert Normalize("ABC") == "abc";
  }

  /** Two different words give two entries. */
  method ManyItemsAfterAdditionOfDifferentWords() returns (report: seq<WordCount>)
    ensures |report| == 2
  {
    var stats := new WordsStatistics();
    var _ := stats.AddWord(Some("abc"));
    var _ := stats.AddWord(Some("def"));
    report := stats.GetStatistics();
    AbcDefTally();
  }

  lemma AbcDefTally()
    ensures |Add(Add(map[], "abc"), "def")| == 2
  {
    assert !IsWhiteSpace("abc"[0]) && !IsWhiteSpace("def"[0]);
    assert Normalize("abc") == "abc";
    assert Normalize("def") == "def";
    assert Add(Add(map[], "abc"), "def").Keys == {"abc", "def"};
  }

  /** Upper and lower case spellings are one key. */
  method UpperAndLowerCase() returns (report: seq<WordCount>)
    ensures report == [WordCount("abc", 2)]
  {
    var stats := new WordsStatistics();
    var _ := stats.AddWord(Some("ABC"));
    var _ := stats.AddWord(Some("abc"));
    report := stats.GetStatistics();
    AbcTally();
    ReportOfOne(stats.counts, report, WordCount("abc", 2));
  }

  /** Words are cut to their first ten characters. */
  method TruncateWord() returns (report: seq<WordCount>)
    ensures report == [WordCount("1234567890", 2)]
  {
    var stats := new WordsStatistics();
    var _ := stats.AddWord(Some("12345678901234567890"));
    var _ := stats.AddWord(Some("1234567890"));
    report := stats.GetStatistics();
    DigitsTally();
    ReportOfOne(stats.counts, report, WordCount("1234567890", 2));
  }

  lemma DigitsTally()
    ensures Add(Add(map[], "12345678901234567890"), "1234567890") == map["1234567890" := 2]
  {
    assert !IsWhiteSpace("12345678901234567890"[0]);
    assert !IsWhiteSpace("1234567890"[0]);
    assert Normalize("12345678901234567890") == "1234567890";
    assert Normalize("1234567890") == "1234567890";
  }

  /** A null word is refused with `ArgumentNull`, and nothing is counted. */
  method NullWord() returns (outcome: Outcome, report: seq<WordCount>)
    ensures outcome == Fail(ArgumentNull)
    ensures report == []
  {
    var stats := new WordsStatistics();
    outcome := stats.AddWord(None);
    report := stats.GetStatistics();
  }

  /** Spaces alone are not a word. */
  method WhiteSpaces() returns (report: seq<WordCount>)
    ensures report == []
  {
    var stats := new WordsStatistics();
    var _ := stats.AddWord(Some("  "));
    report := stats.GetStatistics();
  }

  /** The empty string is not a word. */
  method EmptyString() returns (report: seq<WordCount>)
    ensures report == []
  {
    var stats := new WordsStatistics();
    var _ := stats.AddWord(Some(""));
    report := stats.GetStatistics();
  }

  /** Line feeds, tabs and spaces alone are not a word. */
  method StringWithDelimiters() returns (report: seq<WordCount>)
    ensures report == []
  {
    var stats := new WordsStatistics();
    var _ := stats.AddWord(Some("\n\t \n\t"));
    report := stats.GetStatistics();
  }

  /** Entries come by count, highest first. */
  method OrderByCount() returns (report: seq<WordCount>)
    ensures report == [WordCount("a", 3), WordCount("b", 2), WordCount("c", 1)]
  {
    var stats := new WordsStatistics();
    var _ := stats.AddWord(Some("c"));
    var _ := stats.AddWord(Some("a"));
    var _ := stats.AddWord(Some("a"));
    var _ := stats.AddWord(Some("a"));
    var _ := stats.AddWord(Some("b"));
    var _ := stats.AddWord(Some("b"));
    report := stats.GetStatistics();
    OrderByCountTally();
    ReportOfThree(stats.counts, report, WordCount("a", 3), WordCount("b", 2), WordCount("c", 1));
  }

  lemma OrderByCountTally()
    ensures Add(Add(Add(Add(Add(Add(map[], "c"), "a"), "a"), "a"), "b"), "b") == map["a" := 3, "b" := 2, "c" := 1]
  {
    SingleLetterKeys();
    var m := Add(Add(Add(Add(map[], "c"), "a"), "a"), "a");
    assert m == map["c" := 1, "a" := 3];
  }

  /** Equal counts: the smaller word first. */
  method OrderTieTwoWords() returns (report: seq<WordCount>)
    ensures report == [WordCount("a", 2), WordCount("b", 2)]
  {
    var stats := new WordsStatistics();
    var _ := stats.AddWord(Some("a"));
    var _ := stats.AddWord(Some("a"));
    var _ := stats.AddWord(Some("b"));
    var _ := stats.AddWord(Some("b"));
    report := stats.GetStatistics();
    OrderTieTwoWordsTally();
    ReportOfTwo(stats.counts, report, WordCount("a", 2), WordCount("b", 2));
  }

  lemma OrderTieTwoWordsTally()
    ensures Add(Add(Add(Add(map[], "a"), "a"), "b"), "b") == map["a" := 2, "b" := 2]
    ensures WordLess("a", "b")
  {
    SingleLetterKeys();
  }

  /** Equal counts are ordered by word, not by the order the words were
      first seen in: `b` is seen before `a` but reported after it. */
  method OrderTieByWord() returns (report: seq<WordCount>)
    ensures report == [WordCount("a", 2), WordCount("b", 2), WordCount("c", 1)]
  {
    var stats := new WordsStatistics();
    var _ := stats.AddWord(Some("c"));
    var _ := stats.AddWord(Some("b"));
    var _ := stats.AddWord(Some("a"));
    var _ := stats.AddWord(Some("a"));
    var _ := stats.AddWord(Some("b"));
    report := stats.GetStatistics();
    OrderTieByWordTally();
    ReportOfThree(stats.counts, report, WordCount("a", 2), WordCount("b", 2), WordCount("c", 1));
  }

  lemma OrderTieByWordTally()
    ensures Add(Add(Add(Add(Add(map[], "c"), "b"), "a"), "a"), "b") == map["a" := 2, "b" := 2, "c" := 1]
    ensures WordLess("a", "b")
  {
    SingleLetterKeys();
    var m := Add(Add(Add(map[], "c"), "b"), "a");
    assert m == map["c" := 1, "b" := 1, "a" := 1];
  }

  /** A Cyrillic capital is folded to its lower-case letter. */
  method RussianB() returns (report: seq<WordCount>)
    ensures report == [WordCount("б", 1)]
  {
    var stats := new WordsStatistics();
    var _ := stats.AddWord(Some("Б"));
    report := stats.GetStatistics();
    RussianBTally();
    ReportOfOne(stats.counts, report, WordCount("б", 1));
  }

  lemma RussianBTally()
    ensures Add(map[], "Б") == map["б" := 1]
  {
    assert !IsWhiteSpace("Б"[0]);
    assert Normalize("Б") == "б";
  }

  /** `n` rounds of adding `b` then `a` give both the count `n`, `a` first. */
  method ManyAAndBWords(n: nat) returns (report: seq<WordCount>)
    requires n > 0
    ensures report == [WordCount("a", n), WordCount("b", n)]
  {
    SingleLetterKeys();
    var stats := new WordsStatistics();
    var i := 0;
    while i < n
      invariant 0 <= i <= n
      invariant stats.Valid()
      invariant i == 0 ==> stats.counts == map[]
      invariant i > 0 ==> stats.counts == map["a" := i, "b" := i]
    {
      ghost var before := stats.counts;
      var _ := stats.AddWord(Some("b"));
      var _ := stats.AddWord(Some("a"));
      ABRound(before, i);
      i := i + 1;
    }
    report := stats.GetStatistics();
    assert WordLess("a", "b");
    ReportOfTwo(stats.counts, report, WordCount("a", n), WordCount("b", n));
  }

  lemma ABRound(m: map<string, nat>, i: nat)
    requires i == 0 ==> m == map[]
    requires i > 0 ==> m == map["a" := i, "b" := i]
    ensures Add(Add(m, "b"), "a") == map["a" := i + 1, "b" := i + 1]
  {
    SingleLetterKeys();
  }

  /** White space inside a word is part of the word. */
  method WordWithDelimiterInside() returns (report: seq<WordCount>)
    ensures report == [WordCount("a b", 1)]
  {
    var stats := new WordsStatistics();
    var _ := stats.AddWord(Some("a b"));
    report := stats.GetStatistics();
    InnerSpaceTally();
    ReportOfOne(stats.counts, report, WordCount("a b", 1));
  }

  lemma InnerSpaceTally()
    ensures Add(map[], "a b") == map["a b" := 1]
  {
    assert !IsWhiteSpace("a b"[0]);
    assert Normalize("a b") == "a b";
  }

  /** Taking a report changes nothing: counting goes on from where it was. */
  method WorkCorrectAfterGetStatistics() returns (report: seq<WordCount>)
    ensures report == [WordCount("a", 3)]
  {
    SingleLetterKeys();
    var stats := new WordsStatistics();
    var _ := stats.AddWord(Some("a"));
    var _ := stats.AddWord(Some("a"));
    var _ := stats.GetStatistics();
    var _ := stats.AddWord(Some("a"));
    report := stats.GetStatistics();
    ReportOfOne(stats.counts, report, WordCount("a", 3));
  }

  /** Leading spaces are kept, and count towards the ten characters. */
  method FirstTenSpaces() returns (report: seq<WordCount>)
    ensures report == [WordCount("          ", 1)]
  {
    var stats := new WordsStatistics();
    var _ := stats.AddWord(Some("          123"));
    report := stats.GetStatistics();
    LeadingSpacesTally();
    ReportOfOne(stats.counts, report, WordCount("          ", 1));
  }

  lemma LeadingSpacesTally()
    ensures Add(map[], "          123") == map["          " := 1]
  {
    NonWhiteCharKeeps("          123", 10);
    assert Normalize("          123") == "          ";
  }

  /** Eleven characters are cut to ten. */
  method ShouldCutElevenSymbols() returns (report: seq<WordCount>)
    ensures report == [WordCount("1234567890", 1)]
  {
    var stats := new WordsStatistics();
    var _ := stats.AddWord(Some("12345678901"));
    report := stats.GetStatistics();
    ElevenDigitsTally();
    ReportOfOne(stats.counts, report, WordCount("1234567890", 1));
  }

  lemma ElevenDigitsTally()
    ensures Add(map[], "12345678901") == map["1234567890" := 1]
  {
    assert !IsWhiteSpace("12345678901"[0]);
    assert Normalize("12345678901") == "1234567890";
  }

  /** The more frequent word comes first even when seen later. */
  method GetStatisticsOrder() returns (report: seq<WordCount>)
    ensures report == [WordCount("b", 2), WordCount("a", 1)]
  {
    var stats := new WordsStatistics();
    var _ := stats.AddWord(Some("a"));
    var _ := stats.AddWord(Some("b"));
    var _ := stats.AddWord(Some("b"));
    report := stats.GetStatistics();
    GetStatisticsOrderTally();
    ReportOfTwo(stats.counts, report, WordCount("b", 2), WordCount("a", 1));
  }

  lemma GetStatisticsOrderTally()
    ensures Add(Add(Add(map[], "a"), "b"), "b") == map["b" := 2, "a" := 1]
  {
    SingleLetterKeys();
  }

  /** Counters are independent: a word added to one is not in another's
      report. */
  method Isolation() returns (report: seq<WordCount>)
    ensures report == []
  {
    var stats := new WordsStatistics();
    var second := new WordsStatistics();
    var _ := second.AddWord(Some("a"));
    report := stats.GetStatistics();
  }

  // ---------------------------------------------------------------------
  // Many distinct words: the decimal numerals 0, 1, ..., n - 1

  /** The decimal numeral of `n`, as a non-negative integer's `ToString`
      writes it. */
  function DecimalString(n: nat): (s: string)
    ensures |s| >= 1 && forall i :: 0 <= i < |s| ==> '0' <= s[i] <= '9'
  {
    var last := [('0' as int + n % 10) as char];
    if n < 10 then last else DecimalString(n / 10) + last
  }

  /** The value of a string of decimal digits. */
  function DecimalValue(s: string): (v: nat)
    requires forall i :: 0 <= i < |s| ==> '0' <= s[i] <= '9'
  {
    if s == [] then 0
    else 10 * DecimalValue(s[..|s| - 1]) + (s[|s| - 1] as int - '0' as int)
  }

  /** Reading a numeral back gives the number it was written from, so
      different numbers have different numerals. */
  lemma {:induction false} DecimalRoundTrip(n: nat)
    ensures DecimalValue(DecimalString(n)) == n
  {
    if n >= 10 {
      DecimalRoundTrip(n / 10);
      var s := DecimalString(n);
      assert s[..|s| - 1] == DecimalString(n / 10);
    }
  }

  /** Ten to the power `k`. */
  function Pow10(k: nat): (p: nat)
    ensures p >= 1
  {
    if k == 0 then 1 else 10 * Pow10(k - 1)
  }

  /** A number below `10^k` has at most `k` digits. */
  lemma {:induction false} DecimalLength(n: nat, k: nat)
    requires 1 <= k && n < Pow10(k)
    ensures |DecimalString(n)| <= k
  {
    if n >= 10 {
      assert k >= 2;
      assert n / 10 < Pow10(k - 1);
      DecimalLength(n / 10, k - 1);
    }
  }

  /** A non-negative 32-bit integer's numeral is counted under itself. */
  lemma DecimalIsOwnKey(n: nat)
    requires n < 0x8000_0000
    ensures !IsBlank(DecimalString(n)) && Normalize(DecimalString(n)) == DecimalString(n)
  {
    var s := DecimalString(n);
    assert Pow10(10) == 10_000_000_000;
    DecimalLength(n, 10);
    assert !IsWhiteSpace(s[0]);
  }

  /** Adding the numerals of `0` to `n - 1` gives `n` entries. */
  method ManyUniqueWords(n: nat) returns (report: seq<WordCount>)
    requires n <= 0x8000_0000
    ensures |report| == n
  {
    var stats := new WordsStatistics();
    var i := 0;
    while i < n
      invariant 0 <= i <= n
      invariant stats.Valid()
      invariant |stats.counts| == i
      invariant forall k :: k in stats.counts ==>
        (forall j :: 0 <= j < |k| ==> '0' <= k[j] <= '9') && DecimalValue(k) < i
    {
      var word := DecimalString(i);
      DecimalIsOwnKey(i);
      DecimalRoundTrip(i);
      assert word !in stats.counts;
      AddNewKey(stats.counts, word);
      var _ := stats.AddWord(Some(word));
      i := i + 1;
    }
    report := stats.GetStatistics();
  }
}
