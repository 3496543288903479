/**
 The word counter itself: an object holding the tally, `AddWord` to count a
 word and `GetStatistics` to produce the sorted report.
 */
module Statistics {
  import opened Normalization
  import opened Ordering
  import opened Tally

  /** A word argument that may be the null reference. */
  datatype Option<T> = None | Some(value: T)

  /** The one error the counter raises: a null word. */
  datatype Error = ArgumentNull

  /** What a call to `AddWord` ends with: normally, or with an error. */
  datatype Outcome = Pass | Fail(error: Error)

  /** `report` lists the tally `m` exactly: as many entries as keys, each
      entry a key with its current count, and every key present. */
  predicate ListsExactly(m: map<string, nat>, report: seq<WordCount>) {
    && |report| == |m|
    && (forall i :: 0 <= i < |report| ==> report[i].word in m && m[report[i].word] == report[i].count)
    && (forall k :: k in m ==> WordCount(k, m[k]) in report)
  }

  /** A report in order never names a word twice. */
  lemma ReportWordsDistinct(m: map<string, nat>, report: seq<WordCount>, i: nat, j: nat)
    requires Sorted(report) && ListsExactly(m, report)
    requires i < j < |report|
    ensures report[i].word != report[j].word
  {
    SortedDistinct(report, i, j);
  }

  /** There is only one report in order for a given tally, so the report
      is fully determined by the counts. */
  lemma ReportUnique(m: map<string, nat>, r1: seq<WordCount>, r2: seq<WordCount>)
    requires Sorted(r1) && ListsExactly(m, r1)
    requires Sorted(r2) && ListsExactly(m, r2)
    ensures r1 == r2
  {
    forall e ensures e in r1 <==> e in r2 {
      if e in r1 {
        var i :| 0 <= i < |r1| && r1[i] == e;
        assert WordCount(e.word, m[e.word]) == e;
      }
      if e in r2 {
        var i :| 0 <= i < |r2| && r2[i] == e;
        assert WordCount(e.word, m[e.word]) == e;
      }
    }
    SortedUnique(r1, r2);
  }

  /** A report of the tally left by `words` has one entry per distinct key
      among the words that were not discarded. */
  lemma ReportSizeIsDistinctKeys(words: seq<string>, report: seq<WordCount>)
    requires ListsExactly(TallyOf(words), report)
    ensures |report| == |KeysOf(words)|
  {
    TallyKeys(words);
    assert |TallyOf(words)| == |TallyOf(words).Keys|;
  }

  /** Each entry of such a report carries the number of words counted under
      its key, which is at least one. */
  lemma ReportCountsOccurrences(words: seq<string>, report: seq<WordCount>, i: nat)
    requires ListsExactly(TallyOf(words), report) && i < |report|
    ensures report[i].count == Occurrences(words, report[i].word) >= 1
  {
    TallyCountsOccurrences(words, report[i].word);
  }

  /** Puts `e` into the sorted sequence `s` at its place in report order. */
  method InsertSorted(s: seq<WordCount>, e: WordCount) returns (t: seq<WordCount>)
    requires Sorted(s) && e !in s
    ensures Sorted(t)
    ensures multiset(t) == multiset(s) + multiset{e}
  {
    var i := 0;
    while i < |s| && Precedes(s[i], e)
      invariant 0 <= i <= |s|
      invariant forall j :: 0 <= j < i ==> Precedes(s[j], e)
    {
      i := i + 1;
    }
    if i < |s| {
      PrecedesTotal(s[i], e);
      forall j | i <= j < |s| ensures Precedes(e, s[j]) {
        if j > i {
          PrecedesTransitive(e, s[i], s[j]);
        }
      }
    }
    t := s[..i] + [e] + s[i..];
    assert s == s[..i] + s[i..];
  }

  class WordsStatistics {
    /** The tally: how often each key has been counted. */
    var counts: map<string, nat>

    /** Every key is a normalised word counted at least once. */
    ghost predicate Valid()
      reads this
    {
      WellFormed(counts)
    }

    /** A new counter has counted nothing. */
    constructor ()
      ensures Valid() && counts == map[]
    {
      counts := map[];
    }

    /** Counts `word`: a null word fails with `ArgumentNull` and changes
        nothing; a blank word is accepted and changes no count; any other
        word raises the count of its key by one. */
    method AddWord(word: Option<string>) returns (outcome: Outcome)
      requires Valid()
      modifies this
      ensures Valid()
      ensures word.None? ==> outcome == Fail(ArgumentNull) && counts == old(counts)
      ensures word.Some? ==> outcome == Pass && counts == Add(old(counts), word.value)
    {
      match word {
        case None =>
          return Fail(ArgumentNull);
        case Some(w) =>
          AddPreservesWellFormed(counts, w);
          if !IsBlank(w) {
            var key := Normalize(w);
            var n := if key in counts then counts[key] else 0;
            counts := counts[key := n + 1];
          }
          return Pass;
      }
    }

    /** The report: one entry per key with its count, by count from highest
        to lowest and, for equal counts, by word in ascending order. The
        tally is only read. */
    method GetStatistics() returns (report: seq<WordCount>)
      requires Valid()
      ensures Sorted(report)
      ensures ListsExactly(counts, report)
      ensures forall e :: e in report ==> IsKey(e.word) && e.count >= 1
    {
      report := [];
      var pending := counts.Keys;
      while pending != {}
        invariant pending <= counts.Keys
        invariant Sorted(report)
        invariant |report| + |pending| == |counts|
        invariant forall e :: e in report ==> e.word in counts && e.word !in pending && counts[e.word] == e.count
        invariant forall k :: k in counts && k !in pending ==> WordCount(k, counts[k]) in report
        decreases |pending|
      {
        var k :| k in pending;
        var e := WordCount(k, counts[k]);
        var next := InsertSorted(report, e);
        assert forall x :: x in next <==> x in report || x == e by {
          forall x ensures x in next <==> x in multiset(next) {}
          forall x ensures x in report <==> x in multiset(report) {}
        }
        assert |next| == |report| + 1 by {
          assert |multiset(next)| == |multiset(report)| + 1;
        }
        report := next;
        pending := pending - {k};
      }
      assert pending == {};
      forall i | 0 <= i < |report|
        ensures report[i].word in counts && counts[report[i].word] == report[i].count
      {
        assert report[i] in report;
      }
    }
  }
}
