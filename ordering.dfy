/**
 The order of the statistics report: entries by count, highest first, and
 entries with equal counts by word in ascending order.
 */
module Ordering {

  /** One line of the report: a key and how many times it was counted.
      Two entries are equal when both their word and their count are. */
  datatype WordCount = WordCount(word: string, count: nat)

  /** Strict lexicographic order on strings, comparing characters by code
      point; a proper prefix comes first. */
  predicate WordLess(a: string, b: string) {
    if a == [] then b != []
    else if b == [] then false
    else if a[0] != b[0] then a[0] < b[0]
    else WordLess(a[1..], b[1..])
  }

  lemma {:induction false} WordLessIrreflexive(a: string)
    ensures !WordLess(a, a)
  {
    if a != [] {
      WordLessIrreflexive(a[1..]);
    }
  }

  lemma {:induction false} WordLessTransitive(a: string, b: string, c: string)
    requires WordLess(a, b) && WordLess(b, c)
    ensures WordLess(a, c)
  {
    if a != [] && b != [] && c != [] && a[0] == b[0] && b[0] == c[0] {
      WordLessTransitive(a[1..], b[1..], c[1..]);
    }
  }

  /** Any two different strings are ordered one way or the other. */
  lemma {:induction false} WordLessTotal(a: string, b: string)
    requires a != b
    ensures WordLess(a, b) || WordLess(b, a)
  {
    if a != [] && b != [] && a[0] == b[0] {
      assert a == [a[0]] + a[1..] && b == [b[0]] + b[1..];
      WordLessTotal(a[1..], b[1..]);
    }
  }

  lemma {:induction false} WordLessAsymmetric(a: string, b: string)
    requires WordLess(a, b)
    ensures !WordLess(b, a)
  {
    if WordLess(b, a) {
      WordLessTransitive(a, b, a);
      WordLessIrreflexive(a);
    }
  }

  /** `x` is reported before `y`: it has the higher count, or the same
      count and the smaller word. */
  predicate Precedes(x: WordCount, y: WordCount) {
    x.count > y.count || (x.count == y.count && WordLess(x.word, y.word))
  }

  /** `Precedes` is a strict total order on entries. */
  lemma PrecedesIrreflexive(x: WordCount)
    ensures !Precedes(x, x)
  {
    WordLessIrreflexive(x.word);
  }

  lemma PrecedesTransitive(x: WordCount, y: WordCount, z: WordCount)
    requires Precedes(x, y) && Precedes(y, z)
    ensures Precedes(x, z)
  {
    if x.count == y.count == z.count {
      WordLessTransitive(x.word, y.word, z.word);
    }
  }

  lemma PrecedesTotal(x: WordCount, y: WordCount)
    requires x != y
    ensures Precedes(x, y) || Precedes(y, x)
  {
    if x.count == y.count {
      WordLessTotal(x.word, y.word);
    }
  }

  lemma PrecedesAsymmetric(x: WordCount, y: WordCount)
    requires Precedes(x, y)
    ensures !Precedes(y, x)
  {
    if x.count == y.count {
      WordLessAsymmetric(x.word, y.word);
    }
  }

  /** Every entry precedes every later one. */
  predicate Sorted(s: seq<WordCount>) {
    forall i, j :: 0 <= i < j < |s| ==> Precedes(s[i], s[j])
  }

  /** Two sorted sequences with the same elements are the same sequence:
      the report order leaves no freedom. */
  lemma {:induction false} SortedUnique(s: seq<WordCount>, t: seq<WordCount>)
    requires Sorted(s) && Sorted(t)
    requires forall e :: e in s <==> e in t
    ensures s == t
  {
    if s != [] { assert s[0] in t; }
    if t != [] { assert t[0] in s; }
    if s == [] || t == [] {
      // then both are empty
    } else {
      if s[0] != t[0] {
        assert s[0] in t;
        assert t[0] in s;
        var i :| 0 <= i < |t| && t[i] == s[0];
        var j :| 0 <= j < |s| && s[j] == t[0];
        assert Precedes(t[0], s[0]) by {
          assert i != 0;
        }
        assert Precedes(s[0], t[0]) by {
          assert j != 0;
        }
        PrecedesAsymmetric(s[0], t[0]);
        assert false;
      }
      forall e ensures e in s[1..] <==> e in t[1..] {
        if e in s[1..] {
          var i :| 1 <= i < |s| && s[i] == e;
          assert Precedes(s[0], e);
          PrecedesIrreflexive(e);
          assert e in t;
        }
        if e in t[1..] {
          var i :| 1 <= i < |t| && t[i] == e;
          assert Precedes(t[0], e);
          PrecedesIrreflexive(e);
          assert e in s;
        }
      }
      SortedUnique(s[1..], t[1..]);
      assert s == [s[0]] + s[1..] && t == [t[0]] + t[1..];
    }
  }

  /** A sorted sequence never holds the same entry twice. */
  lemma SortedDistinct(s: seq<WordCount>, i: nat, j: nat)
    requires Sorted(s) && i < j < |s|
    ensures s[i] != s[j]
  {
    PrecedesIrreflexive(s[i]);
  }
}
