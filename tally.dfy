/**
 The tally as a value: a map from key to count, what one addition does to
 it, and what a whole history of additions leaves in it.
 */
module Tally {
  import opened Normalization

  /** A tally whose every key is a normalised key with a positive count. */
  predicate WellFormed(m: map<string, nat>) {
    forall k :: k in m ==> IsKey(k) && m[k] >= 1
  }

  /** Counting one word: a blank word leaves the tally as it is; any other
      word raises the count of its key by one, starting from zero. */
  function Add(m: map<string, nat>, word: string): (r: map<string, nat>)
    ensures IsBlank(word) ==> r == m
    ensures !IsBlank(word) ==> r.Keys == m.Keys + {Normalize(word)}
    ensures !IsBlank(word) ==> r[Normalize(word)] == 1 + if Normalize(word) in m then m[Normalize(word)] else 0
    ensures forall k :: k in m && (IsBlank(word) || k != Normalize(word)) ==> k in r && r[k] == m[k]
  {
    if IsBlank(word) then m
    else
      var k := Normalize(word);
      m[k := if k in m then m[k] + 1 else 1]
  }

  /** The tally left by counting `words` in order, starting from empty. */
  function TallyOf(words: seq<string>): (m: map<string, nat>)
    ensures |m| <= |words|
  {
    if words == [] then map[]
    else Add(TallyOf(words[..|words| - 1]), words[|words| - 1])
  }

  /** How many of `words` are counted under `key`. */
  function Occurrences(words: seq<string>, key: string): (c: nat)
    ensures c <= |words|
  {
    if words == [] then 0
    else
      var last := words[|words| - 1];
      Occurrences(words[..|words| - 1], key) + if !IsBlank(last) && Normalize(last) == key then 1 else 0
  }

  /** The set of keys that some word of `words` is counted under. */
  function KeysOf(words: seq<string>): (ks: set<string>) {
    set i | 0 <= i < |words| && !IsBlank(words[i]) :: Normalize(words[i])
  }

  /** Counting one word keeps a tally well formed. */
  lemma AddPreservesWellFormed(m: map<string, nat>, word: string)
    requires WellFormed(m)
    ensures WellFormed(Add(m, word))
  {
    if !IsBlank(word) {
      NormalizeIsKey(word);
    }
  }

  /** A word whose key is not yet counted adds exactly one entry. */
  lemma AddNewKey(m: map<string, nat>, word: string)
    requires !IsBlank(word) && Normalize(word) !in m
    ensures |Add(m, word)| == |m| + 1
  {
    assert Add(m, word).Keys == m.Keys + {Normalize(word)};
  }

  /** The tally after one more word is the tally before, plus that word. */
  lemma TallyOfAppend(words: seq<string>, word: string)
    ensures TallyOf(words + [word]) == Add(TallyOf(words), word)
  {
    assert (words + [word])[..|words|] == words;
  }

  /** The count of each key is the number of words counted under it, and a
      key is present exactly when that number is positive. */
  lemma {:induction false} TallyCountsOccurrences(words: seq<string>, key: string)
    ensures key in TallyOf(words) <==> Occurrences(words, key) > 0
    ensures key in TallyOf(words) ==> TallyOf(words)[key] == Occurrences(words, key)
  {
    if words != [] {
      TallyCountsOccurrences(words[..|words| - 1], key);
    }
  }

  /** The tally's keys are the keys of the words that were not discarded;
      hence the report has one entry per distinct key. */
  lemma {:induction false} TallyKeys(words: seq<string>)
    ensures TallyOf(words).Keys == KeysOf(words)
  {
    if words != [] {
      var init := words[..|words| - 1];
      TallyKeys(init);
      var last := words[|words| - 1];
      assert forall i :: 0 <= i < |init| ==> init[i] == words[i];
      if IsBlank(last) {
        assert KeysOf(words) == KeysOf(init);
      } else {
        assert KeysOf(words) == KeysOf(init) + {Normalize(last)};
      }
    }
  }

  /** Every tally reached from the empty one is well formed. */
  lemma {:induction false} TallyWellFormed(words: seq<string>)
    ensures WellFormed(TallyOf(words))
  {
    if words != [] {
      TallyWellFormed(words[..|words| - 1]);
      AddPreservesWellFormed(TallyOf(words[..|words| - 1]), words[|words| - 1]);
    }
  }

  /** `Repeat(w, n)` is the history of `n` additions of `w`. */
  function Repeat(word: string, n: nat): (ws: seq<string>)
    ensures |ws| == n && forall i :: 0 <= i < n ==> ws[i] == word
  {
    seq(n, _ => word)
  }

  /** Adding a non-blank word `n` times gives its key the count `n`. */
  lemma {:induction false} RepeatCount(word: string, n: nat)
    requires !IsBlank(word) && n > 0
    ensures TallyOf(Repeat(word, n)) == map[Normalize(word) := n]
  {
    if n == 1 {
      assert Repeat(word, 1) == [] + [word];
    } else {
      RepeatCount(word, n - 1);
      assert Repeat(word, n) == Repeat(word, n - 1) + [word];
      TallyOfAppend(Repeat(word, n - 1), word);
    }
  }

  /** Words whose keys differ are counted separately: with no two of them
      sharing a key and none blank, every word gets an entry of its own. */
  lemma {:induction false} DistinctKeysDistinctEntries(words: seq<string>)
    requires forall i :: 0 <= i < |words| ==> !IsBlank(words[i])
    requires forall i, j :: 0 <= i < j < |words| ==> Normalize(words[i]) != Normalize(words[j])
    ensures |TallyOf(words)| == |words|
  {
    if words != [] {
      var init := words[..|words| - 1];
      DistinctKeysDistinctEntries(init);
      TallyKeys(init);
      var k := Normalize(words[|words| - 1]);
      assert k !in KeysOf(init);
      assert TallyOf(words).Keys == TallyOf(init).Keys + {k};
    }
  }
}
