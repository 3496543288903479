/**
 The normalisation a word goes through before it is counted: the
 "empty or only white space" discard test, case folding to lower case, and
 truncation to the first ten characters.
 */
module Normalization {

  /** Longest key the counter stores; longer words are cut to this length. */
  const MaxWordLength: nat := 10

  /** The characters .NET classifies as white space (`char.IsWhiteSpace`):
      the control characters TAB, LF, VT, FF, CR, NEL, and the Unicode space
      separators, line separator and paragraph separator. */
  predicate IsWhiteSpace(c: char) {
    var n := c as int;
    || 0x09 <= n <= 0x0D
    || n == 0x20 || n == 0x85 || n == 0xA0 || n == 0x1680
    || 0x2000 <= n <= 0x200A
    || n == 0x2028 || n == 0x2029 || n == 0x202F || n == 0x205F || n == 0x3000
  }

  /** A word that is empty or made only of white space; such a word is not
      counted. */
  predicate IsBlank(s: string) {
    forall i :: 0 <= i < |s| ==> IsWhiteSpace(s[i])
  }

  /** The fixed fold table used in place of a culture's `ToLower`: Latin
      `A`-`Z`, Cyrillic `А`-`Я` (U+0410-U+042F) and the Cyrillic capitals
      U+0400-U+040F (`Ѐ`-`Џ`, among them `Ё`) map to their lower-case forms;
      every other character is left as it is. */
  function LowerChar(c: char): (d: char)
    ensures IsLower(d)
    ensures IsLower(c) ==> d == c
    ensures IsWhiteSpace(d) <==> IsWhiteSpace(c)
  {
    var n := c as int;
    if 'A' <= c <= 'Z' then (n + 0x20) as char
    else if 0x0410 <= n <= 0x042F then (n + 0x20) as char
    else if 0x0400 <= n <= 0x040F then (n + 0x50) as char
    else c
  }

  /** Folding merges a character only with its own lower-case partner, so
      two different letters never share a key position. */
  lemma FoldMergesOnlyPartners(c: char, e: char)
    ensures LowerChar(c) == LowerChar(e) <==> c == e || LowerChar(c) == e || LowerChar(e) == c
  {
  }

  /** A character the fold table leaves unchanged. */
  predicate IsLower(c: char) {
    var n := c as int;
    !('A' <= c <= 'Z') && !(0x0400 <= n <= 0x042F)
  }

  /** The smaller of two lengths. */
  function Min(a: nat, b: nat): (m: nat)
    ensures m <= a && m <= b && (m == a || m == b)
  {
    if a <= b then a else b
  }

  /** The key under which a (non-blank) word is counted: its first
      `MaxWordLength` characters, each folded to lower case. */
  function Normalize(s: string): (k: string)
    ensures |k| == Min(|s|, MaxWordLength)
    ensures forall i :: 0 <= i < |k| ==> k[i] == LowerChar(s[i])
  {
    seq(Min(|s|, MaxWordLength), i requires 0 <= i < Min(|s|, MaxWordLength) => LowerChar(s[i]))
  }

  /** A string that can be a key of the tally: non-empty, at most
      `MaxWordLength` long, and entirely in lower case. */
  predicate IsKey(k: string) {
    0 < |k| <= MaxWordLength && forall i :: 0 <= i < |k| ==> IsLower(k[i])
  }

  /** Every word that is not discarded yields a key (which may itself consist
      of spaces, as for ten leading spaces followed by digits). */
  lemma NormalizeIsKey(s: string)
    requires !IsBlank(s)
    ensures IsKey(Normalize(s))
  {
    assert 0 < |s|;
  }

  /** Keys are exactly the fixed points of normalisation. */
  lemma KeyIsFixedPoint(k: string)
    ensures IsKey(k) <==> (k != [] && Normalize(k) == k)
  {
    if k != [] && Normalize(k) == k {
      forall i | 0 <= i < |k| ensures IsLower(k[i]) {
        assert k[i] == LowerChar(k[i]);
      }
    }
  }

  /** Normalising twice is normalising once. */
  lemma NormalizeIdempotent(s: string)
    ensures Normalize(Normalize(s)) == Normalize(s)
  {
  }

  /** Only the first `MaxWordLength` characters decide the key: two words
      that agree there are counted together. */
  lemma SamePrefixSameKey(s: string, t: string)
    requires |s| >= MaxWordLength && |t| >= MaxWordLength
    requires s[..MaxWordLength] == t[..MaxWordLength]
    ensures Normalize(s) == Normalize(t)
  {
    forall i | 0 <= i < MaxWordLength ensures s[i] == t[i] {
      assert s[i] == s[..MaxWordLength][i];
    }
  }

  /** Two words share a key exactly when their cut lengths agree and they
      agree after folding on every kept position: case does not matter, and
      nothing else is merged. */
  lemma FoldedAlikeSameKey(s: string, t: string)
    ensures Normalize(s) == Normalize(t) <==>
      && Min(|s|, MaxWordLength) == Min(|t|, MaxWordLength)
      && forall i :: 0 <= i < Min(|s|, MaxWordLength) ==> LowerChar(s[i]) == LowerChar(t[i])
  {
    if Normalize(s) == Normalize(t) {
      forall i | 0 <= i < Min(|s|, MaxWordLength)
        ensures LowerChar(s[i]) == LowerChar(t[i])
      {
        assert Normalize(s)[i] == Normalize(t)[i];
      }
    }
  }

  /** Interior white space is significant: whether a word is discarded
      depends on all of it, so one non-white character anywhere keeps it. */
  lemma NonWhiteCharKeeps(s: string, i: nat)
    requires i < |s| && !IsWhiteSpace(s[i])
    ensures !IsBlank(s)
  {
  }
}
