/** The two normalisers of the data engine (lib/nacebelData.ts):
    `cleanTextForSearch`, which gives the search form of a code or a title,
    and `cleanCodeForId`, which gives the dot-free identifier of a code. */
module Normalize {
  import opened Chars
  import opened Strings
  import Seqs

  /** The characters the pattern `[^\p{L}\p{N}\s]` does not remove. */
  predicate IsSearchChar(c: char)
  {
    IsLetter(c) || IsNumber(c) || IsSpace(c)
  }

  /** `toLowerCase`, character by character. */
  function LowerAll(s: string): (r: string)
    ensures |r| == |s|
    ensures forall i :: 0 <= i < |s| ==> r[i] == ToLower(s[i])
  {
    seq(|s|, i requires 0 <= i < |s| => ToLower(s[i]))
  }

  /** `cleanTextForSearch`: every character that is not a letter, a number or
      white space is removed, then the rest is lower-cased. What is left are
      lower-case search characters only, and never more than were given. */
  function CleanTextForSearch(text: string): (r: string)
    ensures |r| <= |text|
    ensures text == [] ==> r == []
    ensures forall i :: 0 <= i < |r| ==> IsSearchChar(r[i]) && ToLower(r[i]) == r[i]
  {
    if text == [] then [] else LowerAll(Seqs.Filter(text, IsSearchChar))
  }

  /** Every character the normaliser keeps comes from the input, in order:
      the normal form of a concatenation is the concatenation of the normal
      forms ... */
  lemma CleanTextConcat(a: string, b: string)
    ensures CleanTextForSearch(a + b) == CleanTextForSearch(a) + CleanTextForSearch(b)
  {
    if a == [] {
      assert a + b == b;
    } else if b == [] {
      assert a + b == a;
    } else {
      Seqs.FilterConcat(a, b, IsSearchChar);
      LowerAllConcat(Seqs.Filter(a, IsSearchChar), Seqs.Filter(b, IsSearchChar));
    }
  }

  lemma LowerAllConcat(x: string, y: string)
    ensures LowerAll(x + y) == LowerAll(x) + LowerAll(y)
  {
    assert forall i :: 0 <= i < |x| ==> (x + y)[i] == x[i];
    assert forall i :: |x| <= i < |x| + |y| ==> (x + y)[i] == y[i - |x|];
  }

  /** ... and one character is kept, lower-cased, exactly when it is a letter,
      a number or white space. */
  lemma CleanTextChar(c: char)
    ensures CleanTextForSearch([c]) == if IsSearchChar(c) then [ToLower(c)] else []
  {
    assert Seqs.Filter([c], IsSearchChar) == (if IsSearchChar(c) then [c] else []) + Seqs.Filter([], IsSearchChar);
  }

  /** A string is its own normal form exactly when it already holds only
      lower-case search characters. */
  lemma CleanTextFixedPoint(s: string)
    ensures CleanTextForSearch(s) == s <==>
            forall i :: 0 <= i < |s| ==> IsSearchChar(s[i]) && ToLower(s[i]) == s[i]
  {
    if forall i :: 0 <= i < |s| ==> IsSearchChar(s[i]) && ToLower(s[i]) == s[i] {
      if s != [] {
        Seqs.FilterAll(s, IsSearchChar);
      }
    }
  }

  /** Normalising a search form again changes nothing, so a stored search
      field and a normalised query are in the same form. */
  lemma CleanTextIdempotent(s: string)
    ensures CleanTextForSearch(CleanTextForSearch(s)) == CleanTextForSearch(s)
  {
    CleanTextFixedPoint(CleanTextForSearch(s));
  }

  /** `cleanCodeForId`: the code with exactly its `.` characters removed. */
  function CleanCodeForId(code: string): (r: string)
    ensures '.' !in r
    ensures |r| == |code| - Count(code, '.')
  {
    if code == [] then [] else RemoveChar(code, '.')
  }

  /** Dots are removed wherever they are; nothing else is. */
  lemma CleanCodeForIdConcat(a: string, b: string)
    ensures CleanCodeForId(a + b) == CleanCodeForId(a) + CleanCodeForId(b)
  {
    RemoveCharConcat(a, b, '.');
  }

  lemma CleanCodeForIdDotFree(code: string)
    requires '.' !in code
    ensures CleanCodeForId(code) == code
  {
    RemoveCharAbsent(code, '.');
  }

  lemma CleanCodeForIdExample()
    ensures CleanCodeForId("01.11") == "0111"
  {
    assert "01.11" == "01" + ".11";
    CleanCodeForIdConcat("01", ".11");
    CleanCodeForIdDotFree("01");
    assert ".11"[1..] == "11";
    CleanCodeForIdDotFree("11");
  }
}
