/** The "best match" ordering of `searchNacebelCodes` in lib/nacebelData.ts:
    the comparator's five-step cascade, the rank it amounts to, and the
    stable sort that orders the search results in place. */
module Ranking {
  import opened Strings
  import opened Records
  import opened StableSorting

  /** `titles.some((t) => t.startsWith(q))`. */
  predicate AnyStartsWith(titles: seq<string>, q: string)
  {
    titles != [] && (StartsWith(titles[0], q) || AnyStartsWith(titles[1..], q))
  }

  /** `titles.some((t) => t.includes(q))`. */
  predicate AnyIncludes(titles: seq<string>, q: string)
  {
    titles != [] && (Includes(titles[0], q) || AnyIncludes(titles[1..], q))
  }

  /** The five facts the comparator asks of one record, in cascade order. */
  datatype Key = Key(exactCode: bool, codeStarts: bool, titleStarts: bool, codeHas: bool, titleHas: bool)

  function KeyOf(r: Record, q: string): Key
  {
    var titles := r.searchableTitles.Values();
    Key(r.searchableCode == q, StartsWith(r.searchableCode, q), AnyStartsWith(titles, q),
      Includes(r.searchableCode, q), AnyIncludes(titles, q))
  }

  /** The comparator passed to `results.sort`: negative when `a` goes first,
      positive when `b` does, zero when neither is preferred. */
  function Compare(a: Record, b: Record, q: string): (c: int)
    ensures -1 <= c <= 1
    ensures KeyOf(a, q) == KeyOf(b, q) ==> c == 0
    ensures KeyOf(a, q).exactCode && !KeyOf(b, q).exactCode ==> c == -1
  {
    var ka := KeyOf(a, q);
    var kb := KeyOf(b, q);
    if ka.exactCode && !kb.exactCode then -1
    else if kb.exactCode && !ka.exactCode then 1
    else if ka.codeStarts && !kb.codeStarts then -1
    else if kb.codeStarts && !ka.codeStarts then 1
    else if ka.titleStarts && !kb.titleStarts then -1
    else if kb.titleStarts && !ka.titleStarts then 1
    else if ka.codeHas && !kb.codeHas then -1
    else if kb.codeHas && !ka.codeHas then 1
    else if ka.titleHas && !kb.titleHas then -1
    else if kb.titleHas && !ka.titleHas then 1
    else 0
  }

  function Bit(b: bool, weight: nat): nat
  {
    if b then 0 else weight
  }

  /** The key read as a five-bit number, most significant fact first, where
      a fact that holds is the smaller digit; smaller ranks sort first. */
  function Rank(r: Record, q: string): (n: nat)
    ensures n < 32
  {
    var k := KeyOf(r, q);
    Bit(k.exactCode, 16) + Bit(k.codeStarts, 8) + Bit(k.titleStarts, 4) + Bit(k.codeHas, 2) + Bit(k.titleHas, 1)
  }

  /** The comparator is exactly the comparison of ranks: it is a consistent
      total preorder, as a sort comparator must be. */
  lemma CompareIsRankOrder(a: Record, b: Record, q: string)
    ensures Compare(a, b, q) < 0 <==> Rank(a, q) < Rank(b, q)
    ensures Compare(a, b, q) > 0 <==> Rank(a, q) > Rank(b, q)
    ensures Compare(a, b, q) == 0 <==> Rank(a, q) == Rank(b, q)
  {
    var ka, kb := KeyOf(a, q), KeyOf(b, q);
    assert Rank(a, q) == Bit(ka.exactCode, 16) + Bit(ka.codeStarts, 8) + Bit(ka.titleStarts, 4) + Bit(ka.codeHas, 2) + Bit(ka.titleHas, 1);
    assert Rank(b, q) == Bit(kb.exactCode, 16) + Bit(kb.codeStarts, 8) + Bit(kb.titleStarts, 4) + Bit(kb.codeHas, 2) + Bit(kb.titleHas, 1);
  }

  /** The rank function handed to the stable sort for query `q`. */
  function RankBy(q: string): Record -> nat
  {
    r => Rank(r, q)
  }

  /** An exact code match is the best possible rank class. */
  lemma ExactCodeRank(r: Record, q: string)
    ensures r.searchableCode == q <==> Rank(r, q) < 16
  {
  }

  /** When some record's normalised code equals the query, the sorted
      results start with such a record. */
  lemma ExactMatchFirst(s: seq<Record>, q: string, i: int)
    requires 0 <= i < |s| && s[i].searchableCode == q
    ensures StableSort(s, RankBy(q)) != [] && StableSort(s, RankBy(q))[0].searchableCode == q
  {
    var r := StableSort(s, RankBy(q));
    StableSortSorted(s, RankBy(q));
    StableSortPermutes(s, RankBy(q));
    assert s[i] in multiset(r);
    var j :| 0 <= j < |r| && r[j] == s[i];
    ExactCodeRank(s[i], q);
    ExactCodeRank(r[0], q);
  }

  /** `results.sort(comparator)`: an insertion sort with adjacent swaps that
      moves each record left past every record the comparator puts after it. */
  method SortResults(a: array<Record>, q: string)
    modifies a
    ensures a[..] == StableSort(old(a[..]), RankBy(q))
  {
    for i := 0 to a.Length
      invariant a[..i] == StableSort(old(a[..])[..i], RankBy(q))
      invariant a[i..] == old(a[..])[i..]
    {
      assert old(a[..])[..i + 1][..i] == old(a[..])[..i];
      InsertInPlace(a, i, q);
    }
    assert old(a[..])[..a.Length] == old(a[..]);
  }

  /** One pass of the insertion sort: `a[i]` is moved left into the sorted
      prefix `a[..i]`. */
  method InsertInPlace(a: array<Record>, i: int, q: string)
    requires 0 <= i < a.Length
    modifies a
    ensures a[..i + 1] == Insert(old(a[..i]), old(a[i]), RankBy(q))
    ensures a[i + 1..] == old(a[i + 1..])
  {
    ghost var rank := RankBy(q);
    ghost var t := a[..i];
    var x := a[i];
    var j := i;
    assert a[..i + 1][..j] == t;
    while j > 0 && Compare(a[j - 1], x, q) > 0
      invariant 0 <= j <= i
      invariant a[j] == x
      invariant a[i + 1..] == old(a[i + 1..])
      invariant Insert(t, x, rank) == Insert(a[..i + 1][..j], x, rank) + a[..i + 1][j + 1..]
    {
      CompareIsRankOrder(a[j - 1], x, q);
      ghost var u := a[..i + 1];
      ghost var v := u[j - 1 := x][j := u[j - 1]];
      InsertStep(t, u, x, j, rank);
      a[j - 1], a[j] := a[j], a[j - 1];
      assert a[..i + 1] == v;
      assert a[j - 1] == x;
      j := j - 1;
    }
    if j > 0 {
      CompareIsRankOrder(a[j - 1], x, q);
    }
    InsertDone(t, a[..i + 1], x, j, rank);
  }
}
