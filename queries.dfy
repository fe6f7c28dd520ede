/** The query operations of lib/nacebelData.ts over loaded data: the
    paginated listing, the token search with its ranking, and the detail
    lookup. */
module Queries {
  import opened Wrappers
  import opened Chars
  import opened Strings
  import opened Normalize
  import opened Records
  import opened Indexes
  import opened StableSorting
  import opened Ranking
  import opened Arith
  import opened Seqs

  /** What the listing and the search return. */
  datatype Page = Page(data: seq<PublicCode>, totalPages: nat, totalItems: nat)

  /** The test `(code) => code.level >= minLevel`. */
  function AtLeast(minLevel: int): Record -> bool
  {
    (r: Record) => r.level >= minLevel
  }

  /** `allCodes.filter((code) => code.level >= minLevel)` when a minimum
      level is given; the whole list otherwise. */
  function FilterLevel(codes: seq<Record>, minLevel: Option<int>): (r: seq<Record>)
    ensures |r| <= |codes|
  {
    if minLevel.None? then codes else Filter(codes, AtLeast(minLevel.value))
  }

  /** A record is kept exactly when its level reaches the minimum. */
  lemma FilterLevelMembers(codes: seq<Record>, minLevel: Option<int>, r: Record)
    ensures r in FilterLevel(codes, minLevel) <==> r in codes && (minLevel.None? || r.level >= minLevel.value)
  {
    if minLevel.Some? && r in codes && r.level >= minLevel.value {
      FilterKeeps(codes, AtLeast(minLevel.value), r);
    }
  }

  /** Without a minimum level nothing is dropped. */
  lemma FilterLevelNone(codes: seq<Record>)
    ensures FilterLevel(codes, None) == codes
  {
  }

  /** The kept records keep their order and their repetitions: filtering two
      runs of records gives the kept records of the first run followed by
      those of the second, and the result is a subsequence of the input. */
  lemma FilterLevelInOrder(a: seq<Record>, b: seq<Record>, minLevel: Option<int>)
    ensures FilterLevel(a + b, minLevel) == FilterLevel(a, minLevel) + FilterLevel(b, minLevel)
    ensures IsSubsequence(FilterLevel(a, minLevel), a)
  {
    if minLevel.Some? {
      FilterConcat(a, b, AtLeast(minLevel.value));
      FilterIsSubsequence(a, AtLeast(minLevel.value));
    } else {
      SubsequenceOfItself(a);
    }
  }

  /** `mapToPublicNacebelCode` over a list, without children. */
  function PublicAll(rs: seq<Record>): (ps: seq<PublicCode>)
    ensures |ps| == |rs|
  {
    seq(|rs|, i requires 0 <= i < |rs| => MapToPublic(rs[i], false, None))
  }

  /** The page arithmetic shared by the listing and the search. */
  function Paginate(rs: seq<Record>, page: int, limit: int): Page
    requires limit >= 1
  {
    var start := (page - 1) * limit;
    Page(PublicAll(JsSlice(rs, start, start + limit)), CeilDiv(|rs|, limit), |rs|)
  }

  /** For a page number from 1: the total is the list length, the page count
      is the ceiling of total over limit, and the data is the run of records
      from `(page - 1) * limit`, at most `limit` of them, in list order, each
      with an empty description and no child list. */
  lemma PaginateShape(rs: seq<Record>, page: int, limit: int)
    requires limit >= 1 && page >= 1
    ensures Paginate(rs, page, limit).totalItems == |rs|
    ensures Paginate(rs, page, limit).totalPages * limit >= |rs|
    ensures (Paginate(rs, page, limit).totalPages - 1) * limit < |rs|
    ensures |Paginate(rs, page, limit).data| == Max(0, Min(limit, |rs| - (page - 1) * limit))
    ensures forall i :: 0 <= i < |Paginate(rs, page, limit).data| ==>
      && (page - 1) * limit + i < |rs|
      && Paginate(rs, page, limit).data[i] == MapToPublic(rs[(page - 1) * limit + i], false, None)
    ensures forall p :: p in Paginate(rs, page, limit).data ==> p.description == EmptyTitles && p.childrenCodes == None
  {
    var start := (page - 1) * limit;
    PageBounds(page, limit);
    SliceFrom(rs, start, limit);
  }

  /** A slice of at most `limit` records from a non-negative start. */
  lemma SliceFrom(rs: seq<Record>, start: int, limit: int)
    requires start >= 0 && limit >= 1
    ensures start >= |rs| ==> JsSlice(rs, start, start + limit) == []
    ensures start < |rs| ==> JsSlice(rs, start, start + limit) == rs[start..Min(start + limit, |rs|)]
  {
  }

  /** Page `k + 1` of a list: the records from `k * limit`, at most `limit`
      of them. */
  function PageRange(rs: seq<Record>, limit: int, k: nat): seq<Record>
  {
    JsSlice(rs, k * limit, k * limit + limit)
  }

  /** A page that lies wholly inside the list is exactly its run of records. */
  lemma PageRangeInside(rs: seq<Record>, limit: int, k: nat)
    requires limit >= 1 && k * limit + limit <= |rs|
    ensures 0 <= k * limit && PageRange(rs, limit, k) == rs[k * limit..k * limit + limit]
  {
  }

  /** The arithmetic of the last page boundary. */
  lemma PageBounds(pages: nat, limit: int)
    requires pages > 0 && limit >= 1
    ensures 0 <= (pages - 1) * limit && (pages - 1) * limit + limit == pages * limit
  {
  }

  /** The full pages, one after the other, list the records they cover once
      each and in order. */
  lemma {:induction false} PagesCoverAll(rs: seq<Record>, limit: int, pages: nat)
    requires limit >= 1
    requires pages * limit <= |rs|
    ensures rs[..pages * limit] == Flatten(seq(pages, k requires 0 <= k < pages => PageRange(rs, limit, k)))
  {
    if pages > 0 {
      PageBounds(pages, limit);
      var lo, hi := (pages - 1) * limit, pages * limit;
      PagesCoverAll(rs, limit, pages - 1);
      var all := seq(pages, k requires 0 <= k < pages => PageRange(rs, limit, k));
      var fewer := seq(pages - 1, k requires 0 <= k < pages - 1 => PageRange(rs, limit, k));
      assert Flatten(all) == rs[..lo] + rs[lo..hi] by {
        assert Flatten(fewer) == rs[..lo];
        assert all == fewer + [all[pages - 1]];
        FlattenSnoc(fewer, all[pages - 1]);
        PageRangeInside(rs, limit, pages - 1);
      }
      assert rs[..hi] == rs[..lo] + rs[lo..hi];
    }
  }

  /** `getPaginatedNacebelCodes` on loaded data. */
  function ListCodes(data: seq<Record>, page: int, limit: int, minLevel: Option<int>): (r: Page)
    requires limit >= 1
    ensures r.totalItems <= |data|
    ensures minLevel.None? ==> r.totalItems == |data|
  {
    Paginate(FilterLevel(data, minLevel), page, limit)
  }

  /** With a minimum level, every listed record reaches it. */
  lemma ListCodesMinLevel(data: seq<Record>, page: int, limit: int, m: int)
    requires limit >= 1 && page >= 1
    ensures forall p :: p in ListCodes(data, page, limit, Some(m)).data ==> p.level >= m
  {
    var rs := FilterLevel(data, Some(m));
    PaginateShape(rs, page, limit);
    forall p | p in ListCodes(data, page, limit, Some(m)).data
      ensures p.level >= m
    {
      var i :| 0 <= i < |Paginate(rs, page, limit).data| && Paginate(rs, page, limit).data[i] == p;
      FilterLevelMembers(data, Some(m), rs[(page - 1) * limit + i]);
    }
  }

  /** The state of the whitespace splitter: the tokens so far and the run of
      non-space characters being read. */
  datatype Splitter = Splitter(done: seq<string>, current: string)

  function SplitStep(st: Splitter, c: char): Splitter
  {
    if IsSpace(c) then (if st.current == [] then st else Splitter(st.done + [st.current], []))
    else Splitter(st.done, st.current + [c])
  }

  function SplitScan(s: string): Splitter
  {
    if s == [] then Splitter([], []) else SplitStep(SplitScan(s[..|s| - 1]), s[|s| - 1])
  }

  /** `q.split(/\s+/).filter(Boolean)`: the maximal runs of non-space
      characters. */
  function Tokens(s: string): seq<string>
  {
    var st := SplitScan(s);
    st.done + (if st.current == [] then [] else [st.current])
  }

  /** The characters of `s` that are not white space. */
  function NonSpace(s: string): string
  {
    if s == [] then [] else NonSpace(s[..|s| - 1]) + (if IsSpace(s[|s| - 1]) then [] else [s[|s| - 1]])
  }

  predicate SpaceFree(s: string)
  {
    forall i :: 0 <= i < |s| ==> !IsSpace(s[i])
  }

  lemma {:induction false} SplitScanInvariant(s: string)
    ensures forall k :: 0 <= k < |SplitScan(s).done| ==> SplitScan(s).done[k] != [] && SpaceFree(SplitScan(s).done[k])
    ensures SpaceFree(SplitScan(s).current)
    ensures Flatten(SplitScan(s).done) + SplitScan(s).current == NonSpace(s)
  {
    if s != [] {
      var st := SplitScan(s[..|s| - 1]);
      SplitScanInvariant(s[..|s| - 1]);
      if IsSpace(s[|s| - 1]) && st.current != [] {
        FlattenSnoc(st.done, st.current);
      }
    }
  }

  /** Every token is non-empty and free of white space and sits in the query
      between white space or its ends, so the tokens are its maximal
      non-space runs; they spell out the query's non-space characters in
      order, and a blank query has no token at all. */
  lemma TokensSpec(s: string)
    ensures forall k :: 0 <= k < |Tokens(s)| ==> Tokens(s)[k] != [] && SpaceFree(Tokens(s)[k])
    ensures forall k :: 0 <= k < |Tokens(s)| ==> RunOf(Tokens(s)[k], s)
    ensures Flatten(Tokens(s)) == NonSpace(s)
    ensures Tokens(s) == [] <==> AllSpace(s)
  {
    TokensAreRuns(s);
    var st := SplitScan(s);
    SplitScanInvariant(s);
    if st.current != [] {
      assert Tokens(s) == st.done + [st.current];
      FlattenSnoc(st.done, st.current);
    } else {
      assert Tokens(s) == st.done;
      assert Flatten(st.done) + st.current == Flatten(st.done);
    }
    assert Flatten(Tokens(s)) == NonSpace(s);
    FlattenEmpty(Tokens(s));
    NonSpaceEmpty(s);
  }

  lemma {:induction false} FlattenEmpty(parts: seq<string>)
    requires forall k :: 0 <= k < |parts| ==> parts[k] != []
    ensures Flatten(parts) == [] <==> parts == []
  {
    if parts != [] {
      FlattenEmpty(parts[..|parts| - 1]);
    }
  }

  lemma {:induction false} NonSpaceEmpty(s: string)
    ensures NonSpace(s) == [] <==> AllSpace(s)
  {
    if s != [] {
      NonSpaceEmpty(s[..|s| - 1]);
      assert forall i :: 0 <= i < |s| - 1 ==> s[..|s| - 1][i] == s[i];
    }
  }

  /** `t` is a maximal run of non-space characters of `s` that a white-space
      character closes: it sits at positions i..j, after the start of `s` or
      a white-space character, and `s[j]` is white space. */
  predicate ClosedRunOf(t: string, s: string)
  {
    exists i, j :: 0 <= i <= j < |s| && s[i..j] == t && (i == 0 || IsSpace(s[i - 1])) && IsSpace(s[j])
  }

  /** `t` sits in `s` between white space or the ends of `s`. */
  predicate RunOf(t: string, s: string)
  {
    exists i, j :: 0 <= i <= j <= |s| && s[i..j] == t && (i == 0 || IsSpace(s[i - 1])) && (j == |s| || IsSpace(s[j]))
  }

  lemma ClosedRunExtends(t: string, s: string, c: char)
    requires ClosedRunOf(t, s)
    ensures ClosedRunOf(t, s + [c])
  {
    var i, j :| 0 <= i <= j < |s| && s[i..j] == t && (i == 0 || IsSpace(s[i - 1])) && IsSpace(s[j]);
    assert (s + [c])[i..j] == s[i..j];
    assert i == 0 || (s + [c])[i - 1] == s[i - 1];
    assert (s + [c])[j] == s[j];
  }

  /** The splitter's finished tokens are closed runs of what it has read,
      and the run it is reading is a suffix that starts a run. */
  lemma {:induction false} SplitScanRuns(s: string)
    ensures forall k :: 0 <= k < |SplitScan(s).done| ==> ClosedRunOf(SplitScan(s).done[k], s)
    ensures var cur := SplitScan(s).current;
      |cur| <= |s| && s[|s| - |cur|..] == cur && (|s| == |cur| || IsSpace(s[|s| - |cur| - 1]))
  {
    if s != [] {
      var p, c := s[..|s| - 1], s[|s| - 1];
      assert s == p + [c];
      var st := SplitScan(p);
      SplitScanRuns(p);
      forall k | 0 <= k < |st.done|
        ensures ClosedRunOf(st.done[k], s)
      {
        ClosedRunExtends(st.done[k], p, c);
      }
      if IsSpace(c) && st.current != [] {
        var i := |p| - |st.current|;
        assert s[i..|p|] == st.current;
        assert i == 0 || s[i - 1] == p[i - 1];
        assert ClosedRunOf(st.current, s);
        assert SplitScan(s).done == st.done + [st.current];
      }
    }
  }

  /** The tokens are exactly the maximal runs: each sits in `s` between
      white space or the ends of `s`. */
  lemma TokensAreRuns(s: string)
    ensures forall k :: 0 <= k < |Tokens(s)| ==> RunOf(Tokens(s)[k], s)
  {
    var st := SplitScan(s);
    SplitScanRuns(s);
    forall k | 0 <= k < |st.done|
      ensures RunOf(st.done[k], s)
    {
      var i, j :| 0 <= i <= j < |s| && s[i..j] == st.done[k] && (i == 0 || IsSpace(s[i - 1])) && IsSpace(s[j]);
    }
    if st.current != [] {
      var i := |s| - |st.current|;
      assert s[i..|s|] == st.current;
      assert RunOf(st.current, s);
    }
  }

  /** Every token of a query is found in that query. */
  lemma TokensIncluded(s: string)
    ensures forall k :: 0 <= k < |Tokens(s)| ==> Includes(s, Tokens(s)[k])
  {
    TokensAreRuns(s);
    forall k | 0 <= k < |Tokens(s)|
      ensures Includes(s, Tokens(s)[k])
    {
      var i, j :| 0 <= i <= j <= |s| && s[i..j] == Tokens(s)[k];
      assert s == s[..i] + s[i..j] + s[j..];
      IncludesInfix(s[..i], s[i..j], s[j..]);
    }
  }

  /** One token is found in the normalised code or in some normalised
      title. */
  predicate TokenFound(r: Record, token: string)
  {
    Includes(r.searchableCode, token) || AnyIncludes(r.searchableTitles.Values(), token)
  }

  /** `queryTokens.every(...)`. */
  predicate MatchesAll(r: Record, tokens: seq<string>)
  {
    forall k :: 0 <= k < |tokens| ==> TokenFound(r, tokens[k])
  }

  /** The token test `(codeEntry) => queryTokens.every(...)`. */
  function MatchesTokens(tokens: seq<string>): Record -> bool
  {
    (r: Record) => MatchesAll(r, tokens)
  }

  /** `allCodes.filter(...)` with the token test. */
  function Matching(codes: seq<Record>, tokens: seq<string>): (r: seq<Record>)
    ensures |r| <= |codes|
  {
    Filter(codes, MatchesTokens(tokens))
  }

  /** A record is a match exactly when every token is found in it. */
  lemma MatchingMembers(codes: seq<Record>, tokens: seq<string>, r: Record)
    ensures r in Matching(codes, tokens) <==> r in codes && MatchesAll(r, tokens)
  {
    if r in codes && MatchesAll(r, tokens) {
      FilterKeeps(codes, MatchesTokens(tokens), r);
    }
  }

  /** The matches keep their order and their repetitions. */
  lemma MatchingInOrder(a: seq<Record>, b: seq<Record>, tokens: seq<string>)
    ensures Matching(a + b, tokens) == Matching(a, tokens) + Matching(b, tokens)
    ensures IsSubsequence(Matching(a, tokens), a)
  {
    FilterConcat(a, b, MatchesTokens(tokens));
    FilterIsSubsequence(a, MatchesTokens(tokens));
  }

  /** With no token every record matches, in its original order. */
  lemma NoTokensMatchAll(codes: seq<Record>)
    ensures Matching(codes, []) == codes
  {
    FilterAll(codes, MatchesTokens([]));
  }

  /** The ranked result list of `searchNacebelCodes`, before pagination. */
  function SearchResults(data: seq<Record>, query: string, minLevel: Option<int>): (r: seq<Record>)
    ensures |r| <= |data|
  {
    var q := CleanTextForSearch(query);
    StableSort(Matching(FilterLevel(data, minLevel), Tokens(q)), RankBy(q))
  }

  /** `searchNacebelCodes` on loaded data. */
  function SearchPage(data: seq<Record>, query: string, page: int, limit: int, minLevel: Option<int>): Page
    requires limit >= 1
  {
    Paginate(SearchResults(data, query, minLevel), page, limit)
  }

  /** The results are exactly the matching records of the level filter,
      each as often as there, ordered by rank, with ties in input order. */
  lemma SearchResultsSpec(data: seq<Record>, query: string, minLevel: Option<int>)
    ensures var q := CleanTextForSearch(query);
      var matches := Matching(FilterLevel(data, minLevel), Tokens(q));
      && multiset(SearchResults(data, query, minLevel)) == multiset(matches)
      && SortedByRank(SearchResults(data, query, minLevel), RankBy(q))
      && forall k :: WithRank(SearchResults(data, query, minLevel), RankBy(q), k) == WithRank(matches, RankBy(q), k)
  {
    var q := CleanTextForSearch(query);
    var matches := Matching(FilterLevel(data, minLevel), Tokens(q));
    StableSortPermutes(matches, RankBy(q));
    StableSortSorted(matches, RankBy(q));
    forall k: nat
      ensures WithRank(SearchResults(data, query, minLevel), RankBy(q), k) == WithRank(matches, RankBy(q), k)
    {
      StableSortIsStable(matches, RankBy(q), k);
    }
  }

  /** A result is a record of the level filter that every token is found
      in, and every such record is a result. */
  lemma SearchResultMembers(data: seq<Record>, query: string, minLevel: Option<int>, r: Record)
    ensures r in SearchResults(data, query, minLevel) <==>
      r in data && (minLevel.None? || r.level >= minLevel.value) && MatchesAll(r, Tokens(CleanTextForSearch(query)))
  {
    var q := CleanTextForSearch(query);
    var filtered := FilterLevel(data, minLevel);
    var matches := Matching(filtered, Tokens(q));
    StableSortPermutes(matches, RankBy(q));
    assert r in SearchResults(data, query, minLevel) <==> r in multiset(matches);
    MatchingMembers(filtered, Tokens(q), r);
    FilterLevelMembers(data, minLevel, r);
  }

  /** When a result's code is the query, the results start with such a
      record. */
  lemma ExactCodeHeadsResults(data: seq<Record>, query: string, minLevel: Option<int>, r: Record)
    requires r in SearchResults(data, query, minLevel) && r.searchableCode == CleanTextForSearch(query)
    ensures var results := SearchResults(data, query, minLevel);
      results != [] && results[0].searchableCode == CleanTextForSearch(query)
  {
    var q := CleanTextForSearch(query);
    var matches := Matching(FilterLevel(data, minLevel), Tokens(q));
    StableSortPermutes(matches, RankBy(q));
    assert r in multiset(matches);
    var i :| 0 <= i < |matches| && matches[i] == r;
    ExactMatchFirst(matches, q, i);
  }

  /** A record that passes the level filter and whose normalised code is the
      normalised query is a result: every token of the query is found in
      the query itself. */
  lemma ExactCodeIsResult(data: seq<Record>, query: string, minLevel: Option<int>, r: Record)
    requires r in data && (minLevel.None? || r.level >= minLevel.value)
    requires r.searchableCode == CleanTextForSearch(query)
    ensures r in SearchResults(data, query, minLevel)
  {
    TokensIncluded(CleanTextForSearch(query));
    SearchResultMembers(data, query, minLevel, r);
  }

  /** Searching for the exact code of a record that passes the level filter
      lists a record with that code first on page 1. */
  lemma ExactCodeFirstOnPageOne(data: seq<Record>, query: string, limit: int, minLevel: Option<int>, r: Record)
    requires limit >= 1
    requires r in data && (minLevel.None? || r.level >= minLevel.value)
    requires r.searchableCode == CleanTextForSearch(query)
    ensures SearchPage(data, query, 1, limit, minLevel).data != []
    ensures exists first ::
      (&& first in SearchResults(data, query, minLevel)
       && first.searchableCode == CleanTextForSearch(query)
       && SearchPage(data, query, 1, limit, minLevel).data[0] == MapToPublic(first, false, None))
  {
    var results := SearchResults(data, query, minLevel);
    ExactCodeIsResult(data, query, minLevel, r);
    ExactCodeHeadsResults(data, query, minLevel, r);
    var first := results[0];
    assert first in results;
    PaginateShape(results, 1, limit);
    assert SearchPage(data, query, 1, limit, minLevel) == Paginate(results, 1, limit);
    assert Paginate(results, 1, limit).data[0] == MapToPublic(first, false, None);
  }

  /** A query that normalises to nothing (only punctuation, say) finds every
      record of the level filter, so its totals are the listing's. */
  lemma EmptyQueryFindsAll(data: seq<Record>, query: string, page: int, limit: int, minLevel: Option<int>)
    requires limit >= 1
    requires AllSpace(CleanTextForSearch(query))
    ensures SearchPage(data, query, page, limit, minLevel).totalItems == ListCodes(data, page, limit, minLevel).totalItems
    ensures SearchPage(data, query, page, limit, minLevel).totalPages == ListCodes(data, page, limit, minLevel).totalPages
  {
    var q := CleanTextForSearch(query);
    TokensSpec(q);
    NoTokensMatchAll(FilterLevel(data, minLevel));
  }

  /** `searchNacebelCodes` after loading: filter, match, sort the results in
      place, then cut out the page. */
  method SearchNacebelCodes(data: seq<Record>, query: string, page: int, limit: int, minLevel: Option<int>)
    returns (result: Page)
    requires limit >= 1
    ensures result == SearchPage(data, query, page, limit, minLevel)
  {
    var allCodes := FilterLevel(data, minLevel);
    var searchableQuery := CleanTextForSearch(query);
    var queryTokens := Tokens(searchableQuery);
    var matches := Matching(allCodes, queryTokens);
    var results := new Record[|matches|](i requires 0 <= i < |matches| => matches[i]);
    assert results[..] == matches;
    SortResults(results, searchableQuery);
    result := Paginate(results[..], page, limit);
  }

  /** `getNacebelCodeDetails` after loading: nothing for an unknown id;
      otherwise the record with its child list, empty when it has none. */
  function Details(idMap: map<string, Record>, childrenMap: map<string, seq<string>>, id: string): (d: Option<PublicCode>)
    ensures d.None? <==> id !in idMap
    ensures d.Some? ==> d.value.childrenCodes.Some?
  {
    if id !in idMap then None
    else
      var code := idMap[id];
      var children := if code.code in childrenMap then childrenMap[code.code] else [];
      Some(MapToPublic(code, true, Some(children)))
  }

  /** On indexes built from parsed data, the detail of the last record with
      a given dot-free id has that record's level, code and titles, an empty
      description, and exactly its linked children in input order. */
  lemma DetailsOfLoaded(data: seq<Record>, i: int)
    requires 0 <= i < |data|
    requires forall j :: i < j < |data| ==> data[j].idWithoutDots != data[i].idWithoutDots
    ensures var codeMap := IndexBy(data, CodeKey);
      var d := Details(IndexBy(data, IdKey), ChildrenIndex(data, codeMap), data[i].idWithoutDots);
      && d.Some?
      && d.value.level == data[i].level && d.value.code == data[i].code && d.value.titles == data[i].titles
      && d.value.description == EmptyTitles
      && d.value.childrenCodes == Some(ChildrenOf(data, codeMap, data[i].code))
  {
    IndexByLastWins(data, IdKey, i);
    ChildrenIndexIsChildrenOf(data, IndexBy(data, CodeKey), data[i].code);
  }
}
