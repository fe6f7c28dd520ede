/** The server side of the home page app/page.tsx: its own normaliser
    `removePunctuation`, its own copy of the dataset parser (which builds
    records with that normaliser and without a dot-free id), and the call
    that fetches every code for the search component. The line tokeniser of
    the page is the same code as the engine's and is modelled once, by
    `CsvLine.ParseCSVLine`. */
module HomePage {
  import opened Wrappers
  import opened Chars
  import opened Strings
  import opened Seqs
  import opened Normalize
  import opened CsvLine
  import opened Records
  import opened Dataset
  import opened Queries
  import opened DataStore

  /** The characters the pattern `[^\w\s]` (no `u` flag) does not remove:
      ASCII letters, digits and `_`, and white space. */
  predicate IsPageChar(c: char)
  {
    IsAsciiWord(c) || IsSpace(c)
  }

  /** `removePunctuation`: every character outside `\w` and `\s` is removed,
      then the rest is lower-cased; never more than were given. */
  function RemovePunctuation(text: string): (r: string)
    ensures |r| <= |text|
    ensures text == [] ==> r == []
  {
    if text == [] then [] else LowerAll(Filter(text, IsPageChar))
  }

  /** What is left are lower-case ASCII word characters and white space. */
  lemma RemovePunctuationChars(text: string)
    ensures forall i :: 0 <= i < |RemovePunctuation(text)| ==>
      IsPageChar(RemovePunctuation(text)[i]) && !IsUpper(RemovePunctuation(text)[i])
  {
    if text != [] {
      var kept := Filter(text, IsPageChar);
      forall i | 0 <= i < |kept|
        ensures IsPageChar(ToLower(kept[i])) && !IsUpper(ToLower(kept[i]))
      {
        assert kept[i] in kept;
        ToLowerKeepsClasses(kept[i]);
      }
    }
  }

  /** A single character is kept, lower-cased, exactly when it is an ASCII
      word character or white space. */
  lemma RemovePunctuationChar(c: char)
    ensures RemovePunctuation([c]) == if IsPageChar(c) then [ToLower(c)] else []
  {
    assert [c][1..] == [];
  }

  /** The page's normaliser works character by character, so the kept
      characters stay in order. */
  lemma RemovePunctuationConcat(a: string, b: string)
    ensures RemovePunctuation(a + b) == RemovePunctuation(a) + RemovePunctuation(b)
  {
    FilterConcat(a, b, IsPageChar);
    LowerAllConcat(Filter(a, IsPageChar), Filter(b, IsPageChar));
    if a == [] {
      assert a + b == b;
    }
    if b == [] {
      assert a + b == a;
    }
  }

  /** On ASCII text without `_` the page's normaliser and the engine's agree. */
  lemma SameAsEngineOnPlainAscii(text: string)
    requires forall i :: 0 <= i < |text| ==> text[i] < '\U{0080}' && text[i] != '_'
    ensures RemovePunctuation(text) == CleanTextForSearch(text)
  {
    if text != [] {
      FilterCongruent(text, IsPageChar, IsSearchChar);
    }
  }

  /** They differ elsewhere: `_` is a word character but not a letter, so
      the page keeps it ... */
  lemma PageKeepsUnderscore()
    ensures RemovePunctuation("a_b") == "a_b"
  {
    assert "a_b"[1..] == "_b" && "_b"[1..] == "b" && "b"[1..] == "";
    assert Filter("a_b", IsPageChar) == "a_b";
  }

  /** ... where the engine drops it ... */
  lemma EngineDropsUnderscore()
    ensures CleanTextForSearch("a_b") == "ab"
  {
    assert "a_b"[1..] == "_b" && "_b"[1..] == "b" && "b"[1..] == "";
    assert Filter("a_b", IsSearchChar) == "ab";
  }

  /** ... and an accented letter is a letter but not an ASCII word
      character, so only the engine keeps it. */
  lemma AccentKeptOnlyByEngine()
    ensures RemovePunctuation("\U{00E9}") == ""
    ensures CleanTextForSearch("\U{00E9}") == "\U{00E9}"
  {
    assert "\U{00E9}"[1..] == "";
    assert Filter("\U{00E9}", IsPageChar) == "";
    assert Filter("\U{00E9}", IsSearchChar) == "\U{00E9}";
  }

  /** The record shape the page's parser builds. */
  datatype PageRecord = PageRecord(
    level: int,
    code: string,
    titles: Titles,
    searchableCode: string,
    searchableTitles: Titles)

  function PageTitles(t: Titles): Titles
  {
    Titles(RemovePunctuation(t.en), RemovePunctuation(t.de), RemovePunctuation(t.fr), RemovePunctuation(t.nl))
  }

  /** The object literal the page's parser pushes for a kept row. */
  function MakePageRecord(level: int, code: string, titles: Titles): PageRecord
  {
    PageRecord(level, code, titles, RemovePunctuation(code), PageTitles(titles))
  }

  /** The records the page's parser makes of a run of data lines: a kept row
      is decided exactly as in the engine's parser. */
  function PageParseRows(rows: seq<string>, cols: Columns): seq<PageRecord>
  {
    if rows == [] then []
    else
      var before := PageParseRows(rows[..|rows| - 1], cols);
      match KeptRow(rows[|rows| - 1], cols)
      case None => before
      case Some(raw) => before + [MakePageRecord(raw.level, raw.code, raw.titles)]
  }

  /** The page's `parseCSV`. */
  function PageParseCSV(text: string): seq<PageRecord>
  {
    var lines := SplitOn(text, '\n');
    PageParseRows(lines[1..], HeaderColumns(lines[0]))
  }

  /** The page record of the same row, made from an engine record. */
  function AsPageRecord(r: Record): PageRecord
  {
    MakePageRecord(r.level, r.code, r.titles)
  }

  /** The two parsers keep the same rows, in the same order, with the same
      level, code and titles; only the search forms are computed by the
      page's own normaliser. */
  lemma {:induction false} SameRowsAsEngine(rows: seq<string>, cols: Columns)
    ensures |PageParseRows(rows, cols)| == |ParseRows(rows, cols)|
    ensures forall i :: 0 <= i < |ParseRows(rows, cols)| ==>
      PageParseRows(rows, cols)[i] == AsPageRecord(ParseRows(rows, cols)[i])
  {
    if rows != [] {
      SameRowsAsEngine(rows[..|rows| - 1], cols);
    }
  }

  lemma PageParseRowsSnoc(rows: seq<string>, line: string, cols: Columns)
    ensures PageParseRows(rows + [line], cols) ==
            match KeptRow(line, cols)
            case None => PageParseRows(rows, cols)
            case Some(raw) => PageParseRows(rows, cols) + [MakePageRecord(raw.level, raw.code, raw.titles)]
  {
    assert (rows + [line])[..|rows + [line]| - 1] == rows;
  }

  /** The page's `parseCSV`, line by line. */
  method PageParseCSVText(text: string) returns (codes: seq<PageRecord>)
    ensures codes == PageParseCSV(text)
  {
    var lines := SplitOn(text, '\n');
    var cols := HeaderColumns(lines[0]);
    codes := [];
    for i := 1 to |lines|
      invariant codes == PageParseRows(lines[1..i], cols)
    {
      SliceSnoc(lines, 1, i);
      PageParseRowsSnoc(lines[1..i], lines[i], cols);
      var row := ReadDataLine(lines[i], cols);
      if row.Some? {
        codes := codes + [MakePageRecord(row.value.level, row.value.code, row.value.titles)];
      }
    }
    assert lines[1..|lines|] == lines[1..];
  }

  /** Whatever the text, the page's parser yields one record for each record
      of the engine's parser, the same row in the same place. */
  lemma PageParserMatchesEngine(text: string)
    ensures |PageParseCSV(text)| == |ParseCSV(text)|
    ensures forall i :: 0 <= i < |ParseCSV(text)| ==> PageParseCSV(text)[i] == AsPageRecord(ParseCSV(text)[i])
  {
    var lines := SplitOn(text, '\n');
    SameRowsAsEngine(lines[1..], HeaderColumns(lines[0]));
  }

  /** The limit the page asks for, to get every code at once. */
  const AllCodesLimit: int := 100000

  /** With at most `AllCodesLimit` records, the first page of the unfiltered
      listing is the whole list, in order; with more, it is the first
      `AllCodesLimit` of them. */
  lemma FirstPageOfAll(data: seq<Record>)
    ensures |data| <= AllCodesLimit ==> ListCodes(data, 1, AllCodesLimit, None).data == PublicAll(data)
    ensures |data| > AllCodesLimit ==> ListCodes(data, 1, AllCodesLimit, None).data == PublicAll(data[..AllCodesLimit])
  {
    FilterLevelNone(data);
    if |data| <= AllCodesLimit {
      assert data[0..|data|] == data;
    }
  }

  /** `Home`: the codes handed to the search component are the first page of
      the unfiltered listing with a limit of 100000, that is every code when
      there are no more than that; a failed first load is raised. */
  method Home(store: NacebelStore, fetch: FetchOutcome) returns (initialCodes: Result<seq<PublicCode>, LoadError>)
    requires store.Valid()
    modifies store
    ensures store.Valid() && store.Loaded()
    ensures initialCodes.Err? <==> !old(store.Loaded()) && !(fetch.Fetched? && fetch.ok)
    ensures initialCodes.Ok? && |store.nacebelData.value| <= AllCodesLimit ==>
      initialCodes.value == PublicAll(store.nacebelData.value)
    ensures initialCodes.Ok? && |store.nacebelData.value| > AllCodesLimit ==>
      initialCodes.value == PublicAll(store.nacebelData.value[..AllCodesLimit])
    ensures !old(store.Loaded()) && fetch.Fetched? && fetch.ok ==> store.nacebelData == Some(ParseCSV(fetch.body))
    ensures !old(store.Loaded()) && !(fetch.Fetched? && fetch.ok) ==> store.nacebelData == Some([])
  {
    var page := store.GetPaginated(fetch, 1, AllCodesLimit, None);
    if page.Err? {
      return Err(page.error);
    }
    FirstPageOfAll(store.nacebelData.value);
    initialCodes := Ok(page.value.data);
  }

  /** The home page rendered by a fresh server with a good response hands
      every parsed record (up to 100000) to the search component. */
  method HomeOnFreshServer(body: string) returns (initialCodes: Result<seq<PublicCode>, LoadError>)
    ensures |ParseCSV(body)| <= AllCodesLimit ==> initialCodes == Ok(PublicAll(ParseCSV(body)))
    ensures |ParseCSV(body)| > AllCodesLimit ==> initialCodes == Ok(PublicAll(ParseCSV(body)[..AllCodesLimit]))
  {
    var store := new NacebelStore();
    initialCodes := Home(store, Fetched(true, 200, body));
  }
}
