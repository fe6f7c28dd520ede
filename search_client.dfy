/** The pure logic of the search page component components/nacebel-search.tsx:
    its normaliser, the single-language filter it applies on every change of
    the search term, the page slice and the "showing X-Y" summary, the CSV
    export and the link to the official explanatory notes. The client works
    on the public records the home page hands it. */
module SearchClient {
  import opened Wrappers
  import opened Chars
  import opened Strings
  import opened Normalize
  import opened Records
  import opened Arith
  import opened Seqs

  /** The four interface languages. */
  datatype Language = En | De | Fr | Nl
  {
    /** The language code as it appears in the state and in links. */
    function Tag(): string
    {
      match this
      case En => "en"
      case De => "de"
      case Fr => "fr"
      case Nl => "nl"
    }

    /** `language.toUpperCase()`. */
    function UpperTag(): string
    {
      match this
      case En => "EN"
      case De => "DE"
      case Fr => "FR"
      case Nl => "NL"
    }
  }

  /** `code.titles[language]`. */
  function TitleIn(t: Titles, lang: Language): string
  {
    match lang
    case En => t.en
    case De => t.de
    case Fr => t.fr
    case Nl => t.nl
  }

  /** `removePunctuationClient`, written with the same pattern as the
      engine's normaliser, and so the same function. */
  function RemovePunctuationClient(text: string): (r: string)
    ensures r == CleanTextForSearch(text)
  {
    if text == [] then [] else LowerAll(Filter(text, IsSearchChar))
  }

  /** The filter test: the whole normalised term (not split into words) is
      found in the normalised code or in the normalised title of the current
      language. */
  predicate ClientMatch(c: PublicCode, term: string, lang: Language)
  {
    Includes(RemovePunctuationClient(c.code), term)
    || Includes(RemovePunctuationClient(TitleIn(c.titles, lang)), term)
  }

  /** The client test as the function value handed to `filter`. */
  function MatchesTerm(term: string, lang: Language): PublicCode -> bool
  {
    c => ClientMatch(c, term, lang)
  }

  /** The filtered list the effect computes for a search term. */
  function ClientFilter(codes: seq<PublicCode>, searchTerm: string, lang: Language): (r: seq<PublicCode>)
    ensures |r| <= |codes|
    ensures forall c :: c in r ==> c in codes
  {
    var term := RemovePunctuationClient(searchTerm);
    if term == [] then codes else Filter(codes, MatchesTerm(term, lang))
  }

  /** The part of the component state the filter effect sets. */
  datatype View = View(filtered: seq<PublicCode>, currentPage: int)

  /** The filter effect: the filtered list is recomputed and the page is
      reset to the first. */
  function FilterEffect(codes: seq<PublicCode>, searchTerm: string, lang: Language): (v: View)
    ensures v.currentPage == 1
    ensures |v.filtered| <= |codes|
  {
    View(ClientFilter(codes, searchTerm, lang), 1)
  }

  /** A term that normalises to nothing leaves every code in place. */
  lemma EmptyTermKeepsAll(codes: seq<PublicCode>, searchTerm: string, lang: Language)
    requires CleanTextForSearch(searchTerm) == []
    ensures ClientFilter(codes, searchTerm, lang) == codes
  {
  }

  /** Otherwise a code is kept exactly when it passes the test. */
  lemma ClientFilterMembers(codes: seq<PublicCode>, searchTerm: string, lang: Language, c: PublicCode)
    requires CleanTextForSearch(searchTerm) != []
    ensures c in ClientFilter(codes, searchTerm, lang) <==>
      c in codes && ClientMatch(c, CleanTextForSearch(searchTerm), lang)
  {
    var term := CleanTextForSearch(searchTerm);
    if c in codes && ClientMatch(c, term, lang) {
      FilterKeeps(codes, MatchesTerm(term, lang), c);
    }
  }

  /** The kept codes keep their order: filtering two runs of codes gives the
      kept codes of the first run followed by those of the second. */
  lemma ClientFilterInOrder(a: seq<PublicCode>, b: seq<PublicCode>, searchTerm: string, lang: Language)
    ensures ClientFilter(a + b, searchTerm, lang) == ClientFilter(a, searchTerm, lang) + ClientFilter(b, searchTerm, lang)
  {
    var term := RemovePunctuationClient(searchTerm);
    if term != [] {
      FilterConcat(a, b, MatchesTerm(term, lang));
    }
  }

  /** `itemsPerPage`. */
  const ItemsPerPage: int := 100

  /** `Math.ceil(filteredCodes.length / itemsPerPage)`. */
  function ClientTotalPages(n: nat): nat
  {
    CeilDiv(n, ItemsPerPage)
  }

  /** `filteredCodes.slice(startIndex, endIndex)`. */
  function PageSlice(filtered: seq<PublicCode>, currentPage: int): seq<PublicCode>
  {
    var startIndex := (currentPage - 1) * ItemsPerPage;
    JsSlice(filtered, startIndex, startIndex + ItemsPerPage)
  }

  /** The numbers of the "showing X-Y of N" line. */
  datatype Summary = Summary(first: int, last: int, total: int)

  function ShowSummary(n: nat, currentPage: int): (s: Summary)
    ensures s.total == n && s.last <= n
    ensures n == 0 ==> s.first == 0 && s.last <= 0
  {
    var startIndex := (currentPage - 1) * ItemsPerPage;
    var endIndex := startIndex + ItemsPerPage;
    Summary(if n > 0 then startIndex + 1 else 0, Min(endIndex, n), n)
  }

  /** On any page from 1 to the page count, the summary names exactly the
      codes shown: they are the codes from position `first` to position
      `last`, counting from 1. */
  lemma SummaryMatchesSlice(filtered: seq<PublicCode>, currentPage: int)
    requires 1 <= currentPage <= ClientTotalPages(|filtered|)
    ensures var s := ShowSummary(|filtered|, currentPage);
      && 1 <= s.first <= s.last <= |filtered|
      && s.first == (currentPage - 1) * ItemsPerPage + 1
      && PageSlice(filtered, currentPage) == filtered[s.first - 1..s.last]
      && |PageSlice(filtered, currentPage)| == s.last - s.first + 1
  {
    var startIndex := (currentPage - 1) * ItemsPerPage;
    assert (currentPage - 1) * ItemsPerPage < |filtered|;
    assert startIndex >= 0;
  }

  /** With nothing to show the summary reads 0-0 and the page is empty. */
  lemma EmptySummary(currentPage: int)
    requires currentPage >= 1
    ensures ShowSummary(0, currentPage) == Summary(0, 0, 0)
    ensures PageSlice([], currentPage) == []
  {
  }

  /** Every `"` doubled. */
  function DoubleQuotes(s: string): (r: string)
    ensures |r| == |s| + Count(s, '"')
  {
    if s == [] then [] else (if s[0] == '"' then "\"\"" else [s[0]]) + DoubleQuotes(s[1..])
  }

  /** How an RFC 4180 reader takes the inside of a quoted field back: a pair
      of quotes stands for one quote. */
  function UndoubleQuotes(s: string): string
  {
    if s == [] then []
    else if s[0] == '"' && |s| >= 2 && s[1] == '"' then "\"" + UndoubleQuotes(s[2..])
    else [s[0]] + UndoubleQuotes(s[1..])
  }

  /** `"${title.replace(/"/g, '""')}"`: the field wrapped in quotes, with
      every inner quote doubled as section 2 item 7 of RFC 4180 asks. */
  function QuoteField(s: string): (r: string)
    ensures |r| == |s| + Count(s, '"') + 2
    ensures r[0] == '"' && r[|r| - 1] == '"'
  {
    "\"" + DoubleQuotes(s) + "\""
  }

  /** How an RFC 4180 reader takes a quoted field back. */
  function UnquoteField(f: string): string
  {
    if |f| >= 2 && f[0] == '"' && f[|f| - 1] == '"' then UndoubleQuotes(f[1..|f| - 1]) else f
  }

  lemma {:induction false} UndoubleDouble(s: string)
    ensures UndoubleQuotes(DoubleQuotes(s)) == s
  {
    if s != [] {
      UndoubleDouble(s[1..]);
      var head := if s[0] == '"' then "\"\"" else [s[0]];
      var d := head + DoubleQuotes(s[1..]);
      if s[0] == '"' {
        assert d[2..] == DoubleQuotes(s[1..]);
      } else {
        assert d[1..] == DoubleQuotes(s[1..]);
      }
      assert [s[0]] + s[1..] == s;
    }
  }

  /** A quoted export field reads back as the title it was made from, quotes
      and commas included. */
  lemma QuoteRoundTrip(s: string)
    ensures UnquoteField(QuoteField(s)) == s
  {
    var r := QuoteField(s);
    assert r[1..|r| - 1] == DoubleQuotes(s);
    UndoubleDouble(s);
  }

  /** One export line: level, code and the quoted title of the current
      language, joined by commas. */
  function ExportRow(c: PublicCode, lang: Language): string
  {
    Join([IntToString(c.level), c.code, QuoteField(TitleIn(c.titles, lang))], ",")
  }

  function ExportHeader(lang: Language): string
  {
    "Level,Code,Description (" + lang.UpperTag() + ")"
  }

  /** The text `exportToCSV` puts into the file (after the byte order mark):
      the header line, then one line per filtered code, in order. */
  function ExportCSV(filtered: seq<PublicCode>, lang: Language): string
  {
    Join([ExportHeader(lang)] + seq(|filtered|, i requires 0 <= i < |filtered| => ExportRow(filtered[i], lang)), "\n")
  }

  /** The blob content: a byte order mark, then the CSV text. */
  function ExportFile(filtered: seq<PublicCode>, lang: Language): string
  {
    "\U{FEFF}" + ExportCSV(filtered, lang)
  }

  lemma {:induction false} NoNewlineInJoin(parts: seq<string>, sep: string)
    requires '\n' !in sep
    requires forall i :: 0 <= i < |parts| ==> '\n' !in parts[i]
    ensures '\n' !in Join(parts, sep)
  {
    if |parts| > 1 {
      NoNewlineInJoin(parts[1..], sep);
    }
  }

  lemma {:induction false} NoNewlineDoubled(s: string)
    requires '\n' !in s
    ensures '\n' !in DoubleQuotes(s)
  {
    if s != [] {
      NoNewlineDoubled(s[1..]);
    }
  }

  lemma NoNewlineInNumber(n: int)
    ensures '\n' !in IntToString(n)
  {
    var digits := if n < 0 then NatToString(-n) else NatToString(n);
    assert forall i :: 0 <= i < |digits| ==> IsDigit(digits[i]);
  }

  lemma HeaderHasNoNewline(lang: Language)
    ensures '\n' !in ExportHeader(lang)
  {
    assert '\n' !in lang.UpperTag();
  }

  lemma RowHasNoNewline(c: PublicCode, lang: Language)
    requires '\n' !in c.code && '\n' !in TitleIn(c.titles, lang)
    ensures '\n' !in ExportRow(c, lang)
  {
    NoNewlineInNumber(c.level);
    NoNewlineDoubled(TitleIn(c.titles, lang));
    NoNewlineInJoin([IntToString(c.level), c.code, QuoteField(TitleIn(c.titles, lang))], ",");
  }

  /** When no code and no title of the language holds a line break, the
      export has exactly one header line and one line per filtered code, in
      order. */
  lemma ExportLines(filtered: seq<PublicCode>, lang: Language)
    requires forall c :: c in filtered ==> '\n' !in c.code && '\n' !in TitleIn(c.titles, lang)
    ensures SplitOn(ExportCSV(filtered, lang), '\n') ==
      [ExportHeader(lang)] + seq(|filtered|, i requires 0 <= i < |filtered| => ExportRow(filtered[i], lang))
  {
    var rows := seq(|filtered|, i requires 0 <= i < |filtered| => ExportRow(filtered[i], lang));
    var lines := [ExportHeader(lang)] + rows;
    forall i | 0 <= i < |lines|
      ensures '\n' !in lines[i]
    {
      if i > 0 {
        assert filtered[i - 1] in filtered;
        RowHasNoNewline(filtered[i - 1], lang);
      } else {
        HeaderHasNoNewline(lang);
      }
    }
    SplitJoin(lines, '\n');
  }

  const NotesBase: string := "https://kbopub.economie.fgov.be/kbopub/naceToelichting.html?lang="

  /** `getExternalLink`: every `.` of the code removed, and the current
      language and the 2025 version embedded. */
  function ExternalLink(code: string, lang: Language): string
  {
    NotesBase + lang.Tag() + "&nace.code=" + RemoveChar(code, '.') + "&nace.version=2025"
  }

  /** The link carries the same dot-free identifier that the detail endpoint
      is keyed by, which has no dot and is the code shortened by its dots. */
  lemma ExternalLinkUsesId(code: string, lang: Language)
    ensures ExternalLink(code, lang) == NotesBase + lang.Tag() + "&nace.code=" + CleanCodeForId(code) + "&nace.version=2025"
    ensures '.' !in CleanCodeForId(code) && |CleanCodeForId(code)| == |code| - Count(code, '.')
  {
  }
}
