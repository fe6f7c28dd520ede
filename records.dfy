/** The record shapes of lib/nacebelData.ts: the internal `NacebelCode` with
    its derived search fields, and the public projection `PublicNacebelCode`. */
module Records {
  import opened Wrappers
  import opened Normalize

  /** The four display titles, one per language. */
  datatype Titles = Titles(en: string, de: string, fr: string, nl: string)
  {
    /** `Object.values` of the title object that the parser builds, which
        lists its keys in the order nl, fr, de, en. */
    function Values(): seq<string>
    {
      [nl, fr, de, en]
    }
  }

  const EmptyTitles: Titles := Titles("", "", "", "")

  /** One classification code as the engine stores it. */
  datatype Record = Record(
    level: int,
    code: string,
    titles: Titles,
    searchableCode: string,
    searchableTitles: Titles,
    idWithoutDots: string)

  /** What the API returns for a code; `childrenCodes` only on the detail
      route. */
  datatype PublicCode = PublicCode(
    level: int,
    code: string,
    titles: Titles,
    description: Titles,
    childrenCodes: Option<seq<string>>)

  function CleanTitles(t: Titles): Titles
  {
    Titles(CleanTextForSearch(t.en), CleanTextForSearch(t.de), CleanTextForSearch(t.fr), CleanTextForSearch(t.nl))
  }

  /** The derived fields of a record are the normal forms of its raw fields. */
  predicate WellDerived(r: Record)
  {
    && r.searchableCode == CleanTextForSearch(r.code)
    && r.searchableTitles == CleanTitles(r.titles)
    && r.idWithoutDots == CleanCodeForId(r.code)
  }

  /** The object literal the parser pushes for a kept row. */
  function MakeRecord(level: int, code: string, titles: Titles): Record
  {
    Record(level, code, titles, CleanTextForSearch(code), CleanTitles(titles), CleanCodeForId(code))
  }

  /** `mapToPublicNacebelCode(code, includeChildren)`: level, code and titles
      are copied, the description is always four empty strings, and the child
      list appears only when it is asked for and the record carries one. */
  function MapToPublic(r: Record, includeChildren: bool, children: Option<seq<string>>): (p: PublicCode)
    ensures p.level == r.level && p.code == r.code && p.titles == r.titles
    ensures p.description == EmptyTitles
    ensures p.childrenCodes.Some? <==> includeChildren && children.Some?
    ensures p.childrenCodes.Some? ==> p.childrenCodes == children
  {
    PublicCode(r.level, r.code, r.titles, EmptyTitles,
      if includeChildren && children.Some? then children else None)
  }
}
