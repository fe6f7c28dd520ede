/** The module-level cache of lib/nacebelData.ts: four variables that start
    out null, are filled together by `loadNacebelData`, and are read by the
    three exported query functions, each of which loads first. */
module DataStore {
  import opened Wrappers
  import opened Strings
  import opened Records
  import opened Dataset
  import opened Indexes
  import opened Queries

  /** What fetching the dataset yields: a response (with its `ok` flag,
      status and body text) or a rejected promise. */
  datatype FetchOutcome = Fetched(ok: bool, status: int, body: string) | Rejected(reason: string)

  /** The error `loadNacebelData` rethrows. */
  datatype LoadError = LoadError(message: string)

  const FetchFailed: string := "Failed to fetch NACEBEL codes: "

  /** The error a failed fetch turns into: a rejection's own message, or
      the fixed text followed by the status, which reads back as that
      status. */
  function FetchError(fetch: FetchOutcome): (e: LoadError)
    requires !(fetch.Fetched? && fetch.ok)
    ensures fetch.Rejected? ==> e.message == fetch.reason
    ensures fetch.Fetched? ==> StartsWith(e.message, FetchFailed)
    ensures fetch.Fetched? ==> |FetchFailed| <= |e.message| && ParseInt(e.message[|FetchFailed|..]) == Some(fetch.status)
  {
    match fetch
    case Fetched(_, status, _) =>
      ParseIntOfIntToString(status);
      assert (FetchFailed + IntToString(status))[|FetchFailed|..] == IntToString(status);
      LoadError(FetchFailed + IntToString(status))
    case Rejected(reason) => LoadError(reason)
  }

  /** The three maps built from `data`, as the two `forEach` passes build
      them, over records the parser produced. */
  ghost predicate IndexesOf(data: seq<Record>, codeMap: map<string, Record>, idMap: map<string, Record>,
                            childrenMap: map<string, seq<string>>)
  {
    && codeMap == IndexBy(data, CodeKey)
    && idMap == IndexBy(data, IdKey)
    && childrenMap == ChildrenIndex(data, codeMap)
    && forall r :: r in data ==> WellDerived(r) && r.level != 1
  }

  /** The work of a load with a good response: the body is parsed and the
      three maps are built from the parsed list. */
  method ParseAndIndex(body: string)
    returns (parsedCodes: seq<Record>, codeMap: map<string, Record>, idMap: map<string, Record>,
             childrenMap: map<string, seq<string>>)
    ensures parsedCodes == ParseCSV(body)
    ensures IndexesOf(parsedCodes, codeMap, idMap, childrenMap)
  {
    parsedCodes := ParseCSVText(body);
    codeMap, idMap, childrenMap := BuildIndexes(parsedCodes);
  }

  /** The empty list and empty maps are consistent with each other. */
  lemma EmptyIndexes()
    ensures IndexesOf([], map[], map[], map[])
  {
    assert IndexBy([], CodeKey) == map[];
  }

  class NacebelStore {
    var nacebelData: Option<seq<Record>>
    var nacebelCodeMap: Option<map<string, Record>>
    var nacebelIdWithoutDotsMap: Option<map<string, Record>>
    var nacebelChildrenMap: Option<map<string, seq<string>>>

    /** The test at the top of `loadNacebelData`: all four are non-null. */
    predicate Loaded()
      reads this
    {
      nacebelData.Some? && nacebelCodeMap.Some? && nacebelIdWithoutDotsMap.Some? && nacebelChildrenMap.Some?
    }

    /** Either nothing is cached yet, or all four are cached and the maps are
        the indexes of the list (the empty list and empty maps left by a
        failed load are such a state too). */
    ghost predicate Valid()
      reads this
    {
      || (nacebelData.None? && nacebelCodeMap.None? && nacebelIdWithoutDotsMap.None? && nacebelChildrenMap.None?)
      || (Loaded() && IndexesOf(nacebelData.value, nacebelCodeMap.value, nacebelIdWithoutDotsMap.value, nacebelChildrenMap.value))
    }

    /** The module is loaded with all four variables null. */
    constructor()
      ensures Valid() && !Loaded()
      ensures nacebelData == None && nacebelCodeMap == None
      ensures nacebelIdWithoutDotsMap == None && nacebelChildrenMap == None
    {
      nacebelData := None;
      nacebelCodeMap := None;
      nacebelIdWithoutDotsMap := None;
      nacebelChildrenMap := None;
    }

    /** `loadNacebelData`, given what the fetch would yield. Once loaded it
        changes nothing. Otherwise a good response publishes the parsed list
        and its three maps together; any failure leaves an empty list and
        empty maps behind, so the store counts as loaded from then on, and
        reports the error. */
    method Load(fetch: FetchOutcome) returns (error: Option<LoadError>)
      requires Valid()
      modifies this
      ensures Valid() && Loaded()
      ensures old(Loaded()) ==> error == None && unchanged(this)
      ensures !old(Loaded()) && fetch.Fetched? && fetch.ok ==>
        error == None && nacebelData == Some(ParseCSV(fetch.body))
      ensures !old(Loaded()) && !(fetch.Fetched? && fetch.ok) ==>
        && error == Some(FetchError(fetch))
        && nacebelData == Some([]) && nacebelCodeMap == Some(map[])
        && nacebelIdWithoutDotsMap == Some(map[]) && nacebelChildrenMap == Some(map[])
    {
      if Loaded() {
        return None;
      }
      if !(fetch.Fetched? && fetch.ok) {
        EmptyIndexes();
        Publish([], map[], map[], map[]);
        return Some(FetchError(fetch));
      }
      var parsedCodes, codeMap, idWithoutDotsMap, childrenMap := ParseAndIndex(fetch.body);
      Publish(parsedCodes, codeMap, idWithoutDotsMap, childrenMap);
      error := None;
    }

    /** The four assignments that end a load, whether it succeeded or not. */
    method Publish(data: seq<Record>, codeMap: map<string, Record>, idMap: map<string, Record>,
                   childrenMap: map<string, seq<string>>)
      requires IndexesOf(data, codeMap, idMap, childrenMap)
      modifies this
      ensures nacebelData == Some(data) && nacebelCodeMap == Some(codeMap)
      ensures nacebelIdWithoutDotsMap == Some(idMap) && nacebelChildrenMap == Some(childrenMap)
      ensures Valid() && Loaded()
    {
      nacebelData := Some(data);
      nacebelCodeMap := Some(codeMap);
      nacebelIdWithoutDotsMap := Some(idMap);
      nacebelChildrenMap := Some(childrenMap);
    }

    /** `getPaginatedNacebelCodes`: loads, then lists the cached records. */
    method GetPaginated(fetch: FetchOutcome, page: int, limit: int, minLevel: Option<int>)
      returns (result: Result<Page, LoadError>)
      requires Valid() && limit >= 1
      modifies this
      ensures Valid() && Loaded()
      ensures result.Err? <==> !old(Loaded()) && !(fetch.Fetched? && fetch.ok)
      ensures old(Loaded()) ==> unchanged(this)
      ensures result.Ok? ==> result.value == ListCodes(nacebelData.value, page, limit, minLevel)
      ensures !old(Loaded()) && fetch.Fetched? && fetch.ok ==> nacebelData == Some(ParseCSV(fetch.body))
      ensures !old(Loaded()) && !(fetch.Fetched? && fetch.ok) ==> nacebelData == Some([])
    {
      var error := Load(fetch);
      if error.Some? {
        return Err(error.value);
      }
      var allCodes := nacebelData.GetOr([]);
      result := Ok(ListCodes(allCodes, page, limit, minLevel));
    }

    /** `searchNacebelCodes`: loads, then searches the cached records. */
    method Search(fetch: FetchOutcome, query: string, page: int, limit: int, minLevel: Option<int>)
      returns (result: Result<Page, LoadError>)
      requires Valid() && limit >= 1
      modifies this
      ensures Valid() && Loaded()
      ensures result.Err? <==> !old(Loaded()) && !(fetch.Fetched? && fetch.ok)
      ensures old(Loaded()) ==> unchanged(this)
      ensures result.Ok? ==> result.value == SearchPage(nacebelData.value, query, page, limit, minLevel)
      ensures !old(Loaded()) && fetch.Fetched? && fetch.ok ==> nacebelData == Some(ParseCSV(fetch.body))
      ensures !old(Loaded()) && !(fetch.Fetched? && fetch.ok) ==> nacebelData == Some([])
    {
      var error := Load(fetch);
      if error.Some? {
        return Err(error.value);
      }
      var allCodes := nacebelData.GetOr([]);
      var found := SearchNacebelCodes(allCodes, query, page, limit, minLevel);
      result := Ok(found);
    }

    /** `getNacebelCodeDetails`: loads, then looks the id up. */
    method GetDetails(fetch: FetchOutcome, idWithoutDots: string)
      returns (result: Result<Option<PublicCode>, LoadError>)
      requires Valid()
      modifies this
      ensures Valid() && Loaded()
      ensures result.Err? <==> !old(Loaded()) && !(fetch.Fetched? && fetch.ok)
      ensures old(Loaded()) ==> unchanged(this)
      ensures result.Ok? ==>
        result.value == Details(nacebelIdWithoutDotsMap.value, nacebelChildrenMap.value, idWithoutDots)
      ensures !old(Loaded()) && fetch.Fetched? && fetch.ok ==>
        && nacebelData == Some(ParseCSV(fetch.body))
        && nacebelIdWithoutDotsMap == Some(IndexBy(ParseCSV(fetch.body), IdKey))
        && nacebelChildrenMap == Some(ChildrenIndex(ParseCSV(fetch.body), IndexBy(ParseCSV(fetch.body), CodeKey)))
      ensures !old(Loaded()) && !(fetch.Fetched? && fetch.ok) ==>
        nacebelIdWithoutDotsMap == Some(map[]) && nacebelChildrenMap == Some(map[])
    {
      var error := Load(fetch);
      if error.Some? {
        return Err(error.value);
      }
      result := Ok(Details(nacebelIdWithoutDotsMap.value, nacebelChildrenMap.value, idWithoutDots));
    }
  }

  /** A failed first load is never retried: a later call with a good
      response succeeds, but on the empty list the failure left behind. */
  method FailedLoadIsFinal(reason: string, body: string)
    returns (first: Option<LoadError>, second: Option<LoadError>, data: seq<Record>)
    ensures first == Some(LoadError(reason))
    ensures second == None
    ensures data == []
  {
    var store := new NacebelStore();
    first := store.Load(Rejected(reason));
    second := store.Load(Fetched(true, 200, body));
    data := store.nacebelData.value;
  }

  /** The first listing of a fresh store, with a good response, pages
      through the records parsed from the response body. */
  method FirstListingUsesFetchedData(body: string, page: int, limit: int, minLevel: Option<int>)
    returns (result: Result<Page, LoadError>)
    requires limit >= 1
    ensures result == Ok(ListCodes(ParseCSV(body), page, limit, minLevel))
  {
    var store := new NacebelStore();
    result := store.GetPaginated(Fetched(true, 200, body), page, limit, minLevel);
  }

  /** A loaded store answers a detail request for the last record carrying
      an id with that record and its children, whatever the fetch would
      now yield. */
  method DetailsAfterLoad(body: string, i: int, later: FetchOutcome)
    returns (result: Result<Option<PublicCode>, LoadError>, data: seq<Record>)
    requires 0 <= i < |ParseCSV(body)|
    requires forall j :: i < j < |ParseCSV(body)| ==> ParseCSV(body)[j].idWithoutDots != ParseCSV(body)[i].idWithoutDots
    ensures data == ParseCSV(body)
    ensures result.Ok? && result.value.Some?
    ensures result.value.value.code == data[i].code
    ensures result.value.value.childrenCodes == Some(ChildrenOf(data, IndexBy(data, CodeKey), data[i].code))
  {
    var store := new NacebelStore();
    var error := store.Load(Fetched(true, 200, body));
    data := store.nacebelData.value;
    ghost var idMap, childrenMap := store.nacebelIdWithoutDotsMap.value, store.nacebelChildrenMap.value;
    assert idMap == IndexBy(data, IdKey) && childrenMap == ChildrenIndex(data, IndexBy(data, CodeKey));
    DetailsOfLoaded(data, i);
    result := store.GetDetails(later, data[i].idWithoutDots);
    assert result.value == Details(idMap, childrenMap, data[i].idWithoutDots);
  }
}
