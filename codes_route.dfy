/** The list endpoint app/api/v1/nacebel-codes/2025/route.ts: `GET` reads
    `q`, `page`, `limit` and `level` from the query string, validates them
    in that order, and dispatches to the search or to the listing; `OPTIONS`
    answers the CORS preflight. The engine call is represented by what it
    yields: the loaded records, or the error loading them raised. */
module CodesRoute {
  import opened Wrappers
  import opened Strings
  import opened Records
  import opened Queries
  import opened DataStore

  /** `searchParams.get(name)` for each parameter: `None` when absent. */
  datatype Params = Params(q: Option<string>, page: Option<string>, limit: Option<string>, level: Option<string>)

  datatype Body = PageBody(page: Page) | ErrorBody(error: string) | NoBody

  datatype Response = Response(status: int, body: Body, headers: seq<(string, string)>)

  const CorsHeaders: seq<(string, string)> := [
    ("Access-Control-Allow-Origin", "*"),
    ("Access-Control-Allow-Methods", "GET, POST, PUT, DELETE, OPTIONS"),
    ("Access-Control-Allow-Headers", "Content-Type, Authorization")]

  const PageError: string := "Invalid 'page' parameter. Must be a positive number."
  const LimitError: string := "Invalid 'limit' parameter. Must be a positive number up to 500."
  const LevelError: string := "Invalid 'level' parameter. Must be a number between 2 and 5."
  const ServerError: string := "Internal Server Error"

  /** `param || fallback`: an absent or empty parameter takes the fallback. */
  function OrDefault(param: Option<string>, fallback: string): (s: string)
    ensures param.Some? && param.value != [] ==> s == param.value
    ensures param.None? || param.value == [] ==> s == fallback
  {
    if param.Some? && param.value != [] then param.value else fallback
  }

  /** `levelParam ? Number.parseInt(levelParam, 10) : undefined`: `None` when
      no filter is asked for, `Some(None)` for a level that is `NaN`. */
  function LevelParam(level: Option<string>): Option<Option<int>>
  {
    if level.Some? && level.value != [] then Some(ParseInt(level.value)) else None
  }

  /** A validated request. `search` holds the query when it is non-empty. */
  datatype Request = Request(search: Option<string>, page: int, limit: int, minLevel: Option<int>)

  predicate PageValid(p: Params)
  {
    var page := ParseInt(OrDefault(p.page, "1"));
    page.Some? && page.value >= 1
  }

  predicate LimitValid(p: Params)
  {
    var limit := ParseInt(OrDefault(p.limit, "100"));
    limit.Some? && 1 <= limit.value <= 500
  }

  predicate LevelValid(p: Params)
  {
    var level := LevelParam(p.level);
    level.None? || (level.value.Some? && 2 <= level.value.value <= 5)
  }

  /** The three checks in source order; the first that fails decides the
      message. A request that passes carries a page from 1, a limit in
      [1, 500] and, if any, a minimum level in [2, 5]. */
  function Validate(p: Params): (r: Result<Request, string>)
    ensures r.Ok? ==> r.value.page >= 1 && 1 <= r.value.limit <= 500
    ensures r.Ok? && r.value.minLevel.Some? ==> 2 <= r.value.minLevel.value <= 5
    ensures r.Ok? ==> (r.value.search.Some? <==> p.q.Some? && p.q.value != [])
    ensures r.Ok? && r.value.search.Some? ==> r.value.search == p.q
    ensures r.Ok? ==> Some(r.value.page) == ParseInt(OrDefault(p.page, "1"))
    ensures r.Ok? ==> Some(r.value.limit) == ParseInt(OrDefault(p.limit, "100"))
    ensures r.Ok? ==> (r.value.minLevel.None? <==> LevelParam(p.level).None?)
    ensures r.Ok? && r.value.minLevel.Some? ==> LevelParam(p.level) == Some(r.value.minLevel)
  {
    var page := ParseInt(OrDefault(p.page, "1"));
    var limit := ParseInt(OrDefault(p.limit, "100"));
    var minLevel := LevelParam(p.level);
    if page.None? || page.value < 1 then Err(PageError)
    else if limit.None? || limit.value < 1 || limit.value > 500 then Err(LimitError)
    else if minLevel.Some? && (minLevel.value.None? || minLevel.value.value < 2 || minLevel.value.value > 5) then Err(LevelError)
    else
      Ok(Request(if p.q.Some? && p.q.value != [] then p.q else None, page.value, limit.value,
        if minLevel.Some? then Some(minLevel.value.value) else None))
  }

  /** `GET`: a 400 for the first failed check, otherwise the search (for a
      non-empty `q`) or the listing with the same page, limit and minimum
      level, and a 500 when the engine throws. Every response carries the
      CORS headers. */
  function Get(p: Params, engine: Result<seq<Record>, LoadError>): (resp: Response)
    ensures resp.headers == CorsHeaders
    ensures resp.status == 200 || resp.status == 400 || resp.status == 500
    ensures resp.status == 200 <==> resp.body.PageBody?
  {
    match Validate(p)
    case Err(message) => Response(400, ErrorBody(message), CorsHeaders)
    case Ok(req) =>
      match engine
      case Err(_) => Response(500, ErrorBody(ServerError), CorsHeaders)
      case Ok(data) =>
        var result :=
          if req.search.Some? then SearchPage(data, req.search.value, req.page, req.limit, req.minLevel)
          else ListCodes(data, req.page, req.limit, req.minLevel);
        Response(200, PageBody(result), CorsHeaders)
  }

  /** `OPTIONS`: always 200, no body, the CORS headers. */
  function Options(): (resp: Response)
    ensures resp.status == 200 && resp.body == NoBody && resp.headers == CorsHeaders
  {
    Response(200, NoBody, CorsHeaders)
  }

  /** The checks run page, then limit, then level, and only the first
      failure is reported; a request passing all three is never a 400. */
  lemma ValidationOrder(p: Params, engine: Result<seq<Record>, LoadError>)
    ensures !PageValid(p) ==> Get(p, engine) == Response(400, ErrorBody(PageError), CorsHeaders)
    ensures PageValid(p) && !LimitValid(p) ==> Get(p, engine) == Response(400, ErrorBody(LimitError), CorsHeaders)
    ensures PageValid(p) && LimitValid(p) && !LevelValid(p) ==>
      Get(p, engine) == Response(400, ErrorBody(LevelError), CorsHeaders)
    ensures Get(p, engine).status == 400 <==> !(PageValid(p) && LimitValid(p) && LevelValid(p))
  {
  }

  /** A missing or empty `page` is page 1 ... */
  lemma PageDefault(p: Params, engine: Result<seq<Record>, LoadError>)
    ensures Get(p.(page := None), engine) == Get(p.(page := Some("1")), engine)
    ensures Get(p.(page := Some("")), engine) == Get(p.(page := Some("1")), engine)
  {
    assert Validate(p.(page := None)) == Validate(p.(page := Some("1")));
    assert Validate(p.(page := Some(""))) == Validate(p.(page := Some("1")));
    SameValidation(p.(page := None), p.(page := Some("1")), engine);
    SameValidation(p.(page := Some("")), p.(page := Some("1")), engine);
  }

  /** ... a missing or empty `limit` is 100 ... */
  lemma LimitDefault(p: Params, engine: Result<seq<Record>, LoadError>)
    ensures Get(p.(limit := None), engine) == Get(p.(limit := Some("100")), engine)
    ensures Get(p.(limit := Some("")), engine) == Get(p.(limit := Some("100")), engine)
  {
    assert Validate(p.(limit := None)) == Validate(p.(limit := Some("100")));
    assert Validate(p.(limit := Some(""))) == Validate(p.(limit := Some("100")));
    SameValidation(p.(limit := None), p.(limit := Some("100")), engine);
    SameValidation(p.(limit := Some("")), p.(limit := Some("100")), engine);
  }

  /** ... and a missing or empty `level` is no level filter. */
  lemma LevelDefault(p: Params, engine: Result<seq<Record>, LoadError>)
    ensures Get(p.(level := Some("")), engine) == Get(p.(level := None), engine)
  {
    assert Validate(p.(level := Some(""))) == Validate(p.(level := None));
    SameValidation(p.(level := Some("")), p.(level := None), engine);
  }

  /** The response depends on the parameters only through their
      validation. */
  lemma SameValidation(p1: Params, p2: Params, engine: Result<seq<Record>, LoadError>)
    requires Validate(p1) == Validate(p2)
    ensures Get(p1, engine) == Get(p2, engine)
  {
  }

  /** A valid request with a non-empty `q` is answered by the search, any
      other valid request by the listing, both with the validated page,
      limit and level; a failing engine gives a 500 whose body is the fixed
      message. */
  lemma Dispatch(p: Params, engine: Result<seq<Record>, LoadError>)
    requires Validate(p).Ok?
    ensures var req := Validate(p).value;
      && (engine.Err? ==> Get(p, engine) == Response(500, ErrorBody(ServerError), CorsHeaders))
      && (engine.Ok? && p.q.Some? && p.q.value != [] ==>
            Get(p, engine).body == PageBody(SearchPage(engine.value, p.q.value, req.page, req.limit, req.minLevel)))
      && (engine.Ok? && (p.q.None? || p.q.value == []) ==>
            Get(p, engine).body == PageBody(ListCodes(engine.value, req.page, req.limit, req.minLevel)))
  {
  }

  /** The four parameter values the rejection examples use read back as
      the integers they print. */
  lemma ParseConstants()
    ensures ParseInt("0") == Some(0) && ParseInt("1") == Some(1)
    ensures ParseInt("100") == Some(100) && ParseInt("501") == Some(501)
  {
    ParseIntOfIntToString(0);
    ParseIntOfIntToString(1);
    ParseIntOfIntToString(100);
    ParseIntOfIntToString(501);
    assert NatToString(10) == NatToString(1) + [DigitChar(0)] == "10";
    assert IntToString(100) == NatToString(10) + [DigitChar(0)] == "100";
    assert NatToString(50) == NatToString(5) + [DigitChar(0)] == "50";
    assert IntToString(501) == NatToString(50) + [DigitChar(1)] == "501";
  }

  /** `page=0` is rejected for its page even when the limit is also out of
      range. */
  lemma PageZeroRejected(engine: Result<seq<Record>, LoadError>)
    ensures Get(Params(None, Some("0"), Some("1000"), None), engine) == Response(400, ErrorBody(PageError), CorsHeaders)
  {
    ParseConstants();
  }

  /** `limit=501` is over the cap. */
  lemma LimitOverCapRejected(engine: Result<seq<Record>, LoadError>)
    ensures Get(Params(None, None, Some("501"), None), engine) == Response(400, ErrorBody(LimitError), CorsHeaders)
  {
    ParseConstants();
  }

  /** `level=1` is below the smallest level the filter accepts. */
  lemma LevelOneRejected(engine: Result<seq<Record>, LoadError>)
    ensures Get(Params(None, None, None, Some("1")), engine) == Response(400, ErrorBody(LevelError), CorsHeaders)
  {
    ParseConstants();
  }
}
