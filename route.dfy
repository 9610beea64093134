/** The `POST` handler of src/app/api/search/route.ts: one endpoint that
    dispatches on `searchType` to the query parser, the web search, or the
    result generator, and answers with a status and a JSON envelope. */
module Route {
  import opened Wrappers
  import opened Js
  import opened Types
  import opened Text
  import opened AiConfig

  /** The request body after `req.json()`: the dispatch field and the fields
      each branch destructures. */
  datatype SearchRequest = SearchRequest(
    searchType: string,
    query: Option<string>,
    params: Option<Params>,
    searchResults: Option<Json>)

  /** What a successful answer carries in `data`. */
  datatype Payload = ParsedQuery(parsed: Json) | WebResults(results: seq<SearchResult>) | Generated(doc: Json)

  /** `{success: true, data}` or `{error, details?}`. */
  datatype ResponseBody = SuccessBody(data: Payload) | ErrorBody(error: string, details: Option<string>)

  datatype Response = Response(status: int, body: ResponseBody)

  const SearchTypes: set<string> := {"parseQuery", "searchWeb", "generateResults"}

  /** The `catch` clause: status 500 with the thrown message as details. */
  function ServerError(t: Thrown): Response {
    Response(500, ErrorBody("Failed to process request", Some(MessageOr(t, "Unknown error"))))
  }

  /** The `default` branch. */
  function InvalidSearchType(): Response {
    Response(400, ErrorBody("Invalid search type", None))
  }

  function Ok(data: Payload): Response {
    Response(200, SuccessBody(data))
  }

  /** The message thrown when the generated text does not parse. */
  const ParseFailure := "Failed to parse AI response"

  /** `POST`. A body that cannot be read (`Failure`) is reported like any
      other exception. `searchWeb` without `params` fails reading
      `params.caste`; `generateResults` without `params` spreads nothing and
      so searches with every field "undefined". */
  function Post(request: Result<SearchRequest, Thrown>, s: Services): (r: Response)
    ensures r.status == 200 || r.status == 400 || r.status == 500
    ensures r.status == 200 <==> r.body.SuccessBody?
    ensures r.status == 400 <==> request.Success? && request.value.searchType !in SearchTypes
    ensures r.status == 400 ==> r.body == ErrorBody("Invalid search type", None)
    ensures r.status == 500 ==> r.body.error == "Failed to process request" && r.body.details.Some?
    ensures request.Failure? ==> r == ServerError(request.error)
  {
    match request
    case Failure(t) => ServerError(t)
    case Success(req) =>
      if req.searchType == "parseQuery" then
        match ParseQueryToJson(Rendered(req.query), s)
        case Success(doc) => Ok(ParsedQuery(doc))
        case Failure(t) => ServerError(t)
      else if req.searchType == "searchWeb" then
        if req.params.None? then ServerError(ErrorValue(ReadOfUndefined("caste")))
        else Ok(WebResults(SearchGoogle(ComposeQuery(req.params.value), s.env, s.customSearch)))
      else if req.searchType == "generateResults" then
        var params := if req.params.Some? then req.params.value else map[];
        match GenerateScholarshipSearch(params, s)
        case Failure(t) => ServerError(t)
        case Success(text) =>
          var v := ValidateResponse(text, s.parseJson);
          if !v.isValid then ServerError(ErrorValue(ParseFailure)) else Ok(Generated(v.data))
      else InvalidSearchType()
  }

  /** `parseQuery` answers 200 with the parser's document exactly when both
      the model call and the parse succeed, and otherwise 500 with the
      thrown message. */
  lemma ParseQueryEnvelope(req: SearchRequest, s: Services)
    requires req.searchType == "parseQuery"
    ensures var q := ParseQueryToJson(Rendered(req.query), s);
      && (q.Success? ==> Post(Success(req), s) == Ok(ParsedQuery(q.value)))
      && (q.Failure? ==> Post(Success(req), s) == ServerError(q.error))
  {
  }

  /** `searchWeb` never fails once `params` is present: `searchGoogle`
      absorbs every search failure into an empty list, so the answer is 200
      with the cleaned results for the composed query. */
  lemma SearchWebAlwaysSucceeds(req: SearchRequest, s: Services)
    requires req.searchType == "searchWeb" && req.params.Some?
    ensures Post(Success(req), s) == Ok(WebResults(SearchGoogle(ComposeQuery(req.params.value), s.env, s.customSearch)))
    ensures !HasCredentials(s.env) ==> Post(Success(req), s) == Ok(WebResults([]))
  {
  }

  /** A result model that throws on `generateResults` is caught, and the
      answer is 500 with the thrown message. */
  lemma GenerateModelFailureIs500(req: SearchRequest, s: Services, t: Thrown)
    requires req.searchType == "generateResults"
    requires GenerateScholarshipSearch(if req.params.Some? then req.params.value else map[], s) == Failure(t)
    ensures Post(Success(req), s) == ServerError(t)
    ensures Post(Success(req), s).body.details == Some(MessageOr(t, "Unknown error"))
  {
  }

  /** A model reply that does not parse after fence stripping and trimming
      turns into a 500 whose details name the parse failure. */
  lemma GenerateUnparsableIs500(req: SearchRequest, s: Services, text: string)
    requires req.searchType == "generateResults"
    requires GenerateScholarshipSearch(if req.params.Some? then req.params.value else map[], s) == Success(text)
    requires s.parseJson(Trim(StripFences(text))).Failure?
    ensures Post(Success(req), s) == Response(500, ErrorBody("Failed to process request", Some("Failed to parse AI response")))
  {
  }

  /** A model reply that parses is answered as is, 200. */
  lemma GenerateParsedIs200(req: SearchRequest, s: Services, text: string)
    requires req.searchType == "generateResults"
    requires GenerateScholarshipSearch(if req.params.Some? then req.params.value else map[], s) == Success(text)
    requires s.parseJson(Trim(StripFences(text))).Success?
    ensures Post(Success(req), s) == Ok(Generated(s.parseJson(Trim(StripFences(text))).value))
  {
  }

  /** The `searchWeb` answer for some parameters is exactly the evidence
      `generateResults` hands the model for the same parameters: both paths
      search with the same composed query. */
  lemma SearchWebMatchesGenerateEvidence(p: Params, q: Option<string>, sr: Option<Json>, s: Services)
    ensures var web := Post(Success(SearchRequest("searchWeb", q, Some(p), sr)), s);
      && web.body.SuccessBody? && web.body.data.WebResults?
      && GenerateScholarshipSearch(p, s) == s.resultModel(p, web.body.data.results)
  {
  }

  /** A request without `params` on `searchWeb` fails on the first field read. */
  lemma SearchWebWithoutParams(req: SearchRequest, s: Services)
    requires req.searchType == "searchWeb" && req.params.None?
    ensures Post(Success(req), s).status == 500
    ensures Post(Success(req), s).body.details == Some("Cannot read properties of undefined (reading 'caste')")
  {
    assert ReadOfUndefined("caste") == "Cannot read properties of undefined (reading 'caste')";
  }
}
