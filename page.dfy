/** The search page of src/app/page.tsx: its state (one field per `useState`),
    the three handlers `handleSearch`, `processSearch` (with the stream loop
    and `processEvents`) and `handleQuestionnaireComplete`, and the parameter
    merge. The `/api/search` calls and the stream reader are given as a
    `Backend`; every request the page sends is recorded, in order, in
    `requests`. Each handler is proved against a pure function of the old
    state (`SearchOutcome`, `ProcessOutcome`, `CompleteOutcome`), about which
    the remaining lemmas speak. */
module Page {
  import opened Wrappers
  import opened Js
  import opened Text
  import opened Types
  import opened EventStream
  import Route

  // ---------------------------------------------------------------------
  // Collaborators
  // ---------------------------------------------------------------------

  /** The outcome of `fetch` followed by `response.json()`: something threw,
      the status was not ok, or the decoded body. */
  datatype Fetched<T> = Threw(thrown: Thrown) | NotOk | Got(value: T)

  /** `{data: params, missingParams: missing}` of the parse reply. */
  datatype ParseReply = ParseReply(data: Params, missing: Option<seq<string>>)

  /** The decoded chunks the reader yields, and whether a read rejected
      after them. */
  datatype Stream = Stream(chunks: seq<string>, readFailure: Option<Thrown>)

  /** The three POSTs to `/api/search`, as seen by the page, and
      `JSON.parse`. `generate` gives `None` when the response has no body to
      read. */
  datatype Backend = Backend(
    parseQuery: string -> Fetched<ParseReply>,
    searchWeb: Params -> Fetched<Json>,
    generate: (Params, Json) -> Fetched<Option<Stream>>,
    parseJson: JsonParser)

  function ParseRequest(query: string): Route.SearchRequest {
    Route.SearchRequest("parseQuery", Some(query), None, None)
  }

  function SearchWebRequest(params: Params): Route.SearchRequest {
    Route.SearchRequest("searchWeb", None, Some(params), None)
  }

  function GenerateRequest(params: Params, web: Json): Route.SearchRequest {
    Route.SearchRequest("generateResults", None, Some(params), Some(web))
  }

  const Analyzing := "Analyzing search query"
  const Searching := "Searching scholarship databases"
  const Generating := "Generating recommendations"

  /** The message shown for a thrown value that is not an `Error`. */
  const Fallback := "Failed to search for scholarships"

  // ---------------------------------------------------------------------
  // The merge of handleQuestionnaireComplete
  // ---------------------------------------------------------------------

  /** `{...parsedParams, ...answers}`: spreading `null` adds nothing, and
      a later spread overrides an earlier one. */
  function MergeParams(parsed: Option<Params>, answers: Params): (m: Params)
    ensures m.Keys == answers.Keys + (if parsed.Some? then parsed.value.Keys else {})
    ensures forall k :: k in answers ==> m[k] == answers[k]
    ensures forall k :: parsed.Some? && k in parsed.value && k !in answers ==> m[k] == parsed.value[k]
    ensures parsed.None? ==> m == answers
  {
    if parsed.Some? then parsed.value + answers else answers
  }

  // ---------------------------------------------------------------------
  // The page state and the outcome of each handler
  // ---------------------------------------------------------------------

  /** A snapshot of the page state. */
  datatype View = View(
    loading: bool,
    currentStep: string,
    searchQuery: string,
    results: Results,
    searchResults: Json,
    error: string,
    showExamples: bool,
    showQuestionnaire: bool,
    missingParams: seq<string>,
    parsedParams: Option<Params>,
    requests: seq<Route.SearchRequest>)

  /** The stream fields as the page first renders them and as a new search
      clears them. */
  function EmptyResults(): Results {
    Results([], JString(""), JArray([]), JArray([]))
  }

  function InitialView(): View {
    View(false, "", "", EmptyResults(), JArray([]), "", true, false, [], None, [])
  }

  /** The `catch` of both handlers: the message of an `Error`, otherwise the
      fallback text. */
  function Caught(v: View, t: Thrown): View {
    v.(error := MessageOr(t, Fallback))
  }

  /** The read loop and the final flush, from the state before the first
      chunk. The flush dispatches nothing (`FlushDispatchesNothing`). */
  function StreamOutcome(v: View, stream: Stream, parse: JsonParser): View {
    var p := FeedAll(Progress(v.results, "", None), stream.chunks, parse);
    if p.failure.Some? then Caught(v.(results := p.results), p.failure.value)
    else if stream.readFailure.Some? then Caught(v.(results := p.results), stream.readFailure.value)
    else v.(results := p.results)
  }

  /** Entering `processSearch`: the web-search step begins and its request
      is sent. */
  function StartWeb(v: View, params: Params): View {
    v.(currentStep := Searching, requests := v.requests + [SearchWebRequest(params)])
  }

  /** The web search answered: its results are stored and the generation
      step begins with its request. */
  function StartGenerate(v: View, params: Params, web: Json): View {
    v.(searchResults := web, currentStep := Generating, requests := v.requests + [GenerateRequest(params, web)])
  }

  /** The generation request and the stream. */
  function AfterGenerate(v: View, params: Params, web: Json, b: Backend): View {
    match b.generate(params, web)
    case Threw(t) => Caught(v, t)
    case NotOk => v.(error := "Failed to generate results")
    case Got(reader) =>
      if reader.None? then v.(error := "Failed to get response reader")
      else StreamOutcome(v, reader.value, b.parseJson)
  }

  /** The web-search request and what follows it. */
  function AfterWeb(v: View, params: Params, b: Backend): View {
    match b.searchWeb(params)
    case Threw(t) => Caught(v, t)
    case NotOk => v.(error := "Failed to search web")
    case Got(web) => AfterGenerate(StartGenerate(v, params, web), params, web, b)
  }

  /** The `finally` of `processSearch`. */
  function Finish(v: View): View {
    v.(loading := false, currentStep := "")
  }

  /** `processSearch(params)`: web search, then generation with the stream;
      whatever happens, `loading` ends false and `currentStep` empty. */
  function ProcessOutcome(v: View, params: Params, b: Backend): View {
    Finish(AfterWeb(StartWeb(v, params), params, b))
  }

  /** The start of a non-blank `handleSearch`: everything from the previous
      search is cleared and the parse request is sent. */
  function BeginSearch(v: View): View {
    v.(loading := true, error := "", results := EmptyResults(), searchResults := JArray([]),
       showExamples := false, showQuestionnaire := false, parsedParams := None,
       currentStep := Analyzing, requests := v.requests + [ParseRequest(v.searchQuery)])
  }

  /** The parse reply and what follows it. */
  function AfterParse(v: View, b: Backend): View {
    match b.parseQuery(v.searchQuery)
    case Threw(t) => Caught(v, t).(loading := false)
    case NotOk => v.(error := "Failed to parse query", loading := false)
    case Got(reply) =>
      if reply.missing.Some? && |reply.missing.value| > 0 then
        v.(missingParams := reply.missing.value, parsedParams := Some(reply.data),
           showQuestionnaire := true, loading := false)
      else ProcessOutcome(v, reply.data, b)
  }

  /** `handleSearch`. */
  function SearchOutcome(v: View, b: Backend): View {
    if Trim(v.searchQuery) == [] then v else AfterParse(BeginSearch(v), b)
  }

  /** `handleQuestionnaireComplete(answers)`. */
  function CompleteOutcome(v: View, answers: Params, b: Backend): View {
    ProcessOutcome(v.(showQuestionnaire := false, loading := true), MergeParams(v.parsedParams, answers), b)
  }

  // ---------------------------------------------------------------------
  // What the handlers guarantee
  // ---------------------------------------------------------------------

  /** A query that trims to nothing changes nothing and sends nothing. */
  lemma BlankQueryDoesNothing(v: View, b: Backend)
    requires AllSpace(v.searchQuery)
    ensures SearchOutcome(v, b) == v
  {
    var q := v.searchQuery;
    assert TrimFrom(q) == |q|;
  }

  /** The stream touches only the results and the error. */
  lemma StreamOutcomeFrame(v: View, stream: Stream, parse: JsonParser)
    ensures var w := StreamOutcome(v, stream, parse);
      w == v.(results := w.results, error := w.error)
  {
  }

  /** After its request is sent, generation touches only the results and
      the error. */
  lemma AfterGenerateFrame(v: View, params: Params, web: Json, b: Backend)
    ensures var w := AfterGenerate(v, params, web, b);
      w == v.(results := w.results, error := w.error)
  {
    if b.generate(params, web).Got? && b.generate(params, web).value.Some? {
      StreamOutcomeFrame(v, b.generate(params, web).value.value, b.parseJson);
    }
  }

  /** On every exit from `processSearch` the page stops loading and clears
      the step; exactly the web-search request, then (if that answered) the
      generation request with its results, have been sent with the given
      parameters; and the query, the questionnaire fields and the parsed
      parameters are untouched. */
  lemma ProcessAlwaysResets(v: View, params: Params, b: Backend)
    ensures var w := ProcessOutcome(v, params, b);
      && !w.loading && w.currentStep == ""
      && w.requests == v.requests + [SearchWebRequest(params)]
           + (if b.searchWeb(params).Got? then [GenerateRequest(params, b.searchWeb(params).value)] else [])
      && w.searchQuery == v.searchQuery && w.missingParams == v.missingParams
      && w.parsedParams == v.parsedParams && w.showQuestionnaire == v.showQuestionnaire
      && w.showExamples == v.showExamples
  {
    var v1 := StartWeb(v, params);
    if b.searchWeb(params).Got? {
      var web := b.searchWeb(params).value;
      var v3 := StartGenerate(v1, params, web);
      AfterGenerateFrame(v3, params, web, b);
      assert v3.requests == v.requests + [SearchWebRequest(params)] + [GenerateRequest(params, web)];
    } else {
      assert v1.requests == v.requests + [SearchWebRequest(params)] + [];
    }
  }

  /** A non-blank search ends with the page no longer loading, whichever way
      it went. */
  lemma SearchEndsNotLoading(v: View, b: Backend)
    requires Trim(v.searchQuery) != []
    ensures !SearchOutcome(v, b).loading
  {
    if Trim(v.searchQuery) != [] && b.parseQuery(v.searchQuery).Got? {
      var reply := b.parseQuery(v.searchQuery).value;
      if !(reply.missing.Some? && |reply.missing.value| > 0) {
        ProcessAlwaysResets(BeginSearch(v), reply.data, b);
      }
    }
  }

  /** A non-empty missing-parameter list stops the search before the web
      search: only the parse request was sent, the parsed parameters and
      the list are stored, and the questionnaire is shown. */
  lemma MissingParamsStopBeforeSearch(v: View, b: Backend, reply: ParseReply)
    requires Trim(v.searchQuery) != []
    requires b.parseQuery(v.searchQuery) == Got(reply)
    requires reply.missing.Some? && reply.missing.value != []
    ensures var w := SearchOutcome(v, b);
      && w.requests == v.requests + [ParseRequest(v.searchQuery)]
      && w.parsedParams == Some(reply.data) && w.missingParams == reply.missing.value
      && w.showQuestionnaire && !w.loading && w.currentStep == Analyzing
      && w.results == EmptyResults() && w.error == ""
  {
  }

  /** A request the route answers without the 400 branch and without the
      missing-`params` failure. */
  predicate Routable(r: Route.SearchRequest) {
    r.searchType in Route.SearchTypes && (r.searchType == "searchWeb" ==> r.params.Some?)
  }

  predicate AllRoutable(rs: seq<Route.SearchRequest>) {
    forall i :: 0 <= i < |rs| ==> Routable(rs[i])
  }

  lemma AllRoutableAppend(rs: seq<Route.SearchRequest>, more: seq<Route.SearchRequest>)
    requires AllRoutable(rs) && AllRoutable(more)
    ensures AllRoutable(rs + more)
  {
    forall i | 0 <= i < |rs + more| ensures Routable((rs + more)[i]) {
      if i < |rs| {
        assert (rs + more)[i] == rs[i];
      } else {
        assert (rs + more)[i] == more[i - |rs|];
      }
    }
  }

  /** Every request the page sends is one the route dispatches (never the
      400 answer), and a `searchWeb` request always carries parameters. */
  lemma {:induction false} RequestsAreRoutable(v: View, b: Backend)
    requires AllRoutable(v.requests)
    ensures AllRoutable(SearchOutcome(v, b).requests)
  {
    if Trim(v.searchQuery) != [] {
      var v1 := BeginSearch(v);
      assert Routable(ParseRequest(v.searchQuery));
      AllRoutableAppend(v.requests, [ParseRequest(v.searchQuery)]);
      if b.parseQuery(v.searchQuery).Got? {
        var reply := b.parseQuery(v.searchQuery).value;
        if !(reply.missing.Some? && |reply.missing.value| > 0) {
          ProcessAlwaysResets(v1, reply.data, b);
          var sent := [SearchWebRequest(reply.data)]
            + (if b.searchWeb(reply.data).Got? then [GenerateRequest(reply.data, b.searchWeb(reply.data).value)] else []);
          assert AllRoutable(sent);
          AllRoutableAppend(v1.requests, sent);
          assert SearchOutcome(v, b).requests == v1.requests + sent;
        }
      }
    }
  }

  /** After the questionnaire, the web search is sent with the parsed
      parameters overridden by the answers. */
  lemma CompleteSearchesWithMerged(v: View, answers: Params, b: Backend)
    ensures var w := CompleteOutcome(v, answers, b);
      && |w.requests| > |v.requests|
      && w.requests[|v.requests|] == SearchWebRequest(MergeParams(v.parsedParams, answers))
      && !w.showQuestionnaire && !w.loading
  {
    ProcessAlwaysResets(v.(showQuestionnaire := false, loading := true), MergeParams(v.parsedParams, answers), b);
  }

  /** The streamed results depend only on the text received: they are the
      dispatch of the complete frames of the concatenated chunks, started
      from the results before the stream; the error is set from the first
      frame that failed, else from a rejected read; otherwise only the
      results change. */
  lemma StreamOutcomeSpec(v: View, stream: Stream, parse: JsonParser)
    ensures var d := DispatchAll(v.results, AllButLast(Split(Concat(stream.chunks), FrameSep)), parse);
      var w := StreamOutcome(v, stream, parse);
      && w.results == d.results
      && (d.failure.Some? ==> w.error == MessageOr(d.failure.value, Fallback))
      && (d.failure.None? && stream.readFailure.Some? ==> w.error == MessageOr(stream.readFailure.value, Fallback))
      && (d.failure.None? && stream.readFailure.None? ==> w == v.(results := d.results))
  {
    FeedAllIsSplitOfConcat(v.results, stream.chunks, parse);
  }

  // ---------------------------------------------------------------------
  // The component
  // ---------------------------------------------------------------------

  class Home {
    var loading: bool
    var currentStep: string
    var searchQuery: string
    var scholarships: seq<Json>
    var summary: Json
    var recommendations: Json
    var additionalResources: Json
    var searchResults: Json
    var error: string
    var showExamples: bool
    var showQuestionnaire: bool
    var missingParams: seq<string>
    var parsedParams: Option<Params>
    var requests: seq<Route.SearchRequest>

    function CurrentResults(): Results
      reads this
    {
      Results(scholarships, summary, recommendations, additionalResources)
    }

    function Snapshot(): View
      reads this
    {
      View(loading, currentStep, searchQuery, CurrentResults(), searchResults, error,
           showExamples, showQuestionnaire, missingParams, parsedParams, requests)
    }

    constructor()
      ensures Snapshot() == InitialView()
    {
      loading := false;
      currentStep := "";
      searchQuery := "";
      scholarships := [];
      summary := JString("");
      recommendations := JArray([]);
      additionalResources := JArray([]);
      searchResults := JArray([]);
      error := "";
      showExamples := true;
      showQuestionnaire := false;
      missingParams := [];
      parsedParams := None;
      requests := [];
    }

    /** Typing in the search box, or clicking an example query. */
    method SetSearchQuery(q: string)
      modifies this
      ensures Snapshot() == old(Snapshot()).(searchQuery := q)
    {
      searchQuery := q;
    }

    /** One case of the `switch` of `processEvents`. */
    method ApplyFrame(f: Frame)
      modifies this
      ensures Snapshot() == old(Snapshot()).(results := Apply(old(CurrentResults()), f))
    {
      if f.eventType == "summary" {
        summary := f.data;
      } else if f.eventType == "scholarship" {
        scholarships := scholarships + [f.data];
      } else if f.eventType == "recommendations" {
        recommendations := f.data;
      } else if f.eventType == "resources" {
        additionalResources := f.data;
      }
    }

    /** `processEvents(chunk)`: the text after the last separator is
        returned as the new buffer; the complete frames before it are
        decoded and applied one by one, stopping at the first that throws. */
    method ProcessEvents(chunk: string, parse: JsonParser) returns (rest: string, failure: Option<Thrown>)
      modifies this
      ensures var d := DispatchAll(old(CurrentResults()), AllButLast(Split(chunk, FrameSep)), parse);
        && Snapshot() == old(Snapshot()).(results := d.results)
        && failure == d.failure
      ensures rest == Last(Split(chunk, FrameSep))
    {
      var events := Split(chunk, FrameSep);
      rest := Last(events);
      var frames := AllButLast(events);
      ghost var v0 := CurrentResults();
      failure := None;
      var i := 0;
      while i < |frames| && failure.None?
        invariant 0 <= i <= |frames|
        invariant Dispatched(CurrentResults(), failure) == DispatchAll(v0, frames[..i], parse)
        invariant Snapshot() == old(Snapshot()).(results := CurrentResults())
      {
        assert AllButLast(frames[..i + 1]) == frames[..i];
        assert Last(frames[..i + 1]) == frames[i];
        var decoded := DecodeFrame(frames[i], parse);
        if decoded.Failure? {
          failure := Some(decoded.error);
        } else {
          ApplyFrame(decoded.value);
        }
        i := i + 1;
      }
      FinishDispatch(v0, frames, i, parse);
    }

    /** The read loop: `processEvents(buffer + chunk)` for each chunk until
        one throws. */
    method FeedChunks(chunks: seq<string>, parse: JsonParser) returns (buffer: string, failure: Option<Thrown>)
      modifies this
      ensures Progress(CurrentResults(), buffer, failure) == FeedAll(Progress(old(CurrentResults()), "", None), chunks, parse)
      ensures Snapshot() == old(Snapshot()).(results := CurrentResults())
    {
      ghost var start := Progress(CurrentResults(), "", None);
      buffer := "";
      failure := None;
      var i := 0;
      while i < |chunks| && failure.None?
        invariant 0 <= i <= |chunks|
        invariant Progress(CurrentResults(), buffer, failure) == FeedAll(start, chunks[..i], parse)
        invariant Snapshot() == old(Snapshot()).(results := CurrentResults())
      {
        assert AllButLast(chunks[..i + 1]) == chunks[..i];
        assert Last(chunks[..i + 1]) == chunks[i];
        buffer, failure := ProcessEvents(buffer + chunks[i], parse);
        i := i + 1;
      }
      FinishFeed(start, chunks, i, parse);
    }

    /** The read loop, the flush, and the `catch` (`StreamOutcome`). */
    method ReadStream(stream: Stream, parse: JsonParser)
      modifies this
      ensures Snapshot() == StreamOutcome(old(Snapshot()), stream, parse)
    {
      ghost var v0 := CurrentResults();
      var buffer, failure := FeedChunks(stream.chunks, parse);
      if failure.Some? {
        error := MessageOr(failure.value, Fallback);
      } else if stream.readFailure.Some? {
        error := MessageOr(stream.readFailure.value, Fallback);
      } else if buffer != [] {
        FlushDispatchesNothing(v0, stream.chunks, parse);
        var _, _ := ProcessEvents(buffer, parse);
      }
    }

    /** The generation request and the stream (`AfterGenerate`). */
    method Generate(params: Params, web: Json, b: Backend)
      modifies this
      ensures Snapshot() == AfterGenerate(old(Snapshot()), params, web, b)
    {
      var generated := b.generate(params, web);
      if generated.Threw? {
        error := MessageOr(generated.thrown, Fallback);
      } else if generated.NotOk? {
        error := "Failed to generate results";
      } else if generated.value.None? {
        error := "Failed to get response reader";
      } else {
        ReadStream(generated.value.value, b.parseJson);
      }
    }

    /** The web search and what follows it (`AfterWeb`). */
    method SearchWeb(params: Params, b: Backend)
      modifies this
      ensures Snapshot() == AfterWeb(old(Snapshot()), params, b)
    {
      var searched := b.searchWeb(params);
      if searched.Threw? {
        error := MessageOr(searched.thrown, Fallback);
      } else if searched.NotOk? {
        error := "Failed to search web";
      } else {
        var web := searched.value;
        searchResults := web;
        currentStep := Generating;
        requests := requests + [GenerateRequest(params, web)];
        Generate(params, web, b);
      }
    }

    /** `processSearch(params)`. */
    method ProcessSearch(params: Params, b: Backend)
      modifies this
      ensures Snapshot() == ProcessOutcome(old(Snapshot()), params, b)
    {
      currentStep := Searching;
      requests := requests + [SearchWebRequest(params)];
      SearchWeb(params, b);
      loading := false;
      currentStep := "";
    }

    /** The resets at the start of a non-blank `handleSearch`. */
    method BeginSearchState()
      modifies this
      ensures Snapshot() == BeginSearch(old(Snapshot()))
    {
      loading := true;
      error := "";
      scholarships := [];
      summary := JString("");
      recommendations := JArray([]);
      additionalResources := JArray([]);
      searchResults := JArray([]);
      showExamples := false;
      showQuestionnaire := false;
      parsedParams := None;
      currentStep := Analyzing;
      requests := requests + [ParseRequest(searchQuery)];
    }

    /** `handleSearch`. */
    method HandleSearch(b: Backend)
      modifies this
      ensures Snapshot() == SearchOutcome(old(Snapshot()), b)
    {
      if Trim(searchQuery) == [] {
        return;
      }
      BeginSearchState();
      var parsed := b.parseQuery(searchQuery);
      if parsed.Threw? {
        error := MessageOr(parsed.thrown, Fallback);
        loading := false;
      } else if parsed.NotOk? {
        error := "Failed to parse query";
        loading := false;
      } else {
        var reply := parsed.value;
        if reply.missing.Some? && |reply.missing.value| > 0 {
          missingParams := reply.missing.value;
          parsedParams := Some(reply.data);
          showQuestionnaire := true;
          loading := false;
          return;
        }
        ProcessSearch(reply.data, b);
      }
    }

    /** The questionnaire's `onCancel`: the dialog closes and loading stops. */
    method CancelQuestionnaire()
      modifies this
      ensures Snapshot() == old(Snapshot()).(showQuestionnaire := false, loading := false)
    {
      showQuestionnaire := false;
      loading := false;
    }

    /** `handleQuestionnaireComplete(answers)`. */
    method HandleQuestionnaireComplete(answers: Params, b: Backend)
      modifies this
      ensures Snapshot() == CompleteOutcome(old(Snapshot()), answers, b)
    {
      showQuestionnaire := false;
      loading := true;
      var finalParams := MergeParams(parsedParams, answers);
      ProcessSearch(finalParams, b);
    }
  }

  /** Leaving the frame loop early (a failure) or at the end both give the
      dispatch of all frames. */
  lemma FinishDispatch(v: Results, frames: seq<string>, i: nat, parse: JsonParser)
    requires i <= |frames|
    requires i < |frames| ==> DispatchAll(v, frames[..i], parse).failure.Some?
    ensures DispatchAll(v, frames, parse) == DispatchAll(v, frames[..i], parse)
  {
    if i < |frames| {
      assert frames == frames[..i] + frames[i..];
      DispatchAppend(v, frames[..i], frames[i..], parse);
    } else {
      assert frames[..i] == frames;
    }
  }

  /** Leaving the read loop early (a failure) or at the end both give the
      outcome of feeding all chunks. */
  lemma FinishFeed(start: Progress, chunks: seq<string>, i: nat, parse: JsonParser)
    requires i <= |chunks|
    requires i < |chunks| ==> FeedAll(start, chunks[..i], parse).failure.Some?
    ensures FeedAll(start, chunks, parse) == FeedAll(start, chunks[..i], parse)
  {
    if i < |chunks| {
      assert chunks == chunks[..i] + chunks[i..];
      FeedAllAfterFailure(start, chunks[..i], chunks[i..], parse);
    } else {
      assert chunks[..i] == chunks;
    }
  }
}
