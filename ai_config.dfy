/** The server-side helpers of src/utils/ai-config.ts: the validator of the
    generative model's output, the cleaning of web-search results, the search
    query, and the two generation calls with their error propagation. The
    Gemini calls, the Custom Search request and `JSON.parse` are collaborators,
    passed in as functions (see `Services`). */
module AiConfig {
  import opened Wrappers
  import opened Js
  import opened Text
  import opened Types

  // ---------------------------------------------------------------------
  // validateResponse
  // ---------------------------------------------------------------------

  predicate StartsWith(s: string, prefix: string) {
    MatchAt(s, prefix, 0)
  }

  /** `s.replace(/```json\n?|\n?```/g, "")`: a left-to-right scan that, at each
      position, first tries "```json" with an optional newline, then "\n```",
      then "```", and otherwise keeps the character. */
  function StripFences(s: string): (r: string)
    decreases |s|
    ensures |r| <= |s|
  {
    if s == [] then []
    else if StartsWith(s, "```json") then StripFences(s[if StartsWith(s, "```json\n") then 8 else 7..])
    else if StartsWith(s, "\n```") then StripFences(s[4..])
    else if StartsWith(s, "```") then StripFences(s[3..])
    else [s[0]] + StripFences(s[1..])
  }

  /** The outcome of `validateResponse`: `{isValid, data}`. */
  datatype Validation = Validation(isValid: bool, data: Json)

  /** `validateResponse`: strips the fence markers, trims, and makes one parse
      attempt. It never throws: a parse failure becomes `{isValid: false,
      data: null}`, and a successful parse is passed on without any check of
      its fields. */
  function ValidateResponse(response: string, parse: JsonParser): (v: Validation)
    ensures v.isValid || v.data == JNull
    ensures v.isValid <==> parse(Trim(StripFences(response))).Success?
    ensures v.isValid ==> v.data == parse(Trim(StripFences(response))).value
  {
    match parse(Trim(StripFences(response)))
    case Success(doc) => Validation(true, doc)
    case Failure(_) => Validation(false, JNull)
  }

  predicate NoBacktick(s: string) {
    forall i :: 0 <= i < |s| ==> s[i] != '`'
  }

  lemma {:induction false} StripFencesShrinks(s: string)
    requires Contains(s, "```")
    ensures |StripFences(s)| < |s|
    decreases |s|
  {
    var j := IndexOf(s, "```").value;
    if StartsWith(s, "```json") || StartsWith(s, "\n```") || StartsWith(s, "```") {
    } else {
      assert j != 0;
      assert s[1..][j - 1..j + 2] == s[j..j + 3];
      assert MatchAt(s[1..], "```", j - 1);
      assert Contains(s[1..], "```");
      StripFencesShrinks(s[1..]);
    }
  }

  lemma {:induction false} StripFencesKeepsPlainText(s: string)
    requires !Contains(s, "```")
    ensures StripFences(s) == s
    decreases |s|
  {
    if s != [] {
      assert !MatchAt(s, "```", 0);
      assert !StartsWith(s, "```json") by {
        assert |s| >= 7 ==> s[0..7][..3] == s[0..3];
      }
      assert !StartsWith(s, "\n```") by {
        assert !MatchAt(s, "```", 1);
        assert |s| >= 4 ==> s[0..4][1..] == s[1..4];
      }
      forall j: nat ensures !MatchAt(s[1..], "```", j) {
        assert !MatchAt(s, "```", j + 1);
        if j + 3 <= |s[1..]| {
          assert s[1..][j..j + 3] == s[j + 1..j + 4];
        }
      }
      StripFencesKeepsPlainText(s[1..]);
      assert s == [s[0]] + s[1..];
    }
  }

  /** The fence stripping leaves a text unchanged exactly when the text holds
      no triple backtick: every "```" is removed wherever it stands, also
      inside JSON string values. */
  lemma StripFencesUnchangedIff(s: string)
    ensures StripFences(s) == s <==> !Contains(s, "```")
  {
    if Contains(s, "```") {
      StripFencesShrinks(s);
    } else {
      StripFencesKeepsPlainText(s);
    }
  }

  lemma NoBacktickHasNoFence(s: string)
    requires NoBacktick(s)
    ensures !Contains(s, "```")
  {
    forall j: nat ensures !MatchAt(s, "```", j) {
      if j + 3 <= |s| {
        assert s[j..j + 3][0] == s[j];
      }
    }
  }

  /** A text without backticks is only trimmed before it is parsed. */
  lemma ValidateWithoutBackticks(response: string, parse: JsonParser)
    requires NoBacktick(response)
    ensures ValidateResponse(response, parse)
      == match parse(Trim(response))
         case Success(doc) => Validation(true, doc)
         case Failure(_) => Validation(false, JNull)
  {
    NoBacktickHasNoFence(response);
    StripFencesKeepsPlainText(response);
  }

  lemma {:induction false} StripClosingFence(x: string)
    requires NoBacktick(x)
    ensures StripFences(x + "\n```") == x
    decreases |x|
  {
    var t := x + "\n```";
    if x == [] {
      assert t == "\n```";
      assert !StartsWith(t, "```json");
      assert StartsWith(t, "\n```");
      assert t[4..] == [];
    } else {
      assert t[0] == x[0];
      assert t[1] == (if |x| > 1 then x[1] else '\n');
      assert !StartsWith(t, "```json") by {
        assert |t| >= 7 ==> t[0..7][0] == t[0];
      }
      assert !StartsWith(t, "\n```") by {
        assert t[0..4][1] == t[1];
      }
      assert !StartsWith(t, "```") by {
        assert t[0..3][0] == t[0];
      }
      assert t[1..] == x[1..] + "\n```";
      StripClosingFence(x[1..]);
      assert x == [x[0]] + x[1..];
    }
  }

  /** A reply wrapped as a fenced "json" block, whose body has no backticks,
      is parsed as its trimmed body. */
  lemma ValidateFencedBlock(x: string, parse: JsonParser)
    requires NoBacktick(x)
    ensures ValidateResponse("```json\n" + x + "\n```", parse)
      == match parse(Trim(x))
         case Success(doc) => Validation(true, doc)
         case Failure(_) => Validation(false, JNull)
  {
    var s := "```json\n" + x + "\n```";
    assert s[0..7] == "```json";
    assert s[0..8] == "```json\n";
    assert s[8..] == x + "\n```";
    StripClosingFence(x);
  }

  // ---------------------------------------------------------------------
  // searchGoogle
  // ---------------------------------------------------------------------

  /** `GoogleSearchItem` as the search service returns it; any field may be
      missing. */
  datatype SearchItem = SearchItem(title: Option<string>, link: Option<string>, snippet: Option<string>)

  /** `GoogleSearchResult`: one cleaned item. */
  datatype SearchResult = SearchResult(title: string, link: string, snippet: string)

  /** What the Custom Search request produced: the request or the reading of
      its body threw, the status was not ok, or a body whose `items` field may
      be missing. */
  datatype SearchFetch = Threw | NotOk | Answered(items: Option<seq<SearchItem>>)

  /** The two environment variables `searchGoogle` reads. */
  datatype SearchEnv = SearchEnv(apiKey: Option<string>, engineId: Option<string>)

  /** Both variables are set and non-empty (`!apiKey || !searchEngineId` fails). */
  predicate HasCredentials(env: SearchEnv) {
    env.apiKey.Some? && env.apiKey.value != "" && env.engineId.Some? && env.engineId.value != ""
  }

  /** The `map` step: `x?.replace(/\s+/g, " ").trim() || ""` on title and
      snippet, `link || ""` on the link. */
  function CleanItem(item: SearchItem): SearchResult {
    SearchResult(
      if item.title.Some? then NormalizeSpaces(item.title.value) else "",
      if item.link.Some? then item.link.value else "",
      if item.snippet.Some? then NormalizeSpaces(item.snippet.value) else "")
  }

  /** The `filter` test: both title and link are non-empty. */
  predicate Kept(r: SearchResult) {
    r.title != "" && r.link != ""
  }

  function CleanAll(items: seq<SearchItem>): (r: seq<SearchResult>)
    ensures |r| == |items|
  {
    seq(|items|, i requires 0 <= i < |items| => CleanItem(items[i]))
  }

  /** `a` is `b` with some elements left out, the rest in their order. */
  predicate IsSubsequence<T(==)>(a: seq<T>, b: seq<T>)
    decreases |b|
  {
    if a == [] then true
    else if b == [] then false
    else (a[0] == b[0] && IsSubsequence(a[1..], b[1..])) || IsSubsequence(a, b[1..])
  }

  /** The `map`/`filter` chain: the cleaned items that have a title and a
      link, in the order the service returned them. */
  function CleanSearchItems(items: seq<SearchItem>): (r: seq<SearchResult>)
    ensures |r| <= |items|
    ensures forall i :: 0 <= i < |r| ==> Kept(r[i])
  {
    if items == [] then []
    else
      var head := CleanItem(items[0]);
      (if Kept(head) then [head] else []) + CleanSearchItems(items[1..])
  }

  lemma IsSubsequenceOfTail<T>(a: seq<T>, b: seq<T>)
    requires b != [] && IsSubsequence(a, b[1..])
    ensures IsSubsequence(a, b)
  {
  }

  /** The results keep the service's order: they are the cleaned items with
      some left out. */
  lemma {:induction false} CleanSearchItemsInOrder(items: seq<SearchItem>)
    ensures IsSubsequence(CleanSearchItems(items), CleanAll(items))
  {
    if items != [] {
      var head := CleanItem(items[0]);
      var rest := CleanSearchItems(items[1..]);
      CleanSearchItemsInOrder(items[1..]);
      var all := CleanAll(items);
      assert all[1..] == CleanAll(items[1..]);
      assert all[0] == head;
      if Kept(head) {
        assert CleanSearchItems(items) == [head] + rest;
        assert ([head] + rest)[1..] == rest;
      } else {
        assert CleanSearchItems(items) == rest;
        IsSubsequenceOfTail(rest, all);
      }
    }
  }

  /** Nothing usable is dropped: every item whose cleaned title and link are
      both non-empty appears among the results. */
  lemma {:induction false} CleanSearchItemsComplete(items: seq<SearchItem>, i: nat)
    requires i < |items| && Kept(CleanItem(items[i]))
    ensures CleanItem(items[i]) in CleanSearchItems(items)
  {
    var head := CleanItem(items[0]);
    var rest := CleanSearchItems(items[1..]);
    if i == 0 {
      assert CleanSearchItems(items) == [head] + rest;
    } else {
      assert items[1..][i - 1] == items[i];
      CleanSearchItemsComplete(items[1..], i - 1);
      assert CleanSearchItems(items) == (if Kept(head) then [head] else []) + rest;
    }
  }

  /** A cleaned item's title and snippet have no white space at either end
      and only single plain spaces inside, keeping every other character of
      the original; the link is passed through; a missing field becomes "". */
  lemma CleanItemSpec(item: SearchItem)
    ensures var r := CleanItem(item);
      && Trimmed(r.title) && SingleSpaced(r.title)
      && Trimmed(r.snippet) && SingleSpaced(r.snippet)
      && (item.title.Some? ==> NonSpace(r.title) == NonSpace(item.title.value))
      && (item.snippet.Some? ==> NonSpace(r.snippet) == NonSpace(item.snippet.value))
      && (item.title.None? ==> r.title == "")
      && (item.snippet.None? ==> r.snippet == "")
      && r.link == (if item.link.Some? then item.link.value else "")
  {
    if item.title.Some? {
      NormalizeSpacesSpec(item.title.value);
    }
    if item.snippet.Some? {
      NormalizeSpacesSpec(item.snippet.value);
    }
  }

  /** Where the spaces go in a cleaned title or snippet: two words separated
      by any run of white space come out as the two words joined by exactly
      one space. */
  lemma CleanItemAtRun(item: SearchItem, a: string, w: string, b: string)
    requires a != [] && b != [] && Trimmed(a) && Trimmed(b)
    requires w != [] && AllSpace(w)
    ensures item.title == Some(a + w + b) ==> CleanItem(item).title == NormalizeSpaces(a) + " " + NormalizeSpaces(b)
    ensures item.snippet == Some(a + w + b) ==> CleanItem(item).snippet == NormalizeSpaces(a) + " " + NormalizeSpaces(b)
  {
    NormalizeSpacesAtRun(a, w, b);
  }

  /** The results are exactly the filter of the cleaned items: every kept
      result occurs as often as among the cleaned items, and no other value
      occurs. */
  lemma {:induction false} CleanSearchItemsCounts(items: seq<SearchItem>, x: SearchResult)
    ensures multiset(CleanSearchItems(items))[x] == if Kept(x) then multiset(CleanAll(items))[x] else 0
    decreases |items|
  {
    if items != [] {
      CleanSearchItemsCounts(items[1..], x);
      assert CleanAll(items) == [CleanItem(items[0])] + CleanAll(items[1..]);
    }
  }

  /** `searchGoogle`: never throws. Missing credentials, a failed request, a
      response that is not ok, and a response without items all give `[]`;
      otherwise the cleaned, filtered items. */
  function SearchGoogle(query: string, env: SearchEnv, customSearch: string -> SearchFetch): (r: seq<SearchResult>)
    ensures forall i :: 0 <= i < |r| ==> Kept(r[i])
    ensures !HasCredentials(env) ==> r == []
    ensures !customSearch(query).Answered? ==> r == []
    ensures customSearch(query) == Answered(None) ==> r == []
    ensures HasCredentials(env) && customSearch(query).Answered? && customSearch(query).items.Some?
      ==> r == CleanSearchItems(customSearch(query).items.value)
  {
    if !HasCredentials(env) then []
    else
      match customSearch(query)
      case Threw => []
      case NotOk => []
      case Answered(items) =>
        if items.None? || items.value == [] then [] else CleanSearchItems(items.value)
  }

  // ---------------------------------------------------------------------
  // generateScholarshipSearch and parseQueryToJSON
  // ---------------------------------------------------------------------

  /** The web-search query: caste, religion, state and education level, in
      that order. The same template appears in the route's `searchWeb`
      branch. */
  function ComposeQuery(p: Params): string {
    Field(p, "caste") + " " + Field(p, "religion") + " scholarships in " + Field(p, "state")
      + " for " + Field(p, "educationLevel")
  }

  /** The collaborators the server code calls. */
  datatype Services = Services(
    env: SearchEnv,
    customSearch: string -> SearchFetch,          // the Custom Search request for a query
    queryModel: string -> Result<string, Thrown>, // the Gemini call of parseQueryToJSON, given the query
    resultModel: (Params, seq<SearchResult>) -> Result<string, Thrown>, // the Gemini call of generateScholarshipSearch
    parseJson: JsonParser)                        // JSON.parse

  /** `generateScholarshipSearch`: searches the web with the composed query,
      then asks the model with the parameters and that evidence. The model's
      failure is rethrown unchanged. */
  function GenerateScholarshipSearch(params: Params, s: Services): (r: Result<string, Thrown>)
    ensures var evidence := SearchGoogle(ComposeQuery(params), s.env, s.customSearch);
      && (s.resultModel(params, evidence).Failure? ==> r == Failure(s.resultModel(params, evidence).error))
      && (s.resultModel(params, evidence).Success? ==> r == Success(s.resultModel(params, evidence).value))
  {
    var evidence := SearchGoogle(ComposeQuery(params), s.env, s.customSearch);
    s.resultModel(params, evidence)
  }

  /** `parseQueryToJSON`: asks the model, then parses its text directly (no
      fence stripping here). A model failure or a SyntaxError is rethrown. */
  function ParseQueryToJson(query: string, s: Services): (r: Result<Json, Thrown>)
    ensures s.queryModel(query).Failure? ==> r == Failure(s.queryModel(query).error)
    ensures s.queryModel(query).Success? && s.parseJson(s.queryModel(query).value).Failure?
      ==> r == Failure(ErrorValue(s.parseJson(s.queryModel(query).value).error))
    ensures r.Success? <==> s.queryModel(query).Success? && s.parseJson(s.queryModel(query).value).Success?
    ensures r.Success? ==> r.value == s.parseJson(s.queryModel(query).value).value
  {
    match s.queryModel(query)
    case Failure(t) => Failure(t)
    case Success(text) =>
      match s.parseJson(text)
      case Failure(msg) => Failure(ErrorValue(msg))
      case Success(doc) => Success(doc)
  }
}
