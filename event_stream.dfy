/** The client side of the server-sent event stream in src/app/page.tsx
    (`processEvents` and the read loop of `processSearch`), as pure
    definitions: how a frame is decoded, how one decoded event changes the
    displayed results, how a buffer of text is cut into frames, and how a
    sequence of chunks is consumed. The page's class (module Page) is proved
    against these. */
module EventStream {
  import opened Wrappers
  import opened Js
  import opened Text

  /** The frame separator of `chunk.split("\n\n")`. */
  const FrameSep := "\n\n"

  /** The four pieces of page state the stream fills in. `summary`,
      `recommendations` and `resources` hold whatever document the event
      carried; the page does not check its shape. */
  datatype Results = Results(scholarships: seq<Json>, summary: Json, recommendations: Json, resources: Json)

  /** One decoded frame: its event type and its parsed `data` line. */
  datatype Frame = Frame(eventType: string, data: Json)

  /** The effect of one event (the `switch`): a scholarship is appended;
      `summary`, `recommendations` and `resources` replace their field;
      `connect`, `complete` and any unknown type change nothing. */
  function Apply(v: Results, f: Frame): Results {
    if f.eventType == "summary" then v.(summary := f.data)
    else if f.eventType == "scholarship" then v.(scholarships := v.scholarships + [f.data])
    else if f.eventType == "recommendations" then v.(recommendations := f.data)
    else if f.eventType == "resources" then v.(resources := f.data)
    else v
  }

  /** One frame: the first line with its first "event: " removed is the
      type; the second line with its first "data: " removed is parsed. A
      frame without a second line fails reading `replace` of `undefined`;
      a data line that does not parse fails with the parser's message. */
  function DecodeFrame(frame: string, parse: JsonParser): Result<Frame, Thrown> {
    var lines := Split(frame, "\n");
    var eventType := RemoveFirst(lines[0], "event: ");
    if |lines| < 2 then Failure(ErrorValue(ReadOfUndefined("replace")))
    else
      match parse(RemoveFirst(lines[1], "data: "))
      case Failure(msg) => Failure(ErrorValue(msg))
      case Success(doc) => Success(Frame(eventType, doc))
  }

  /** The state after a run of frames, and the exception that ended the run
      early, if any. */
  datatype Dispatched = Dispatched(results: Results, failure: Option<Thrown>)

  function Step(v: Results, frame: string, parse: JsonParser): Dispatched {
    match DecodeFrame(frame, parse)
    case Failure(t) => Dispatched(v, Some(t))
    case Success(f) => Dispatched(Apply(v, f), None)
  }

  /** The `for` loop of `processEvents`: frames are applied in order, and
      the first one that throws ends the loop, the earlier effects kept. */
  function DispatchAll(v: Results, frames: seq<string>, parse: JsonParser): Dispatched
    decreases |frames|
  {
    if frames == [] then Dispatched(v, None)
    else
      var d := DispatchAll(v, AllButLast(frames), parse);
      if d.failure.Some? then d else Step(d.results, Last(frames), parse)
  }

  /** Carry on from an earlier run, unless it failed. */
  function Continue(d: Dispatched, frames: seq<string>, parse: JsonParser): Dispatched {
    if d.failure.Some? then d else DispatchAll(d.results, frames, parse)
  }

  /** Dispatching two runs of frames one after the other is dispatching
      their concatenation; a failure in the first run skips the second. */
  lemma {:induction false} DispatchAppend(v: Results, a: seq<string>, b: seq<string>, parse: JsonParser)
    ensures DispatchAll(v, a + b, parse) == Continue(DispatchAll(v, a, parse), b, parse)
    decreases |b|
  {
    if b == [] {
      assert a + b == a;
    } else {
      assert AllButLast(a + b) == a + AllButLast(b);
      assert Last(a + b) == Last(b);
      DispatchAppend(v, a, AllButLast(b), parse);
    }
  }

  // ---------------------------------------------------------------------
  // An independent description of a successful run
  // ---------------------------------------------------------------------

  predicate AllDecode(frames: seq<string>, parse: JsonParser) {
    forall i :: 0 <= i < |frames| ==> DecodeFrame(frames[i], parse).Success?
  }

  function Decoded(frames: seq<string>, parse: JsonParser): (fs: seq<Frame>)
    requires AllDecode(frames, parse)
    ensures |fs| == |frames|
  {
    seq(|frames|, i requires 0 <= i < |frames| && AllDecode(frames, parse) => DecodeFrame(frames[i], parse).value)
  }

  /** The data of the `scholarship` events, in order. */
  function ScholarshipsOf(fs: seq<Frame>): seq<Json>
    decreases |fs|
  {
    if fs == [] then []
    else ScholarshipsOf(AllButLast(fs)) + (if Last(fs).eventType == "scholarship" then [Last(fs).data] else [])
  }

  /** The data of the last event of the given type, or `dflt` when there is
      none. */
  function LastOf(fs: seq<Frame>, eventType: string, dflt: Json): Json
    decreases |fs|
  {
    if fs == [] then dflt
    else if Last(fs).eventType == eventType then Last(fs).data
    else LastOf(AllButLast(fs), eventType, dflt)
  }

  /** A run in which every frame decodes does not fail, and leaves the
      scholarships extended by the scholarship events in order, and each of
      the other three fields holding the last event of its type, or its
      earlier value when there was none. */
  lemma {:induction false} DispatchAllSpec(v: Results, frames: seq<string>, parse: JsonParser)
    requires AllDecode(frames, parse)
    ensures var fs := Decoded(frames, parse);
      DispatchAll(v, frames, parse) == Dispatched(Results(
        v.scholarships + ScholarshipsOf(fs),
        LastOf(fs, "summary", v.summary),
        LastOf(fs, "recommendations", v.recommendations),
        LastOf(fs, "resources", v.resources)), None)
    decreases |frames|
  {
    if frames != [] {
      var fs := Decoded(frames, parse);
      var init := AllButLast(frames);
      assert AllDecode(init, parse) by {
        forall i | 0 <= i < |init| ensures DecodeFrame(init[i], parse).Success? {
          assert init[i] == frames[i];
        }
      }
      assert Decoded(init, parse) == AllButLast(fs);
      DispatchAllSpec(v, init, parse);
      assert DecodeFrame(Last(frames), parse).value == Last(fs);
    }
  }

  /** The first frame that fails to decode ends the run with its error,
      after exactly the frames before it have been applied. */
  lemma DispatchAllStops(v: Results, frames: seq<string>, k: nat, parse: JsonParser)
    requires k < |frames| && DecodeFrame(frames[k], parse).Failure?
    requires AllDecode(frames[..k], parse)
    ensures DispatchAll(v, frames, parse)
      == Dispatched(DispatchAll(v, frames[..k], parse).results, Some(DecodeFrame(frames[k], parse).error))
  {
    var init := frames[..k];
    var d := DispatchAll(v, init, parse);
    assert d.failure.None? by {
      DispatchAllSpec(v, init, parse);
    }
    var upto := init + [frames[k]];
    assert AllButLast(upto) == init;
    assert Last(upto) == frames[k];
    assert DispatchAll(v, upto, parse) == Step(d.results, frames[k], parse);
    assert frames == upto + frames[k + 1..];
    DispatchAppend(v, upto, frames[k + 1..], parse);
  }

  // ---------------------------------------------------------------------
  // The frame format the server is expected to send
  // ---------------------------------------------------------------------

  predicate NoNewline(s: string) {
    forall i :: 0 <= i < |s| ==> s[i] != '\n'
  }

  /** An event frame as written: `event: <type>\ndata: <payload>`. */
  function EncodeFrame(eventType: string, payload: string): string {
    "event: " + eventType + "\n" + "data: " + payload
  }

  lemma NoNewlineNoMatch(s: string)
    requires NoNewline(s)
    ensures !Contains(s, "\n")
  {
    forall j: nat ensures !MatchAt(s, "\n", j) {
      if j + 1 <= |s| {
        assert s[j..j + 1][0] == s[j];
      }
    }
  }

  lemma SplitAtOnlyNewline(a: string, b: string)
    requires NoNewline(a) && NoNewline(b)
    ensures Split(a + "\n" + b, "\n") == [a, b]
  {
    var s := a + "\n" + b;
    forall j: nat | j < |a| ensures !MatchAt(s, "\n", j) {
      assert s[j..j + 1][0] == s[j] == a[j];
    }
    assert s[|a|..|a| + 1] == "\n";
    assert MatchAt(s, "\n", |a|);
    var i := IndexOf(s, "\n").value;
    assert i == |a|;
    assert s[..|a|] == a;
    assert s[|a| + 1..] == b;
    NoNewlineNoMatch(b);
    SplitOfFree(b, "\n");
  }

  /** A frame written in the expected format, with a type and a payload
      that hold no newline, decodes to that type and the parse of that
      payload. */
  lemma DecodeEncodedFrame(eventType: string, payload: string, parse: JsonParser)
    requires NoNewline(eventType) && NoNewline(payload)
    ensures DecodeFrame(EncodeFrame(eventType, payload), parse)
      == match parse(payload)
         case Failure(msg) => Failure(ErrorValue(msg))
         case Success(doc) => Success(Frame(eventType, doc))
  {
    var first := "event: " + eventType;
    var second := "data: " + payload;
    assert NoNewline(first) by {
      forall i | 0 <= i < |first| ensures first[i] != '\n' {
        if i >= 7 { assert first[i] == eventType[i - 7]; }
      }
    }
    assert NoNewline(second) by {
      forall i | 0 <= i < |second| ensures second[i] != '\n' {
        if i >= 6 { assert second[i] == payload[i - 6]; }
      }
    }
    assert EncodeFrame(eventType, payload) == first + "\n" + second;
    SplitAtOnlyNewline(first, second);
    assert first[..7] == "event: ";
    assert MatchAt(first, "event: ", 0);
    assert first[7..] == eventType;
    assert second[..6] == "data: ";
    assert MatchAt(second, "data: ", 0);
    assert second[6..] == payload;
  }

  /** A frame of one line (no data line) fails: `lines[1]` is `undefined`,
      and reading its `replace` throws. */
  lemma OneLineFrameFails(frame: string, parse: JsonParser)
    requires NoNewline(frame)
    ensures DecodeFrame(frame, parse) == Failure(ErrorValue(ReadOfUndefined("replace")))
  {
    NoNewlineNoMatch(frame);
    SplitOfFree(frame, "\n");
  }

  /** A well-formed frame whose data does not parse fails with the
      parser's message. */
  lemma BadDataFrameFails(eventType: string, payload: string, parse: JsonParser)
    requires NoNewline(eventType) && NoNewline(payload) && parse(payload).Failure?
    ensures DecodeFrame(EncodeFrame(eventType, payload), parse) == Failure(ErrorValue(parse(payload).error))
  {
    DecodeEncodedFrame(eventType, payload, parse);
  }

  // ---------------------------------------------------------------------
  // Consuming the stream chunk by chunk
  // ---------------------------------------------------------------------

  /** The read loop's state between chunks: the results so far, the
      unfinished tail (`buffer`), and the exception that ended the loop. */
  datatype Progress = Progress(results: Results, buffer: string, failure: Option<Thrown>)

  /** `processEvents(buffer + chunk)`: every complete frame is dispatched and
      the text after the last separator becomes the new buffer. The buffer
      is replaced before the frames are dispatched, so it is replaced also
      when a frame fails. */
  function Feed(p: Progress, chunk: string, parse: JsonParser): Progress {
    if p.failure.Some? then p
    else
      var pieces := Split(p.buffer + chunk, FrameSep);
      var d := DispatchAll(p.results, AllButLast(pieces), parse);
      Progress(d.results, Last(pieces), d.failure)
  }

  function FeedAll(p: Progress, chunks: seq<string>, parse: JsonParser): Progress
    decreases |chunks|
  {
    if chunks == [] then p else Feed(FeedAll(p, AllButLast(chunks), parse), Last(chunks), parse)
  }

  /** Once a chunk has failed, later chunks are ignored (the read loop has
      been left by the exception). */
  lemma {:induction false} FeedAllAfterFailure(p: Progress, a: seq<string>, b: seq<string>, parse: JsonParser)
    requires FeedAll(p, a, parse).failure.Some?
    ensures FeedAll(p, a + b, parse) == FeedAll(p, a, parse)
    decreases |b|
  {
    if b == [] {
      assert a + b == a;
    } else {
      assert AllButLast(a + b) == a + AllButLast(b);
      assert Last(a + b) == Last(b);
      FeedAllAfterFailure(p, a, AllButLast(b), parse);
    }
  }

  /** The text of all chunks, in order. */
  function Concat(chunks: seq<string>): string
    decreases |chunks|
  {
    if chunks == [] then [] else Concat(AllButLast(chunks)) + Last(chunks)
  }

  /** How the stream is cut into chunks does not matter: reading the chunks
      one by one dispatches exactly the complete frames of their
      concatenation, stops at the same failure, and (when nothing failed)
      keeps the same unfinished tail. */
  lemma {:induction false} FeedAllIsSplitOfConcat(v: Results, chunks: seq<string>, parse: JsonParser)
    ensures var p := FeedAll(Progress(v, "", None), chunks, parse);
      var pieces := Split(Concat(chunks), FrameSep);
      && Dispatched(p.results, p.failure) == DispatchAll(v, AllButLast(pieces), parse)
      && (p.failure.None? ==> p.buffer == Last(pieces))
    decreases |chunks|
  {
    if chunks == [] {
      assert Concat(chunks) == [];
      assert Split([], FrameSep) == [[]];
    } else {
      var init := AllButLast(chunks);
      var c := Concat(init);
      var x := Last(chunks);
      FeedAllIsSplitOfConcat(v, init, parse);
      var p := FeedAll(Progress(v, "", None), init, parse);
      var pieces := Split(c, FrameSep);
      var tail := Split(Last(pieces) + x, FrameSep);
      SplitAppend(c, x, FrameSep);
      assert Split(c + x, FrameSep) == AllButLast(pieces) + tail;
      assert AllButLast(Split(c + x, FrameSep)) == AllButLast(pieces) + AllButLast(tail);
      assert Last(Split(c + x, FrameSep)) == Last(tail);
      DispatchAppend(v, AllButLast(pieces), AllButLast(tail), parse);
    }
  }

  /** The flush after the loop, `if (buffer) processEvents(buffer)`, never
      dispatches anything: the buffer is a piece of a split and so holds no
      separator. A frame not followed by a separator is dropped. */
  lemma FlushDispatchesNothing(v: Results, chunks: seq<string>, parse: JsonParser)
    ensures var p := FeedAll(Progress(v, "", None), chunks, parse);
      p.failure.None? ==> AllButLast(Split(p.buffer, FrameSep)) == []
  {
    var p := FeedAll(Progress(v, "", None), chunks, parse);
    if p.failure.None? {
      FeedAllIsSplitOfConcat(v, chunks, parse);
      var pieces := Split(Concat(chunks), FrameSep);
      SplitPiecesFree(Concat(chunks), FrameSep);
      assert !Contains(pieces[|pieces| - 1], FrameSep);
      SplitOfFree(p.buffer, FrameSep);
    }
  }
}
