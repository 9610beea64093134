/** The typewriter effect of src/components/StreamingText.tsx: the effect
    reveals the text one character more per timer tick, then marks itself
    complete and calls `onComplete`. Timer ticks are the calls of `Tick`;
    the time between them is not modelled. */
module StreamingText {

  /** Every prefix of `text`, shortest first. */
  function Prefixes(text: string): (r: seq<string>)
    ensures |r| == |text| + 1
    ensures forall i :: 0 <= i < |r| ==> |r[i]| == i && r[i] <= text
    ensures r[|text|] == text
  {
    seq(|text| + 1, i requires 0 <= i <= |text| => text[..i])
  }

  class StreamingText {
    const text: string
    const showCursor: bool
    var displayedText: string
    var isComplete: bool
    /** The effect's local counter. */
    var currentIndex: nat
    /** A timer is scheduled to call `streamText` again. */
    var pending: bool
    /** Every value `displayedText` was set to in this run, in order. */
    var shown: seq<string>
    /** The calls of `onComplete` in this run. */
    var completions: nat

    /** The state of a run after `currentIndex` calls of `streamText`. */
    ghost predicate Valid()
      reads this
    {
      && currentIndex <= |text| + 1
      && shown == Prefixes(text)[..currentIndex]
      && displayedText == (if currentIndex == 0 then "" else text[..currentIndex - 1])
      && (isComplete <==> currentIndex == |text| + 1)
      && (pending <==> 1 <= currentIndex <= |text|)
      && completions == (if isComplete then 1 else 0)
    }

    /** The cursor is drawn while the text is still streaming. */
    function CursorVisible(): bool
      reads this
    {
      showCursor && !isComplete
    }

    constructor(t: string, cursor: bool)
      ensures text == t && showCursor == cursor
      ensures displayedText == "" && !isComplete && !pending && shown == [] && completions == 0
    {
      text := t;
      showCursor := cursor;
      displayedText := "";
      isComplete := false;
      currentIndex := 0;
      pending := false;
      shown := [];
      completions := 0;
    }

    /** One call of `streamText`: show the next prefix, then either schedule
        the next call or complete. */
    method Tick()
      requires Valid() && currentIndex <= |text|
      modifies this
      ensures Valid()
      ensures currentIndex == old(currentIndex) + 1
      ensures shown == old(shown) + [text[..old(currentIndex)]] && displayedText == text[..old(currentIndex)]
      ensures pending <==> currentIndex <= |text|
      ensures isComplete <==> !pending
      ensures completions == (if isComplete then 1 else 0)
    {
      displayedText := text[..currentIndex];
      shown := shown + [displayedText];
      currentIndex := currentIndex + 1;
      if currentIndex <= |text| {
        pending := true;
      } else {
        pending := false;
        isComplete := true;
        completions := completions + 1;
      }
    }

    /** The effect body: a new run starts from the empty text, not
        complete, and shows its first prefix at once. */
    method Start()
      modifies this
      ensures Valid()
      ensures shown == [""] && displayedText == ""
      ensures isComplete <==> text == ""
    {
      currentIndex := 0;
      displayedText := "";
      isComplete := false;
      pending := false;
      shown := [];
      completions := 0;
      Tick();
    }

    /** The effect's cleanup: the scheduled call is cancelled and the
        display cleared. */
    method Cancel()
      modifies this
      ensures !pending && displayedText == "" && !isComplete
      ensures CursorVisible() == showCursor
      ensures currentIndex == old(currentIndex) && shown == old(shown) && completions == old(completions)
    {
      pending := false;
      displayedText := "";
      isComplete := false;
    }

    /** A run left alone until its last scheduled call: every prefix was
        shown, shortest first and each once; the whole text is displayed;
        the run is complete, `onComplete` was called once, and the cursor
        is hidden. */
    method Play()
      modifies this
      ensures Valid()
      ensures shown == Prefixes(text)
      ensures displayedText == text && isComplete && completions == 1
      ensures !CursorVisible()
    {
      Start();
      while pending
        invariant Valid()
        decreases |text| + 1 - currentIndex
      {
        Tick();
      }
      assert Prefixes(text)[..|text| + 1] == Prefixes(text);
    }
  }
}
