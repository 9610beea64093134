/** The string operations of the JavaScript runtime that the modelled code
    relies on: the white space of `\s` and `String.prototype.trim`, the
    `/\s+/g` collapse, `split` and `includes` with a literal separator, and
    `replace` with a literal pattern (which replaces the first occurrence). */
module Text {
  import opened Wrappers

  // ---------------------------------------------------------------------
  // White space
  // ---------------------------------------------------------------------

  /** ECMAScript WhiteSpace and LineTerminator: the characters `\s` matches
      and `trim` removes. */
  predicate IsSpace(c: char) {
    || c == ' ' || c == '\t' || c == '\n' || c == '\U{B}' || c == '\U{C}' || c == '\r'
    || c == '\U{A0}' || c == '\U{1680}' || ('\U{2000}' <= c <= '\U{200A}')
    || c == '\U{2028}' || c == '\U{2029}' || c == '\U{202F}' || c == '\U{205F}'
    || c == '\U{3000}' || c == '\U{FEFF}'
  }

  predicate AllSpace(s: string) {
    forall i :: 0 <= i < |s| ==> IsSpace(s[i])
  }

  /** Neither end of `s` is white space. */
  predicate Trimmed(s: string) {
    s == [] || (!IsSpace(s[0]) && !IsSpace(s[|s| - 1]))
  }

  /** Every white-space character of `s` is a plain space, and no two
      white-space characters are adjacent. */
  predicate SingleSpaced(s: string) {
    forall i :: 0 <= i < |s| && IsSpace(s[i]) ==> s[i] == ' ' && (i + 1 < |s| ==> !IsSpace(s[i + 1]))
  }

  /** The characters of `s` that are not white space, in order. */
  function NonSpace(s: string): string {
    if s == [] then []
    else (if IsSpace(s[0]) then [] else [s[0]]) + NonSpace(s[1..])
  }

  /** The first index at or after `i` that does not hold white space
      (`|s|` when there is none). */
  function SkipSpaces(s: string, i: nat): (j: nat)
    requires i <= |s|
    decreases |s| - i
    ensures i <= j <= |s|
    ensures forall k :: i <= k < j ==> IsSpace(s[k])
    ensures j == |s| || !IsSpace(s[j])
  {
    if i < |s| && IsSpace(s[i]) then SkipSpaces(s, i + 1) else i
  }

  /** The end of `s[..j]` once its trailing white space is dropped, never
      going below `lo`. */
  function SkipSpacesBack(s: string, lo: nat, j: nat): (k: nat)
    requires lo <= j <= |s|
    decreases j
    ensures lo <= k <= j
    ensures forall m :: k <= m < j ==> IsSpace(s[m])
    ensures k == lo || !IsSpace(s[k - 1])
  {
    if j > lo && IsSpace(s[j - 1]) then SkipSpacesBack(s, lo, j - 1) else j
  }

  /** Where `Trim(s)` starts in `s`. */
  function TrimFrom(s: string): nat
    ensures TrimFrom(s) <= |s|
  {
    SkipSpaces(s, 0)
  }

  /** Where `Trim(s)` ends in `s`. */
  function TrimTo(s: string): nat
    ensures TrimFrom(s) <= TrimTo(s) <= |s|
  {
    SkipSpacesBack(s, TrimFrom(s), |s|)
  }

  /** `String.prototype.trim`: the infix of `s` left after removing the white
      space at both ends. */
  function Trim(s: string): (r: string)
    ensures Trimmed(r)
    ensures r == s[TrimFrom(s)..TrimTo(s)]
    ensures forall i :: 0 <= i < TrimFrom(s) ==> IsSpace(s[i])
    ensures forall i :: TrimTo(s) <= i < |s| ==> IsSpace(s[i])
  {
    s[TrimFrom(s)..TrimTo(s)]
  }

  /** The `/\s+/g` replacement with `" "`: every maximal run of white space
      becomes one plain space. */
  function CollapseSpaces(s: string): (r: string)
    decreases |s|
    ensures |r| <= |s|
    ensures r == [] <==> s == []
    ensures r != [] ==> (IsSpace(r[0]) <==> IsSpace(s[0]))
  {
    if s == [] then []
    else if IsSpace(s[0]) then " " + CollapseSpaces(s[SkipSpaces(s, 1)..])
    else [s[0]] + CollapseSpaces(s[1..])
  }

  /** `x.replace(/\s+/g, " ").trim()`, the cleaning applied to search-result
      titles and snippets. */
  function NormalizeSpaces(s: string): string {
    Trim(CollapseSpaces(s))
  }

  lemma {:induction false} NonSpaceAppend(a: string, b: string)
    ensures NonSpace(a + b) == NonSpace(a) + NonSpace(b)
    decreases |a|
  {
    if a != [] {
      assert (a + b)[0] == a[0];
      assert (a + b)[1..] == a[1..] + b;
      NonSpaceAppend(a[1..], b);
      assert NonSpace(a + b) == (if IsSpace(a[0]) then [] else [a[0]]) + NonSpace(a[1..] + b);
    } else {
      assert a + b == b;
    }
  }

  lemma {:induction false} NonSpaceOfSpaces(s: string)
    requires AllSpace(s)
    ensures NonSpace(s) == []
    decreases |s|
  {
    if s != [] {
      NonSpaceOfSpaces(s[1..]);
    }
  }

  /** Trimming removes white space only. */
  lemma TrimKeepsContent(s: string)
    ensures NonSpace(Trim(s)) == NonSpace(s)
  {
    var a, b := TrimFrom(s), TrimTo(s);
    assert s == s[..a] + s[a..b] + s[b..];
    NonSpaceAppend(s[..a] + s[a..b], s[b..]);
    NonSpaceAppend(s[..a], s[a..b]);
    NonSpaceOfSpaces(s[..a]);
    NonSpaceOfSpaces(s[b..]);
  }

  /** Collapsing white-space runs keeps every other character, in order. */
  lemma {:induction false} CollapseKeepsContent(s: string)
    ensures NonSpace(CollapseSpaces(s)) == NonSpace(s)
    decreases |s|
  {
    if s == [] {
    } else if IsSpace(s[0]) {
      var k := SkipSpaces(s, 1);
      CollapseKeepsContent(s[k..]);
      NonSpaceAppend(" ", CollapseSpaces(s[k..]));
      assert s == s[..k] + s[k..];
      NonSpaceAppend(s[..k], s[k..]);
      NonSpaceOfSpaces(s[..k]);
    } else {
      CollapseKeepsContent(s[1..]);
      NonSpaceAppend([s[0]], CollapseSpaces(s[1..]));
      assert s == [s[0]] + s[1..];
      NonSpaceAppend([s[0]], s[1..]);
    }
  }

  /** After collapsing, white space occurs only as single plain spaces. */
  lemma {:induction false} CollapseIsSingleSpaced(s: string)
    ensures SingleSpaced(CollapseSpaces(s))
    decreases |s|
  {
    if s == [] {
    } else if IsSpace(s[0]) {
      var t := s[SkipSpaces(s, 1)..];
      CollapseIsSingleSpaced(t);
      var c := CollapseSpaces(t);
      var r := " " + c;
      forall i | 0 <= i < |r| && IsSpace(r[i])
        ensures r[i] == ' ' && (i + 1 < |r| ==> !IsSpace(r[i + 1]))
      {
        if i > 0 {
          assert r[i] == c[i - 1];
        }
      }
    } else {
      CollapseIsSingleSpaced(s[1..]);
      var c := CollapseSpaces(s[1..]);
      var r := [s[0]] + c;
      forall i | 0 <= i < |r| && IsSpace(r[i])
        ensures r[i] == ' ' && (i + 1 < |r| ==> !IsSpace(r[i + 1]))
      {
        assert i > 0;
        assert r[i] == c[i - 1];
      }
    }
  }

  lemma SingleSpacedInfix(s: string, i: nat, j: nat)
    requires i <= j <= |s| && SingleSpaced(s)
    ensures SingleSpaced(s[i..j])
  {
    var t := s[i..j];
    forall k | 0 <= k < |t| && IsSpace(t[k])
      ensures t[k] == ' ' && (k + 1 < |t| ==> !IsSpace(t[k + 1]))
    {
      assert t[k] == s[i + k];
      if k + 1 < |t| {
        assert t[k + 1] == s[i + k + 1];
      }
    }
  }

  /** A cleaned title or snippet has no white space at its ends, only single
      plain spaces inside, and the same non-white-space characters as the
      original, in the same order. */
  lemma NormalizeSpacesSpec(s: string)
    ensures var r := NormalizeSpaces(s);
      && Trimmed(r)
      && SingleSpaced(r)
      && NonSpace(r) == NonSpace(s)
  {
    var c := CollapseSpaces(s);
    CollapseKeepsContent(s);
    CollapseIsSingleSpaced(s);
    TrimKeepsContent(c);
    SingleSpacedInfix(c, TrimFrom(c), TrimTo(c));
  }

  lemma {:induction false} CollapseOfSingleSpaced(s: string)
    requires SingleSpaced(s)
    ensures CollapseSpaces(s) == s
    decreases |s|
  {
    if s != [] {
      SingleSpacedInfix(s, 1, |s|);
      if IsSpace(s[0]) {
        assert s[0] == ' ';
        assert SkipSpaces(s, 1) == 1;
      }
      CollapseOfSingleSpaced(s[1..]);
      assert s == [s[0]] + s[1..];
    }
  }

  lemma TrimOfTrimmed(s: string)
    requires Trimmed(s)
    ensures Trim(s) == s
  {
  }

  /** Cleaning a cleaned string changes nothing. */
  lemma NormalizeSpacesIdempotent(s: string)
    ensures NormalizeSpaces(NormalizeSpaces(s)) == NormalizeSpaces(s)
  {
    var r := NormalizeSpaces(s);
    NormalizeSpacesSpec(s);
    CollapseOfSingleSpaced(r);
    TrimOfTrimmed(r);
  }

  /** Appending text after a non-space character does not move the end of
      a white-space run that already ends inside `a`. */
  lemma SkipSpacesAppend(a: string, b: string, i: nat)
    requires i <= |a| && SkipSpaces(a, i) < |a|
    ensures SkipSpaces(a + b, i) == SkipSpaces(a, i)
  {
    assert forall m :: 0 <= m < |a| ==> (a + b)[m] == a[m];
  }

  /** A run of white space followed by a non-space character (or nothing)
      is skipped exactly up to its end. */
  lemma SkipSpacesRun(w: string, b: string)
    requires |w| >= 1 && AllSpace(w) && (b == [] || !IsSpace(b[0]))
    ensures SkipSpaces(w + b, 1) == |w|
  {
    assert forall m :: 0 <= m < |w| ==> (w + b)[m] == w[m];
    assert |b| > 0 ==> (w + b)[|w|] == b[0];
  }

  lemma ConcatAssoc<T>(x: seq<T>, y: seq<T>, z: seq<T>)
    ensures x + (y + z) == x + y + z
  {
  }

  /** Unfolding the collapse of `a` and of `a + b` at a leading run that
      ends in `a`. */
  lemma CollapseStepSpace(a: string, b: string)
    requires a != [] && IsSpace(a[0]) && SkipSpaces(a, 1) < |a|
    ensures CollapseSpaces(a) == " " + CollapseSpaces(a[SkipSpaces(a, 1)..])
    ensures CollapseSpaces(a + b) == " " + CollapseSpaces(a[SkipSpaces(a, 1)..] + b)
  {
    SkipSpacesAppend(a, b, 1);
    assert (a + b)[0] == a[0];
    assert (a + b)[SkipSpaces(a, 1)..] == a[SkipSpaces(a, 1)..] + b;
  }

  /** Unfolding the collapse of `a` and of `a + b` at a leading non-space
      character. */
  lemma CollapseStepChar(a: string, b: string)
    requires a != [] && !IsSpace(a[0])
    ensures CollapseSpaces(a) == [a[0]] + CollapseSpaces(a[1..])
    ensures CollapseSpaces(a + b) == [a[0]] + CollapseSpaces(a[1..] + b)
  {
    assert (a + b)[0] == a[0];
    assert (a + b)[1..] == a[1..] + b;
  }

  /** Collapsing distributes over a boundary that follows a non-space
      character: no run of white space crosses it. */
  lemma {:induction false} CollapseAppend(a: string, b: string)
    requires a == [] || !IsSpace(a[|a| - 1])
    ensures CollapseSpaces(a + b) == CollapseSpaces(a) + CollapseSpaces(b)
    decreases |a|
  {
    if a == [] {
      assert a + b == b;
    } else if IsSpace(a[0]) {
      var j := SkipSpaces(a, 1);
      assert j < |a|;
      CollapseStepSpace(a, b);
      CollapseAppend(a[j..], b);
      ConcatAssoc(" ", CollapseSpaces(a[j..]), CollapseSpaces(b));
    } else {
      CollapseStepChar(a, b);
      CollapseAppend(a[1..], b);
      ConcatAssoc([a[0]], CollapseSpaces(a[1..]), CollapseSpaces(b));
    }
  }

  /** A whole run of white space becomes a single plain space. */
  lemma CollapseRun(w: string, b: string)
    requires w != [] && AllSpace(w) && (b == [] || !IsSpace(b[0]))
    ensures CollapseSpaces(w + b) == " " + CollapseSpaces(b)
  {
    SkipSpacesRun(w, b);
    assert (w + b)[0] == w[0];
    assert (w + b)[|w|..] == b;
  }

  /** Where the spaces go: a maximal run of white space `w` between `a` and
      `b` is replaced by exactly one space, and the text on either side is
      collapsed on its own. */
  lemma CollapseSplitsAtRun(a: string, w: string, b: string)
    requires w != [] && AllSpace(w)
    requires a == [] || !IsSpace(a[|a| - 1])
    requires b == [] || !IsSpace(b[0])
    ensures CollapseSpaces(a + w + b) == CollapseSpaces(a) + " " + CollapseSpaces(b)
  {
    ConcatAssoc(a, w, b);
    CollapseAppend(a, w + b);
    CollapseRun(w, b);
    ConcatAssoc(CollapseSpaces(a), " ", CollapseSpaces(b));
  }

  /** The collapsed text ends in white space exactly when the text does. */
  lemma {:induction false} CollapseEnds(s: string)
    requires s != []
    ensures var r := CollapseSpaces(s);
      r != [] && (IsSpace(r[|r| - 1]) <==> IsSpace(s[|s| - 1]))
    decreases |s|
  {
    var start := if IsSpace(s[0]) then SkipSpaces(s, 1) else 1;
    var t := s[start..];
    if t != [] {
      CollapseEnds(t);
      assert s[|s| - 1] == t[|t| - 1];
    } else if IsSpace(s[0]) {
      assert IsSpace(s[|s| - 1]);
    }
  }

  /** Two words separated by any run of white space are cleaned to the two
      cleaned words joined by exactly one space. */
  lemma NormalizeSpacesAtRun(a: string, w: string, b: string)
    requires a != [] && b != [] && Trimmed(a) && Trimmed(b)
    requires w != [] && AllSpace(w)
    ensures NormalizeSpaces(a + w + b) == NormalizeSpaces(a) + " " + NormalizeSpaces(b)
  {
    CollapseSplitsAtRun(a, w, b);
    var ca, cb := CollapseSpaces(a), CollapseSpaces(b);
    CollapseEnds(a);
    CollapseEnds(b);
    TrimOfTrimmed(ca);
    TrimOfTrimmed(cb);
    var x := ca + " " + cb;
    assert x[0] == ca[0] && x[|x| - 1] == cb[|cb| - 1];
    TrimOfTrimmed(x);
  }

  /** A trimmed text is empty exactly when the text is all white space. */
  lemma BlankTrimsToEmpty(s: string)
    ensures Trim(s) == [] <==> AllSpace(s)
  {
    if Trim(s) == [] {
      assert TrimFrom(s) == TrimTo(s);
      forall i | 0 <= i < |s| ensures IsSpace(s[i]) {
        assert i < TrimFrom(s) || TrimTo(s) <= i;
      }
    } else {
      assert !IsSpace(Trim(s)[0]);
      assert Trim(s)[0] == s[TrimFrom(s)];
    }
  }

  // ---------------------------------------------------------------------
  // Searching for a literal pattern
  // ---------------------------------------------------------------------

  /** `pat` occurs in `s` starting at index `i`. */
  predicate MatchAt(s: string, pat: string, i: nat) {
    i + |pat| <= |s| && s[i..i + |pat|] == pat
  }

  /** The first occurrence of `pat` in `s` at or after `from`. */
  function FindFrom(s: string, pat: string, from: nat): (r: Option<nat>)
    requires from <= |s|
    decreases |s| - from
    ensures r.Some? ==> from <= r.value && MatchAt(s, pat, r.value)
    ensures r.Some? ==> forall j: nat :: from <= j < r.value ==> !MatchAt(s, pat, j)
    ensures r.None? ==> forall j: nat :: from <= j ==> !MatchAt(s, pat, j)
  {
    if from + |pat| > |s| then None
    else if s[from..from + |pat|] == pat then Some(from)
    else FindFrom(s, pat, from + 1)
  }

  /** `s.indexOf(pat)`, with `None` for -1. */
  function IndexOf(s: string, pat: string): (r: Option<nat>)
    ensures r.None? ==> forall j: nat :: !MatchAt(s, pat, j)
    ensures r.Some? ==> MatchAt(s, pat, r.value) && forall j: nat :: j < r.value ==> !MatchAt(s, pat, j)
  {
    FindFrom(s, pat, 0)
  }

  /** `s.includes(pat)`. */
  predicate Contains(s: string, pat: string) {
    IndexOf(s, pat).Some?
  }

  /** `s.replace(pat, "")` with a string pattern: only the first occurrence
      is removed. */
  function RemoveFirst(s: string, pat: string): (r: string)
    ensures !Contains(s, pat) ==> r == s
    ensures MatchAt(s, pat, 0) ==> r == s[|pat|..]
  {
    match IndexOf(s, pat)
    case None => s
    case Some(i) => s[..i] + s[i + |pat|..]
  }

  // ---------------------------------------------------------------------
  // Splitting on a literal separator
  // ---------------------------------------------------------------------

  /** `s.split(sep)` for a non-empty literal separator: the pieces between the
      occurrences found scanning left to right. */
  function Split(s: string, sep: string): (r: seq<string>)
    requires sep != []
    decreases |s|
    ensures |r| >= 1
  {
    match IndexOf(s, sep)
    case None => [s]
    case Some(i) => [s[..i]] + Split(s[i + |sep|..], sep)
  }

  /** `parts.join(sep)`. */
  function Join(parts: seq<string>, sep: string): string
    requires |parts| >= 1
  {
    if |parts| == 1 then parts[0] else parts[0] + sep + Join(parts[1..], sep)
  }

  function Last<T>(xs: seq<T>): T
    requires |xs| >= 1
  {
    xs[|xs| - 1]
  }

  function AllButLast<T>(xs: seq<T>): seq<T>
    requires |xs| >= 1
  {
    xs[..|xs| - 1]
  }

  /** A string is the text before an occurrence, the pattern, and the text
      after it. */
  lemma MatchSplitsAt(s: string, pat: string, i: nat)
    requires MatchAt(s, pat, i)
    ensures s == s[..i] + pat + s[i + |pat|..]
  {
    assert s[i..] == s[i..i + |pat|] + s[i + |pat|..];
    assert s == s[..i] + s[i..];
  }

  /** Splitting at the first occurrence: the text before it, then the
      pieces of the text after it. */
  lemma SplitAtFirst(s: string, sep: string, i: nat)
    requires sep != [] && IndexOf(s, sep) == Some(i)
    ensures Split(s, sep) == [s[..i]] + Split(s[i + |sep|..], sep)
  {
  }

  /** Joining the pieces with the separator gives back the string. */
  lemma {:induction false} JoinSplit(s: string, sep: string)
    requires sep != []
    ensures Join(Split(s, sep), sep) == s
    decreases |s|
  {
    var found := IndexOf(s, sep);
    if found.Some? {
      var i := found.value;
      var rest := s[i + |sep|..];
      JoinSplit(rest, sep);
      var parts := Split(s, sep);
      SplitAtFirst(s, sep, i);
      assert Join(parts, sep) == s[..i] + sep + Join(Split(rest, sep), sep);
      MatchSplitsAt(s, sep, i);
    }
  }

  /** No piece contains the separator. */
  lemma {:induction false} SplitPiecesFree(s: string, sep: string)
    requires sep != []
    ensures forall k :: 0 <= k < |Split(s, sep)| ==> !Contains(Split(s, sep)[k], sep)
    decreases |s|
  {
    match IndexOf(s, sep)
    case None =>
    case Some(i) =>
      SplitPiecesFree(s[i + |sep|..], sep);
      forall j: nat ensures !MatchAt(s[..i], sep, j) {
        if j + |sep| <= i {
          assert !MatchAt(s, sep, j);
          assert s[..i][j..j + |sep|] == s[j..j + |sep|];
        }
      }
  }

  /** A string without the separator splits into itself alone. */
  lemma SplitOfFree(s: string, sep: string)
    requires sep != [] && !Contains(s, sep)
    ensures Split(s, sep) == [s]
  {
  }

  /** An occurrence inside `s` is still the first one after appending `c`. */
  lemma IndexOfAppend(s: string, c: string, pat: string, i: nat)
    requires IndexOf(s, pat) == Some(i)
    ensures IndexOf(s + c, pat) == Some(i)
  {
    assert (s + c)[i..i + |pat|] == s[i..i + |pat|];
    assert MatchAt(s + c, pat, i);
    forall j: nat | j < i ensures !MatchAt(s + c, pat, j) {
      assert !MatchAt(s, pat, j);
      assert (s + c)[j..j + |pat|] == s[j..j + |pat|];
    }
  }

  /** The pieces of `s + c` are the finished pieces of `s` followed by the
      pieces of its unfinished last piece extended by `c`: whatever follows
      cannot change a piece that a separator has already closed. */
  lemma {:induction false} SplitAppend(s: string, c: string, sep: string)
    requires sep != []
    ensures Split(s + c, sep) == AllButLast(Split(s, sep)) + Split(Last(Split(s, sep)) + c, sep)
    decreases |s|
  {
    var found := IndexOf(s, sep);
    if found.Some? {
      var i := found.value;
      var rest := s[i + |sep|..];
      IndexOfAppend(s, c, sep, i);
      assert (s + c)[..i] == s[..i];
      assert (s + c)[i + |sep|..] == rest + c;
      SplitAppend(rest, c, sep);
      SplitAtFirst(s + c, sep, i);
      SplitAtFirst(s, sep, i);
    }
  }

  /** Number of occurrences of the character `x` in `s`. */
  function Count(s: string, x: char): nat {
    if s == [] then 0 else (if s[0] == x then 1 else 0) + Count(s[1..], x)
  }

  lemma {:induction false} CountAppend(a: string, b: string, x: char)
    ensures Count(a + b, x) == Count(a, x) + Count(b, x)
    decreases |a|
  {
    if a != [] {
      assert (a + b)[0] == a[0];
      assert (a + b)[1..] == a[1..] + b;
      CountAppend(a[1..], b, x);
    } else {
      assert a + b == b;
    }
  }

  /** Splitting on a one-character separator gives one piece more than the
      number of separators. */
  lemma {:induction false} SplitCount(s: string, x: char)
    ensures |Split(s, [x])| == Count(s, x) + 1
    decreases |s|
  {
    match IndexOf(s, [x])
    case None =>
      forall j | 0 <= j < |s| ensures s[j] != x {
        assert !MatchAt(s, [x], j);
        assert s[j..j + 1] == [s[j]];
      }
      CountAbsent(s, x);
    case Some(i) =>
      SplitCount(s[i + 1..], x);
      assert s == s[..i] + [x] + s[i + 1..];
      CountAppend(s[..i] + [x], s[i + 1..], x);
      CountAppend(s[..i], [x], x);
      assert Count(s[..i], x) == 0 by {
        forall j | 0 <= j < i ensures s[..i][j] != x {
          assert !MatchAt(s, [x], j);
          assert s[j..j + 1] == [s[j]];
        }
        CountAbsent(s[..i], x);
      }
  }

  lemma {:induction false} CountAbsent(s: string, x: char)
    requires forall j :: 0 <= j < |s| ==> s[j] != x
    ensures Count(s, x) == 0
    decreases |s|
  {
    if s != [] {
      CountAbsent(s[1..], x);
    }
  }
}
