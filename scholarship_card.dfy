/** The two pieces of logic in src/components/ScholarshipCard.tsx: the
    normalisation of the `requirements` field into a list, and the title
    shown when the title is empty. */
module ScholarshipCard {
  import opened Text
  import opened Types

  /** `formatList`: nothing and the empty string give no items; an array is
      used as it is; a string with a comma is split on every comma and each
      piece trimmed; any other string is the single item. */
  function FormatList(input: Requirements): (r: seq<string>)
    ensures input.Absent? ==> r == []
    ensures input.Listed? ==> r == input.items
    ensures input.Described? && !Contains(input.text, ",") ==> r == (if input.text == "" then [] else [input.text])
  {
    match input
    case Absent => []
    case Listed(items) => items
    case Described(text) =>
      if text == "" then []
      else if Contains(text, ",") then
        var pieces := Split(text, ",");
        seq(|pieces|, i requires 0 <= i < |pieces| => Trim(pieces[i]))
      else [text]
  }

  /** A comma-separated text gives one item per comma-separated field, one
      more than there are commas, empty fields included: item `i` is field
      `i` trimmed, and the fields put back together with commas are the
      text. */
  lemma FormatCommaSeparated(text: string)
    requires Contains(text, ",")
    ensures var r := FormatList(Described(text));
      var fields := Split(text, ",");
      && |r| == Count(text, ',') + 1
      && |r| >= 2
      && (forall i :: 0 <= i < |r| ==> r[i] == Trim(fields[i]) && Trimmed(r[i]))
      && Join(fields, ",") == text
  {
    assert text != "";
    SplitCount(text, ',');
    assert [','] == ",";
    JoinSplit(text, ",");
    var fields := Split(text, ",");
    var i := IndexOf(text, ",").value;
    assert MatchAt(text, ",", i);
    assert text[i..i + 1][0] == text[i] == ',';
    assert Count(text, ',') >= 1 by {
      if Count(text, ',') == 0 {
        CountZeroMeansAbsent(text, ',', i);
      }
    }
  }

  lemma {:induction false} CountZeroMeansAbsent(s: string, x: char, i: nat)
    requires i < |s| && s[i] == x
    ensures Count(s, x) >= 1
  {
    assert s == s[..i] + s[i..];
    CountAppend(s[..i], s[i..], x);
    assert s[i..] == [s[i]] + s[i + 1..];
    CountAppend([s[i]], s[i + 1..], x);
  }

  /** The requirements section is shown (the list is non-empty) exactly
      when the field is a non-empty array or a non-empty string. */
  lemma ShowsRequirementsIff(input: Requirements)
    ensures |FormatList(input)| > 0
      <==> (input.Listed? && input.items != []) || (input.Described? && input.text != "")
  {
    if input.Described? && input.text != "" && Contains(input.text, ",") {
      FormatCommaSeparated(input.text);
    }
  }

  /** `title || "Scholarship Title"`. */
  function DisplayTitle(title: string): (r: string)
    ensures r != ""
    ensures title != "" ==> r == title
    ensures title == "" ==> r == "Scholarship Title"
  {
    if title == "" then "Scholarship Title" else title
  }
}
