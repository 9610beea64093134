/** The clarification dialog of src/components/SearchQuestionnaire.tsx: the
    table of questions, and the component that asks for each missing
    parameter in turn and hands the collected answers to `onComplete` after
    the last one. */
module Questionnaire {
  import opened Wrappers
  import opened Text
  import opened Types

  datatype Kind = TextInput | Select | Confirm

  datatype Question = Question(id: string, text: string, options: Option<seq<string>>, kind: Kind, param: string)

  /** `QUESTIONS`. */
  const Questions: map<string, Question> := map[
    "caste" := Question("caste", "What is your caste category?",
      Some(["General", "SC", "ST", "OBC", "Other"]), Select, "caste"),
    "religion" := Question("religion", "What is your religion?",
      Some(["Hindu", "Muslim", "Christian", "Buddhist", "Sikh", "Other"]), Select, "religion"),
    "state" := Question("state", "Which state are you looking for scholarships in?",
      None, TextInput, "state"),
    "educationLevel" := Question("educationLevel", "What is your education level?",
      Some(["High School", "Undergraduate", "Postgraduate", "PhD", "Diploma", "Professional Course"]),
      Select, "educationLevel"),
    "income" := Question("income", "What is your family's annual income range?",
      Some(["Below 1 Lakh", "1-2.5 Lakhs", "2.5-5 Lakhs", "5-8 Lakhs", "Above 8 Lakhs"]), Select, "income"),
    "category" := Question("category", "Do you belong to any special category?",
      Some(["Minority", "Physically Challenged", "Single Parent", "Merit Based", "Sports Quota", "None"]),
      Select, "category")
  ]

  /** Every entry is filed under its own id and asks for the parameter of
      that name; exactly the select questions have options, and those are
      non-empty. */
  lemma QuestionsWellFormed()
    ensures Questions.Keys == {"caste", "religion", "state", "educationLevel", "income", "category"}
    ensures forall k :: k in Questions ==> Questions[k].id == k && Questions[k].param == k
    ensures forall k :: k in Questions ==> (Questions[k].kind == Select <==> Questions[k].options.Some?)
    ensures forall k :: k in Questions && Questions[k].options.Some? ==> |Questions[k].options.value| >= 5
  {
  }

  /** What the component needs of `missingParams`: at least one name, and
      every name a key of the table (otherwise the question lookup is
      `undefined` and rendering fails). */
  predicate ValidParams(params: seq<string>) {
    |params| >= 1 && forall i :: 0 <= i < |params| ==> params[i] in Questions
  }

  // ---------------------------------------------------------------------
  // The answer sequence, as values
  // ---------------------------------------------------------------------

  /** The component's state: the question index, the answers so far, and
      the maps handed to `onComplete`, in order. */
  datatype QState = QState(index: nat, answers: Params, completed: seq<Params>)

  function Start(): QState {
    QState(0, map[], [])
  }

  /** `handleAnswer(answer)`: record the answer under the current name; at
      the last question call `onComplete`, otherwise move to the next. */
  function Step(s: QState, params: seq<string>, answer: string): QState
    requires s.index < |params|
  {
    var newAnswers := s.answers[params[s.index] := answer];
    if s.index == |params| - 1 then QState(s.index, newAnswers, s.completed + [newAnswers])
    else QState(s.index + 1, newAnswers, s.completed)
  }

  /** The state after a sequence of answers. */
  function Run(params: seq<string>, replies: seq<string>): (s: QState)
    requires |params| >= 1
    ensures s.index < |params|
    decreases |replies|
  {
    if replies == [] then Start() else Step(Run(params, AllButLast(replies)), params, Last(replies))
  }

  /** The names asked for by the first `k` questions. */
  function Asked(params: seq<string>, k: nat): set<string>
    requires k <= |params|
  {
    set i | 0 <= i < k :: params[i]
  }

  /** Over the first `n` answers (`n` the number of missing parameters): the
      index is the number of answers, and stays at the last question once
      all are answered; `onComplete` has not been called before the n-th
      answer and has been called exactly once after it, with the answers;
      the answers hold exactly the names asked so far; and each name holds
      the latest answer given for it. */
  lemma RunSpec(params: seq<string>, replies: seq<string>)
    requires |params| >= 1 && |replies| <= |params|
    ensures var s := Run(params, replies);
      var k := |replies|;
      && (k < |params| ==> s.index == k && s.completed == [])
      && (k == |params| ==> s.index == |params| - 1 && s.completed == [s.answers])
      && s.answers.Keys == Asked(params, k)
      && (forall i :: 0 <= i < k && (forall j :: i < j < k ==> params[j] != params[i])
            ==> s.answers[params[i]] == replies[i])
  {
    RunProgress(params, replies);
    RunAnswers(params, replies);
  }

  /** The index counts the answers, and `onComplete` fires with the n-th. */
  lemma {:induction false} RunProgress(params: seq<string>, replies: seq<string>)
    requires |params| >= 1 && |replies| <= |params|
    ensures var s := Run(params, replies);
      && (|replies| < |params| ==> s.index == |replies| && s.completed == [])
      && (|replies| == |params| ==> s.index == |params| - 1 && s.completed == [s.answers])
    decreases |replies|
  {
    if replies != [] {
      RunProgress(params, AllButLast(replies));
    }
  }

  /** Each name asked holds the latest of the replies given for it. */
  predicate Latest(params: seq<string>, answers: Params, replies: seq<string>)
    requires |replies| <= |params|
  {
    forall i {:trigger replies[i]} :: 0 <= i < |replies| && (forall j :: i < j < |replies| ==> params[j] != params[i])
      ==> params[i] in answers && answers[params[i]] == replies[i]
  }

  /** Recording the next reply under the next name keeps `Latest`. */
  lemma LatestStep(params: seq<string>, answers: Params, replies: seq<string>)
    requires 1 <= |replies| <= |params|
    requires Latest(params, answers, AllButLast(replies))
    ensures Latest(params, answers[params[|replies| - 1] := Last(replies)], replies)
  {
    var k := |replies|;
    var init := AllButLast(replies);
    var updated := answers[params[k - 1] := Last(replies)];
    forall i | 0 <= i < k && (forall j :: i < j < k ==> params[j] != params[i])
      ensures params[i] in updated && updated[params[i]] == replies[i]
    {
      if i < k - 1 {
        assert params[k - 1] != params[i];
        assert forall j :: i < j < |init| ==> params[j] != params[i];
        assert init[i] == replies[i];
      }
    }
  }

  /** The answers hold the names asked so far, each with its latest answer. */
  lemma {:induction false} RunAnswers(params: seq<string>, replies: seq<string>)
    requires |params| >= 1 && |replies| <= |params|
    ensures Run(params, replies).answers.Keys == Asked(params, |replies|)
    ensures Latest(params, Run(params, replies).answers, replies)
    decreases |replies|
  {
    var k := |replies|;
    if k > 0 {
      var init := AllButLast(replies);
      RunAnswers(params, init);
      RunProgress(params, init);
      var prev := Run(params, init);
      assert Run(params, replies).answers == prev.answers[params[k - 1] := Last(replies)];
      AskedStep(params, k);
      LatestStep(params, prev.answers, replies);
    } else {
      assert Asked(params, 0) == {};
    }
  }

  /** One more question asks for one more name. */
  lemma AskedStep(params: seq<string>, k: nat)
    requires 1 <= k <= |params|
    ensures Asked(params, k) == Asked(params, k - 1) + {params[k - 1]}
  {
    forall x | x in Asked(params, k) ensures x in Asked(params, k - 1) + {params[k - 1]} {
      var i :| 0 <= i < k && params[i] == x;
      if i < k - 1 {
        assert x in Asked(params, k - 1);
      }
    }
  }

  /** An answer keeps every earlier entry other than the current name's. */
  lemma StepKeepsEarlierAnswers(s: QState, params: seq<string>, answer: string)
    requires s.index < |params|
    ensures var t := Step(s, params, answer);
      && t.answers[params[s.index]] == answer
      && (forall name :: name in s.answers ==> name in t.answers)
      && (forall name :: name in s.answers && name != params[s.index] ==> t.answers[name] == s.answers[name])
      && t.index <= s.index + 1 && t.index < |params|
  {
  }

  // ---------------------------------------------------------------------
  // The component
  // ---------------------------------------------------------------------

  class SearchQuestionnaire {
    const missingParams: seq<string>
    var currentQuestionIndex: nat
    var answers: Params
    var inputValue: string
    /** The calls of `onComplete`, in order. */
    var completions: seq<Params>

    ghost predicate Valid()
      reads this
    {
      ValidParams(missingParams) && currentQuestionIndex < |missingParams|
    }

    function State(): QState
      reads this
    {
      QState(currentQuestionIndex, answers, completions)
    }

    /** The question on screen. */
    function CurrentQuestion(): Question
      reads this
      requires Valid()
    {
      Questions[missingParams[currentQuestionIndex]]
    }

    constructor(missing: seq<string>)
      requires ValidParams(missing)
      ensures Valid() && missingParams == missing
      ensures State() == Start() && inputValue == ""
    {
      missingParams := missing;
      currentQuestionIndex := 0;
      answers := map[];
      inputValue := "";
      completions := [];
    }

    /** `handleAnswer(answer)`. */
    method HandleAnswer(answer: string)
      requires Valid()
      modifies this
      ensures Valid()
      ensures State() == Step(old(State()), missingParams, answer)
      ensures inputValue == ""
    {
      var newAnswers := answers[missingParams[currentQuestionIndex] := answer];
      answers := newAnswers;
      inputValue := "";
      if currentQuestionIndex == |missingParams| - 1 {
        completions := completions + [newAnswers];
      } else {
        currentQuestionIndex := currentQuestionIndex + 1;
      }
    }

    /** Typing into the text field. */
    method ChangeInput(value: string)
      modifies this
      ensures State() == old(State()) && inputValue == value
    {
      inputValue := value;
    }

    /** `handleSubmitText`: a blank input does nothing; otherwise the
        trimmed input is the answer. */
    method HandleSubmitText()
      requires Valid()
      modifies this
      ensures Valid()
      ensures AllSpace(old(inputValue)) ==> State() == old(State()) && inputValue == old(inputValue)
      ensures !AllSpace(old(inputValue)) ==> State() == Step(old(State()), missingParams, Trim(old(inputValue)))
    {
      var trimmed := Trim(inputValue);
      if trimmed != [] {
        HandleAnswer(trimmed);
      } else {
        BlankTrimsToEmpty(inputValue);
      }
    }

    /** Clicking option `k` of a select question: the answer recorded is
        one of that question's options. */
    method ChooseOption(k: nat)
      requires Valid() && CurrentQuestion().kind == Select
      requires CurrentQuestion().options.Some? && k < |CurrentQuestion().options.value|
      modifies this
      ensures Valid()
      ensures State() == Step(old(State()), missingParams, old(CurrentQuestion()).options.value[k])
      ensures answers[missingParams[old(currentQuestionIndex)]] in old(CurrentQuestion()).options.value
    {
      var option := CurrentQuestion().options.value[k];
      HandleAnswer(option);
    }
  }
}
