/** Exam scoring (components/ExamModal.tsx): True/False questions and Key
    Feature Problem (KFP) questions whose options are CORRECT, NEUTRAL or
    DISCORDANCE. The submitted score and the score shown on the review
    screen follow two different rules; both are modelled, and the lemmas at
    the end say where they agree and give the inputs where they do not. */
module ExamModal {
  import opened Wrappers
  import opened Types
  import opened Common

  /** One entry of the answers record: a True/False choice, or the ids of the
      selected options of a KFP question. */
  datatype Answer = Choice(b: bool) | Selected(ids: seq<string>)

  /** The component's state once questions are loaded. */
  datatype ExamState = ExamState(
    questions: seq<QuizQuestion>,
    answers: map<nat, Answer>,
    submitted: bool,
    fatalError: bool)

  /** `answers[i]`, absent when the question was never answered. */
  function Lookup(answers: map<nat, Answer>, i: nat): Option<Answer> {
    if i in answers then Some(answers[i]) else None
  }

  /** `(answers[i] as string[]) || []`. */
  function SelectedIds(a: Option<Answer>): seq<string> {
    match a
    case Some(Selected(ids)) => ids
    case _ => []
  }

  /** `answers[i] === q.c`: an unanswered question matches an absent `c`. */
  predicate TFCorrect(a: Option<Answer>, c: Option<bool>) {
    match a
    case None => c.None?
    case Some(Choice(b)) => c == Some(b)
    case Some(Selected(_)) => false
  }

  /** The ids of the CORRECT options, in order. */
  function CorrectIds(opts: seq<QuizOption>): (ids: seq<string>)
    ensures forall id :: id in ids <==> exists k :: 0 <= k < |opts| && opts[k].id == id && opts[k].status == Correct
  {
    if opts == [] then []
    else
      var rest := CorrectIds(opts[1..]);
      assert forall k :: 1 <= k < |opts| ==> opts[k] == opts[1..][k - 1];
      if opts[0].status == Correct then [opts[0].id] + rest else rest
  }

  /** Both inclusions between the selected ids and the CORRECT ids. */
  predicate SameIds(correct: seq<string>, selected: seq<string>) {
    (forall id :: id in correct ==> id in selected) && (forall id :: id in selected ==> id in correct)
  }

  predicate HasDiscordance(opts: seq<QuizOption>, selected: seq<string>) {
    exists k :: 0 <= k < |opts| && opts[k].id in selected && opts[k].status == Discordance
  }

  /** On submission, a question typed KFP that carries an options list (even
      an empty one) is scored by the KFP rule; every other question by the
      True/False rule. */
  predicate IsKfpWithOptions(q: QuizQuestion) {
    q.qtype == Some(KFP) && q.options.Some?
  }

  /** The question selects a DISCORDANCE option, which fails the whole exam. */
  predicate FatalAt(q: QuizQuestion, a: Option<Answer>) {
    IsKfpWithOptions(q) && HasDiscordance(q.options.value, SelectedIds(a))
  }

  /** The per-question rule of `handleSubmit`. */
  predicate SubmitCorrect(q: QuizQuestion, a: Option<Answer>) {
    if IsKfpWithOptions(q) then
      var sel := SelectedIds(a);
      !HasDiscordance(q.options.value, sel) && SameIds(CorrectIds(q.options.value), sel)
    else TFCorrect(a, q.c)
  }

  /** The number of the first `n` questions `handleSubmit` counts correct. */
  function SubmitCount(qs: seq<QuizQuestion>, answers: map<nat, Answer>, n: nat): (count: nat)
    requires n <= |qs|
    ensures count <= n
  {
    if n == 0 then 0
    else SubmitCount(qs, answers, n - 1) + (if SubmitCorrect(qs[n - 1], Lookup(answers, n - 1)) then 1 else 0)
  }

  predicate AnyFatal(qs: seq<QuizQuestion>, answers: map<nat, Answer>, n: nat)
    requires n <= |qs|
  {
    exists i :: 0 <= i < n && FatalAt(qs[i], Lookup(answers, i))
  }

  /** The per-question rule of `calculateScore` and of the review screen: a
      question typed KFP needs at least one CORRECT option, whether or not
      it carries an options list. */
  predicate DisplayCorrect(q: QuizQuestion, a: Option<Answer>) {
    if q.qtype == Some(KFP) then
      var correct := if q.options.Some? then CorrectIds(q.options.value) else [];
      |correct| > 0 && SameIds(correct, SelectedIds(a))
    else TFCorrect(a, q.c)
  }

  function DisplayCount(qs: seq<QuizQuestion>, answers: map<nat, Answer>, n: nat): (count: nat)
    requires n <= |qs|
    ensures count <= n
  {
    if n == 0 then 0
    else DisplayCount(qs, answers, n - 1) + (if DisplayCorrect(qs[n - 1], Lookup(answers, n - 1)) then 1 else 0)
  }

  /** `handleAnswerTF`: after submission nothing changes; before, only the
      entry for `index` is set. */
  function AnswerTF(s: ExamState, index: nat, choice: bool): (r: ExamState)
    ensures s.submitted ==> r == s
    ensures !s.submitted ==>
      && r.(answers := s.answers) == s
      && Lookup(r.answers, index) == Some(Choice(choice))
      && forall j :: j != index ==> Lookup(r.answers, j) == Lookup(s.answers, j)
  {
    if s.submitted then s else s.(answers := s.answers[index := Choice(choice)])
  }

  /** `filter(id => id !== x)`. */
  function RemoveAll(s: seq<string>, x: string): (r: seq<string>)
    ensures x !in r
    ensures forall y :: y != x ==> (y in r <==> y in s)
    ensures |r| <= |s|
  {
    if s == [] then []
    else if s[0] == x then RemoveAll(s[1..], x)
    else [s[0]] + RemoveAll(s[1..], x)
  }

  /** Selecting a KFP option: append it when absent, drop every occurrence
      when present. */
  function ToggleId(s: seq<string>, x: string): (r: seq<string>)
    ensures x in r <==> x !in s
    ensures forall y :: y != x ==> (y in r <==> y in s)
  {
    if x in s then RemoveAll(s, x) else s + [x]
  }

  /** `handleAnswerKFP`. */
  function AnswerKFP(s: ExamState, index: nat, optionId: string): (r: ExamState)
    ensures s.submitted ==> r == s
    ensures !s.submitted ==>
      && r.(answers := s.answers) == s
      && Lookup(r.answers, index) == Some(Selected(ToggleId(SelectedIds(Lookup(s.answers, index)), optionId)))
      && forall j :: j != index ==> Lookup(r.answers, j) == Lookup(s.answers, j)
  {
    if s.submitted then s
    else s.(answers := s.answers[index := Selected(ToggleId(SelectedIds(Lookup(s.answers, index)), optionId))])
  }

  /** Filtering out an id that is not there changes nothing. */
  lemma {:induction false} RemoveAllAbsent(s: seq<string>, x: string)
    requires x !in s
    ensures RemoveAll(s, x) == s
  {
    if s != [] {
      RemoveAllAbsent(s[1..], x);
    }
  }

  /** Selecting an option twice restores the previous selection. */
  lemma {:induction false} ToggleTwiceRestores(s: seq<string>, x: string)
    requires x !in s
    ensures ToggleId(ToggleId(s, x), x) == s
  {
    RemoveAllTail(s, x);
  }

  lemma {:induction false} RemoveAllTail(s: seq<string>, x: string)
    requires x !in s
    ensures RemoveAll(s + [x], x) == s
  {
    if s == [] {
    } else {
      assert (s + [x])[1..] == s[1..] + [x];
      RemoveAllTail(s[1..], x);
    }
  }

  /** Filtering keeps a selection free of repeated ids. */
  lemma {:induction false} RemoveAllKeepsDistinct(s: seq<string>, x: string)
    requires NoDuplicates(s)
    ensures NoDuplicates(RemoveAll(s, x))
  {
    if s != [] {
      RemoveAllKeepsDistinct(s[1..], x);
      var rest := RemoveAll(s[1..], x);
      if s[0] != x {
        assert s[0] !in s[1..];
        assert forall i :: 0 <= i < |rest| ==> rest[i] in rest;
      }
    }
  }

  /** Selections made through the toggle never repeat an id. */
  lemma ToggleKeepsDistinct(s: seq<string>, x: string)
    requires NoDuplicates(s)
    ensures NoDuplicates(ToggleId(s, x))
  {
    if x in s {
      RemoveAllKeepsDistinct(s, x);
    }
  }

  /** `handleSubmit`: score every question, then zero the score if any
      DISCORDANCE option was selected. The result's id and date are the
      clock readings the source takes. */
  method HandleSubmit(s: ExamState, id: string, date: Moment) returns (next: ExamState, result: ExamResult)
    ensures var fatal := AnyFatal(s.questions, s.answers, |s.questions|);
      && next == s.(submitted := true, fatalError := s.fatalError || fatal)
      && result.score == (if fatal then 0 else SubmitCount(s.questions, s.answers, |s.questions|))
    ensures result.id == id && result.date == date && result.total == |s.questions|
    ensures 0 <= result.score <= result.total
    ensures (exists i :: 0 <= i < |s.questions| && FatalAt(s.questions[i], Lookup(s.answers, i))) ==> result.score == 0
  {
    var correctCount := 0;
    var isFatal := false;
    var i := 0;
    while i < |s.questions|
      invariant 0 <= i <= |s.questions|
      invariant correctCount == SubmitCount(s.questions, s.answers, i)
      invariant isFatal == AnyFatal(s.questions, s.answers, i)
    {
      var q := s.questions[i];
      var a := Lookup(s.answers, i);
      if q.qtype == Some(KFP) && q.options.Some? {
        var selectedIds := SelectedIds(a);
        if HasDiscordance(q.options.value, selectedIds) {
          isFatal := true;
        } else if SameIds(CorrectIds(q.options.value), selectedIds) {
          correctCount := correctCount + 1;
        }
      } else if TFCorrect(a, q.c) {
        correctCount := correctCount + 1;
      }
      i := i + 1;
    }
    next := s.(submitted := true, fatalError := s.fatalError || isFatal);
    if isFatal {
      correctCount := 0;
    }
    result := ExamResult(id, date, correctCount, |s.questions|);
  }

  /** `calculateScore`: the count shown on the review screen, without the
      DISCORDANCE rule (the screen applies that separately). */
  method CalculateScore(qs: seq<QuizQuestion>, answers: map<nat, Answer>) returns (score: nat)
    ensures score == DisplayCount(qs, answers, |qs|)
    ensures score <= |qs|
  {
    score := 0;
    var i := 0;
    while i < |qs|
      invariant 0 <= i <= |qs|
      invariant score == DisplayCount(qs, answers, i)
    {
      var q := qs[i];
      var a := Lookup(answers, i);
      if q.qtype == Some(KFP) {
        var correctIds := if q.options.Some? then CorrectIds(q.options.value) else [];
        if |correctIds| > 0 && SameIds(correctIds, SelectedIds(a)) {
          score := score + 1;
        }
      } else if TFCorrect(a, q.c) {
        score := score + 1;
      }
      i := i + 1;
    }
  }

  /** The percentage on the review screen: 0 without questions or after a
      DISCORDANCE, otherwise the rounded share of the displayed score. */
  function DisplayPercentage(s: ExamState): (p: nat)
    ensures p <= 100
    ensures s.questions == [] || s.fatalError ==> p == 0
    ensures |s.questions| > 0 && !s.fatalError ==>
      p == RoundedPercent(DisplayCount(s.questions, s.answers, |s.questions|), |s.questions|)
  {
    if |s.questions| > 0 then
      RoundedPercent(if s.fatalError then 0 else DisplayCount(s.questions, s.answers, |s.questions|), |s.questions|)
    else 0
  }

  /** A KFP question with options counts on submission exactly when no
      DISCORDANCE option is selected, every CORRECT option is selected, and
      every selected id is that of a CORRECT option. */
  lemma KfpCountsIffExactSelection(q: QuizQuestion, a: Option<Answer>)
    requires IsKfpWithOptions(q)
    ensures var opts := q.options.value;
            var sel := SelectedIds(a);
            SubmitCorrect(q, a) <==>
              && !FatalAt(q, a)
              && (forall k :: 0 <= k < |opts| && opts[k].status == Correct ==> opts[k].id in sel)
              && (forall id :: id in sel ==> exists k :: 0 <= k < |opts| && opts[k].id == id && opts[k].status == Correct)
  {
    var opts := q.options.value;
    var correct := CorrectIds(opts);
    assert forall k :: 0 <= k < |opts| && opts[k].status == Correct ==> opts[k].id in correct;
  }

  /** An unanswered question that has an expected True/False answer is never
      counted, on submission or on the review screen. */
  lemma UnansweredNeverCorrect(q: QuizQuestion)
    requires !IsKfpWithOptions(q) && q.c.Some?
    ensures !SubmitCorrect(q, None) && !DisplayCorrect(q, None)
  {
  }

  /** The two rules agree on a question that is not KFP, or that is KFP with
      options, at least one of them CORRECT, and no DISCORDANCE selected. */
  lemma RulesAgreeOnQuestion(q: QuizQuestion, a: Option<Answer>)
    requires q.qtype != Some(KFP) || (IsKfpWithOptions(q) && |CorrectIds(q.options.value)| > 0 && !FatalAt(q, a))
    ensures SubmitCorrect(q, a) == DisplayCorrect(q, a)
  {
  }

  /** An exam whose KFP questions all carry a CORRECT option, with no
      DISCORDANCE selected, gets the same score on submission and on screen. */
  lemma {:induction false} ScoresAgree(qs: seq<QuizQuestion>, answers: map<nat, Answer>, n: nat)
    requires n <= |qs|
    requires forall i :: 0 <= i < n ==>
      qs[i].qtype != Some(KFP) ||
      (IsKfpWithOptions(qs[i]) && |CorrectIds(qs[i].options.value)| > 0 && !FatalAt(qs[i], Lookup(answers, i)))
    ensures SubmitCount(qs, answers, n) == DisplayCount(qs, answers, n)
  {
    if n > 0 {
      ScoresAgree(qs, answers, n - 1);
      RulesAgreeOnQuestion(qs[n - 1], Lookup(answers, n - 1));
    }
  }

  /** Where the rules part: a KFP question none of whose options is CORRECT,
      left unanswered, counts on submission but not on screen; so does a
      question typed KFP without options and without an expected answer. */
  lemma RulesDisagree()
    ensures var q := QuizQuestion("q", RankA, None, "e", Some(KFP), Some([QuizOption("o1", "x", Neutral)]));
            SubmitCorrect(q, None) && !DisplayCorrect(q, None)
    ensures var q := QuizQuestion("q", RankA, None, "e", Some(KFP), None);
            SubmitCorrect(q, None) && !DisplayCorrect(q, None)
  {
    var opts := [QuizOption("o1", "x", Neutral)];
    assert CorrectIds(opts) == [];
  }
}
