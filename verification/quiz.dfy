/**
  The coffee-preferences quiz: a step counter over a fixed list of questions, the answers
  recorded per step, and the values the view derives from them.
 */
module Quiz {

  /** The option values offered at each step, in question order. */
  const OptionValues: seq<seq<string>> := [
    ["casual", "regular", "daily", "heavy"],
    ["whole", "ground"],
    ["light", "medium", "dark"],
    ["single", "blend", "both"]
  ]

  const StepCount: nat := |OptionValues|

  const LastStep: nat := StepCount - 1

  datatype QuizState = QuizState(currentStep: nat, answers: map<nat, string>)

  /** The current step names a question, and answers are only ever recorded for questions. */
  predicate Valid(s: QuizState) {
    && s.currentStep < StepCount
    && forall k :: k in s.answers ==> k < StepCount
  }

  /** A step whose answer is truthy: recorded and non-empty. */
  predicate Answered(s: QuizState, step: nat) {
    step in s.answers && s.answers[step] != ""
  }

  const Initial: QuizState := QuizState(0, map[])

  /** `handleAnswer`: record `value` for the current step and leave every other answer alone. */
  function Answer(s: QuizState, value: string): (r: QuizState)
    ensures r.currentStep == s.currentStep
    ensures r.currentStep in r.answers && r.answers[r.currentStep] == value
    ensures forall k :: k != s.currentStep ==> (k in r.answers <==> k in s.answers)
    ensures forall k :: k != s.currentStep && k in s.answers ==> r.answers[k] == s.answers[k]
    ensures Valid(s) ==> Valid(r)
  {
    s.(answers := s.answers[s.currentStep := value])
  }

  /** `handleNext`: advance one step unless on the last, where the quiz completes in place. */
  function Next(s: QuizState): (r: QuizState)
    ensures r.answers == s.answers
    ensures s.currentStep >= LastStep ==> r == s
    ensures s.currentStep < LastStep ==> r.currentStep == s.currentStep + 1
    ensures Valid(s) ==> Valid(r)
  {
    if s.currentStep < StepCount - 1 then s.(currentStep := s.currentStep + 1) else s
  }

  /** `handleBack`: go back one step unless on the first. */
  function Back(s: QuizState): (r: QuizState)
    ensures r.answers == s.answers
    ensures s.currentStep == 0 ==> r == s
    ensures s.currentStep > 0 ==> r.currentStep + 1 == s.currentStep
    ensures Valid(s) ==> Valid(r)
  {
    if s.currentStep > 0 then s.(currentStep := s.currentStep - 1) else s
  }

  /** The progress bar's value, in percent. */
  function Progress(s: QuizState): (p: real)
    ensures p * StepCount as real == (s.currentStep + 1) as real * 100.0
    ensures Valid(s) ==> 0.0 < p <= 100.0
    ensures p == 100.0 <==> s.currentStep == LastStep
  {
    (s.currentStep + 1) as real / StepCount as real * 100.0
  }

  /** Back is disabled exactly where pressing it would change nothing. */
  function BackDisabled(s: QuizState): (d: bool)
    ensures d <==> s.currentStep == 0
    ensures d <==> Back(s) == s
  {
    s.currentStep == 0
  }

  /**
    Next is disabled while the current step has no truthy answer, so pressing an enabled Next
    never leaves an unanswered step behind.
   */
  function NextDisabled(s: QuizState): (d: bool)
    ensures d <==> !Answered(s, s.currentStep)
    ensures Valid(s) && AnsweredSoFar(s) && !d ==> AnsweredSoFar(Next(s))
  {
    AnsweredStepAdvances(s);
    !(s.currentStep in s.answers && s.answers[s.currentStep] != "")
  }

  lemma AnsweredStepAdvances(s: QuizState)
    ensures Valid(s) && AnsweredSoFar(s) && Answered(s, s.currentStep) ==> AnsweredSoFar(Next(s))
  {
    if Valid(s) && AnsweredSoFar(s) && Answered(s, s.currentStep) {
      forall j: nat | j < Next(s).currentStep
        ensures Answered(Next(s), j)
      {
        if j < s.currentStep {
          assert Answered(s, j);
        }
      }
    }
  }

  /** The label reads "Complete" exactly where progress is full and Next no longer advances. */
  function NextLabel(s: QuizState): (text: string)
    ensures text == "Complete" <==> s.currentStep == LastStep
    ensures text == "Next" <==> s.currentStep != LastStep
    ensures Valid(s) ==> (text == "Complete" <==> Progress(s) == 100.0)
    ensures Valid(s) ==> (text == "Complete" <==> Next(s) == s)
  {
    if s.currentStep == StepCount - 1 then "Complete" else "Next"
  }

  /** The user's inputs: picking an option, and pressing Next or Back. */
  datatype Action = Pick(value: string) | PressNext | PressBack

  /** Each input calls its handler directly, ignoring whether the button is enabled. */
  function Apply(s: QuizState, a: Action): QuizState {
    match a
    case Pick(v) => Answer(s, v)
    case PressNext => Next(s)
    case PressBack => Back(s)
  }

  /** Each input as the page delivers it: a disabled button does not call its handler. */
  function Click(s: QuizState, a: Action): QuizState {
    match a
    case Pick(v) => Answer(s, v)
    case PressNext => if NextDisabled(s) then s else Next(s)
    case PressBack => if BackDisabled(s) then s else Back(s)
  }

  function Run(s: QuizState, actions: seq<Action>): QuizState
    decreases |actions|
  {
    if |actions| == 0 then s else Run(Apply(s, actions[0]), actions[1..])
  }

  function RunClicks(s: QuizState, actions: seq<Action>): QuizState
    decreases |actions|
  {
    if |actions| == 0 then s else RunClicks(Click(s, actions[0]), actions[1..])
  }

  /** Whatever the inputs, the step stays within the questions. */
  lemma {:induction false} RunStaysValid(s: QuizState, actions: seq<Action>)
    requires Valid(s)
    ensures Valid(Run(s, actions))
    decreases |actions|
  {
    if |actions| > 0 {
      RunStaysValid(Apply(s, actions[0]), actions[1..]);
    }
  }

  /** Every step before the current one has been answered. */
  predicate AnsweredSoFar(s: QuizState) {
    forall j: nat :: j < s.currentStep ==> Answered(s, j)
  }

  /** One page input keeps the state valid and every passed step answered. */
  lemma ClickKeepsAnsweredSoFar(s: QuizState, a: Action)
    requires Valid(s) && AnsweredSoFar(s)
    ensures Valid(Click(s, a)) && AnsweredSoFar(Click(s, a))
  {
    var t := Click(s, a);
    match a
    case Pick(v) =>
      forall j: nat | j < t.currentStep
        ensures Answered(t, j)
      {
        assert Answered(s, j);
      }
    case PressNext =>
      forall j: nat | j < t.currentStep
        ensures Answered(t, j)
      {
        if j < s.currentStep {
          assert Answered(s, j);
        }
      }
    case PressBack =>
      forall j: nat | j < t.currentStep
        ensures Answered(t, j)
      {
        assert Answered(s, j);
      }
  }

  /** On the page, the quiz never moves past a question that has no answer. */
  lemma {:induction false} ClicksAnswerEveryPassedStep(s: QuizState, actions: seq<Action>)
    requires Valid(s) && AnsweredSoFar(s)
    ensures Valid(RunClicks(s, actions)) && AnsweredSoFar(RunClicks(s, actions))
    decreases |actions|
  {
    if |actions| > 0 {
      var t := Click(s, actions[0]);
      ClickKeepsAnsweredSoFar(s, actions[0]);
      ClicksAnswerEveryPassedStep(t, actions[1..]);
    }
  }

  /** From a fresh quiz, whatever the user clicks, every passed question has an answer. */
  lemma FreshQuizNeverSkipsAQuestion(actions: seq<Action>)
    ensures RunClicks(Initial, actions).currentStep < StepCount
    ensures forall j: nat :: j < RunClicks(Initial, actions).currentStep ==> Answered(RunClicks(Initial, actions), j)
  {
    ClicksAnswerEveryPassedStep(Initial, actions);
  }

  /** Next then Back, from any step before the last, returns to the same state. */
  lemma NextThenBack(s: QuizState)
    requires s.currentStep < LastStep
    ensures Back(Next(s)) == s
  {
  }

  /** Back then Next, from any question after the first, returns to the same state. */
  lemma BackThenNext(s: QuizState)
    requires Valid(s) && s.currentStep > 0
    ensures Next(Back(s)) == s
  {
  }

  /** Picking any offered option enables Next. */
  lemma PickingAnOptionEnablesNext(s: QuizState, value: string)
    requires Valid(s)
    requires value in OptionValues[s.currentStep]
    ensures !NextDisabled(Answer(s, value))
  {
  }
}
