/** The fixed branching script of the "disagreeing politely" rehearsal
    (src/data/scenarios.ts): eleven steps, each with the school's line, the
    parent's options and, from step 2 on, a condition over the history of
    choices made so far. The script is data only: no code of the program walks
    it, so the model states facts about the table and its conditions, not a
    step-selection algorithm. */
module BranchingScript {
  import opened Common

  datatype ResponseType = Cooperative | Neutral | Competitive

  /** One recorded choice, `{stepIndex, optionIndex}`. */
  datatype HistoryEntry = HistoryEntry(stepIndex: int, optionIndex: int)

  type History = seq<HistoryEntry>

  datatype StepOption = StepOption(
    user: Prose,
    schoolResponse: Prose,
    feedback: Prose,
    outcome: Prose,
    isRecommended: bool,
    responseType: ResponseType,
    nextStep: Option<nat>)

  /** A step; `condition` is the optional closure over the history. */
  datatype ScenarioStep = ScenarioStep(
    school: Prose,
    condition: Option<History -> bool>,
    options: seq<StepOption>)

  datatype Scenario = Scenario(
    id: string,
    title: string,
    description: Prose,
    difficulty: Difficulty,
    background: Prose,
    steps: seq<ScenarioStep>)

  // ---------------------------------------------------------------------
  // Reading the history with optional chaining

  /** `history[k]?.optionIndex`: the option picked at the k-th recorded
      choice, or `undefined` (None) when the history has no entry k. */
  function OptionAt(history: History, k: nat): (r: Option<int>)
    ensures r.Some? <==> k < |history|
    ensures r.Some? ==> r.value == history[k].optionIndex
  {
    if k < |history| then Some(history[k].optionIndex) else None
  }

  /** `history[history.length - 1]`: undefined on an empty history. */
  function Last(history: History): (r: Option<HistoryEntry>)
    ensures r.Some? <==> history != []
    ensures r.Some? ==> r.value == history[|history| - 1]
  {
    if history != [] then Some(history[|history| - 1]) else None
  }

  // ---------------------------------------------------------------------
  // The step conditions, one predicate per closure

  predicate FirstPickWas(history: History, option: int) {
    OptionAt(history, 0) == Some(option)
  }

  predicate SecondPickWas(history: History, option: int) {
    OptionAt(history, 1) == Some(option)
  }

  /** Step 5. `a || b && c` groups as `a || (b && c)`; an absent entry 1 reads as undefined. */
  predicate Step5Condition(history: History) {
    OptionAt(history, 1) == Some(0) || (OptionAt(history, 1) == None && OptionAt(history, 0) == Some(0))
  }

  /** Step 8. `last && (...)` is the falsy `undefined` when the history is empty. */
  predicate Step8Condition(history: History) {
    match Last(history)
    case None => false
    case Some(last) => last.optionIndex == 2 || (|history| > 2 && OptionAt(history, 2) == Some(2))
  }

  predicate Step9Condition(history: History) {
    OptionAt(history, 3) == Some(0) || OptionAt(history, 4) == Some(0)
  }

  predicate Step10Condition(history: History) {
    OptionAt(history, 4) == Some(1)
  }

  // ---------------------------------------------------------------------
  // The table

  /** An option whose four prose fields are written on consecutive lines from `line` on. */
  function Opt(line: nat, recommended: bool, kind: ResponseType, next: Option<nat>): StepOption {
    StepOption(Prose(line), Prose(line + 1), Prose(line + 2), Prose(line + 3), recommended, kind, next)
  }

  const Steps: seq<ScenarioStep> := [
    ScenarioStep(Prose(38), None, [
      Opt(41, true, Neutral, Some(1))]),
    ScenarioStep(Prose(52), None, [
      Opt(55, true, Cooperative, Some(2)),
      Opt(64, false, Neutral, Some(3)),
      Opt(73, false, Competitive, Some(4))]),
    ScenarioStep(Prose(84), Some(h => FirstPickWas(h, 0)), [
      Opt(88, true, Cooperative, Some(5)),
      Opt(97, false, Neutral, Some(6)),
      Opt(106, false, Competitive, Some(7))]),
    ScenarioStep(Prose(117), Some(h => FirstPickWas(h, 1)), [
      Opt(121, true, Cooperative, Some(2)),
      Opt(130, false, Neutral, None)]),
    ScenarioStep(Prose(140), Some(h => FirstPickWas(h, 2)), [
      Opt(144, true, Cooperative, Some(2)),
      Opt(153, false, Competitive, Some(8)),
      Opt(162, false, Neutral, None)]),
    ScenarioStep(Prose(172), Some(Step5Condition), [
      Opt(176, true, Cooperative, Some(9)),
      Opt(185, false, Neutral, Some(10)),
      Opt(194, false, Competitive, Some(8))]),
    ScenarioStep(Prose(205), Some(h => SecondPickWas(h, 1)), [
      Opt(209, true, Cooperative, None),
      Opt(217, false, Neutral, None)]),
    ScenarioStep(Prose(227), Some(h => SecondPickWas(h, 2)), [
      Opt(231, true, Cooperative, Some(5)),
      Opt(240, false, Competitive, Some(8))]),
    ScenarioStep(Prose(251), Some(Step8Condition), [
      Opt(261, true, Cooperative, Some(5)),
      Opt(270, false, Competitive, None)]),
    ScenarioStep(Prose(280), Some(Step9Condition), [
      Opt(284, true, Cooperative, None),
      Opt(292, false, Neutral, None),
      Opt(300, false, Competitive, Some(8))]),
    ScenarioStep(Prose(311), Some(Step10Condition), [
      Opt(315, true, Cooperative, None),
      Opt(323, false, Neutral, None)])
  ]

  const DisagreeingPolitely: Scenario :=
    Scenario("disagreeing-politely", "Disagreeing Politely", Prose(33), Moderate, Prose(35), Steps)

  /** The `scenarios` record. */
  const Scenarios: map<string, Scenario> := map["disagreeing-politely" := DisagreeingPolitely]

  /** Whether step `i`'s condition holds of `history`; a step without one has none to hold. */
  predicate ConditionHolds(i: nat, history: History)
    requires i < |Steps|
  {
    Steps[i].condition.Some? && Steps[i].condition.value(history)
  }

  // ---------------------------------------------------------------------
  // Facts about the table

  /** The catalog key is the scenario's id. */
  lemma CatalogKeysAreIds()
    ensures forall k :: k in Scenarios ==> Scenarios[k].id == k
  {
  }

  /** Eleven steps of one to three options; option 0, and only it, is recommended. */
  lemma StepShape()
    ensures |Steps| == 11
    ensures forall i :: 0 <= i < |Steps| ==> 1 <= |Steps[i].options| <= 3
    ensures forall i, j :: 0 <= i < |Steps| && 0 <= j < |Steps[i].options| ==>
      (Steps[i].options[j].isRecommended <==> j == 0)
  {
  }

  /** Every explicit `nextStep` names one of the steps 1..10. */
  lemma NextStepsAreValid()
    ensures forall i, j :: 0 <= i < |Steps| && 0 <= j < |Steps[i].options| && Steps[i].options[j].nextStep.Some? ==>
      1 <= Steps[i].options[j].nextStep.value < |Steps|
  {
  }

  /** Steps 0 and 1 are unconditional; every later step has a condition. */
  lemma ConditionPresence()
    ensures forall i :: 0 <= i < |Steps| ==> (Steps[i].condition.None? <==> i < 2)
  {
  }

  /** The conditions, read with plain indexing: each holds exactly when the
      entries it reads exist and carry the option indices it compares with. */
  lemma ConditionMeaning(h: History)
    ensures ConditionHolds(2, h) <==> |h| > 0 && h[0].optionIndex == 0
    ensures ConditionHolds(3, h) <==> |h| > 0 && h[0].optionIndex == 1
    ensures ConditionHolds(4, h) <==> |h| > 0 && h[0].optionIndex == 2
    ensures ConditionHolds(5, h) <==> (|h| > 1 && h[1].optionIndex == 0) || (|h| == 1 && h[0].optionIndex == 0)
    ensures ConditionHolds(6, h) <==> |h| > 1 && h[1].optionIndex == 1
    ensures ConditionHolds(7, h) <==> |h| > 1 && h[1].optionIndex == 2
    ensures ConditionHolds(8, h) <==> |h| > 0 && (h[|h| - 1].optionIndex == 2 || (|h| > 2 && h[2].optionIndex == 2))
    ensures ConditionHolds(9, h) <==> (|h| > 3 && h[3].optionIndex == 0) || (|h| > 4 && h[4].optionIndex == 0)
    ensures ConditionHolds(10, h) <==> |h| > 4 && h[4].optionIndex == 1
  {
  }

  /** The first history index a condition that reads only `history[k]?.optionIndex` looks at. */
  function EarliestRead(i: nat): nat {
    if i <= 4 then 0 else if i <= 7 then 1 else if i == 9 then 3 else 4
  }

  /** A condition of steps 2, 3, 4, 6, 7, 9 and 10 is false, not an error, on a
      history too short to hold any entry it reads. */
  lemma ShortHistoryFails(i: nat, h: History)
    requires i in {2, 3, 4, 6, 7, 9, 10}
    requires |h| <= EarliestRead(i)
    ensures !ConditionHolds(i, h)
  {
  }

  /** Step 5's condition holds of one first choice of option 0 (entry 1 is
      undefined), and not of the empty history. */
  lemma Step5OnShortHistory(e: HistoryEntry)
    ensures ConditionHolds(5, [e]) <==> e.optionIndex == 0
    ensures !ConditionHolds(5, [])
  {
  }

  /** Step 8's condition is false on the empty history and true whenever the
      last choice was option 2. */
  lemma Step8OnLastChoice(h: History)
    ensures !ConditionHolds(8, [])
    ensures h != [] && h[|h| - 1].optionIndex == 2 ==> ConditionHolds(8, h)
  {
  }

  // ---------------------------------------------------------------------
  // Following explicit nextStep edges

  /** The step reached from step `from` by taking option `picks[k]` at the
      k-th step and following its explicit `nextStep`; None when a pick is not
      an option of its step or the option has no `nextStep`. */
  function Follow(from: nat, picks: seq<nat>): Option<nat>
    requires from < |Steps|
    decreases |picks|
  {
    if picks == [] then Some(from)
    else if picks[0] < |Steps[from].options| then
      match Steps[from].options[picks[0]].nextStep
      case None => None
      case Some(next) => if next < |Steps| then Follow(next, picks[1..]) else None
    else None
  }

  /** Option 2 at step 5, option 0 at step 8, alternately: `n` picks. */
  function CyclePicks(n: nat): (picks: seq<nat>)
    ensures |picks| == n
  {
    if n == 0 then [] else if n == 1 then [2] else [2, 0] + CyclePicks(n - 2)
  }

  /** Steps 5 and 8 point at each other (step 5 option 2, step 8 option 0), so
      explicit `nextStep` edges alone admit walks of every length. */
  lemma {:induction false} NextStepCycle(n: nat)
    ensures Steps[5].options[2].nextStep == Some(8) && Steps[8].options[0].nextStep == Some(5)
    ensures Follow(5, CyclePicks(n)) == Some(if n % 2 == 0 then 5 else 8)
  {
    if n >= 2 {
      NextStepCycle(n - 2);
      var picks := CyclePicks(n);
      assert picks[1..][1..] == CyclePicks(n - 2);
    }
  }
}
