/** The multiple-choice rehearsal page (src/app/scenarios/simple/page.tsx):
    it looks the scenario up by the `id` query parameter, then walks its
    questions in order. Picking an answer shows its feedback and locks the
    answers; Next records the pick and moves to the following question;
    Finish, on the last question, records the pick and shows the summary. */
module SimpleSession {
  import opened Common
  import opened SimpleCatalog

  // ---------------------------------------------------------------------
  // Finding the scenario

  /** What the page does with the looked-up value as written. */
  datatype View = NotFound | Rehearse(scenario: SimpleScenario) | Crash

  /** `simpleScenarios[scenarioId || '']` and the `!scenario` test, as written:
      a key Object.prototype provides (`constructor`, `toString`, ...) yields
      a truthy non-scenario, and reading `.steps[step]` of it throws. */
  function ViewAsWritten(id: Option<string>): (v: View)
    ensures id.None? ==> v == NotFound
    ensures id.Some? && id.value in ObjectPrototypeKeys && id.value !in Catalog ==> v == Crash
  {
    NoEmptyKey();
    match JsIndex(Catalog, if id.Some? then id.value else "")
    case Own(s) => Rehearse(s)
    case Inherited(_) => Crash
    case Undefined => NotFound
  }

  /** No scenario is stored under the empty id `scenarioId || ''` falls back to. */
  lemma NoEmptyKey()
    ensures "" !in Catalog
  {
    if "" in Catalog {
      RecordLookup(Entries, "");
      KeysAreIds();
    }
  }

  /** The lookup with own keys only: the scenario stored under the `id`
      parameter, or None (the "Scenario not found" view) when the parameter is
      missing or names no scenario. */
  function Lookup(id: Option<string>): (r: Option<SimpleScenario>)
    ensures r.Some? <==> id.Some? && id.value in Catalog
    ensures r.Some? ==> r.value == Catalog[id.value] && r.value.id == id.value
  {
    KeysAreIds();
    if id.Some? && id.value in Catalog then Some(Catalog[id.value]) else None
  }

  /** Asking for `?id=constructor` crashes the page as written, where the own-key
      lookup shows "Scenario not found". */
  lemma PrototypeKeyCrashes()
    ensures ViewAsWritten(Some("constructor")) == Crash
    ensures Lookup(Some("constructor")) == None
  {
    var k := "constructor";
    if k in Catalog {
      RecordLookup(Entries, k);
    }
  }

  /** Both lookups agree on every id that is not an Object.prototype name. */
  lemma LookupAgreesOffPrototype(id: Option<string>)
    requires id.None? || id.value !in ObjectPrototypeKeys
    ensures ViewAsWritten(id) == (if Lookup(id).Some? then Rehearse(Lookup(id).value) else NotFound)
  {
  }

  // ---------------------------------------------------------------------
  // The summary

  /** One line of the summary: the question and the answer picked for it
      (`step.answers[selections[idx]]?`), or nothing when that index is absent. */
  datatype SummaryRow = SummaryRow(question: Prose, answer: Option<Answer>)

  datatype Summary = Summary(title: string, rows: seq<SummaryRow>, result: Prose, nextSteps: seq<Prose>)

  /** The fixed result text and the four fixed next steps. */
  const ResultText: Prose := Prose(8)
  const NextSteps: seq<Prose> := [Prose(12), Prose(13), Prose(14), Prose(15)]

  function AnswerFor(step: SimpleScenarioStep, selections: seq<nat>, idx: nat): Option<Answer> {
    if idx < |selections| && selections[idx] < |step.answers| then Some(step.answers[selections[idx]]) else None
  }

  /** `SummaryPage`: one row per question, in order; the result and next steps
      are the same whatever was picked. */
  function SummaryOf(s: SimpleScenario, selections: seq<nat>): (r: Summary)
    ensures r.title == s.title && |r.rows| == |s.steps|
    ensures forall k :: 0 <= k < |s.steps| ==> r.rows[k].question == s.steps[k].question
    ensures forall k :: 0 <= k < |s.steps| && k < |selections| && selections[k] < |s.steps[k].answers| ==>
      r.rows[k].answer == Some(s.steps[k].answers[selections[k]])
    ensures forall k :: 0 <= k < |s.steps| && (k >= |selections| || selections[k] >= |s.steps[k].answers|) ==>
      r.rows[k].answer == None
    ensures r.result == ResultText && r.nextSteps == NextSteps
  {
    Summary(s.title, seq(|s.steps|, k requires 0 <= k < |s.steps| => SummaryRow(s.steps[k].question, AnswerFor(s.steps[k], selections, k))),
            ResultText, NextSteps)
  }

  // ---------------------------------------------------------------------
  // The page state

  class SimpleScenarioPage {
    const scenario: SimpleScenario
    var step: nat
    var selected: Option<nat>
    var showFeedback: bool
    var selections: seq<nat>
    var showSummary: bool

    /** Outside the summary one pick is recorded per question already passed;
        in the summary one per question. Every recorded pick is an answer of its
        question, and an answer is selected exactly while its feedback shows. */
    ghost predicate Valid()
      reads this
    {
      && |scenario.steps| > 0
      && step < |scenario.steps|
      && (showFeedback <==> selected.Some?)
      && (selected.Some? ==> selected.value < |scenario.steps[step].answers|)
      && (!showSummary ==> |selections| == step)
      && (showSummary ==> showFeedback && step == |scenario.steps| - 1 && |selections| == |scenario.steps|)
      && (forall k :: 0 <= k < |selections| ==> selections[k] < |scenario.steps[k].answers|)
    }

    /** The five `useState` initial values. */
    constructor (s: SimpleScenario)
      requires |s.steps| > 0
      ensures Valid()
      ensures scenario == s && step == 0 && selected == None && !showFeedback
      ensures selections == [] && !showSummary
    {
      scenario := s;
      step := 0;
      selected := None;
      showFeedback := false;
      selections := [];
      showSummary := false;
    }

    /** A click on answer `i`. The buttons are disabled while feedback shows
        and absent in the summary, so the click is taken only then. */
    method Choose(i: nat) returns (taken: bool)
      requires Valid()
      modifies this
      ensures Valid()
      ensures taken <==> !old(showSummary) && !old(showFeedback) && i < |scenario.steps[step].answers|
      ensures taken ==> selected == Some(i) && showFeedback
      ensures step == old(step) && selections == old(selections) && showSummary == old(showSummary)
      ensures !taken ==> selected == old(selected) && showFeedback == old(showFeedback)
    {
      taken := !showSummary && !showFeedback && i < |scenario.steps[step].answers|;
      if taken {
        selected := Some(i);
        showFeedback := true;
      }
    }

    /** Next, offered while feedback shows on any question but the last:
        records the pick, moves on and clears the selection. */
    method Next() returns (taken: bool)
      requires Valid()
      modifies this
      ensures Valid()
      ensures taken <==> !old(showSummary) && old(showFeedback) && old(step) < |scenario.steps| - 1
      ensures taken ==> && selections == old(selections) + [old(selected).value]
                        && step == old(step) + 1 && selected == None && !showFeedback
      ensures !taken ==> && selections == old(selections) && step == old(step)
                         && selected == old(selected) && showFeedback == old(showFeedback)
      ensures showSummary == old(showSummary)
    {
      taken := !showSummary && showFeedback && step < |scenario.steps| - 1;
      if taken {
        selections := selections + [selected.value];
        step := step + 1;
        selected := None;
        showFeedback := false;
      }
    }

    /** Finish, offered while feedback shows on the last question: records the
        pick and enters the summary. */
    method Finish() returns (taken: bool)
      requires Valid()
      modifies this
      ensures Valid()
      ensures taken <==> !old(showSummary) && old(showFeedback) && old(step) == |scenario.steps| - 1
      ensures taken ==> selections == old(selections) + [old(selected).value] && showSummary
      ensures !taken ==> selections == old(selections) && showSummary == old(showSummary)
      ensures step == old(step) && selected == old(selected) && showFeedback == old(showFeedback)
    {
      taken := !showSummary && showFeedback && step == |scenario.steps| - 1;
      if taken {
        selections := selections + [selected.value];
        showSummary := true;
      }
    }

    /** The summary shown after Finish: every question with the answer picked for it. */
    function SummaryView(): (r: Summary)
      reads this
      requires Valid() && showSummary
      ensures |r.rows| == |scenario.steps|
      ensures forall k :: 0 <= k < |r.rows| ==> r.rows[k].answer == Some(scenario.steps[k].answers[selections[k]])
    {
      SummaryOf(scenario, selections)
    }
  }
}
