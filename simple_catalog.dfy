/** The catalog of multiple-choice scenarios (src/data/SimpleScenarios.ts):
    fixed versions of ten of the free-form scenarios, each three questions
    long with three answers per question, every answer carrying a positive
    and a negative piece of feedback. */
module SimpleCatalog {
  import opened Common
  import CustomCatalog

  datatype Feedback = Feedback(positive: Prose, negative: Prose)

  datatype Answer = Answer(text: Prose, feedback: Feedback)

  datatype SimpleScenarioStep = SimpleScenarioStep(question: Prose, answers: seq<Answer>)

  datatype SimpleScenario = SimpleScenario(id: string, title: string, background: Prose, steps: seq<SimpleScenarioStep>)

  /** An answer written from `line` on: its text there, its positive feedback
      two lines below and its negative feedback on the line after that. */
  function Ans(line: nat): Answer {
    Answer(Prose(line), Feedback(Prose(line + 2), Prose(line + 3)))
  }

  function Step(questionLine: nat, answers: seq<Answer>): SimpleScenarioStep {
    SimpleScenarioStep(Prose(questionLine), answers)
  }

  /** The `simpleScenarios` record literal: its keys with their values, in the order written. */
  const Entries: seq<(string, SimpleScenario)> := [
    ("custom-disagreement", Disagreement),
    ("custom-request-data", RequestData),
    ("custom-transition", Transition),
    ("custom-behavior", Behavior),
    ("custom-language-barrier", LanguageBarrier),
    ("custom-inclusion", Inclusion),
    ("custom-504-vs-iep", Plan504VsIep),
    ("custom-cultural-differences", CulturalDifferences),
    ("custom-transition-to-adulthood", TransitionToAdulthood),
    ("custom-medical-needs", MedicalNeeds)
  ]

  const Disagreement: SimpleScenario := SimpleScenario("custom-disagreement", "Disagreeing with the Team", Prose(27), [
      Step(30, [Ans(33), Ans(40), Ans(47)]),
      Step(56, [Ans(59), Ans(66), Ans(73)]),
      Step(82, [Ans(85), Ans(92), Ans(99)])])

  const RequestData: SimpleScenario := SimpleScenario("custom-request-data", "Requesting Data", Prose(112), [
      Step(115, [Ans(118), Ans(125), Ans(132)]),
      Step(141, [Ans(144), Ans(151), Ans(158)]),
      Step(167, [Ans(170), Ans(177), Ans(184)])])

  const Transition: SimpleScenario := SimpleScenario("custom-transition", "Transition Planning", Prose(197), [
      Step(200, [Ans(203), Ans(210), Ans(217)]),
      Step(226, [Ans(229), Ans(236), Ans(243)]),
      Step(252, [Ans(255), Ans(262), Ans(269)])])

  const Behavior: SimpleScenario := SimpleScenario("custom-behavior", "Behavior Concerns", Prose(282), [
      Step(285, [Ans(288), Ans(295), Ans(302)]),
      Step(311, [Ans(314), Ans(321), Ans(328)]),
      Step(337, [Ans(340), Ans(347), Ans(354)])])

  const LanguageBarrier: SimpleScenario := SimpleScenario("custom-language-barrier", "Language Barrier", Prose(367), [
      Step(370, [Ans(373), Ans(380), Ans(387)]),
      Step(396, [Ans(399), Ans(406), Ans(413)]),
      Step(422, [Ans(425), Ans(432), Ans(439)])])

  const Inclusion: SimpleScenario := SimpleScenario("custom-inclusion", "Inclusion in General Education", Prose(452), [
      Step(455, [Ans(458), Ans(465), Ans(472)]),
      Step(481, [Ans(484), Ans(491), Ans(498)]),
      Step(507, [Ans(510), Ans(517), Ans(524)])])

  const Plan504VsIep: SimpleScenario := SimpleScenario("custom-504-vs-iep", "504 Plan vs IEP Plan", Prose(537), [
      Step(540, [Ans(543), Ans(550), Ans(557)]),
      Step(566, [Ans(569), Ans(576), Ans(583)]),
      Step(592, [Ans(595), Ans(602), Ans(609)])])

  const CulturalDifferences: SimpleScenario := SimpleScenario("custom-cultural-differences", "Cultural Differences in Communication", Prose(622), [
      Step(625, [Ans(628), Ans(635), Ans(642)]),
      Step(651, [Ans(654), Ans(661), Ans(668)]),
      Step(677, [Ans(680), Ans(687), Ans(694)])])

  const TransitionToAdulthood: SimpleScenario := SimpleScenario("custom-transition-to-adulthood", "Transition to Adulthood", Prose(707), [
      Step(710, [Ans(713), Ans(720), Ans(727)]),
      Step(736, [Ans(739), Ans(746), Ans(753)]),
      Step(762, [Ans(765), Ans(772), Ans(779)])])

  const MedicalNeeds: SimpleScenario := SimpleScenario("custom-medical-needs", "Medical Needs and School Supports", Prose(792), [
      Step(795, [Ans(798), Ans(805), Ans(812)]),
      Step(821, [Ans(824), Ans(831), Ans(838)]),
      Step(847, [Ans(850), Ans(857), Ans(864)])])

  /** The catalog as a lookup table from key to scenario. */
  const Catalog: map<string, SimpleScenario> := RecordOf(Entries)

  /** `Object.values(simpleScenarios)`. */
  const Scenarios: seq<SimpleScenario> := seq(|Entries|, i requires 0 <= i < |Entries| => Entries[i].1)

  /** Three questions of three answers each. */
  predicate IsThreeByThree(s: SimpleScenario) {
    |s.steps| == 3 && forall step :: step in s.steps ==> |step.answers| == 3
  }

  lemma ScenariosInOrder()
    ensures Scenarios == [Disagreement, RequestData, Transition, Behavior, LanguageBarrier, Inclusion, Plan504VsIep, CulturalDifferences, TransitionToAdulthood, MedicalNeeds]
  {
  }

  /** Every key of the record is the id of the scenario it holds. */
  lemma KeysAreIds()
    ensures forall i :: 0 <= i < |Entries| ==> Entries[i].0 == Entries[i].1.id
    ensures forall k :: k in Catalog ==> Catalog[k].id == k
  {
    forall i | 0 <= i < |Entries| ensures Entries[i].0 == Entries[i].1.id {
    }
    forall k | k in Catalog ensures Catalog[k].id == k {
      RecordLookup(Entries, k);
    }
  }

  /** Every scenario is three questions long, with three answers to each. */
  lemma ThreeByThree()
    ensures forall s :: s in Scenarios ==> IsThreeByThree(s)
  {
    ScenariosInOrder();
  }

  /** The ten scenarios are the first ten free-form ones, in the same order. */
  lemma KeysMatchCustomPrefix()
    ensures |Entries| == 10 && |CustomCatalog.Entries| == 14
    ensures forall i :: 0 <= i < |Entries| ==> Entries[i].0 == CustomCatalog.Entries[i].0
  {
  }

  lemma KeysAreCustomKeys()
    ensures Catalog.Keys <= CustomCatalog.Catalog.Keys
  {
    KeysMatchCustomPrefix();
    forall k | k in Catalog ensures k in CustomCatalog.Catalog {
      RecordLookup(Entries, k);
    }
  }

  /** The last four free-form keys are not keys of this catalog. */
  lemma LastFourMissing(k: string)
    requires k in {"custom-bullying", "custom-transportation", "custom-technology-access", "custom-mental-health"}
    ensures k in CustomCatalog.Catalog && k !in Catalog
  {
    KeysMatchCustomPrefix();
    assert CustomCatalog.Entries[10].0 == "custom-bullying";
    assert CustomCatalog.Entries[11].0 == "custom-transportation";
    assert CustomCatalog.Entries[12].0 == "custom-technology-access";
    assert CustomCatalog.Entries[13].0 == "custom-mental-health";
    if k in Catalog {
      RecordLookup(Entries, k);
    }
  }

  /** A free-form key missing here is one of the last four. */
  lemma OnlyLastFourMissing(k: string)
    requires k in CustomCatalog.Catalog && k !in Catalog
    ensures k in {"custom-bullying", "custom-transportation", "custom-technology-access", "custom-mental-health"}
  {
    KeysMatchCustomPrefix();
    RecordLookup(CustomCatalog.Entries, k);
    var i :| 0 <= i < |CustomCatalog.Entries| && CustomCatalog.Entries[i].0 == k && CustomCatalog.Catalog[k] == CustomCatalog.Entries[i].1;
    assert forall j :: 0 <= j < 10 ==> CustomCatalog.Entries[j].0 in Catalog;
    assert CustomCatalog.Entries[10].0 == "custom-bullying";
    assert CustomCatalog.Entries[11].0 == "custom-transportation";
    assert CustomCatalog.Entries[12].0 == "custom-technology-access";
    assert CustomCatalog.Entries[13].0 == "custom-mental-health";
  }

  lemma CustomOnlyKeys()
    ensures CustomCatalog.Catalog.Keys - Catalog.Keys ==
      {"custom-bullying", "custom-transportation", "custom-technology-access", "custom-mental-health"}
  {
    forall k | k in CustomCatalog.Catalog && k !in Catalog
      ensures k in {"custom-bullying", "custom-transportation", "custom-technology-access", "custom-mental-health"}
    {
      OnlyLastFourMissing(k);
    }
    forall k | k in {"custom-bullying", "custom-transportation", "custom-technology-access", "custom-mental-health"}
      ensures k in CustomCatalog.Catalog && k !in Catalog
    {
      LastFourMissing(k);
    }
  }

  /** The catalog holds ten scenarios, each of them also a free-form scenario;
      four free-form scenarios have no multiple-choice version. */
  lemma MirrorsCustomCatalog()
    ensures |Catalog| == 10
    ensures Catalog.Keys <= CustomCatalog.Catalog.Keys
    ensures CustomCatalog.Catalog.Keys - Catalog.Keys ==
      {"custom-bullying", "custom-transportation", "custom-technology-access", "custom-mental-health"}
  {
    assert DistinctKeys(Entries);
    RecordSize(Entries);
    KeysAreCustomKeys();
    CustomOnlyKeys();
  }
}
