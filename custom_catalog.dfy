/** The catalog of free-form scenarios (src/data/CustomScenarios.ts): for
    each scenario its id, title, difficulty, category, the school's opening
    line, the three stance-tagged opening options for the parent and the
    outcomes the session is scored against. */
module CustomCatalog {
  import opened Common

  /** The three negotiation stances, `'interests' | 'rights' | 'power'`. */
  datatype Stance = Interests | Rights | Power

  /** `IRPOption`; `textExplanation` is optional in the type. */
  datatype IrpOption = IrpOption(kind: Stance, text: Prose, textExplanation: Option<Prose>)

  /** `CustomScenario`; `category` and `potentialOutcomes` are optional in the type. */
  datatype CustomScenario = CustomScenario(
    id: string,
    title: string,
    description: Prose,
    category: Option<string>,
    difficulty: Difficulty,
    background: Prose,
    initialSchoolLine: Prose,
    initialOptions: seq<IrpOption>,
    potentialOutcomes: Option<seq<Prose>>)

  function Irp(kind: Stance, textLine: nat, explanationLine: nat): IrpOption {
    IrpOption(kind, Prose(textLine), Some(Prose(explanationLine)))
  }

  /** The `customScenarios` record literal: its keys with their values, in the
      order they are written (the order `Object.values` lists them in). */
  const Entries: seq<(string, CustomScenario)> := [
    ("custom-disagreement", Disagreement),
    ("custom-request-data", RequestData),
    ("custom-transition", Transition),
    ("custom-behavior", Behavior),
    ("custom-language-barrier", LanguageBarrier),
    ("custom-inclusion", Inclusion),
    ("custom-504-vs-iep", Plan504VsIep),
    ("custom-cultural-differences", CulturalDifferences),
    ("custom-transition-to-adulthood", TransitionToAdulthood),
    ("custom-medical-needs", MedicalNeeds),
    ("custom-bullying", Bullying),
    ("custom-transportation", Transportation),
    ("custom-technology-access", TechnologyAccess),
    ("custom-mental-health", MentalHealth)
  ]

  const Disagreement: CustomScenario := CustomScenario("custom-disagreement", "Disagreeing with the School", Prose(25), Some("Advocacy & Communication"), Moderate, Prose(28), Prose(29),
      [Irp(Interests, 33, 34), Irp(Rights, 38, 39), Irp(Power, 43, 44)],
      Some([Prose(48), Prose(49), Prose(50), Prose(51)]))

  const RequestData: CustomScenario := CustomScenario("custom-request-data", "Requesting Data", Prose(57), Some("Advocacy & Documentation"), Easy, Prose(60), Prose(61),
      [Irp(Interests, 65, 66), Irp(Rights, 70, 71), Irp(Power, 75, 76)],
      Some([Prose(80), Prose(81), Prose(82), Prose(83)]))

  const Transition: CustomScenario := CustomScenario("custom-transition", "Transition Planning", Prose(89), Some("Planning & Change"), Moderate, Prose(92), Prose(93),
      [Irp(Interests, 97, 98), Irp(Rights, 102, 103), Irp(Power, 107, 108)],
      Some([Prose(112), Prose(113), Prose(114), Prose(115)]))

  const Behavior: CustomScenario := CustomScenario("custom-behavior", "Behavior Concerns", Prose(121), Some("Behavior & Support"), Advanced, Prose(124), Prose(125),
      [Irp(Interests, 129, 130), Irp(Rights, 134, 135), Irp(Power, 139, 140)],
      Some([Prose(144), Prose(145), Prose(146), Prose(147)]))

  const LanguageBarrier: CustomScenario := CustomScenario("custom-language-barrier", "Language Barrier", Prose(153), Some("Advocacy & Communication"), Easy, Prose(156), Prose(157),
      [Irp(Interests, 161, 162), Irp(Rights, 166, 167), Irp(Power, 171, 172)],
      Some([Prose(176), Prose(177), Prose(178), Prose(179)]))

  const Inclusion: CustomScenario := CustomScenario("custom-inclusion", "Inclusion in General Education", Prose(185), Some("Inclusion & Placement"), Moderate, Prose(188), Prose(189),
      [Irp(Interests, 193, 194), Irp(Rights, 198, 199), Irp(Power, 203, 204)],
      Some([Prose(208), Prose(209), Prose(210), Prose(211)]))

  const Plan504VsIep: CustomScenario := CustomScenario("custom-504-vs-iep", "504 Plan vs IEP Plan", Prose(217), Some("Services & Eligibility"), Moderate, Prose(220), Prose(221),
      [Irp(Interests, 225, 226), Irp(Rights, 230, 231), Irp(Power, 235, 236)],
      Some([Prose(240), Prose(241), Prose(242), Prose(243)]))

  const CulturalDifferences: CustomScenario := CustomScenario("custom-cultural-differences", "Cultural Differences in Communication", Prose(249), Some("Communication & Advocacy"), Moderate, Prose(252), Prose(253),
      [Irp(Interests, 257, 258), Irp(Rights, 262, 263), Irp(Power, 267, 268)],
      Some([Prose(272), Prose(273), Prose(274), Prose(275)]))

  const TransitionToAdulthood: CustomScenario := CustomScenario("custom-transition-to-adulthood", "Transition to Adulthood", Prose(281), Some("Transition & Planning"), Advanced, Prose(284), Prose(285),
      [Irp(Interests, 289, 290), Irp(Rights, 294, 295), Irp(Power, 299, 300)],
      Some([Prose(304), Prose(305), Prose(306), Prose(307)]))

  const MedicalNeeds: CustomScenario := CustomScenario("custom-medical-needs", "Medical Needs and School Supports", Prose(313), Some("Health & Supports"), Moderate, Prose(316), Prose(317),
      [Irp(Interests, 321, 322), Irp(Rights, 326, 327), Irp(Power, 331, 332)],
      Some([Prose(336), Prose(337), Prose(338), Prose(339)]))

  const Bullying: CustomScenario := CustomScenario("custom-bullying", "Addressing Bullying Concerns", Prose(345), Some("Safety & Advocacy"), Moderate, Prose(348), Prose(349),
      [Irp(Interests, 353, 354), Irp(Rights, 358, 359), Irp(Power, 363, 364)],
      Some([Prose(368), Prose(369), Prose(370), Prose(371)]))

  const Transportation: CustomScenario := CustomScenario("custom-transportation", "Transportation Challenges", Prose(377), Some("Access & Logistics"), Easy, Prose(380), Prose(381),
      [Irp(Interests, 385, 386), Irp(Rights, 390, 391), Irp(Power, 395, 396)],
      Some([Prose(400), Prose(401), Prose(402), Prose(403)]))

  const TechnologyAccess: CustomScenario := CustomScenario("custom-technology-access", "Technology and Accessibility", Prose(409), Some("Access & Supports"), Moderate, Prose(412), Prose(413),
      [Irp(Interests, 417, 418), Irp(Rights, 422, 423), Irp(Power, 427, 428)],
      Some([Prose(432), Prose(433), Prose(434), Prose(435)]))

  const MentalHealth: CustomScenario := CustomScenario("custom-mental-health", "Mental Health Supports", Prose(441), Some("Health & Well-being"), Advanced, Prose(444), Prose(445),
      [Irp(Interests, 449, 450), Irp(Rights, 454, 455), Irp(Power, 459, 460)],
      Some([Prose(464), Prose(465), Prose(466), Prose(467)]))

  /** `Object.values(customScenarios)`. */
  const Scenarios: seq<CustomScenario> := seq(|Entries|, i requires 0 <= i < |Entries| => Entries[i].1)

  /** The catalog as a lookup table from key to scenario. */
  const Catalog: map<string, CustomScenario> := RecordOf(Entries)

  /** Opens with exactly three options, tagged interests, rights and power in
      that order, each carrying its (optional) explanation. */
  predicate HasStanceOptions(s: CustomScenario) {
    && |s.initialOptions| == 3
    && s.initialOptions[0].kind == Interests
    && s.initialOptions[1].kind == Rights
    && s.initialOptions[2].kind == Power
    && s.initialOptions[0].textExplanation.Some?
    && s.initialOptions[1].textExplanation.Some?
    && s.initialOptions[2].textExplanation.Some?
  }

  /** Sets the optional `category` and lists exactly four potential outcomes. */
  predicate HasOptionalFields(s: CustomScenario) {
    s.category.Some? && s.potentialOutcomes.Some? && |s.potentialOutcomes.value| == 4
  }

  lemma ScenariosInOrder()
    ensures Scenarios == [Disagreement, RequestData, Transition, Behavior, LanguageBarrier, Inclusion, Plan504VsIep, CulturalDifferences, TransitionToAdulthood, MedicalNeeds, Bullying, Transportation, TechnologyAccess, MentalHealth]
  {
  }

  /** Fourteen scenarios; every key of the record is the id of the scenario it holds. */
  lemma KeysAreIds()
    ensures |Entries| == |Scenarios| == 14
    ensures forall i :: 0 <= i < |Entries| ==> Entries[i].0 == Entries[i].1.id
    ensures forall k :: k in Catalog ==> Catalog[k].id == k
  {
    forall i | 0 <= i < |Entries| ensures Entries[i].0 == Entries[i].1.id {
    }
    forall k | k in Catalog ensures Catalog[k].id == k {
      RecordLookup(Entries, k);
    }
  }

  /** Every scenario opens with the three stance-tagged options, with explanations. */
  lemma InitialOptionsShape()
    ensures forall s :: s in Scenarios ==> HasStanceOptions(s)
  {
    ScenariosInOrder();
    assert HasStanceOptions(Disagreement);
    assert HasStanceOptions(RequestData);
    assert HasStanceOptions(Transition);
    assert HasStanceOptions(Behavior);
    assert HasStanceOptions(LanguageBarrier);
    assert HasStanceOptions(Inclusion);
    assert HasStanceOptions(Plan504VsIep);
    assert HasStanceOptions(CulturalDifferences);
    assert HasStanceOptions(TransitionToAdulthood);
    assert HasStanceOptions(MedicalNeeds);
    assert HasStanceOptions(Bullying);
    assert HasStanceOptions(Transportation);
    assert HasStanceOptions(TechnologyAccess);
    assert HasStanceOptions(MentalHealth);
  }

  /** Every scenario sets `category` and lists four potential outcomes. */
  lemma OptionalFieldsSet()
    ensures forall s :: s in Scenarios ==> HasOptionalFields(s)
  {
    ScenariosInOrder();
    assert HasOptionalFields(Disagreement);
    assert HasOptionalFields(RequestData);
    assert HasOptionalFields(Transition);
    assert HasOptionalFields(Behavior);
    assert HasOptionalFields(LanguageBarrier);
    assert HasOptionalFields(Inclusion);
    assert HasOptionalFields(Plan504VsIep);
    assert HasOptionalFields(CulturalDifferences);
    assert HasOptionalFields(TransitionToAdulthood);
    assert HasOptionalFields(MedicalNeeds);
    assert HasOptionalFields(Bullying);
    assert HasOptionalFields(Transportation);
    assert HasOptionalFields(TechnologyAccess);
    assert HasOptionalFields(MentalHealth);
  }
}
