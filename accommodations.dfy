/** The accommodation finder (src/components/AccommodationsUI.tsx, with the
    shapes of src/types/accommodations.ts): pick a disability, then one of its
    common presentations, and see the accommodations that address it. */
module Accommodations {
  import opened Common
  import opened Strings

  datatype Accommodation = Accommodation(
    name: string,
    howItHelps: string,
    addressesPresentation: string,
    example: string)

  datatype DisabilityData = DisabilityData(
    disabilityName: string,
    workingDefinition: string,
    commonPresentations: seq<string>,
    accommodationsModifications: seq<Accommodation>)

  /** The accommodations addressing `presentation`, in their order. */
  function Addressing(accs: seq<Accommodation>, presentation: string): (r: seq<Accommodation>)
    ensures IsSubsequence(r, accs)
    ensures forall i :: 0 <= i < |r| ==> r[i].addressesPresentation == presentation
    ensures forall a {:trigger multiset(r)[a]} :: multiset(r)[a] == if a.addressesPresentation == presentation then multiset(accs)[a] else 0
    decreases |accs|
  {
    if accs == [] then []
    else
      var rest := Addressing(accs[1..], presentation);
      SubsequenceSkip(rest, accs[1..], accs[0]);
      assert [accs[0]] + accs[1..] == accs;
      assert multiset(accs) == multiset{accs[0]} + multiset(accs[1..]);
      if accs[0].addressesPresentation == presentation then
        assert ([accs[0]] + rest)[1..] == rest;
        [accs[0]] + rest
      else rest
  }

  /** `filteredAccommodations`: empty unless a disability is selected and the
      selected presentation is a non-empty string (`''` is falsy); otherwise
      exactly that disability's accommodations addressing the presentation,
      in their order. */
  function Filtered(disability: Option<DisabilityData>, presentation: Option<string>): (r: seq<Accommodation>)
    ensures disability.None? || presentation.None? || presentation.value == "" ==> r == []
    ensures disability.Some? && presentation.Some? && presentation.value != "" ==>
      && IsSubsequence(r, disability.value.accommodationsModifications)
      && (forall a :: a in r ==> a.addressesPresentation == presentation.value)
      && (forall a {:trigger multiset(r)[a]} :: multiset(r)[a] ==
            if a.addressesPresentation == presentation.value then multiset(disability.value.accommodationsModifications)[a] else 0)
  {
    if disability.Some? && presentation.Some? && presentation.value != "" then
      Addressing(disability.value.accommodationsModifications, presentation.value)
    else []
  }

  /** The component's two state variables over the `disabilities` it was given. */
  class AccommodationsPage {
    const disabilities: seq<DisabilityData>
    var selectedDisability: Option<DisabilityData>
    var selectedPresentation: Option<string>

    /** What is selected was offered: a disability from the list, and a
        presentation of the selected disability, only once one is selected. */
    ghost predicate Valid()
      reads this
    {
      && (selectedDisability.Some? ==> selectedDisability.value in disabilities)
      && (selectedPresentation.Some? ==>
            selectedDisability.Some? && selectedPresentation.value in selectedDisability.value.commonPresentations)
    }

    /** Nothing selected. */
    constructor (ds: seq<DisabilityData>)
      ensures Valid()
      ensures disabilities == ds && selectedDisability == None && selectedPresentation == None
    {
      disabilities := ds;
      selectedDisability := None;
      selectedPresentation := None;
    }

    /** A click on the i-th disability button: selects it and clears the presentation. */
    method SelectDisability(i: nat) returns (taken: bool)
      requires Valid()
      modifies this
      ensures Valid()
      ensures taken <==> i < |disabilities|
      ensures taken ==> selectedDisability == Some(disabilities[i]) && selectedPresentation == None
      ensures !taken ==> selectedDisability == old(selectedDisability) && selectedPresentation == old(selectedPresentation)
    {
      taken := i < |disabilities|;
      if taken {
        selectedDisability := Some(disabilities[i]);
        selectedPresentation := None;
      }
    }

    /** A click on the j-th presentation button, shown only once a disability
        is selected: selects it and leaves the disability as it is. */
    method SelectPresentation(j: nat) returns (taken: bool)
      requires Valid()
      modifies this
      ensures Valid()
      ensures selectedDisability == old(selectedDisability)
      ensures taken <==> selectedDisability.Some? && j < |selectedDisability.value.commonPresentations|
      ensures taken ==> selectedPresentation == Some(selectedDisability.value.commonPresentations[j])
      ensures !taken ==> selectedPresentation == old(selectedPresentation)
    {
      taken := selectedDisability.Some? && j < |selectedDisability.value.commonPresentations|;
      if taken {
        selectedPresentation := Some(selectedDisability.value.commonPresentations[j]);
      }
    }

    /** The accommodations listed: each belongs to the selected disability and
        addresses the selected presentation, which is one of its presentations. */
    function Shown(): (r: seq<Accommodation>)
      reads this
      requires Valid()
      ensures r != [] ==> selectedDisability.Some? && selectedPresentation.Some?
      ensures r != [] ==> selectedPresentation.value in selectedDisability.value.commonPresentations
      ensures forall a :: a in r ==> a in selectedDisability.value.accommodationsModifications
      ensures forall a :: a in r ==> a.addressesPresentation == selectedPresentation.value
      ensures r == Filtered(selectedDisability, selectedPresentation)
    {
      var r := Filtered(selectedDisability, selectedPresentation);
      if r != [] then
        SubsequenceMembers(r, selectedDisability.value.accommodationsModifications);
        r
      else r
    }
  }
}
