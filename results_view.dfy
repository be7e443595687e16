/** `getSampleQuestion` of the results view: the question shown as a preview
    of a finished study guide. */
module ResultsView {
  import opened Common
  import opened Schema

  predicate IsMCQSection(section: Section)
  {
    section.kind == "mcq"
  }

  /** The fallback: the first question of the first section, provided that
      section has one; later sections are never looked at. */
  function FirstSectionQuestion(sections: seq<Section>): (r: Option<Question>)
    ensures r.Some? <==> sections != [] && sections[0].questions != []
    ensures r.Some? ==> r.value == sections[0].questions[0]
  {
    if |sections| > 0 && |sections[0].questions| > 0 then Some(sections[0].questions[0]) else None
  }

  /** Section `i` is the first "mcq" section. */
  predicate FirstMCQAt(sections: seq<Section>, i: nat)
  {
    i < |sections| && IsMCQSection(sections[i]) && forall j :: 0 <= j < i ==> !IsMCQSection(sections[j])
  }

  /** The first question of the first "mcq" section when that section has
      one; otherwise the fallback. Only the first "mcq" section counts: an
      empty one is not skipped in favour of a later one. */
  function GetSampleQuestion(sections: seq<Section>): (r: Option<Question>)
    ensures forall i: nat :: FirstMCQAt(sections, i) ==>
      r == (if sections[i].questions != [] then Some(sections[i].questions[0]) else FirstSectionQuestion(sections))
    ensures (forall i :: 0 <= i < |sections| ==> !IsMCQSection(sections[i])) ==> r == FirstSectionQuestion(sections)
  {
    var mcqSection := Find(sections, IsMCQSection);
    if mcqSection.Some? && |mcqSection.value.questions| > 0 then Some(mcqSection.value.questions[0])
    else FirstSectionQuestion(sections)
  }

  /** The preview, when there is one, is the first question of some section;
      there is none for an empty guide. */
  lemma SampleIsAFirstQuestion(sections: seq<Section>)
    ensures var r := GetSampleQuestion(sections);
      && (r.Some? ==> exists i :: 0 <= i < |sections| && sections[i].questions != [] && r.value == sections[i].questions[0])
      && (sections == [] ==> r.None?)
  {
    var found := Find(sections, IsMCQSection);
    if found.Some? && found.value.questions != [] {
      var k :| 0 <= k < |sections| && sections[k] == found.value;
    }
  }

  /** There is no preview exactly when the first section has no question and
      neither has the first "mcq" section, if any: a later section with
      questions is never used. */
  lemma NoPreviewFromLaterSections(sections: seq<Section>)
    ensures GetSampleQuestion(sections).None? <==>
      && (sections == [] || sections[0].questions == [])
      && forall i: nat :: FirstMCQAt(sections, i) ==> sections[i].questions == []
  {
    var found := Find(sections, IsMCQSection);
    if found.Some? {
      var k :| 0 <= k < |sections| && sections[k] == found.value && IsMCQSection(sections[k]) &&
               forall j :: 0 <= j < k ==> !IsMCQSection(sections[j]);
      assert FirstMCQAt(sections, k);
      forall i: nat | FirstMCQAt(sections, i)
        ensures i == k
      {
        assert !(i < k) && !(k < i);
      }
    } else {
      assert forall i: nat :: !FirstMCQAt(sections, i);
    }
  }
}
