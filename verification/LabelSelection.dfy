/** Which label a dataset gives a sample: the newest revision that was available at the cutoff. */
module LabelSelection {
  import opened Common
  import opened Sequences
  import opened Tables

  /** A row of `label_events`. */
  datatype Label = Label(
    id: string, sampleId: string, revision: int, measuredAt: real, availableAt: real, value: int, name: string)

  predicate SameSample(a: Label, b: Label) {
    a.sampleId == b.sampleId
  }

  /** ORDER BY label_revision DESC, available_at DESC, label_event_id. */
  predicate Newer(a: Label, b: Label) {
    || a.revision > b.revision
    || (a.revision == b.revision && (a.availableAt > b.availableAt || (a.availableAt == b.availableAt && TextBefore(a.id, b.id))))
  }

  function IsCandidate(cutoff: real, samples: set<string>): Label -> bool {
    (l: Label) => l.availableAt <= cutoff && l.sampleId in samples
  }

  function IsNewest(ranked: seq<Label>): Label -> bool {
    (l: Label) => RowNumber(ranked, SameSample, Newer, l) == 1
  }

  /** Labels of the samples that were available at the cutoff, the newest of each sample. */
  function LabelsAtCutoff(cutoff: real, samples: set<string>, labels: seq<Label>): seq<Label> {
    Filter(Filter(labels, IsCandidate(cutoff, samples)), IsNewest(Filter(labels, IsCandidate(cutoff, samples))))
  }

  function IsLabelOf(sample: string): Label -> bool {
    (l: Label) => l.sampleId == sample
  }

  /** What a LEFT JOIN on the sample finds. */
  function Matches(cutoff: real, samples: set<string>, labels: seq<Label>, sample: string): seq<Label> {
    Filter(LabelsAtCutoff(cutoff, samples, labels), IsLabelOf(sample))
  }

  function IsKnown(cutoff: real): Label -> bool {
    (l: Label) => l.availableAt <= cutoff
  }

  function LabelsBy(cutoff: real, labels: seq<Label>): seq<Label> {
    Filter(labels, IsKnown(cutoff))
  }

  /** A label that became available later changes nothing. */
  lemma LabelsIgnoreLater(cutoff: real, samples: set<string>, labels: seq<Label>)
    ensures LabelsAtCutoff(cutoff, samples, labels) == LabelsAtCutoff(cutoff, samples, LabelsBy(cutoff, labels))
  {
    FilterNested(labels, IsKnown(cutoff), IsCandidate(cutoff, samples), IsCandidate(cutoff, samples));
  }

  // ------------------------------------------------------------- what it selects

  /** The primary key. */
  ghost predicate DistinctLabels(labels: seq<Label>) {
    forall i, j | 0 <= i < j < |labels| :: labels[i].id != labels[j].id
  }

  lemma TextIsOrdered()
    ensures StrictOrder(TextBefore) && forall a, b :: a == b || TextBefore(a, b) || TextBefore(b, a)
  {
    forall a ensures !TextBefore(a, a) { TextIrreflexive(a); }
    forall a, b, c | TextBefore(a, b) && TextBefore(b, c) ensures TextBefore(a, c) { TextTransitive(a, b, c); }
    forall a, b ensures a == b || TextBefore(a, b) || TextBefore(b, a) { TextTotal(a, b); }
  }

  lemma NewerIsOrder()
    ensures StrictOrder(Newer) && Equivalence(SameSample)
  {
    TextIsOrdered();
  }

  lemma NewerDecides(labels: seq<Label>, p: Label -> bool)
    requires DistinctLabels(labels)
    ensures Decides(Newer, Filter(labels, p))
  {
    TextIsOrdered();
    forall a, b | a in Filter(labels, p) && b in Filter(labels, p) ensures a == b || Newer(a, b) || Newer(b, a) {
      FilterMember(labels, p, a);
      FilterMember(labels, p, b);
    }
  }

  /** No label is newer than `l`: by revision, then by when it became available, then by id. */
  predicate AsNewAs(l: Label, x: Label) {
    && x.revision <= l.revision
    && (x.revision == l.revision ==> x.availableAt <= l.availableAt)
    && (x.revision == l.revision && x.availableAt == l.availableAt ==> x.id == l.id || TextBefore(l.id, x.id))
  }

  lemma AsNewAsIsNotOlder(l: Label, x: Label)
    ensures AsNewAs(l, x) <==> !Newer(x, l)
  {
    TextIsOrdered();
  }

  /** `l` is the newest label of its sample that was known at the cutoff. */
  ghost predicate NewestKnown(cutoff: real, labels: seq<Label>, l: Label) {
    l in labels && l.availableAt <= cutoff
    && forall x | x in labels && x.availableAt <= cutoff && x.sampleId == l.sampleId :: AsNewAs(l, x)
  }

  lemma InLabels(cutoff: real, samples: set<string>, labels: seq<Label>, l: Label)
    requires l.sampleId in samples
    ensures l in LabelsAtCutoff(cutoff, samples, labels) <==> NewestKnown(cutoff, labels, l)
  {
    var ranked := Filter(labels, IsCandidate(cutoff, samples));
    FilterMember(ranked, IsNewest(ranked), l);
    RowNumberOne(ranked, SameSample, Newer, l);
    forall x: Label | x.sampleId == l.sampleId ensures x in ranked <==> x in labels && x.availableAt <= cutoff {
      FilterMember(labels, IsCandidate(cutoff, samples), x);
    }
    forall x ensures AsNewAs(l, x) <==> !Newer(x, l) { AsNewAsIsNotOlder(l, x); }
  }

  /** The label of a sample: the newest one known at the cutoff, or none if there is none. */
  ghost predicate RightLabel(cutoff: real, labels: seq<Label>, sample: string, actual: Option<Label>) {
    if actual.Some? then actual.value.sampleId == sample && NewestKnown(cutoff, labels, actual.value)
    else forall l | l in labels && l.sampleId == sample :: l.availableAt > cutoff
  }

  /** A sample matches one label at most, and one exactly when any is known. */
  lemma MatchesOneLabel(cutoff: real, samples: set<string>, labels: seq<Label>, sample: string)
    requires DistinctLabels(labels) && sample in samples
    ensures var matches := Matches(cutoff, samples, labels, sample);
            |matches| <= 1 && RightLabel(cutoff, labels, sample, if matches == [] then None else Some(matches[0]))
  {
    var newest := LabelsAtCutoff(cutoff, samples, labels);
    var matches := Matches(cutoff, samples, labels, sample);
    var ranked := Filter(labels, IsCandidate(cutoff, samples));
    NewerIsOrder();
    forall l | l in matches ensures l in newest && l.sampleId == sample && NewestKnown(cutoff, labels, l) {
      FilterMember(newest, IsLabelOf(sample), l);
      InLabels(cutoff, samples, labels, l);
    }
    if |matches| > 1 {
      FilterNoDuplicates(labels, IsCandidate(cutoff, samples));
      FilterNoDuplicates(ranked, IsNewest(ranked));
      FilterNoDuplicates(newest, IsLabelOf(sample));
      NewerDecides(labels, IsCandidate(cutoff, samples));
      assert matches[0] in matches && matches[1] in matches;
      FilterMember(ranked, IsNewest(ranked), matches[0]);
      FilterMember(ranked, IsNewest(ranked), matches[1]);
      FirstRowIsUnique(ranked, SameSample, Newer, matches[0], matches[1]);
    }
    if matches == [] {
      forall l | l in labels && l.sampleId == sample ensures l.availableAt > cutoff {
        FilterMember(labels, IsCandidate(cutoff, samples), l);
        if l in ranked {
          var m := FirstRowExists(ranked, SameSample, Newer, l);
          FilterMember(ranked, IsNewest(ranked), m);
          FilterMember(newest, IsLabelOf(sample), m);
        }
      }
    } else {
      assert matches[0] in matches;
    }
  }

  lemma RightLabelIsUnique(cutoff: real, labels: seq<Label>, sample: string, a: Option<Label>, b: Option<Label>)
    requires DistinctLabels(labels) && RightLabel(cutoff, labels, sample, a) && RightLabel(cutoff, labels, sample, b)
    ensures a == b
  {
    TextIsOrdered();
    if a.Some? && b.Some? {
      assert AsNewAs(a.value, b.value) && AsNewAs(b.value, a.value);
    }
  }
}
