/** Any number of overlapping builds of the same members: their claims and marks on the one
    catalog row, in any order, and when the dataset loads. */
module CatalogRuns {
  import opened Common
  import opened TrainingDataset
  import opened TrainingArtifact

  /** What the builds have in common; they differ in their cutoffs. */
  datatype Subject = Subject(digests: Digests, keys: seq<string>, columns: seq<string>, config: Config, members: seq<Member>)

  ghost predicate ValidSubject(x: Subject) {
    Buildable(x.digests, x.keys, x.config, x.members)
  }

  /** A statement some build executes; `cutoff` is that of the build. */
  datatype Event =
    | ClaimRow(cutoff: real)
    | MarkRowReady(cutoff: real, runId: string, uri: string)
    | MarkRowFailed

  predicate ValidEvent(e: Event) {
    e.MarkRowReady? ==> e.runId != "" && e.uri != ""
  }

  /** `claimed` is the cutoff of the last claim that took effect, `written` that of the build
      whose artifacts the row names. */
  datatype State = State(row: Option<Catalog>, claimed: real, written: real)

  function At(x: Subject, cutoff: real): Config {
    x.config.(cutoff := cutoff)
  }

  function Frame(x: Subject): seq<FrameRow>
    requires ValidSubject(x)
  {
    BuiltRows(x.digests, x.keys, x.config, x.members)
  }

  function Next(x: Subject, s: State, e: Event): State
    requires ValidSubject(x)
  {
    match e
    case ClaimRow(cutoff) =>
      var claimed := Claim(x.digests, At(x, cutoff), x.members, s.row);
      if claimed.None? then s else State(claimed, cutoff, s.written)
    case MarkRowReady(cutoff, runId, uri) =>
      if s.row.None? then s
      else State(Some(MarkReady(s.row.value, runId, uri, FileDigest(x.digests, x.columns, Frame(x)))), s.claimed, cutoff)
    case MarkRowFailed => if s.row.None? then s else s.(row := Some(MarkFailed(s.row.value)))
  }

  function Execute(x: Subject, events: seq<Event>): State
    requires ValidSubject(x)
    decreases |events|
  {
    if events == [] then State(None, 0.0, 0.0) else Next(x, Execute(x, events[..|events| - 1]), events[|events| - 1])
  }

  ghost predicate ValidEvents(events: seq<Event>) {
    forall k | 0 <= k < |events| :: ValidEvent(events[k])
  }

  /** What is downloaded for the row: what its build wrote. */
  function Artifacts(x: Subject, s: State): Downloaded
    requires ValidSubject(x)
  {
    Written(x.digests, x.columns, At(x, s.written), x.members, Frame(x))
  }

  predicate Loads(x: Subject, s: State)
    requires ValidSubject(x)
  {
    s.row.Some? && Load(x.digests, x.columns, s.row.value, Artifacts(x, s)).Ok?
  }

  ghost predicate Consistent(x: Subject, s: State)
    requires ValidSubject(x)
  {
    s.row.Some? ==>
      && ClaimedFor(x.digests, x.config, x.members, s.row.value) && s.row.value.cutoff == s.claimed
      && (s.row.value.status == IsReady ==>
            && s.row.value.runId != "" && s.row.value.uri != ""
            && s.row.value.sha256 == FileDigest(x.digests, x.columns, Frame(x)))
  }

  lemma ClaimKeepsConsistent(x: Subject, s: State, cutoff: real)
    requires ValidSubject(x) && Consistent(x, s)
    ensures Consistent(x, Next(x, s, ClaimRow(cutoff)))
  {
    assert IdentityOf(At(x, cutoff), x.members) == IdentityOf(x.config, x.members);
    ClaimIsForMembers(x.digests, At(x, cutoff), x.members, s.row);
  }

  lemma {:induction false} ExecuteIsConsistent(x: Subject, events: seq<Event>)
    requires ValidSubject(x) && ValidEvents(events)
    ensures Consistent(x, Execute(x, events))
    decreases |events|
  {
    if events != [] {
      var before, last := Execute(x, events[..|events| - 1]), events[|events| - 1];
      ExecuteIsConsistent(x, events[..|events| - 1]);
      if last.ClaimRow? { ClaimKeepsConsistent(x, before, last.cutoff); }
    }
  }

  lemma SameFrame(x: Subject, cutoff: real)
    requires ValidSubject(x)
    ensures Buildable(x.digests, x.keys, At(x, cutoff), x.members)
    ensures BuiltRows(x.digests, x.keys, At(x, cutoff), x.members) == Frame(x)
  {
    assert IdentityOf(At(x, cutoff), x.members) == IdentityOf(x.config, x.members);
  }

  /** A row that is ready is what marking it ready again would make of it. */
  lemma ConsistentLoadsExactlyWhen(x: Subject, s: State)
    requires ValidSubject(x) && Consistent(x, s)
    ensures Loads(x, s) <==> s.row.Some? && s.row.value.status == IsReady && IsClose(s.claimed, s.written)
  {
    if s.row.Some? && s.row.value.status == IsReady {
      var row := s.row.value;
      assert IdentityOf(At(x, s.written), x.members) == IdentityOf(x.config, x.members);
      SameFrame(x, s.written);
      WrittenLoadsExactlyWhen(x.digests, x.columns, x.keys, At(x, s.written), x.members, row, row.runId, row.uri);
      assert row == MarkReady(row, row.runId, row.uri, row.sha256);
    }
  }

  /** Whatever the builds did in whatever order: the dataset loads exactly when its row is ready
      and the build it names has the cutoff of the last claim that took effect, within the
      loader's tolerance. */
  lemma OverlappingBuildsLoadExactlyWhen(x: Subject, events: seq<Event>)
    requires ValidSubject(x) && ValidEvents(events)
    ensures var s := Execute(x, events);
            Loads(x, s) <==> s.row.Some? && s.row.value.status == IsReady && Near(s.claimed, s.written)
  {
    ExecuteIsConsistent(x, events);
    ConsistentLoadsExactlyWhen(x, Execute(x, events));
    NearIsClose(Execute(x, events).claimed, Execute(x, events).written);
  }

  // ------------------------------------------------------ when the row is ready

  ghost predicate ClaimedBy(events: seq<Event>, n: nat) {
    n <= |events| && exists k :: 0 <= k < n && events[k].ClaimRow?
  }

  /** Mark `i` came after a claim and no failure mark came after it. */
  ghost predicate LastsFrom(events: seq<Event>, i: nat) {
    && i < |events| && events[i].MarkRowReady? && ClaimedBy(events, i)
    && forall j | i < j < |events| :: !events[j].MarkRowFailed?
  }

  lemma {:induction false} RowExistsOnceClaimed(x: Subject, events: seq<Event>)
    requires ValidSubject(x)
    ensures Execute(x, events).row.Some? <==> ClaimedBy(events, |events|)
    decreases |events|
  {
    if events != [] {
      var before := events[..|events| - 1];
      RowExistsOnceClaimed(x, before);
      if k :| 0 <= k < |before| && before[k].ClaimRow? {
        assert events[k].ClaimRow?;
      }
    }
  }

  predicate IsReadyRow(s: State) {
    s.row.Some? && s.row.value.status == IsReady
  }

  lemma StepFromReady(x: Subject, s: State, e: Event)
    requires ValidSubject(x)
    ensures IsReadyRow(Next(x, s, e)) <==> if e.MarkRowReady? then s.row.Some? else IsReadyRow(s) && !e.MarkRowFailed?
    ensures IsReadyRow(s) && e.ClaimRow? ==> Next(x, s, e) == s
  {
  }

  ghost predicate LastingMark(events: seq<Event>) {
    exists i: nat :: LastsFrom(events, i)
  }

  lemma MarkLasts(events: seq<Event>)
    requires events != [] && events[|events| - 1].MarkRowReady?
    ensures LastingMark(events) <==> ClaimedBy(events, |events| - 1)
  {
    var n := |events| - 1;
    assert LastsFrom(events, n) <==> ClaimedBy(events, n);
  }

  lemma LaterEventLasts(events: seq<Event>)
    requires events != [] && !events[|events| - 1].MarkRowReady?
    ensures LastingMark(events) <==> LastingMark(events[..|events| - 1]) && !events[|events| - 1].MarkRowFailed?
  {
    var before := events[..|events| - 1];
    forall i: nat | i + 1 < |events| ensures LastsFrom(events, i) <==> LastsFrom(before, i) && !events[|events| - 1].MarkRowFailed? {
      PrefixLasts(events, i);
    }
    if i: nat :| LastsFrom(before, i) { assert LastsFrom(events, i) || events[|events| - 1].MarkRowFailed?; }
    if i: nat :| LastsFrom(events, i) { assert LastsFrom(before, i); }
  }

  /** The row is ready exactly when some ready mark that followed a claim was not followed by a
      failure mark; claims in between are refused. */
  lemma {:induction false} ReadyExactlyWhen(x: Subject, events: seq<Event>)
    requires ValidSubject(x)
    ensures IsReadyRow(Execute(x, events)) <==> LastingMark(events)
    decreases |events|
  {
    if events != [] {
      var n := |events| - 1;
      ReadyExactlyWhen(x, events[..n]);
      RowExistsOnceClaimed(x, events[..n]);
      StepFromReady(x, Execute(x, events[..n]), events[n]);
      PrefixClaims(events);
      if events[n].MarkRowReady? { MarkLasts(events); } else { LaterEventLasts(events); }
    }
  }

  lemma PrefixClaims(events: seq<Event>)
    requires events != []
    ensures forall m: nat | m < |events| :: ClaimedBy(events, m) <==> ClaimedBy(events[..|events| - 1], m)
  {
    var before := events[..|events| - 1];
    forall m: nat | m < |events| ensures ClaimedBy(events, m) <==> ClaimedBy(before, m) {
      assert forall k | 0 <= k < m :: events[k] == before[k];
    }
  }

  lemma PrefixLasts(events: seq<Event>, i: nat)
    requires i + 1 < |events|
    ensures LastsFrom(events, i) <==> LastsFrom(events[..|events| - 1], i) && !events[|events| - 1].MarkRowFailed?
  {
    PrefixClaims(events);
    var before := events[..|events| - 1];
    assert forall k | 0 <= k < |before| :: events[k] == before[k];
  }

  /** A dataset that loads cannot be claimed again; but a build that claimed it before can still
      mark it failed, and then it loads no longer, until it is claimed and made ready anew. */
  lemma LateFailureUnloads(x: Subject, events: seq<Event>, cutoff: real)
    requires ValidSubject(x) && ValidEvents(events) && Loads(x, Execute(x, events))
    ensures Execute(x, events + [ClaimRow(cutoff)]) == Execute(x, events)
    ensures !Loads(x, Execute(x, events + [MarkRowFailed]))
  {
    assert (events + [ClaimRow(cutoff)])[..|events|] == events;
    assert (events + [MarkRowFailed])[..|events|] == events;
    OverlappingBuildsLoadExactlyWhen(x, events);
    OverlappingBuildsLoadExactlyWhen(x, events + [MarkRowFailed]);
    StepFromReady(x, Execute(x, events), ClaimRow(cutoff));
    StepFromReady(x, Execute(x, events), MarkRowFailed);
  }

  lemma ExecuteAppend(x: Subject, events: seq<Event>, e: Event)
    requires ValidSubject(x)
    ensures Execute(x, events + [e]) == Next(x, Execute(x, events), e)
  {
    assert (events + [e])[..|events|] == events;
  }

  /** A claim of a row that is not ready takes effect: the row names no artifacts any more. */
  lemma ClaimTakesEffect(x: Subject, s: State, cutoff: real)
    requires ValidSubject(x) && !IsReadyRow(s)
    ensures var t := Next(x, s, ClaimRow(cutoff));
            && t.row.Some? && t.claimed == cutoff
            && t.row.value.status == Building && t.row.value.runId == t.row.value.uri == t.row.value.sha256 == ""
  {
  }

  /** Two builds that both claim before the first is ready: it loads exactly when their cutoffs
      are close; once the second is ready too, its own artifacts are the ones named, and it loads. */
  lemma TwoBuilds(x: Subject, first: real, second: real, runId: string, uri: string)
    requires ValidSubject(x) && runId != "" && uri != ""
    ensures var claims, ready := [ClaimRow(first)] + [ClaimRow(second)], MarkRowReady(first, runId, uri);
            && (Loads(x, Execute(x, claims + [ready])) <==> Near(second, first))
            && Loads(x, Execute(x, claims + [ready] + [MarkRowReady(second, runId, uri)]))
  {
    var one, claims := [ClaimRow(first)], [ClaimRow(first)] + [ClaimRow(second)];
    var ready := claims + [MarkRowReady(first, runId, uri)];
    assert [] + [ClaimRow(first)] == one;
    ExecuteAppend(x, [], ClaimRow(first));
    ExecuteAppend(x, one, ClaimRow(second));
    ExecuteAppend(x, claims, MarkRowReady(first, runId, uri));
    ExecuteAppend(x, ready, MarkRowReady(second, runId, uri));
    ClaimTakesEffect(x, Execute(x, []), first);
    ClaimTakesEffect(x, Execute(x, one), second);
    MarkTakesEffect(x, Execute(x, claims), first, runId, uri);
    MarkTakesEffect(x, Execute(x, ready), second, runId, uri);
    OverlappingBuildsLoadExactlyWhen(x, ready);
    OverlappingBuildsLoadExactlyWhen(x, ready + [MarkRowReady(second, runId, uri)]);
  }

  lemma MarkTakesEffect(x: Subject, s: State, cutoff: real, runId: string, uri: string)
    requires ValidSubject(x) && s.row.Some?
    ensures var t := Next(x, s, MarkRowReady(cutoff, runId, uri)); IsReadyRow(t) && t.claimed == s.claimed && t.written == cutoff
  {
  }
}
