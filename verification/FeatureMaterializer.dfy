/** The feature materializer: an at-least-once consumer that writes the online store, then the
    archive, then the offset, and may be killed between any two steps. */
module FeatureMaterializer {
  import opened Common
  import opened ConsumerLoop

  /** A validated snapshot; `payload` stands for the columns no decision looks at. */
  datatype Snapshot = Snapshot(id: string, sampleId: string, version: nat, featureHash: string, payload: string)

  /** A partition: a record the parser rejects is None. */
  type Log = seq<Option<Snapshot>>

  datatype Archived = Archived(row: Snapshot, availableAt: real)

  datatype Phase = Idle | Online(at: real) | Stored | Dead

  /** `firstOnline` is history: when a snapshot was first confirmed online. */
  datatype State = State(
    online: map<string, Snapshot>, archive: map<string, Archived>, committed: nat,
    position: nat, phase: Phase, clock: real, firstOnline: map<string, real>)

  /** A remote write: done, done but the answer is lost or the check after it fails, or not done. */
  datatype Outcome = Works | AnswerLost | Down

  datatype Event = Put(o: Outcome, now: real) | Persist(o: Outcome) | Commit(o: Outcome) | Crash | Restart

  function Initial(): State {
    State(map[], map[], 0, 0, Dead, 0.0, map[])
  }

  function Die(s: State): State {
    s.(phase := Dead)
  }

  /** Another snapshot already has the sample and version (the UNIQUE constraint). */
  predicate VersionTaken(archive: map<string, Archived>, row: Snapshot) {
    exists id :: id in archive && SameVersion(archive[id].row, row)
  }

  /** INSERT .. ON CONFLICT (serving_snapshot_id) DO NOTHING. */
  function Insert(archive: map<string, Archived>, row: Snapshot, at: real): Option<map<string, Archived>> {
    if row.id in archive then Some(archive)
    else if VersionTaken(archive, row) then None
    else Some(archive[row.id := Archived(row, at)])
  }

  function PutOnline(s: State, row: Snapshot, now: real): State {
    s.(online := s.online[row.sampleId := row], clock := now, phase := Online(now),
       firstOnline := if row.id in s.firstOnline then s.firstOnline else s.firstOnline[row.id := now])
  }

  /** The archive write; an insert that the table refuses ends the process. */
  function Persisted(s: State, inserted: Option<map<string, Archived>>, o: Outcome): State {
    if inserted.None? || o == Down then Die(s)
    else if o == AnswerLost then Die(s.(archive := inserted.value))
    else s.(archive := inserted.value, phase := Stored)
  }

  /** One step; a step that is not possible changes nothing. */
  function Next(log: Log, s: State, e: Event): State {
    match e
    case Put(o, now) =>
      if s.phase != Idle || s.position >= |log| || now < s.clock then s
      else if log[s.position].None? then Die(s)
      else
        (match o
         case Works => PutOnline(s, log[s.position].value, now)
         case AnswerLost => Die(PutOnline(s, log[s.position].value, now))
         case Down => Die(s))
    case Persist(o) =>
      if !s.phase.Online? || s.position >= |log| || log[s.position].None? then s
      else Persisted(s, Insert(s.archive, log[s.position].value, s.phase.at), o)
    case Commit(o) =>
      if s.phase != Stored then s
      else
        (match o
         case Works => s.(committed := s.position + 1, position := s.position + 1, phase := Idle)
         case AnswerLost => Die(s.(committed := s.position + 1))
         case Down => Die(s))
    case Crash => Die(s)
    case Restart => if s.phase == Dead then s.(position := s.committed, phase := Idle) else s
  }

  function Execute(log: Log, events: seq<Event>): State
    decreases |events|
  {
    if events == [] then Initial() else Next(log, Execute(log, events[..|events| - 1]), events[|events| - 1])
  }

  /** What moves what, however a step ends: each store by its write that was done, even if the
      answer was lost; a restart goes on at the committed offset, and only steps that worked go on
      without one. */
  lemma StepMoves(log: Log, s: State, e: Event)
    ensures var t := Next(log, s, e);
            && t.committed == (if e.Commit? && s.phase == Stored && e.o != Down then s.position + 1 else s.committed)
            && (e == Restart && s.phase == Dead ==> t.phase == Idle && t.position == s.committed)
            && (e == Commit(Works) && s.phase == Stored ==> t.phase == Idle && t.position == s.position + 1)
            && (e == Crash || (e.Commit? && s.phase == Stored && e.o != Works) ==> t.phase == Dead)
    ensures s.position < |log| && log[s.position].Some? ==>
              var row, t := log[s.position].value, Next(log, s, e);
              && (e.Put? && s.phase == Idle && e.now >= s.clock ==>
                    && t.online == (if e.o == Down then s.online else s.online[row.sampleId := row])
                    && t.phase == (if e.o == Works then Online(e.now) else Dead))
              && (e.Persist? && s.phase.Online? ==>
                    var inserted := Insert(s.archive, row, s.phase.at);
                    && t.archive == (if e.o == Down then s.archive else inserted.GetOr(s.archive))
                    && t.phase == (if e.o == Works && inserted.Some? then Stored else Dead))
  {
  }

  // ------------------------------------------------- what the stores stand for

  /** The first `n` records, of which the parser rejects none. */
  predicate Parsed(log: Log, n: nat) {
    n <= |log| && forall k | 0 <= k < n :: log[k].Some?
  }

  /** The last of the first `n` records of every sample. */
  function LastWrite(log: Log, n: nat): map<string, Snapshot>
    requires Parsed(log, n)
  {
    if n == 0 then map[] else LastWrite(log, n - 1)[log[n - 1].value.sampleId := log[n - 1].value]
  }

  /** The first of the first `n` records of every snapshot id. */
  function FirstArchived(log: Log, n: nat): map<string, Snapshot>
    requires Parsed(log, n)
  {
    if n == 0 then map[]
    else
      var t, row := FirstArchived(log, n - 1), log[n - 1].value;
      if row.id in t then t else t[row.id := row]
  }

  function Rows(archive: map<string, Archived>): map<string, Snapshot> {
    map id | id in archive :: archive[id].row
  }

  predicate SameVersion(a: Snapshot, b: Snapshot) {
    a.sampleId == b.sampleId && a.version == b.version
  }

  /** Record `k` is the first that carries its snapshot id. */
  predicate FirstOfId(log: Log, k: nat) {
    && k < |log| && log[k].Some?
    && forall j | 0 <= j < k && log[j].Some? :: log[j].value.id != log[k].value.id
  }

  /** The first `n` records can be passed: they parse, and no two snapshot ids are archived
      with the same version of a sample. */
  ghost predicate Passable(log: Log, n: nat) {
    && Parsed(log, n)
    && forall j, k {:trigger FirstOfId(log, j), FirstOfId(log, k)} | 0 <= j < k < n && FirstOfId(log, j) && FirstOfId(log, k) ::
         log[j].value.sampleId != log[k].value.sampleId || log[j].value.version != log[k].value.version
  }

  lemma {:induction false} FirstArchivedMeaning(log: Log, n: nat, id: string)
    requires Parsed(log, n) && id in FirstArchived(log, n)
    ensures exists k :: 0 <= k < n && log[k] == Some(FirstArchived(log, n)[id]) && log[k].value.id == id && FirstOfId(log, k)
  {
    if id in FirstArchived(log, n - 1) {
      FirstArchivedMeaning(log, n - 1, id);
    } else {
      assert log[n - 1] == Some(FirstArchived(log, n)[id]);
      forall j | 0 <= j < n - 1 && log[j].Some? ensures log[j].value.id != id { FirstArchivedCovers(log, n - 1, j); }
    }
  }

  lemma {:induction false} FirstArchivedCovers(log: Log, n: nat, k: nat)
    requires Parsed(log, n) && k < n
    ensures log[k].value.id in FirstArchived(log, n)
  {
    if k < n - 1 { FirstArchivedCovers(log, n - 1, k); }
  }

  /** What was archived first stays. */
  lemma {:induction false} FirstArchivedStays(log: Log, m: nat, n: nat, id: string)
    requires Parsed(log, n) && m <= n && id in FirstArchived(log, m)
    ensures id in FirstArchived(log, n) && FirstArchived(log, n)[id] == FirstArchived(log, m)[id]
  {
    if m < n { FirstArchivedStays(log, m, n - 1, id); }
  }

  lemma FirstOfIdIsArchived(log: Log, n: nat, k: nat)
    requires Parsed(log, n) && k < n && FirstOfId(log, k)
    ensures log[k].value.id in FirstArchived(log, n) && FirstArchived(log, n)[log[k].value.id] == log[k].value
  {
    var id := log[k].value.id;
    FirstArchivedCovers(log, k + 1, k);
    FirstArchivedMeaning(log, k + 1, id);
    FirstArchivedStays(log, k + 1, n, id);
  }

  lemma {:induction false} LastWriteMeaning(log: Log, n: nat, sample: string)
    requires Parsed(log, n) && sample in LastWrite(log, n)
    ensures exists k :: 0 <= k < n && log[k] == Some(LastWrite(log, n)[sample]) && log[k].value.sampleId == sample
                        && forall j | k < j < n :: log[j].value.sampleId != sample
  {
    if log[n - 1].value.sampleId == sample {
      assert log[n - 1] == Some(LastWrite(log, n)[sample]);
    } else {
      LastWriteMeaning(log, n - 1, sample);
    }
  }

  lemma InsertFollowsFold(log: Log, n: nat, archive: map<string, Archived>, at: real)
    requires Parsed(log, n + 1) && Rows(archive) == FirstArchived(log, n)
    ensures Insert(archive, log[n].value, at).Some? ==> Rows(Insert(archive, log[n].value, at).value) == FirstArchived(log, n + 1)
  {
    assert log[n].value.id in archive <==> log[n].value.id in Rows(archive);
  }

  lemma VersionTakenMeaning(log: Log, n: nat, archive: map<string, Archived>, row: Snapshot)
    requires Parsed(log, n) && Rows(archive) == FirstArchived(log, n)
    ensures VersionTaken(archive, row) <==> exists k :: 0 <= k < n && FirstOfId(log, k) && SameVersion(log[k].value, row)
  {
    if id :| id in archive && SameVersion(archive[id].row, row) {
      assert id in Rows(archive) && Rows(archive)[id] == archive[id].row;
      FirstArchivedMeaning(log, n, id);
    }
    if k :| 0 <= k < n && FirstOfId(log, k) && SameVersion(log[k].value, row) {
      FirstOfIdIsArchived(log, n, k);
      assert log[k].value.id in Rows(archive) && Rows(archive)[log[k].value.id] == archive[log[k].value.id].row;
    }
  }

  lemma PassableGrows(log: Log, n: nat)
    requires Parsed(log, n + 1) && Passable(log, n)
    ensures Passable(log, n + 1) <==>
              !FirstOfId(log, n) || !exists k :: 0 <= k < n && FirstOfId(log, k) && SameVersion(log[k].value, log[n].value)
  {
  }

  lemma ArchivedExactlyUnlessFirst(log: Log, n: nat)
    requires Parsed(log, n + 1)
    ensures log[n].value.id in FirstArchived(log, n) <==> !FirstOfId(log, n)
  {
    var id := log[n].value.id;
    if id in FirstArchived(log, n) {
      FirstArchivedMeaning(log, n, id);
    } else {
      forall j | 0 <= j < n ensures log[j].value.id != id { FirstArchivedCovers(log, n, j); }
    }
  }

  /** A record is archived exactly when its id is already archived or its version is not. */
  lemma InsertSucceedsExactlyWhen(log: Log, n: nat, archive: map<string, Archived>, at: real)
    requires Parsed(log, n + 1) && Rows(archive) == FirstArchived(log, n) && Passable(log, n)
    ensures Insert(archive, log[n].value, at).Some? <==> Passable(log, n + 1)
  {
    VersionTakenMeaning(log, n, archive, log[n].value);
    ArchivedExactlyUnlessFirst(log, n);
    PassableGrows(log, n);
    assert log[n].value.id in archive <==> log[n].value.id in Rows(archive);
  }

  // --------------------------------------------------------------- invariant

  /** `v` records are online, `p` are archived; what was archived could be. */
  ghost predicate Stands(log: Log, s: State, v: nat, p: nat) {
    && s.committed <= p <= v <= s.committed + 1 && Passable(log, p)
    && Parsed(log, v) && s.online == LastWrite(log, v) && Rows(s.archive) == FirstArchived(log, p)
    && (s.phase != Dead ==> s.position == s.committed)
    && (s.phase.Online? || s.phase == Stored ==> v == s.position + 1)
    && (s.phase == Stored ==> p == s.position + 1)
  }

  /** Availability is recorded no earlier than the snapshot was first online. */
  ghost predicate OnlineFirst(log: Log, s: State) {
    && (forall id | id in s.firstOnline :: s.firstOnline[id] <= s.clock)
    && (forall id | id in s.archive :: id in s.firstOnline && s.firstOnline[id] <= s.archive[id].availableAt)
    && (s.phase.Online? ==> s.position < |log| && log[s.position].Some? && log[s.position].value.id in s.firstOnline
                            && s.firstOnline[log[s.position].value.id] <= s.phase.at)
  }

  lemma PutKeepsOnlineFirst(log: Log, s: State, row: Snapshot, now: real)
    requires OnlineFirst(log, s) && s.position < |log| && log[s.position] == Some(row) && s.clock <= now
    ensures OnlineFirst(log, PutOnline(s, row, now))
  {
  }

  lemma PersistKeepsOnlineFirst(log: Log, s: State, o: Outcome)
    requires OnlineFirst(log, s)
    ensures OnlineFirst(log, Next(log, s, Persist(o)))
  {
  }

  lemma StepKeepsOnlineFirst(log: Log, s: State, e: Event)
    requires OnlineFirst(log, s)
    ensures OnlineFirst(log, Next(log, s, e))
  {
    match e
    case Put(_, now) =>
      if s.phase == Idle && s.position < |log| && s.clock <= now && log[s.position].Some? {
        PutKeepsOnlineFirst(log, s, log[s.position].value, now);
      }
    case Persist(o) => PersistKeepsOnlineFirst(log, s, o);
    case _ =>
  }

  /** Writing the last record again leaves the online store as it is. */
  lemma RewriteIsIdempotent(log: Log, n: nat)
    requires Parsed(log, n + 1)
    ensures LastWrite(log, n + 1)[log[n].value.sampleId := log[n].value] == LastWrite(log, n + 1)
  {
  }

  lemma PutStands(log: Log, s: State, v: nat, p: nat, o: Outcome, now: real)
    requires Stands(log, s, v, p)
    ensures Stands(log, Next(log, s, Put(o, now)), v, p) || Stands(log, Next(log, s, Put(o, now)), s.position + 1, p)
  {
    if s.phase == Idle && s.position < |log| && log[s.position].Some? && v == s.position + 1 {
      RewriteIsIdempotent(log, s.position);
    }
  }

  /** What the insert of the record at hand does, the first time or again. */
  lemma InsertAgain(log: Log, n: nat, p: nat, archive: map<string, Archived>, at: real)
    requires Parsed(log, n + 1) && n <= p <= n + 1 && Rows(archive) == FirstArchived(log, p) && Passable(log, p)
    ensures var r := Insert(archive, log[n].value, at);
            && (r.Some? <==> Passable(log, n + 1))
            && (r.Some? ==> Rows(r.value) == FirstArchived(log, n + 1))
  {
    if p == n {
      InsertSucceedsExactlyWhen(log, n, archive, at);
      InsertFollowsFold(log, n, archive, at);
    } else {
      FirstArchivedCovers(log, p, n);
      assert log[n].value.id in Rows(archive);
    }
  }

  lemma PersistStands(log: Log, s: State, v: nat, p: nat, o: Outcome)
    requires Stands(log, s, v, p)
    ensures Stands(log, Next(log, s, Persist(o)), v, p) || Stands(log, Next(log, s, Persist(o)), v, s.position + 1)
  {
    if s.phase.Online? {
      InsertAgain(log, s.position, p, s.archive, s.phase.at);
      PersistedStands(log, s, v, p, Insert(s.archive, log[s.position].value, s.phase.at), o);
    }
  }

  lemma PersistedStands(log: Log, s: State, v: nat, p: nat, r: Option<map<string, Archived>>, o: Outcome)
    requires Stands(log, s, v, p) && s.phase.Online?
    requires r.Some? ==> Passable(log, s.position + 1) && Rows(r.value) == FirstArchived(log, s.position + 1)
    ensures Stands(log, Persisted(s, r, o), v, p) || Stands(log, Persisted(s, r, o), v, s.position + 1)
  {
  }

  lemma OtherStands(log: Log, s: State, v: nat, p: nat, e: Event)
    requires Stands(log, s, v, p) && !e.Put? && !e.Persist?
    ensures Stands(log, Next(log, s, e), v, p)
  {
  }

  lemma StepStands(log: Log, s: State, v: nat, p: nat, e: Event) returns (v': nat, p': nat)
    requires Stands(log, s, v, p)
    ensures Stands(log, Next(log, s, e), v', p')
  {
    ghost var t := Next(log, s, e);
    v', p' := v, p;
    if e.Put? {
      PutStands(log, s, v, p, e.o, e.now);
      v' := if Stands(log, t, v, p) then v else s.position + 1;
    } else if e.Persist? {
      PersistStands(log, s, v, p, e.o);
      p' := if Stands(log, t, v, p) then p else s.position + 1;
    } else {
      OtherStands(log, s, v, p, e);
    }
  }

  /** For every schedule of crashes, restarts and lost answers: the online store is the
      last-write fold of `v` records, the archive holds the snapshots of `p`, and
      committed <= p <= v <= committed + 1. */
  lemma {:induction false} TwoStoreOrder(log: Log, events: seq<Event>) returns (v: nat, p: nat)
    ensures Stands(log, Execute(log, events), v, p)
    decreases |events|
  {
    if events == [] {
      v, p := 0, 0;
    } else {
      v, p := TwoStoreOrder(log, events[..|events| - 1]);
      v, p := StepStands(log, Execute(log, events[..|events| - 1]), v, p, events[|events| - 1]);
    }
  }

  lemma {:induction false} AlwaysOnlineFirst(log: Log, events: seq<Event>)
    ensures OnlineFirst(log, Execute(log, events))
    decreases |events|
  {
    if events != [] {
      AlwaysOnlineFirst(log, events[..|events| - 1]);
      StepKeepsOnlineFirst(log, Execute(log, events[..|events| - 1]), events[|events| - 1]);
    }
  }

  /** Below the committed offset every snapshot is archived under its id, and no snapshot is
      archived that was not online first; what was recorded first stays. */
  lemma CommittedSnapshotsAreArchived(log: Log, events: seq<Event>, k: nat)
    requires k < Execute(log, events).committed
    ensures var s := Execute(log, events);
            && k < |log| && log[k].Some? && log[k].value.id in s.archive
            && log[k].value.id in s.firstOnline && s.firstOnline[log[k].value.id] <= s.archive[log[k].value.id].availableAt
  {
    var v, p := TwoStoreOrder(log, events);
    AlwaysOnlineFirst(log, events);
    FirstArchivedCovers(log, p, k);
    assert log[k].value.id in Rows(Execute(log, events).archive);
  }

  /** An archived row, with its availability, is never replaced or removed. */
  lemma FirstAvailabilityStays(log: Log, events: seq<Event>, e: Event, id: string)
    requires id in Execute(log, events).archive
    ensures id in Execute(log, events + [e]).archive
    ensures Execute(log, events + [e]).archive[id] == Execute(log, events).archive[id]
  {
    assert (events + [e])[..|events|] == events;
    InsertExtends(log, Execute(log, events), e);
  }

  lemma InsertExtends(log: Log, s: State, e: Event)
    ensures forall id | id in s.archive :: id in Next(log, s, e).archive && Next(log, s, e).archive[id] == s.archive[id]
  {
  }

  // ---------------------------------------------------------------- progress

  /** One record with nothing failing. */
  function HandleRecord(log: Log, s: State, now: real): State {
    Next(log, Next(log, Next(log, s, Put(Works, now)), Persist(Works)), Commit(Works))
  }

  /** The writes of a record that parses. */
  lemma PutPasses(log: Log, s: State, v: nat, p: nat, now: real)
    requires Stands(log, s, v, p) && s.phase == Idle && s.position < |log| && s.clock <= now && log[s.position].Some?
    ensures var t := Next(log, s, Put(Works, now));
            && t == PutOnline(s, log[s.position].value, now) && Stands(log, t, s.position + 1, p) && p <= s.position + 1
  {
    PutStands(log, s, v, p, Works, now);
  }

  lemma PersistPassesExactlyWhen(log: Log, s: State, v: nat, p: nat)
    requires Stands(log, s, v, p) && s.phase.Online? && s.position < |log| && log[s.position].Some?
    ensures var t := Next(log, s, Persist(Works));
            if Passable(log, s.position + 1)
            then t == s.(archive := t.archive, phase := Stored) && Rows(t.archive) == FirstArchived(log, s.position + 1)
            else t == Die(s)
  {
    InsertAgain(log, s.position, p, s.archive, s.phase.at);
  }

  lemma CommitPasses(log: Log, s: State, v: nat, p: nat, t: State)
    requires Stands(log, s, v, p) && s.phase.Online? && Passable(log, s.position + 1) && Parsed(log, s.position + 1)
    requires t == s.(archive := t.archive, phase := Stored) && Rows(t.archive) == FirstArchived(log, s.position + 1)
    ensures var u := Next(log, t, Commit(Works));
            && u.phase == Idle && u.committed == s.committed + 1 && u.clock == s.clock
            && Stands(log, u, s.position + 1, s.position + 1)
  {
  }

  lemma DeadStays(log: Log, s: State)
    requires s.phase == Dead
    ensures Next(log, s, Persist(Works)) == s && Next(log, s, Commit(Works)) == s
  {
  }

  /** A record is passed exactly when the log up to it can be passed. */
  lemma PassesExactlyWhen(log: Log, s: State, v: nat, p: nat, now: real)
    requires Stands(log, s, v, p) && s.phase == Idle && s.position < |log| && s.clock <= now
    ensures var t := HandleRecord(log, s, now);
            if Passable(log, s.position + 1)
            then t.phase == Idle && t.committed == s.committed + 1 && t.clock == now && Stands(log, t, s.position + 1, s.position + 1)
            else t.phase == Dead && t.committed == s.committed
  {
    var s1 := Next(log, s, Put(Works, now));
    var s2 := Next(log, s1, Persist(Works));
    if log[s.position].None? {
      assert s1 == Die(s) && !Passable(log, s.position + 1);
      DeadStays(log, s1);
    } else {
      PutPasses(log, s, v, p, now);
      PersistPassesExactlyWhen(log, s1, s.position + 1, p);
      if Passable(log, s.position + 1) {
        CommitPasses(log, s1, s.position + 1, p, s2);
      } else {
        DeadStays(log, s2);
      }
    }
  }

  function Handler(log: Log, now: real): State -> State {
    s => HandleRecord(log, s, now)
  }

  function IsReady(log: Log): State -> bool {
    (s: State) => s.phase == Idle && s.position < |log|
  }

  function Committed(): State -> nat {
    (s: State) => s.committed
  }

  ghost function Reachable(log: Log, now: real): State -> bool {
    (s: State) => s.clock <= now && exists v, p :: Stands(log, s, v, p)
  }

  ghost function PassableUpTo(log: Log): nat -> bool {
    (n: nat) => Passable(log, n)
  }

  /** `t` follows `s` by handling one record. */
  ghost predicate Handled(log: Log, now: real, s: State, t: State) {
    if Passable(log, s.committed + 1)
    then t.phase == Idle && t.position == t.committed == s.committed + 1 && Reachable(log, now)(t)
    else t.phase == Dead && t.committed == s.committed
  }

  lemma HandlerPasses(log: Log, now: real, s: State)
    requires Reachable(log, now)(s) && IsReady(log)(s)
    ensures Handled(log, now, s, Handler(log, now)(s))
  {
    var v, p :| Stands(log, s, v, p);
    PassesExactlyWhen(log, s, v, p, now);
  }

  ghost predicate AlwaysHandles(log: Log, now: real, handle: State -> State) {
    forall s {:trigger handle(s)} | Reachable(log, now)(s) && IsReady(log)(s) :: Handled(log, now, s, handle(s))
  }

  lemma HandlerIsExact(log: Log, now: real, handle: State -> State)
    requires AlwaysHandles(log, now, handle)
    ensures Handles(handle, IsReady(log), Committed(), |log|, Reachable(log, now), PassableUpTo(log))
  {
  }

  /** Whatever happened before, a restarted materializer that is left undisturbed gets past
      the first `n` records exactly when they can be passed. */
  lemma MaterializesExactlyPassablePrefix(log: Log, events: seq<Event>, n: nat, now: real)
    requires var s := Execute(log, events); s.phase == Idle && s.committed <= n <= |log| && s.clock <= now
    ensures var s := Execute(log, events);
            Loop(Handler(log, now), IsReady(log), s, n - s.committed).committed >= n <==> Passable(log, n)
  {
    var v, p := TwoStoreOrder(log, events);
    var handle := Handler(log, now);
    forall s | Reachable(log, now)(s) && IsReady(log)(s) ensures Handled(log, now, s, handle(s)) { HandlerPasses(log, now, s); }
    HandlerIsExact(log, now, handle);
    LoopReachesGoodPrefix(Handler(log, now), IsReady(log), Committed(), |log|, Reachable(log, now), PassableUpTo(log), Execute(log, events), n);
  }

  /** The process: `handle` for one record; an exception ends it. */
  class FeatureStateRecordHandler {
    const log: Log
    var online: map<string, Snapshot>
    var archive: map<string, Archived>
    var committed: nat
    var position: nat
    var phase: Phase
    var clock: real
    ghost var firstOnline: map<string, real>

    ghost function View(): State
      reads this
    {
      State(online, archive, committed, position, phase, clock, firstOnline)
    }

    constructor (records: Log)
      ensures log == records && View() == Initial()
    {
      log := records;
      online, archive, committed, position, phase, clock, firstOnline := map[], map[], 0, 0, Dead, 0.0, map[];
    }

    /** `store.put`: the online write, with its check. */
    method Put(o: Outcome, now: real)
      requires phase == Idle && position < |log| && clock <= now
      modifies this
      ensures View() == Next(log, old(View()), Event.Put(o, now))
    {
      if log[position].None? || o == Down {
        phase := Dead;
        return;
      }
      var row := log[position].value;
      online, clock := online[row.sampleId := row], now;
      firstOnline := if row.id in firstOnline then firstOnline else firstOnline[row.id := now];
      phase := if o == Works then Online(now) else Dead;
    }

    /** `snapshotSink.persist`. */
    method Persist(o: Outcome)
      requires phase.Online? && position < |log| && log[position].Some?
      modifies this
      ensures View() == Next(log, old(View()), Event.Persist(o))
    {
      var inserted := Insert(archive, log[position].value, phase.at);
      if inserted.None? || o == Down {
        phase := Dead;
        return;
      }
      archive := inserted.value;
      phase := if o == Works then Stored else Dead;
    }

    /** `offsetCommitter.accept`. */
    method Commit(o: Outcome)
      requires phase == Stored
      modifies this
      ensures View() == Next(log, old(View()), Event.Commit(o))
    {
      if o != Down {
        committed := position + 1;
      }
      if o == Works {
        position := position + 1;
      }
      phase := if o == Works then Idle else Dead;
    }

    /** `handle`: an exception of one write skips the writes after it. */
    method Handle(now: real, put: Outcome, persist: Outcome, commit: Outcome)
      requires phase == Idle && position < |log| && clock <= now
      modifies this
      ensures View() == Next(log, Next(log, Next(log, old(View()), Event.Put(put, now)), Event.Persist(persist)), Event.Commit(commit))
    {
      Put(put, now);
      if phase == Dead {
        return;
      }
      Persist(persist);
      if phase == Dead {
        return;
      }
      Commit(commit);
    }
  }
}
