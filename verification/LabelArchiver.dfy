/** The label archiver: an at-least-once consumer that stores a label, commits the database
    and then the offset, and may be killed between any two steps. */
module LabelArchiver {
  import opened Common
  import opened LabelParser
  import opened ConsumerLoop

  // ------------------------------------------------------------------- table

  datatype Stored = Stored(row: LabelRow, availableAt: real)

  /** A partition, as parsed. */
  type Log = seq<Result<LabelRow, ParseError>>

  type Table = map<string, Stored>

  datatype DbError = CheckViolated | SampleRevisionTaken | PayloadConflict

  /** What a replay is compared in; the time of measurement is not. */
  predicate SamePayload(a: LabelRow, b: LabelRow) {
    a.sampleId == b.sampleId && a.labelRevision == b.labelRevision && a.actualValue == b.actualValue && a.actualLabel == b.actualLabel
  }

  predicate SameRevision(a: LabelRow, b: LabelRow) {
    a.sampleId == b.sampleId && a.labelRevision == b.labelRevision
  }

  /** INSERT .. ON CONFLICT (label_event_id) DO NOTHING, then the check of a replay. */
  function Insert(t: Table, row: LabelRow, now: real): Result<Table, DbError> {
    if now < 0.0 then Err(CheckViolated)
    else if row.labelEventId in t then
      if SamePayload(row, t[row.labelEventId].row) then Ok(t) else Err(PayloadConflict)
    else if exists id :: id in t && SameRevision(t[id].row, row) then Err(SampleRevisionTaken)
    else Ok(t[row.labelEventId := Stored(row, now)])
  }

  // ---------------------------------------------------------------- protocol

  datatype Phase = Idle | Inserted | Archived | Dead

  /** `table` is what is committed, `working` what the open transaction sees. */
  datatype State = State(table: Table, working: Table, committed: nat, position: nat, phase: Phase)

  /** A remote commit: done, done but the answer is lost, or not done. */
  datatype Outcome = Works | AnswerLost | Down

  datatype Event = InsertLabel(now: real) | CommitDatabase(db: Outcome) | CommitOffset(kafka: Outcome) | Crash | Restart

  function Initial(): State {
    State(map[], map[], 0, 0, Dead)
  }

  function Die(s: State): State {
    s.(working := s.table, phase := Dead)
  }

  /** One step; a step that is not possible changes nothing. */
  function Next(log: Log, s: State, e: Event): State {
    match e
    case InsertLabel(now) =>
      if s.phase != Idle || s.position >= |log| || now < 0.0 then s
      else if log[s.position].Err? then Die(s)
      else
        var r := Insert(s.table, log[s.position].value, now);
        if r.Err? then Die(s) else s.(working := r.value, phase := Inserted)
    case CommitDatabase(o) =>
      if s.phase != Inserted then s
      else
        (match o
         case Works => s.(table := s.working, phase := Archived)
         case AnswerLost => Die(s.(table := s.working))
         case Down => Die(s))
    case CommitOffset(o) =>
      if s.phase != Archived then s
      else
        (match o
         case Works => s.(committed := s.position + 1, position := s.position + 1, phase := Idle)
         case AnswerLost => Die(s.(committed := s.position + 1))
         case Down => Die(s))
    case Crash => Die(s)
    case Restart => if s.phase == Dead then s.(position := s.committed, phase := Idle) else s
  }

  function Execute(log: Log, events: seq<Event>): State
    decreases |events|
  {
    if events == [] then Initial() else Next(log, Execute(log, events[..|events| - 1]), events[|events| - 1])
  }

  /** What moves what, however a step ends: the table by a database commit that was done, the offset
      by an offset commit that was done, even if the answer was lost; a restart goes on at the
      committed offset, and only steps that worked go on without one. */
  lemma StepMoves(log: Log, s: State, e: Event)
    ensures var t := Next(log, s, e);
            && t.table == (if e.CommitDatabase? && s.phase == Inserted && e.db != Down then s.working else s.table)
            && t.committed == (if e.CommitOffset? && s.phase == Archived && e.kafka != Down then s.position + 1 else s.committed)
            && (e == Restart && s.phase == Dead ==> t.phase == Idle && t.position == s.committed)
            && (e == CommitDatabase(Works) && s.phase == Inserted ==> t.phase == Archived)
            && (e == CommitOffset(Works) && s.phase == Archived ==> t.phase == Idle && t.position == s.position + 1)
            && (e == Crash || (e.CommitDatabase? && s.phase == Inserted && e.db != Works) || (e.CommitOffset? && s.phase == Archived && e.kafka != Works)
                ==> t.phase == Dead)
  {
  }

  // -------------------------------------------------- what the table stands for

  /** The first `n` records parse, and no two of them contradict each other. */
  ghost predicate Consistent(log: Log, n: nat) {
    && n <= |log|
    && (forall k | 0 <= k < n :: log[k].Ok?)
    && (forall j, k | 0 <= j < k < n :: Agree(log[j].value, log[k].value))
  }

  /** One label event has one payload, and one revision of a sample one label event. */
  predicate Agree(a: LabelRow, b: LabelRow) {
    if a.labelEventId == b.labelEventId
    then a.sampleId == b.sampleId && a.labelRevision == b.labelRevision && a.actualValue == b.actualValue && a.actualLabel == b.actualLabel
    else a.sampleId != b.sampleId || a.labelRevision != b.labelRevision
  }

  /** The first record of every label event among the first `n`. */
  function FirstWins(log: Log, n: nat): map<string, LabelRow>
    requires Consistent(log, n)
  {
    if n == 0 then map[]
    else
      var t, row := FirstWins(log, n - 1), log[n - 1].value;
      if row.labelEventId in t then t else t[row.labelEventId := row]
  }

  function Rows(t: Table): map<string, LabelRow> {
    map id | id in t :: t[id].row
  }

  predicate Carries(r: Result<LabelRow, ParseError>, id: string) {
    r.Ok? && r.value.labelEventId == id
  }

  /** The first of the first `n` records that carries an event; `n` when none does. */
  function FirstAt(log: Log, n: nat, id: string): (k: nat)
    requires n <= |log|
    ensures k <= n && (k < n ==> Carries(log[k], id)) && forall j | 0 <= j < k :: !Carries(log[j], id)
  {
    if n == 0 then 0
    else
      var k := FirstAt(log, n - 1, id);
      if k < n - 1 || Carries(log[n - 1], id) then k else n
  }

  /** The meaning of the fold: the events that some record carries, each with the row of its
      first record. */
  lemma {:induction false} FirstWinsMeaning(log: Log, n: nat, id: string)
    requires Consistent(log, n)
    ensures id in FirstWins(log, n) <==> FirstAt(log, n, id) < n
    ensures id in FirstWins(log, n) ==> FirstWins(log, n)[id] == log[FirstAt(log, n, id)].value
  {
    if n > 0 {
      FirstWinsMeaning(log, n - 1, id);
    }
  }

  /** Every record is in the fold under its event, with a payload equal to its own. */
  lemma FirstWinsCovers(log: Log, n: nat, k: nat)
    requires Consistent(log, n) && k < n
    ensures log[k].value.labelEventId in FirstWins(log, n)
    ensures SamePayload(FirstWins(log, n)[log[k].value.labelEventId], log[k].value)
  {
    FirstWinsMeaning(log, n, log[k].value.labelEventId);
    var first := FirstAt(log, n, log[k].value.labelEventId);
    assert first < k ==> Agree(log[first].value, log[k].value);
    assert Carries(log[k], log[k].value.labelEventId);
  }

  /** A row of the fold agrees with every later record. */
  lemma FirstWinsAgrees(log: Log, n: nat, id: string)
    requires n < |log| && Consistent(log, n + 1) && id in FirstWins(log, n)
    ensures Agree(FirstWins(log, n)[id], log[n].value) && FirstWins(log, n)[id].labelEventId == id
  {
    FirstWinsMeaning(log, n, id);
    assert Agree(log[FirstAt(log, n, id)].value, log[n].value);
  }

  /** A record that contradicts none before it is inserted, or verified as a replay. */
  lemma ConsistentInsertSucceeds(log: Log, n: nat, t: Table, now: real)
    requires n < |log| && Consistent(log, n + 1) && Rows(t) == FirstWins(log, n) && now >= 0.0
    ensures Insert(t, log[n].value, now).Ok? && Rows(Insert(t, log[n].value, now).value) == FirstWins(log, n + 1)
  {
    var row := log[n].value;
    forall id | id in t ensures Agree(t[id].row, row) && t[id].row.labelEventId == id {
      assert id in Rows(t) && t[id].row == Rows(t)[id];
      FirstWinsAgrees(log, n, id);
    }
    assert Rows(t[row.labelEventId := Stored(row, now)]) == Rows(t)[row.labelEventId := row];
  }

  /** One that contradicts a record before it fails. */
  lemma InconsistentInsertFails(log: Log, n: nat, t: Table, now: real)
    requires n < |log| && Consistent(log, n) && Rows(t) == FirstWins(log, n) && log[n].Ok? && !Consistent(log, n + 1)
    ensures Insert(t, log[n].value, now).Err?
  {
    var row := log[n].value;
    var k :| 0 <= k < n && !Agree(log[k].value, row);
    FirstWinsCovers(log, n, k);
    var id := log[k].value.labelEventId;
    assert id in Rows(t) && SamePayload(Rows(t)[id], log[k].value) && Rows(t)[id] == t[id].row;
    if id == row.labelEventId {
      assert !SamePayload(t[id].row, row);
    } else {
      assert SameRevision(t[id].row, row);
      if row.labelEventId in t {
        FirstWinsMeaning(log, n, row.labelEventId);
        var first := FirstAt(log, n, row.labelEventId);
        assert row.labelEventId in Rows(t) && t[row.labelEventId].row == log[first].value;
        if first < k {
          assert Agree(log[first].value, log[k].value);
        } else {
          assert Agree(log[k].value, log[first].value);
        }
        assert !SamePayload(row, t[row.labelEventId].row);
      }
    }
  }

  /** A record the table already covers is verified and changes nothing. */
  lemma ReplayChangesNothing(log: Log, n: nat, k: nat, t: Table, now: real)
    requires Consistent(log, n) && k < n && Rows(t) == FirstWins(log, n) && now >= 0.0
    ensures Insert(t, log[k].value, now) == Ok(t)
  {
    FirstWinsCovers(log, n, k);
    assert log[k].value.labelEventId in Rows(t);
  }

  // --------------------------------------------------------------- invariant

  /** `m` records are in the table. */
  ghost predicate Stands(log: Log, s: State, m: nat) {
    && s.committed <= m <= s.committed + 1
    && Consistent(log, m) && Rows(s.table) == FirstWins(log, m)
    && (s.phase == Idle || s.phase == Inserted || s.phase == Archived ==> s.position == s.committed)
    && (s.phase == Inserted ==> Consistent(log, s.position + 1) && Rows(s.working) == FirstWins(log, s.position + 1))
    && (s.phase == Inserted && m == s.position + 1 ==> s.working == s.table)
    && (s.phase == Archived ==> m == s.position + 1)
  }

  lemma InsertStands(log: Log, s: State, m: nat, now: real)
    requires Stands(log, s, m)
    ensures Stands(log, Next(log, s, InsertLabel(now)), m)
  {
    if s.phase == Idle && s.position < |log| && now >= 0.0 && log[s.position].Ok? {
      if m == s.position {
        if Consistent(log, m + 1) { ConsistentInsertSucceeds(log, m, s.table, now); } else { InconsistentInsertFails(log, m, s.table, now); }
      } else {
        ReplayChangesNothing(log, m, s.position, s.table, now);
      }
    }
  }

  /** Every step keeps the invariant; the table only moves on by the database commit. */
  lemma StepStands(log: Log, s: State, m: nat, e: Event)
    requires Stands(log, s, m)
    ensures Stands(log, Next(log, s, e), m)
            || (e.CommitDatabase? && s.phase == Inserted && m == s.position && Stands(log, Next(log, s, e), m + 1))
  {
    match e
    case InsertLabel(now) => InsertStands(log, s, m, now);
    case _ =>
  }

  /** For every schedule of crashes, restarts and lost answers, the table is the first-wins
      fold of a prefix that reaches the committed offset or one record further. */
  lemma {:induction false} ExactlyOnceEffect(log: Log, events: seq<Event>) returns (m: nat)
    ensures Stands(log, Execute(log, events), m)
    decreases |events|
  {
    if events == [] {
      m := 0;
    } else {
      var before := events[..|events| - 1];
      m := ExactlyOnceEffect(log, before);
      StepStands(log, Execute(log, before), m, events[|events| - 1]);
      if !Stands(log, Execute(log, events), m) {
        m := m + 1;
      }
    }
  }

  /** Below the committed offset every record is stored under its event: with the row of the
      first record of that event, which has its sample, revision, value and label. */
  lemma CommittedRecordsAreStored(log: Log, events: seq<Event>, k: nat)
    requires k < Execute(log, events).committed
    ensures var t := Execute(log, events).table;
            && k < |log| && log[k].Ok? && log[k].value.labelEventId in t
            && var row, record := t[log[k].value.labelEventId].row, log[k].value;
            && row.labelEventId == record.labelEventId
            && row.sampleId == record.sampleId && row.labelRevision == record.labelRevision
            && row.actualValue == record.actualValue && row.actualLabel == record.actualLabel
            && exists j :: 0 <= j <= k && log[j] == Ok(row) && forall i | 0 <= i < j && log[i].Ok? :: log[i].value.labelEventId != row.labelEventId
  {
    var m := ExactlyOnceEffect(log, events);
    FirstWinsCovers(log, m, k);
    var t := Execute(log, events).table;
    var id := log[k].value.labelEventId;
    FirstWinsMeaning(log, m, id);
    var j := FirstAt(log, m, id);
    assert id in Rows(t) && Rows(t)[id] == t[id].row == log[j].value;
    assert forall i | 0 <= i < j :: !Carries(log[i], id);
    assert Carries(log[k], id);
  }

  /** A malformed record or a conflict is never passed: two records of one event that differ in
      sample, revision, value or label, or two events with one sample and revision, are never both
      below the committed offset. */
  lemma ConflictIsNeverPassed(log: Log, events: seq<Event>, j: nat, k: nat)
    requires j < k < |log|
    requires || log[j].Err? || log[k].Err?
             || var a, b := log[j].value, log[k].value;
                if a.labelEventId == b.labelEventId
                then a.sampleId != b.sampleId || a.labelRevision != b.labelRevision || a.actualValue != b.actualValue || a.actualLabel != b.actualLabel
                else a.sampleId == b.sampleId && a.labelRevision == b.labelRevision
    ensures Execute(log, events).committed <= k
  {
    var m := ExactlyOnceEffect(log, events);
  }

  /** The row of `id` in `t` was put there by an insert at its recorded time, and not before. */
  ghost predicate InsertedAt(log: Log, events: seq<Event>, t: Table, id: string)
    requires id in t
  {
    exists k :: 0 <= k < |events| && events[k] == InsertLabel(t[id].availableAt) && id !in Execute(log, events[..k]).table
  }

  ghost predicate AllInsertedAt(log: Log, events: seq<Event>, t: Table) {
    forall id | id in t :: InsertedAt(log, events, t, id)
  }

  lemma InsertedLater(log: Log, events: seq<Event>, e: Event, t: Table)
    requires AllInsertedAt(log, events, t)
    ensures AllInsertedAt(log, events + [e], t)
  {
    forall id | id in t ensures InsertedAt(log, events + [e], t, id) {
      assert InsertedAt(log, events, t, id);
      var k :| 0 <= k < |events| && events[k] == InsertLabel(t[id].availableAt) && id !in Execute(log, events[..k]).table;
      assert (events + [e])[k] == events[k] && (events + [e])[..k] == events[..k];
    }
  }

  lemma InsertIsNow(log: Log, events: seq<Event>, now: real, s: State, t: Table)
    requires s == Execute(log, events) && AllInsertedAt(log, events, s.table)
    requires exists row :: Insert(s.table, row, now) == Ok(t)
    ensures AllInsertedAt(log, events + [InsertLabel(now)], t)
  {
    var more := events + [InsertLabel(now)];
    InsertedLater(log, events, InsertLabel(now), s.table);
    forall id | id in t ensures InsertedAt(log, more, t, id) {
      if id in s.table {
        assert InsertedAt(log, more, s.table, id) && t[id] == s.table[id];
      } else {
        assert more[|events|] == InsertLabel(t[id].availableAt) && more[..|events|] == events;
      }
    }
  }

  /** A label becomes available when it is inserted: its recorded time is that of the insert that
      stored it. */
  lemma {:induction false} AvailableWhenInserted(log: Log, events: seq<Event>)
    ensures AllInsertedAt(log, events, Execute(log, events).table) && AllInsertedAt(log, events, Execute(log, events).working)
    decreases |events|
  {
    if events != [] {
      var before, e := events[..|events| - 1], events[|events| - 1];
      var s := Execute(log, before);
      assert before + [e] == events;
      AvailableWhenInserted(log, before);
      InsertedLater(log, before, e, s.table);
      InsertedLater(log, before, e, s.working);
      StepInserts(log, before, e, s, Next(log, s, e));
    }
  }

  /** Where a step takes its tables from. */
  lemma StepTables(log: Log, s: State, e: Event)
    ensures Next(log, s, e).table == s.table || Next(log, s, e).table == s.working
    ensures || Next(log, s, e).working == s.table || Next(log, s, e).working == s.working
            || (e.InsertLabel? && exists row :: Insert(s.table, row, e.now) == Ok(Next(log, s, e).working))
  {
  }

  lemma StepInserts(log: Log, events: seq<Event>, e: Event, s: State, t: State)
    requires s == Execute(log, events) && AllInsertedAt(log, events, s.table) && t == Next(log, s, e)
    requires AllInsertedAt(log, events + [e], s.table) && AllInsertedAt(log, events + [e], s.working)
    ensures AllInsertedAt(log, events + [e], t.table) && AllInsertedAt(log, events + [e], t.working)
  {
    StepTables(log, s, e);
    if t.working != s.table && t.working != s.working {
      InsertIsNow(log, events, e.now, s, t.working);
    }
  }

  /** A row, with the time at which it became available, is never changed or removed. */
  lemma RowsStay(log: Log, events: seq<Event>, e: Event, id: string)
    requires id in Execute(log, events).table
    ensures id in Execute(log, events + [e]).table
    ensures Execute(log, events + [e]).table[id] == Execute(log, events).table[id]
  {
    assert (events + [e])[..|events|] == events;
    WorkingExtends(log, events);
  }

  ghost predicate Extending(s: State) {
    && (s.phase != Inserted ==> s.working == s.table)
    && forall id | id in s.table :: id in s.working && s.working[id] == s.table[id]
  }

  lemma StepExtends(log: Log, s: State, e: Event)
    requires Extending(s)
    ensures Extending(Next(log, s, e))
  {
  }

  lemma {:induction false} WorkingExtends(log: Log, events: seq<Event>)
    ensures Extending(Execute(log, events))
    decreases |events|
  {
    if events != [] {
      WorkingExtends(log, events[..|events| - 1]);
      StepExtends(log, Execute(log, events[..|events| - 1]), events[|events| - 1]);
    }
  }

  // ---------------------------------------------------------------- progress

  /** One pass of the poll loop over a record, with nothing failing. */
  function HandleRecord(log: Log, s: State, now: real): State {
    Next(log, Next(log, Next(log, s, InsertLabel(now)), CommitDatabase(Works)), CommitOffset(Works))
  }

  lemma HandleMovesOnExactlyWhenConsistent(log: Log, s: State, m: nat, now: real)
    requires Stands(log, s, m) && s.phase == Idle && s.position < |log| && now >= 0.0
    ensures var t := HandleRecord(log, s, now);
            if Consistent(log, s.position + 1)
            then t.phase == Idle && t.committed == s.committed + 1 && Stands(log, t, s.position + 1)
            else t.phase == Dead && t.committed == s.committed
  {
    if log[s.position].Ok? {
      if m == s.position {
        if Consistent(log, m + 1) { ConsistentInsertSucceeds(log, m, s.table, now); } else { InconsistentInsertFails(log, m, s.table, now); }
      } else {
        ReplayChangesNothing(log, m, s.position, s.table, now);
      }
    }
  }

  function Handler(log: Log, now: real): State -> State {
    s => HandleRecord(log, s, now)
  }

  ghost function Reachable(log: Log): State -> bool {
    s => exists m :: Stands(log, s, m)
  }

  ghost function ConsistentUpTo(log: Log): nat -> bool {
    (n: nat) => Consistent(log, n)
  }

  function IsReady(log: Log): State -> bool {
    (s: State) => s.phase == Idle && s.position < |log|
  }

  function Committed(): State -> nat {
    (s: State) => s.committed
  }

  /** `t` follows `s` by handling one record. */
  ghost predicate Handled(log: Log, s: State, t: State) {
    if Consistent(log, s.committed + 1)
    then t.phase == Idle && t.position == t.committed == s.committed + 1 && Reachable(log)(t)
    else t.phase == Dead && t.committed == s.committed
  }

  lemma HandlerPasses(log: Log, now: real, s: State)
    requires now >= 0.0 && Reachable(log)(s) && IsReady(log)(s)
    ensures Handled(log, s, Handler(log, now)(s))
  {
    var m :| Stands(log, s, m);
    HandleMovesOnExactlyWhenConsistent(log, s, m, now);
  }

  ghost predicate AlwaysHandles(log: Log, handle: State -> State) {
    forall s {:trigger handle(s)} | Reachable(log)(s) && IsReady(log)(s) :: Handled(log, s, handle(s))
  }

  lemma HandlerIsExact(log: Log, handle: State -> State)
    requires AlwaysHandles(log, handle)
    ensures Handles(handle, IsReady(log), Committed(), |log|, Reachable(log), ConsistentUpTo(log))
  {
  }

  /** Whatever happened before, a restarted archiver that is left undisturbed archives the
      log up to `n` exactly when its first `n` records are consistent. */
  lemma ArchivesExactlyConsistentPrefix(log: Log, events: seq<Event>, n: nat, now: real)
    requires var s := Execute(log, events); s.phase == Idle && s.committed <= n <= |log|
    requires now >= 0.0
    ensures var s := Execute(log, events);
            Loop(Handler(log, now), IsReady(log), s, n - s.committed).committed >= n <==> Consistent(log, n)
  {
    var m := ExactlyOnceEffect(log, events);
    var handle := Handler(log, now);
    forall s | Reachable(log)(s) && IsReady(log)(s) ensures Handled(log, s, handle(s)) { HandlerPasses(log, now, s); }
    HandlerIsExact(log, handle);
    LoopReachesGoodPrefix(Handler(log, now), IsReady(log), Committed(), |log|, Reachable(log), ConsistentUpTo(log), Execute(log, events), n);
  }

  /** The running process: it updates the table and the offset in place. */
  class LabelArchiverApp {
    const log: Log
    var table: Table
    var working: Table
    var committed: nat
    var position: nat
    var phase: Phase

    ghost function View(): State
      reads this
    {
      State(table, working, committed, position, phase)
    }

    constructor (records: seq<Record>)
      ensures log == ParsedLog(records) && View() == Initial()
    {
      log := ParsedLog(records);
      table, working, committed, position, phase := map[], map[], 0, 0, Dead;
    }

    method Rollback()
      modifies this`working, this`phase
      ensures View() == Die(old(View()))
    {
      working, phase := table, Dead;
    }

    /** `archiveThenCommit`; an exception ends the process. */
    method ArchiveThenCommit(now: real, db: Outcome, kafka: Outcome)
      requires phase == Idle && position < |log| && now >= 0.0
      modifies this
      ensures View() == Next(log, Next(log, Next(log, old(View()), InsertLabel(now)), CommitDatabase(db)), CommitOffset(kafka))
    {
      if log[position].Err? {
        Rollback();
        return;
      }
      var inserted := Insert(table, log[position].value, now);
      if inserted.Err? {
        Rollback();
        return;
      }
      working := inserted.value;
      if db != Down {
        table := working;
      }
      if db != Works {
        Rollback();
        return;
      }
      if kafka != Down {
        committed := position + 1;
      }
      if kafka != Works {
        Rollback();
        return;
      }
      position, phase := position + 1, Idle;
    }

    /** One record, when nothing fails. */
    method HandleNext(now: real, count: nat, ghost handle: State -> State)
      requires phase == Idle && position < |log| && now >= 0.0 && handle == Handler(log, now) && count > 0
      modifies this
      ensures Loop(handle, IsReady(log), old(View()), count) == Loop(handle, IsReady(log), View(), count - 1)
    {
      ghost var before := View();
      ArchiveThenCommit(now, Works, Works);
      LoopStep(handle, IsReady(log), before, View(), count);
    }

    /** The poll loop over at most `count` records, when nothing fails. */
    method Run(count: nat, now: real)
      requires now >= 0.0
      modifies this
      ensures View() == Loop(Handler(log, now), IsReady(log), old(View()), count)
    {
      ghost var handle := Handler(log, now);
      ghost var goal := Loop(handle, IsReady(log), View(), count);
      var n := 0;
      while n < count && phase == Idle && position < |log|
        invariant 0 <= n <= count
        invariant Loop(handle, IsReady(log), View(), count - n) == goal
        decreases count - n
      {
        HandleNext(now, count - n, handle);
        n := n + 1;
      }
      LoopEnds(handle, IsReady(log), View(), count - n);
    }
  }
}
