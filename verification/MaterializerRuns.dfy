/** When the two stores of the materializer agree, and when the online store never goes back:
    exact conditions on the log, over every run. */
module MaterializerRuns {
  import opened Common
  import opened FeatureMaterializer

  // ------------------------------------------------------------- undisturbed runs

  /** The run that starts the consumer and lets it pass `n` records. */
  function QuietRun(n: nat): seq<Event> {
    if n == 0 then [Restart] else QuietRun(n - 1) + [Put(Works, 0.0)] + [Persist(Works)] + [Commit(Works)]
  }

  lemma ExecuteAppend(log: Log, events: seq<Event>, e: Event)
    ensures Execute(log, events + [e]) == Next(log, Execute(log, events), e)
  {
    assert (events + [e])[..|events|] == events;
  }

  /** The consumer is about to read record `n`, with `n` records in both stores. */
  ghost predicate At(log: Log, s: State, n: nat) {
    s.phase == Idle && s.position == s.committed == n && s.clock == 0.0 && Stands(log, s, n, n)
  }

  lemma HandleMovesOn(log: Log, s: State, n: nat)
    requires At(log, s, n) && Passable(log, n + 1)
    ensures At(log, HandleRecord(log, s, 0.0), n + 1)
  {
    PassesExactlyWhen(log, s, n, n, 0.0);
  }

  lemma ExecuteRecord(log: Log, run: seq<Event>)
    ensures Execute(log, run + [Put(Works, 0.0)] + [Persist(Works)] + [Commit(Works)]) == HandleRecord(log, Execute(log, run), 0.0)
  {
    ExecuteAppend(log, run, Put(Works, 0.0));
    ExecuteAppend(log, run + [Put(Works, 0.0)], Persist(Works));
    ExecuteAppend(log, run + [Put(Works, 0.0)] + [Persist(Works)], Commit(Works));
  }

  lemma StartReaches(log: Log)
    ensures At(log, Execute(log, QuietRun(0)), 0)
  {
    assert Execute(log, []) == Initial();
    ExecuteAppend(log, [], Restart);
    assert [] + [Restart] == QuietRun(0);
  }

  lemma PassableBefore(log: Log, n: nat, k: nat)
    requires Passable(log, n) && k <= n
    ensures Passable(log, k)
  {
  }

  lemma QuietRunMovesOn(log: Log, n: nat)
    requires At(log, Execute(log, QuietRun(n)), n) && Passable(log, n + 1)
    ensures At(log, Execute(log, QuietRun(n + 1)), n + 1)
  {
    ExecuteRecord(log, QuietRun(n));
    HandleMovesOn(log, Execute(log, QuietRun(n)), n);
  }

  /** Records that can be passed are passed by such a run. */
  lemma QuietRunReaches(log: Log, n: nat)
    requires Passable(log, n)
    ensures At(log, Execute(log, QuietRun(n)), n)
  {
    var k := 0;
    StartReaches(log);
    while k < n
      invariant k <= n && At(log, Execute(log, QuietRun(k)), k)
    {
      PassableBefore(log, n, k + 1);
      QuietRunMovesOn(log, k);
      k := k + 1;
    }
  }

  /** Put, after `n` records were passed. */
  lemma PutAfterQuietRun(log: Log, n: nat)
    requires Passable(log, n) && Parsed(log, n + 1)
    ensures var s, t := Execute(log, QuietRun(n)), Execute(log, QuietRun(n) + [Put(Works, 0.0)]);
            && At(log, s, n) && t == PutOnline(s, log[n].value, 0.0)
            && s.online == LastWrite(log, n) && t.online == LastWrite(log, n + 1)
  {
    QuietRunReaches(log, n);
    ExecuteAppend(log, QuietRun(n), Put(Works, 0.0));
  }

  function StoredRun(n: nat): seq<Event> {
    QuietRun(n) + [Put(Works, 0.0)] + [Persist(Works)]
  }

  /** The moment between the archive write of record `n` and its commit. */
  lemma StoredRunReaches(log: Log, n: nat)
    requires Passable(log, n + 1)
    ensures var s := Execute(log, StoredRun(n));
            && s.phase == Stored && s.position == n && s.online == LastWrite(log, n + 1) && Rows(s.archive) == FirstArchived(log, n + 1)
  {
    assert Passable(log, n);
    PutAfterQuietRun(log, n);
    var s := Execute(log, QuietRun(n) + [Put(Works, 0.0)]);
    ExecuteAppend(log, QuietRun(n) + [Put(Works, 0.0)], Persist(Works));
    PersistPassesExactlyWhen(log, s, n + 1, n);
  }

  // -------------------------------------------------- the two stores together

  /** Among the first `n`, records with one snapshot id carry one snapshot. */
  ghost predicate IdsDetermineSnapshots(log: Log, n: nat)
    requires Parsed(log, n)
  {
    forall j, k | 0 <= j < k < n && log[j].value.id == log[k].value.id :: log[j] == log[k]
  }

  /** The same of records that can be passed. */
  ghost predicate IdsDetermineBy(log: Log, n: nat) {
    Passable(log, n) ==> IdsDetermineSnapshots(log, n)
  }

  /** What is served online is archived under its id, as it is served. */
  predicate StoresAgree(online: map<string, Snapshot>, archive: map<string, Snapshot>) {
    forall x | x in online :: online[x].id in archive && archive[online[x].id] == online[x]
  }

  lemma FoldsAgree(log: Log, n: nat, online: map<string, Snapshot>, archive: map<string, Snapshot>)
    requires Parsed(log, n) && IdsDetermineSnapshots(log, n)
    requires online == LastWrite(log, n) && archive == FirstArchived(log, n)
    ensures StoresAgree(online, archive)
  {
    forall x | x in online ensures online[x].id in archive && archive[online[x].id] == online[x] {
      LastWriteMeaning(log, n, x);
      var k :| 0 <= k < n && log[k] == Some(online[x]);
      var id := log[k].value.id;
      FirstArchivedCovers(log, n, k);
      FirstArchivedMeaning(log, n, id);
      var j :| 0 <= j < n && log[j] == Some(archive[id]) && log[j].value.id == id;
      assert log[j] == log[k];
    }
  }

  /** Once record `k` is in both stores and they agree, the archive has it as it is. */
  lemma AgreeingFoldsHoldRecord(log: Log, k: nat, n: nat)
    requires Parsed(log, n) && k < n && StoresAgree(LastWrite(log, k + 1), FirstArchived(log, k + 1))
    ensures log[k].value.id in FirstArchived(log, n) && FirstArchived(log, n)[log[k].value.id] == log[k].value
  {
    assert LastWrite(log, k + 1)[log[k].value.sampleId] == log[k].value;
    FirstArchivedStays(log, k + 1, n, log[k].value.id);
  }

  predicate AgreeWhenStored(s: State) {
    s.phase == Stored ==> StoresAgree(s.online, Rows(s.archive))
  }

  /** In every run, whenever one of the first `n` records was just archived, the stores agree. */
  ghost predicate AgreeWithin(log: Log, n: nat) {
    forall events :: Execute(log, events).position < n ==> AgreeWhenStored(Execute(log, events))
  }

  /** What such a moment of a run looks like. */
  lemma StoredRecords(log: Log, s: State, v: nat, p: nat)
    requires Stands(log, s, v, p) && s.phase == Stored
    ensures Passable(log, s.position + 1) && s.online == LastWrite(log, s.position + 1) && Rows(s.archive) == FirstArchived(log, s.position + 1)
  {
  }

  lemma IdsKeepStoresTogether(log: Log, events: seq<Event>, n: nat)
    requires Execute(log, events).phase == Stored && n == Execute(log, events).position + 1 && IdsDetermineBy(log, n)
    ensures AgreeWhenStored(Execute(log, events))
  {
    var v, p := TwoStoreOrder(log, events);
    StoredRecords(log, Execute(log, events), v, p);
    FoldsAgree(log, n, LastWrite(log, n), FirstArchived(log, n));
  }

  lemma StoredRecordIsArchived(log: Log, k: nat, n: nat)
    requires Passable(log, n) && k < n && AgreeWithin(log, n)
    ensures log[k].value.id in FirstArchived(log, n) && FirstArchived(log, n)[log[k].value.id] == log[k].value
  {
    assert Passable(log, k + 1);
    StoredRunReaches(log, k);
    assert AgreeWhenStored(Execute(log, StoredRun(k)));
    AgreeingFoldsHoldRecord(log, k, n);
  }

  /** Over records that can be passed, the archive has what is served online at every such
      moment of every run exactly when no snapshot id is used for two different snapshots. */
  lemma OnlineIsArchivedExactlyWhen(log: Log, n: nat)
    requires Passable(log, n)
    ensures AgreeWithin(log, n) <==> IdsDetermineSnapshots(log, n)
  {
    if IdsDetermineSnapshots(log, n) {
      forall events | Execute(log, events).position < n ensures AgreeWhenStored(Execute(log, events)) {
        if Execute(log, events).phase == Stored { IdsKeepStoresTogether(log, events, Execute(log, events).position + 1); }
      }
    }
    if AgreeWithin(log, n) {
      forall j, k | 0 <= j < k < n && log[j].value.id == log[k].value.id ensures log[j] == log[k] {
        StoredRecordIsArchived(log, j, n);
        StoredRecordIsArchived(log, k, n);
      }
    }
  }

  /** The same without a bound on how far the runs go. */
  lemma OnlineIsArchivedForEveryPrefix(log: Log)
    ensures (forall n: nat :: AgreeWithin(log, n)) <==> (forall n: nat :: IdsDetermineBy(log, n))
  {
    forall n: nat | Passable(log, n) ensures AgreeWithin(log, n) <==> IdsDetermineSnapshots(log, n) {
      OnlineIsArchivedExactlyWhen(log, n);
    }
    if forall n: nat :: IdsDetermineBy(log, n) {
      forall n: nat ensures AgreeWithin(log, n) { PassableIdsAgreeWithin(log, n); }
    }
  }

  lemma PassableIdsAgreeWithin(log: Log, n: nat)
    requires forall m: nat :: IdsDetermineBy(log, m)
    ensures AgreeWithin(log, n)
  {
    forall events | Execute(log, events).position < n ensures AgreeWhenStored(Execute(log, events)) {
      if Execute(log, events).phase == Stored { IdsKeepStoresTogether(log, events, Execute(log, events).position + 1); }
    }
  }

  /** A run in which they part: two snapshots under one id of one sample. The archive keeps
      the first, the last is served. */
  lemma ReusedIdSplitsStores(a: Snapshot, b: Snapshot)
    requires a.id == b.id && a.sampleId == b.sampleId && a != b
    ensures var s := Execute([Some(a), Some(b)], QuietRun(2));
            && s.committed == 2 && s.online == map[a.sampleId := b] && Rows(s.archive) == map[a.id := a]
            && !StoresAgree(s.online, Rows(s.archive))
  {
    var log := [Some(a), Some(b)];
    assert log[0].value.id == log[1].value.id;
    QuietRunReaches(log, 2);
    assert LastWrite(log, 1) == map[a.sampleId := a] && FirstArchived(log, 1) == map[a.id := a];
    assert LastWrite(log, 2) == map[a.sampleId := b] && FirstArchived(log, 2) == map[a.id := a];
    assert a.sampleId in map[a.sampleId := b];
  }

  // ---------------------------------------------------------------- versions

  /** Among the first `n`, records of one sample come in the order of their versions. */
  ghost predicate VersionsInOrder(log: Log, n: nat)
    requires Parsed(log, n)
  {
    forall j, k | 0 <= j < k < n && log[j].value.sampleId == log[k].value.sampleId :: log[j].value.version <= log[k].value.version
  }

  /** No sample is at an older version in `t`. */
  predicate NotOlder(s: map<string, Snapshot>, t: map<string, Snapshot>) {
    forall x | x in s :: x in t && s[x].version <= t[x].version
  }

  lemma OrderedWriteMovesOn(log: Log, n: nat)
    requires Parsed(log, n + 1) && VersionsInOrder(log, n + 1)
    ensures NotOlder(LastWrite(log, n), LastWrite(log, n + 1))
  {
    var sample := log[n].value.sampleId;
    if sample in LastWrite(log, n) {
      LastWriteMeaning(log, n, sample);
    }
  }

  /** Writes that never go back keep a sample at the version of each of its records or later. */
  lemma {:induction false} NeverBehindRecord(log: Log, j: nat, n: nat)
    requires Parsed(log, n) && j < n
    requires forall m | j < m < n :: NotOlder(LastWrite(log, m), LastWrite(log, m + 1))
    ensures log[j].value.sampleId in LastWrite(log, n)
    ensures log[j].value.version <= LastWrite(log, n)[log[j].value.sampleId].version
    decreases n
  {
    if j < n - 1 {
      NeverBehindRecord(log, j, n - 1);
      assert NotOlder(LastWrite(log, n - 1), LastWrite(log, n));
    }
  }

  ghost predicate FoldsNeverGoBack(log: Log, n: nat)
    requires Parsed(log, n)
  {
    forall m | 0 <= m < n :: NotOlder(LastWrite(log, m), LastWrite(log, m + 1))
  }

  /** The last-write folds never go back exactly when the versions come in order. */
  lemma FoldsNeverGoBackExactlyWhen(log: Log, n: nat)
    requires Parsed(log, n)
    ensures FoldsNeverGoBack(log, n) <==> VersionsInOrder(log, n)
  {
    if VersionsInOrder(log, n) {
      forall m | 0 <= m < n ensures NotOlder(LastWrite(log, m), LastWrite(log, m + 1)) { OrderedWriteMovesOn(log, m); }
    }
    if FoldsNeverGoBack(log, n) {
      forall j, k | 0 <= j < k < n && log[j].value.sampleId == log[k].value.sampleId
        ensures log[j].value.version <= log[k].value.version
      {
        NeverBehindRecord(log, j, k + 1);
      }
    }
  }

  /** Some run puts the first `n` records online: the last of them need not be archived. */
  ghost predicate Presentable(log: Log, n: nat) {
    Parsed(log, n) && (n > 0 ==> Passable(log, n - 1))
  }

  /** A step of a run that changes the online store moves it from one fold to the next. */
  lemma StepWritesNextRecord(log: Log, events: seq<Event>, e: Event) returns (n: nat)
    requires Execute(log, events + [e]).online != Execute(log, events).online
    ensures Presentable(log, n + 1)
    ensures Execute(log, events).online == LastWrite(log, n) && Execute(log, events + [e]).online == LastWrite(log, n + 1)
  {
    ExecuteAppend(log, events, e);
    var v, p := TwoStoreOrder(log, events);
    n := Execute(log, events).position;
    WriteIsNext(log, Execute(log, events), e, v, p);
  }

  lemma WriteIsNext(log: Log, s: State, e: Event, v: nat, p: nat)
    requires Stands(log, s, v, p) && Next(log, s, e).online != s.online
    ensures Presentable(log, s.position + 1)
    ensures s.online == LastWrite(log, s.position) && Next(log, s, e).online == LastWrite(log, s.position + 1)
  {
    PutReadsRecord(log, s, e);
    if v == s.position + 1 { RewriteIsIdempotent(log, s.position); }
  }

  lemma PutReadsRecord(log: Log, s: State, e: Event)
    requires Next(log, s, e).online != s.online
    ensures s.phase == Idle && s.position < |log| && log[s.position].Some?
    ensures Next(log, s, e).online == s.online[log[s.position].value.sampleId := log[s.position].value]
  {
  }

  lemma QuietStepNeverGoesBack(log: Log, m: nat)
    requires Presentable(log, m + 1)
    requires forall events, e :: NotOlder(Execute(log, events).online, Execute(log, events + [e]).online)
    ensures NotOlder(LastWrite(log, m), LastWrite(log, m + 1))
  {
    PutAfterQuietRun(log, m);
    assert NotOlder(Execute(log, QuietRun(m)).online, Execute(log, QuietRun(m) + [Put(Works, 0.0)]).online);
  }

  /** No step of any run, replays included, moves a sample back to an older version exactly
      when the records that a run can put online come in the order of their versions. */
  lemma OnlineNeverGoesBackExactlyWhen(log: Log)
    ensures (forall events, e :: NotOlder(Execute(log, events).online, Execute(log, events + [e]).online))
            <==> (forall n: nat | Presentable(log, n) :: VersionsInOrder(log, n))
  {
    if forall n: nat | Presentable(log, n) :: VersionsInOrder(log, n) {
      forall events, e ensures NotOlder(Execute(log, events).online, Execute(log, events + [e]).online) {
        if Execute(log, events + [e]).online != Execute(log, events).online {
          var n := StepWritesNextRecord(log, events, e);
          OrderedWriteMovesOn(log, n);
        }
      }
    }
    if forall events, e :: NotOlder(Execute(log, events).online, Execute(log, events + [e]).online) {
      forall n: nat | Presentable(log, n) ensures VersionsInOrder(log, n) {
        forall m | 0 <= m < n ensures NotOlder(LastWrite(log, m), LastWrite(log, m + 1)) {
          assert Presentable(log, m + 1);
          QuietStepNeverGoesBack(log, m);
        }
        FoldsNeverGoBackExactlyWhen(log, n);
      }
    }
  }

  /** The run that goes back: the first pass over a record older than what is online. */
  lemma OutOfOrderGoesBack(log: Log, n: nat)
    requires Presentable(log, n + 1) && log[n].value.sampleId in LastWrite(log, n)
    requires log[n].value.version < LastWrite(log, n)[log[n].value.sampleId].version
    ensures var s, t := Execute(log, QuietRun(n)), Execute(log, QuietRun(n) + [Put(Works, 0.0)]);
            && log[n].value.sampleId in s.online && log[n].value.sampleId in t.online
            && t.online[log[n].value.sampleId].version < s.online[log[n].value.sampleId].version
  {
    PutAfterQuietRun(log, n);
  }

  // ------------------------------------------------------------- availability

  /** The time belongs to a write to the online store, made before the row was archived. */
  ghost predicate PutAt(log: Log, events: seq<Event>, at: real) {
    exists k :: 0 <= k < |events| && events[k].Put? && events[k].now == at && Execute(log, events[..k]).phase == Idle
  }

  ghost predicate AvailabilityIsPut(log: Log, events: seq<Event>, s: State) {
    && (s.phase.Online? ==> PutAt(log, events, s.phase.at))
    && forall id | id in s.archive :: PutAt(log, events, s.archive[id].availableAt)
  }

  lemma PutAtLater(log: Log, events: seq<Event>, e: Event, at: real)
    requires PutAt(log, events, at)
    ensures PutAt(log, events + [e], at)
  {
    var k :| 0 <= k < |events| && events[k].Put? && events[k].now == at && Execute(log, events[..k]).phase == Idle;
    assert (events + [e])[k] == events[k] && (events + [e])[..k] == events[..k];
  }

  /** Where a step takes the times from. */
  lemma StepTimes(log: Log, s: State, e: Event)
    ensures var t := Next(log, s, e);
            && (t.phase.Online? ==> (s.phase == t.phase) || (e.Put? && s.phase == Idle && t.phase.at == e.now))
            && forall id | id in t.archive :: (id in s.archive && t.archive[id] == s.archive[id])
                                           || (s.phase.Online? && t.archive[id].availableAt == s.phase.at)
  {
  }

  lemma StepKeepsAvailability(log: Log, events: seq<Event>, e: Event, s: State, t: State)
    requires s == Execute(log, events) && t == Next(log, s, e) && AvailabilityIsPut(log, events, s)
    ensures AvailabilityIsPut(log, events + [e], t)
  {
    StepTimes(log, s, e);
    if t.phase.Online? {
      if s.phase == t.phase {
        PutAtLater(log, events, e, s.phase.at);
      } else {
        assert (events + [e])[|events|] == e && (events + [e])[..|events|] == events;
      }
    }
    forall id | id in t.archive ensures PutAt(log, events + [e], t.archive[id].availableAt) {
      if id in s.archive && t.archive[id] == s.archive[id] {
        PutAtLater(log, events, e, s.archive[id].availableAt);
      } else {
        PutAtLater(log, events, e, s.phase.at);
      }
    }
  }

  /** In every run: the availability recorded with a snapshot is the time of a write to the online
      store, never that of the archive. */
  lemma {:induction false} AvailableWhenOnline(log: Log, events: seq<Event>)
    ensures AvailabilityIsPut(log, events, Execute(log, events))
    decreases |events|
  {
    if events != [] {
      var before, e := events[..|events| - 1], events[|events| - 1];
      AvailableWhenOnline(log, before);
      StepKeepsAvailability(log, before, e, Execute(log, before), Execute(log, events));
      assert before + [e] == events;
    }
  }
}
