/** Applying and verifying an import through locked transactions, by one engine and by many at once. */
module ImportEngine {
  import opened Wrappers
  import opened StringOrder
  import opened Bags
  import opened TargetState

  // ----- what applying adds -----

  ghost predicate Extends(before: map<Place, StoredRecord>, after: map<Place, StoredRecord>) {
    forall p | p in before :: p in after && after[p] == before[p]
  }

  lemma {:induction false} RowsExtend(records: map<Place, StoredRecord>, run: RunId, name: TableName,
                                      rows: seq<PreparedRow>)
    requires WithRows(records, run, name, rows).Some?
    ensures Extends(records, WithRows(records, run, name, rows).value)
    decreases rows
  {
    if rows != [] {
      var p, r := (name, rows[0].id), RecordOf(run, rows[0]);
      RowsExtend(records[p := r], run, name, rows[1..]);
    }
  }

  lemma {:induction false} RowsAdd(records: map<Place, StoredRecord>, run: RunId, name: TableName,
                                   rows: seq<PreparedRow>,
                                   source: TableName)
    requires WithRows(records, run, name, rows).Some?
    ensures BagOf(Imported(WithRows(records, run, name, rows).value, run, source))
            == BagOf(Imported(records, run, source)) + multiset(RowsFrom(rows, source))
    decreases rows
  {
    if rows != [] {
      var p, r := (name, rows[0].id), RecordOf(run, rows[0]);
      RowsAdd(records[p := r], run, name, rows[1..], source);
      RecordAdded(records, p, r, run, source);
    }
  }

  lemma {:induction false} RowsSpare(records: map<Place, StoredRecord>, run: RunId, name: TableName,
                                     rows: seq<PreparedRow>,
                                     source: TableName, other: RunId)
    requires WithRows(records, run, name, rows).Some?
    ensures other != run ==>
              Imported(WithRows(records, run, name, rows).value, other, source) == Imported(records, other, source)
    decreases rows
  {
    if rows != [] {
      var p, r := (name, rows[0].id), RecordOf(run, rows[0]);
      RowsSpare(records[p := r], run, name, rows[1..], source, other);
      ImportedOfWith(records, p, r, other, source);
    }
  }

  lemma {:induction false} TablesAdd(records: map<Place, StoredRecord>, run: RunId, tables: seq<PreparedTable>,
                                     source: TableName, other: RunId)
    requires WithTables(records, run, tables).Some?
    ensures var after := WithTables(records, run, tables).value;
            && Extends(records, after)
            && BagOf(Imported(after, run, source))
               == BagOf(Imported(records, run, source)) + multiset(RowsFrom(AllRows(tables), source))
            && (other != run ==> Imported(after, other, source) == Imported(records, other, source))
    decreases tables
  {
    if tables != [] {
      RowsExtend(records, run, tables[0].name, tables[0].rows);
      RowsAdd(records, run, tables[0].name, tables[0].rows, source);
      RowsSpare(records, run, tables[0].name, tables[0].rows, source, other);
      TablesAdd(WithRows(records, run, tables[0].name, tables[0].rows).value, run, tables[1..], source, other);
      RowsFromConcat(tables[0].rows, AllRows(tables[1..]), source);
    }
  }

  /** Records belong to runs that are recorded. */
  ghost predicate Owned(s: State) {
    forall p | p in s.records :: s.records[p].runId in s.runs
  }

  /** A prepared import whose manifest describes its rows. */
  ghost predicate Consistent(p: PreparedImport) {
    Telling(p.manifest) && forall t | t in p.manifest.tables :: t == ManifestOf(p.tables, t.sourceTable)
  }

  /** A committed apply is followed by a successful verification, in whatever order the state is walked. */
  lemma AppliedThenVerifies(s: State, p: PreparedImport)
    requires Owned(s) && Applied(s, p).Some? && Consistent(p)
    ensures var after := Applied(s, p).value;
            && Known(after, p.manifest) && AllHold(after, p.manifest)
            && Extends(s.records, after.records)
            && forall m: Manifest | m.runId != p.manifest.runId && AllHold(s, m) :: AllHold(after, m)
  {
    var run, after := p.manifest.runId, Applied(s, p).value;
    forall t | t in p.manifest.tables
      ensures Holds(after.records, run, t)
    {
      TablesAdd(s.records, run, p.tables, t.sourceTable, run);
      SortSorts(RowsFrom(AllRows(p.tables), t.sourceTable), SortKey);
      assert t == ManifestOf(p.tables, t.sourceTable);
    }
    TablesAdd(s.records, run, p.tables, "", run);
    forall m: Manifest | m.runId != run && AllHold(s, m)
      ensures AllHold(after, m)
    {
      forall t | t in m.tables
        ensures Holds(after.records, m.runId, t)
      {
        TablesAdd(s.records, run, p.tables, t.sourceTable, m.runId);
      }
    }
  }

  // ----- what verification notices -----

  lemma ImportedWithout(records: map<Place, StoredRecord>, p: Place, run: RunId, source: TableName)
    requires p in records && Belongs(records[p], run, source)
    ensures Imported(records - {p}, run, source) == Imported(records, run, source) - {p}
    ensures p in Imported(records, run, source)
  {
  }

  /** Removing an imported row makes verification fail. */
  lemma RemovalIsNoticed(records: map<Place, StoredRecord>, p: Place, run: RunId, expected: TableManifest)
    requires p in records && Belongs(records[p], run, expected.sourceTable) && Holds(records, run, expected)
    ensures !Holds(records - {p}, run, expected)
  {
    ImportedWithout(records, p, run, expected.sourceTable);
    BagWithout(Imported(records, run, expected.sourceTable), p);
  }

  /** So does replacing it by any record that is not the same row of the same run. */
  lemma ChangeIsNoticed(records: map<Place, StoredRecord>, p: Place, r: StoredRecord, run: RunId,
                        expected: TableManifest)
    requires p in records && Belongs(records[p], run, expected.sourceTable) && Holds(records, run, expected)
    requires r != records[p]
    ensures !Holds(records[p := r], run, expected)
  {
    var source := expected.sourceTable;
    var without := records - {p};
    ImportedWithout(records, p, run, source);
    BagWithout(Imported(records, run, source), p);
    assert without[p := r] == records[p := r];
    RecordAdded(without, p, r, run, source);
    var before, rest := BagOf(Imported(records, run, source)), BagOf(Imported(without, run, source));
    assert before == multiset{PreparedOf(records[p])} + rest;
    if Belongs(r, run, source) {
      assert PreparedOf(r) != PreparedOf(records[p]);
      assert (multiset{PreparedOf(records[p])} + rest)[PreparedOf(r)] == rest[PreparedOf(r)];
      assert (rest + multiset{PreparedOf(r)})[PreparedOf(r)] == rest[PreparedOf(r)] + 1;
    }
  }

  // ----- many engines -----

  type Engine = int

  /** Begun holds a copy of the state that may be stale; Holding has the lock and a working copy. */
  datatype Phase = Begun(copy: State) | Holding(work: State, applied: Option<RunId>)

  datatype Sys = Sys(disk: State, lock: Option<Engine>, phases: map<Engine, Phase>, commits: seq<RunId>)

  datatype Action =
    | Begin(engine: Engine)
    | Lock(engine: Engine)
    | Apply(engine: Engine, prepared: PreparedImport)
    | Verify(engine: Engine, run: RunId)
    | Commit(engine: Engine, saved: bool)
    | Stop(engine: Engine)

  /** An engine gives up, is refused or dies: its lock is released and nothing is saved. */
  function Stopped(s: Sys, e: Engine): Sys {
    s.(lock := if s.lock == Some(e) then None else s.lock, phases := s.phases - {e})
  }

  ghost function Step(s: Sys, a: Action): Sys {
    match a
    case Begin(e) => if e in s.phases then s else s.(phases := s.phases[e := Begun(s.disk)])
    case Lock(e) =>
      if e in s.phases && s.phases[e].Begun? && s.lock.None?
      then s.(lock := Some(e), phases := s.phases[e := Holding(s.disk, None)]) else s
    case Apply(e, p) =>
      if !(e in s.phases && s.phases[e].Holding? && s.phases[e].applied.None? && Consistent(p)) then s
      else
        var work := Applied(s.phases[e].work, p);
        if work.None? then Stopped(s, e) else s.(phases := s.phases[e := Holding(work.value, Some(p.manifest.runId))])
    case Verify(e, run) =>
      if !(e in s.phases && s.phases[e].Holding? && s.phases[e].applied.None?) then s
      else if run !in s.phases[e].work.runs then Stopped(s, e)
      else
        var work := s.phases[e].work;
        s.(phases := s.phases[e := Holding(work.(runs := work.runs[run := work.runs[run].(verified := true)]), None)])
    case Commit(e, saved) =>
      if !(e in s.phases && s.phases[e].Holding?) then s
      else if !saved then Stopped(s, e)
      else
        var h := s.phases[e];
        Stopped(s.(disk := h.work, commits := if h.applied.Some? then s.commits + [h.applied.value] else s.commits), e)
    case Stop(e) => Stopped(s, e)
  }

  ghost function Run(s: Sys, actions: seq<Action>): Sys
    decreases actions
  {
    if actions == [] then s else Run(Step(s, actions[0]), actions[1..])
  }

  ghost predicate SameRuns(before: State, after: State, added: Option<RunId>) {
    && after.runs.Keys == before.runs.Keys + (if added.Some? then {added.value} else {})
    && (added.Some? ==> added.value !in before.runs)
    && forall r | r in before.runs :: after.runs[r].manifest == before.runs[r].manifest
  }

  /** What every committed run recorded still holds. */
  ghost predicate RunsHold(s: State, runs: seq<RunId>) {
    forall r | r in runs :: r in s.runs && s.runs[r].manifest.runId == r && AllHold(s, s.runs[r].manifest)
  }

  /** The lock holder works on a copy of what is on disk now, with at most one new run. */
  ghost predicate WorkIsCurrent(disk: State, h: Phase, commits: seq<RunId>)
    requires h.Holding?
  {
    && SameRuns(disk, h.work, h.applied) && Extends(disk.records, h.work.records) && Owned(h.work)
    && RunsHold(h.work, if h.applied.Some? then commits + [h.applied.value] else commits)
  }

  ghost predicate OneHolder(lock: Option<Engine>, phases: map<Engine, Phase>) {
    && (forall e | e in phases && phases[e].Holding? :: lock == Some(e))
    && (lock.Some? ==> lock.value in phases && phases[lock.value].Holding?)
  }

  ghost predicate Inv(s: Sys) {
    && OneHolder(s.lock, s.phases) && Owned(s.disk)
    && Distinct(s.commits) && RunsHold(s.disk, s.commits)
    && forall e | e in s.phases && s.phases[e].Holding? :: WorkIsCurrent(s.disk, s.phases[e], s.commits)
  }

  lemma {:induction false} OwnedAfterRows(s: State, records: map<Place, StoredRecord>, run: RunId, name: TableName,
                                          rows: seq<PreparedRow>)
    requires run in s.runs && Owned(s.(records := records)) && WithRows(records, run, name, rows).Some?
    ensures Owned(s.(records := WithRows(records, run, name, rows).value))
    decreases rows
  {
    if rows != [] {
      OwnedAfterRows(s, records[(name, rows[0].id) := RecordOf(run, rows[0])], run, name, rows[1..]);
    }
  }

  lemma {:induction false} OwnedAfterTables(s: State, records: map<Place, StoredRecord>, run: RunId,
                                            tables: seq<PreparedTable>)
    requires run in s.runs && Owned(s.(records := records)) && WithTables(records, run, tables).Some?
    ensures Owned(s.(records := WithTables(records, run, tables).value))
    decreases tables
  {
    if tables != [] {
      OwnedAfterRows(s, records, run, tables[0].name, tables[0].rows);
      OwnedAfterTables(s, WithRows(records, run, tables[0].name, tables[0].rows).value, run, tables[1..]);
    }
  }

  lemma AppliedIsCurrent(disk: State, work: State, p: PreparedImport, commits: seq<RunId>)
    requires WorkIsCurrent(disk, Holding(work, None), commits) && Consistent(p) && Applied(work, p).Some?
    ensures WorkIsCurrent(disk, Holding(Applied(work, p).value, Some(p.manifest.runId)), commits)
  {
    var run, after := p.manifest.runId, Applied(work, p).value;
    AppliedThenVerifies(work, p);
    OwnedAfterTables(after, work.records, run, p.tables);
    forall r | r in commits + [run]
      ensures r in after.runs && after.runs[r].manifest.runId == r && AllHold(after, after.runs[r].manifest)
    {
      if r != run {
        assert r in commits;
        assert AllHold(work, work.runs[r].manifest);
      }
    }
  }

  lemma StepKeepsInv(s: Sys, a: Action)
    requires Inv(s)
    ensures Inv(Step(s, a)) && Extends(s.disk.records, Step(s, a).disk.records) && s.commits <= Step(s, a).commits
  {
    match a
    case Apply(e, p) =>
      if e in s.phases && s.phases[e].Holding? && s.phases[e].applied.None? && Consistent(p)
        && Applied(s.phases[e].work, p).Some? {
        AppliedIsCurrent(s.disk, s.phases[e].work, p, s.commits);
      }
    case _ =>
  }

  lemma {:induction false} RunKeepsInv(s: Sys, actions: seq<Action>)
    requires Inv(s)
    ensures Inv(Run(s, actions)) && Extends(s.disk.records, Run(s, actions).disk.records)
            && s.commits <= Run(s, actions).commits
    decreases actions
  {
    if actions != [] {
      StepKeepsInv(s, actions[0]);
      RunKeepsInv(Step(s, actions[0]), actions[1..]);
    }
  }

  /**
   However many engines apply, verify, fail and die: no stored row is lost or changed, no run is committed
   twice, and every committed run still verifies.
   */
  lemma EnginesAreSafe(disk: State, actions: seq<Action>)
    requires Owned(disk)
    ensures var after := Run(Sys(disk, None, map[], []), actions);
            && Extends(disk.records, after.disk.records) && Distinct(after.commits)
            && forall r | r in after.commits ::
                 && r in after.disk.runs && Known(after.disk, after.disk.runs[r].manifest)
                 && AllHold(after.disk, after.disk.runs[r].manifest)
  {
    RunKeepsInv(Sys(disk, None, map[], []), actions);
  }

  // ----- one engine alone -----

  function ApplyActions(e: Engine, p: PreparedImport, saved: bool): seq<Action> {
    [Begin(e), Lock(e), Apply(e, p), Commit(e, saved)]
  }

  lemma RunFour(s: Sys, a: seq<Action>)
    requires |a| == 4
    ensures Run(s, a) == Step(Step(Step(Step(s, a[0]), a[1]), a[2]), a[3])
  {
    assert a[1..][1..] == a[2..] && a[2..][1..] == a[3..] && a[3..][1..] == [];
    var s2 := Step(Step(s, a[0]), a[1]);
    assert Run(s, a) == Run(Step(s, a[0]), a[1..]) == Run(s2, a[2..]);
    var s3 := Step(s2, a[2]);
    assert Run(s2, a[2..]) == Run(s3, a[3..]) == Run(Step(s3, a[3]), []);
  }

  /** An engine that meets no other writes the applied state exactly when it can be applied and saved. */
  lemma OneEngineApplies(disk: State, e: Engine, p: PreparedImport, saved: bool)
    requires Consistent(p)
    ensures var after := Run(Sys(disk, None, map[], []), ApplyActions(e, p, saved));
            && after.disk == (if saved && Applied(disk, p).Some? then Applied(disk, p).value else disk)
            && after.lock == None
  {
    RunFour(Sys(disk, None, map[], []), ApplyActions(e, p, saved));
  }

  function VerifyActions(e: Engine, run: RunId, saved: bool): seq<Action> {
    [Begin(e), Lock(e), Verify(e, run), Commit(e, saved)]
  }

  /** The same for an engine that has verified a run. */
  lemma OneEngineVerifies(disk: State, e: Engine, run: RunId, saved: bool)
    requires run in disk.runs
    ensures var after := Run(Sys(disk, None, map[], []), VerifyActions(e, run, saved));
            && after.disk ==
               (if saved then disk.(runs := disk.runs[run := disk.runs[run].(verified := true)]) else disk)
            && after.lock == None
  {
    RunFour(Sys(disk, None, map[], []), VerifyActions(e, run, saved));
  }
}
