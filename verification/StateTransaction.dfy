/** The transaction on a state file and the engine's apply and verify, statement by statement. */
module StateTransaction {
  import opened Wrappers
  import opened StringOrder
  import opened Bags
  import opened TargetState
  import opened ImportEngine

  const ADVISORY_LOCK_KEY := 593215744214775351

  /** How the file operations go: opening and reading, saving, and the two that release the lock. */
  datatype FileOps = FileOps(opens: bool, saves: bool, unlocks: bool, closes: bool)

  class StateFile {
    var content: State
    var locked: bool

    constructor (s: State)
      ensures content == s && !locked
    {
      content, locked := s, false;
    }
  }

  class StateTx {
    const file: StateFile
    var state: State
    var locked: bool
    var holdsFile: bool
    var completed: bool

    ghost predicate Valid()
      reads this, file
    {
      (holdsFile ==> file.locked && locked) && (locked && !completed ==> holdsFile)
    }

    /** The state is read before the lock is held, so it may be stale. */
    constructor Begin(f: StateFile)
      ensures Valid() && file == f && state == f.content && !locked && !holdsFile && !completed
    {
      file := f;
      state := f.content;
      locked, holdsFile, completed := false, false, false;
    }

    /** Waits for the file's lock, then reads the state again; opens says whether that succeeds. */
    method AcquireAdvisoryLock(key: int, opens: bool) returns (ok: bool)
      requires Valid() && (locked || !file.locked)
      modifies this, file
      ensures Valid() && completed == old(completed) && file.content == old(file.content)
      ensures ok <==> key == ADVISORY_LOCK_KEY && (old(locked) || opens)
      ensures ok && !old(locked) ==> locked && holdsFile && state == file.content
      ensures ok && old(locked) ==> locked && state == old(state)
      ensures !ok ==> state == old(state) && locked == old(locked)
      ensures !ok ==> holdsFile == old(holdsFile) && file.locked == old(file.locked)
    {
      if key != ADVISORY_LOCK_KEY {
        return false;
      }
      if locked {
        return true;
      }
      file.locked := true;
      if !opens {
        file.locked := false;
        return false;
      }
      state, holdsFile, locked := file.content, true, true;
      return true;
    }

    /** On an error the working state may hold part of the import; it is never saved then. */
    method Apply(p: PreparedImport) returns (ok: bool)
      modifies `state
      ensures ok <==> locked && Applied(old(state), p).Some?
      ensures ok ==> state == Applied(old(state), p).value
    {
      if !locked {
        return false;
      }
      var run := p.manifest.runId;
      if run in state.runs {
        return false;
      }
      var i := 0;
      while i < |p.tables|
        invariant 0 <= i <= |p.tables| && state.runs == old(state).runs
        invariant WithTables(old(state).records, run, p.tables) == WithTables(state.records, run, p.tables[i..])
      {
        ghost var before := state.records;
        var rows, j := p.tables[i].rows, 0;
        while j < |rows|
          invariant 0 <= j <= |rows| && state.runs == old(state).runs
          invariant WithRows(before, run, p.tables[i].name, rows)
                    == WithRows(state.records, run, p.tables[i].name, rows[j..])
        {
          assert rows[j..][1..] == rows[j + 1..];
          var place := (p.tables[i].name, rows[j].id);
          if place in state.records {
            return false;
          }
          state := state.(records := state.records[place :=
            StoredRecord(run, rows[j].sourceTable, rows[j].sourceId, rows[j].id, rows[j].values)]);
          j := j + 1;
        }
        assert p.tables[i..][1..] == p.tables[i + 1..];
        i := i + 1;
      }
      state := state.(runs := state.runs[run := StoredRun(p.manifest, false)]);
      return true;
    }

    method Verification(m: Manifest) returns (v: Verdict)
      modifies `state
      ensures v == Verified ==> Known(old(state), m) && AllHold(old(state), m)
      ensures Telling(m) && Known(old(state), m) && AllHold(old(state), m) ==> v == Verified
      ensures v == RunNotFound <==> m.runId !in old(state).runs
      ensures v == Verified ==>
                state == old(state).(runs := old(state).runs[m.runId := old(state).runs[m.runId].(verified := true)])
      ensures v != Verified ==> state == old(state)
    {
      v := VerifyState(state, m);
      if v == Verified {
        state := state.(runs := state.runs[m.runId := state.runs[m.runId].(verified := true)]);
      }
    }

    /** Unlocking or closing the lock file frees the lock; an error of either is returned. */
    method Release(f: FileOps) returns (ok: bool)
      requires Valid() && completed
      modifies this, file
      ensures Valid() && completed && !holdsFile && file.content == old(file.content) && state == old(state)
      ensures ok <==> (old(holdsFile) ==> f.unlocks && f.closes)
      ensures file.locked == (old(file.locked) && !(old(holdsFile) && (f.unlocks || f.closes)))
    {
      ok := true;
      if holdsFile {
        ok := f.unlocks && f.closes;
        file.locked := !(f.unlocks || f.closes);
        holdsFile := false;
      }
    }

    /**
     The rename makes saving all or nothing. When the lock then cannot be released without an error, the file has
     changed although an error is returned.
     */
    method Commit(f: FileOps) returns (ok: bool)
      requires Valid()
      modifies this, file
      ensures Valid() && state == old(state)
      ensures ok <==> !old(completed) && old(locked) && f.saves && f.unlocks && f.closes
      ensures file.content == if !old(completed) && old(locked) && f.saves then old(state) else old(file.content)
      ensures ok ==> completed && !holdsFile && !file.locked
      ensures completed == (old(completed) || (old(locked) && f.saves))
      ensures completed && !old(completed) ==> !holdsFile && file.locked == !(f.unlocks || f.closes)
      ensures completed == old(completed) ==> holdsFile == old(holdsFile) && file.locked == old(file.locked)
    {
      if completed || !locked || !f.saves {
        return false;
      }
      file.content := state;
      completed := true;
      ok := Release(f);
    }

    method Abort(f: FileOps) returns (ok: bool)
      requires Valid()
      modifies this, file
      ensures Valid() && completed && file.content == old(file.content)
      ensures ok <==> (!old(completed) && old(holdsFile) ==> f.unlocks && f.closes)
      ensures file.locked == (old(file.locked) && !(!old(completed) && old(holdsFile) && (f.unlocks || f.closes)))
    {
      if completed {
        return true;
      }
      completed := true;
      ok := Release(f);
    }
  }

  /** The source still yields the plan that was approved. */
  predicate SameSourcePlan(expected: Manifest, actual: Manifest) {
    && expected.schema == actual.schema && expected.snapshot == actual.snapshot
    && expected.resolutions == actual.resolutions && expected.tables == actual.tables
  }

  method CompareSourcePlan(expected: Manifest, actual: Manifest) returns (same: bool)
    ensures same == SameSourcePlan(expected, actual)
  {
    if expected.schema != actual.schema || expected.snapshot != actual.snapshot
       || expected.resolutions != actual.resolutions || |expected.tables| != |actual.tables| {
      return false;
    }
    var i := 0;
    while i < |expected.tables|
      invariant 0 <= i <= |expected.tables|
      invariant forall j | 0 <= j < i :: expected.tables[j] == actual.tables[j]
    {
      var left, right := expected.tables[i], actual.tables[i];
      if left.sourceTable != right.sourceTable || left.count != right.count || left.content != right.content {
        return false;
      }
      i := i + 1;
    }
    return true;
  }

  /** The replanned import may be written under the approved manifest. */
  predicate Approved(manifest: Manifest, intact: bool, replanned: Option<PreparedImport>) {
    intact && !manifest.blocked && replanned.Some? && SameSourcePlan(manifest, replanned.value.manifest)
  }

  /** What an approved run writes, if the file can be opened and saved. */
  function Replaced(content: State, manifest: Manifest, intact: bool, replanned: Option<PreparedImport>,
                    f: FileOps): Option<State>
  {
    if Approved(manifest, intact, replanned) && f.opens && f.saves
    then Applied(content, PreparedImport(manifest, replanned.value.tables)) else None
  }

  /**
   intact is the outcome of the manifest's own checksum. The file becomes the applied state exactly when the plan is
   approved and everything up to the rename succeeds; an error in releasing the lock after it is reported all the same.
   */
  method EngineApply(file: StateFile, manifest: Manifest, intact: bool, replanned: Option<PreparedImport>, f: FileOps)
    returns (ok: bool)
    requires !file.locked
    modifies file
    ensures f.unlocks || f.closes ==> !file.locked
    ensures ok <==> Replaced(old(file.content), manifest, intact, replanned, f).Some? && f.unlocks && f.closes
    ensures file.content == if Replaced(old(file.content), manifest, intact, replanned, f).Some?
                            then Replaced(old(file.content), manifest, intact, replanned, f).value
                            else old(file.content)
  {
    if !intact || manifest.blocked || replanned.None? {
      return false;
    }
    var same := CompareSourcePlan(manifest, replanned.value.manifest);
    if !same {
      return false;
    }
    var prepared := replanned.value.(manifest := manifest);
    var tx := new StateTx.Begin(file);
    var committed := tx.AcquireAdvisoryLock(ADVISORY_LOCK_KEY, f.opens);
    if committed {
      committed := manifest.runId !in tx.state.runs;
    }
    if committed {
      committed := tx.Apply(prepared);
    }
    if committed {
      committed := tx.Commit(f);
    }
    if !committed {
      var _ := tx.Abort(f);
    }
    return committed;
  }

  method EngineVerify(file: StateFile, manifest: Manifest, intact: bool, f: FileOps) returns (ok: bool)
    requires !file.locked
    modifies file
    ensures f.unlocks || f.closes ==> !file.locked
    ensures file.content.records == old(file.content).records
    ensures ok ==> intact && f == FileOps(true, true, true, true)
                   && Known(old(file.content), manifest) && AllHold(old(file.content), manifest)
    ensures (Telling(manifest) && intact && f == FileOps(true, true, true, true)
             && Known(old(file.content), manifest) && AllHold(old(file.content), manifest)) ==> ok
    ensures file.content != old(file.content) ==>
              f.saves && Known(old(file.content), manifest) && AllHold(old(file.content), manifest)
              && file.content == old(file.content).(runs := file.content.runs)
    ensures !ok && f.unlocks && f.closes ==> file.content == old(file.content)
  {
    if !intact {
      return false;
    }
    var tx := new StateTx.Begin(file);
    var committed := tx.AcquireAdvisoryLock(ADVISORY_LOCK_KEY, f.opens);
    if committed {
      var v := tx.Verification(manifest);
      committed := v == Verified;
    }
    if committed {
      committed := tx.Commit(f);
    }
    if !committed {
      var _ := tx.Abort(f);
    }
    return committed;
  }

  /** What an engine writes is what its steps write in the protocol of many engines. */
  lemma EngineApplyIsRun(content: State, manifest: Manifest, replanned: PreparedImport, f: FileOps, e: Engine)
    requires Approved(manifest, true, Some(replanned)) && f.opens
    requires Consistent(PreparedImport(manifest, replanned.tables))
    ensures Run(Sys(content, None, map[], []),
            ApplyActions(e, PreparedImport(manifest, replanned.tables), f.saves)).disk
            == var next := Replaced(content, manifest, true, Some(replanned), f);
               if next.Some? then next.value else content
  {
    OneEngineApplies(content, e, PreparedImport(manifest, replanned.tables), f.saves);
  }

  const ALL_WELL: FileOps := FileOps(true, true, true, true)

  /** Planning, applying and verifying agree: after a committed apply, verification of the same manifest succeeds. */
  method ApplyThenVerify(file: StateFile, manifest: Manifest, replanned: PreparedImport)
    returns (applied: bool, verified: bool)
    requires !file.locked && Owned(file.content)
    requires Consistent(replanned)
    modifies file
    ensures applied <==> Approved(manifest, true, Some(replanned))
                         && Applied(old(file.content), PreparedImport(manifest, replanned.tables)).Some?
    ensures applied ==> verified
  {
    applied := EngineApply(file, manifest, true, Some(replanned), ALL_WELL);
    if applied {
      AppliedThenVerifies(old(file.content), PreparedImport(manifest, replanned.tables));
      verified := EngineVerify(file, manifest, true, ALL_WELL);
    } else {
      verified := false;
    }
  }
}
