/** When an import can be applied, what applying it leaves, and which plans are written at all. */
module TargetOutcomes {
  import opened Wrappers
  import opened StringOrder
  import opened TargetState
  import opened ImportEngine
  import opened StateTransaction

  /** The places of the rows, in the order in which they are entered. */
  function PlacesIn(name: TableName, rows: seq<PreparedRow>): seq<Place> {
    seq(|rows|, i requires 0 <= i < |rows| => (name, rows[i].id))
  }

  function PlacesOf(tables: seq<PreparedTable>): seq<Place> {
    if tables == [] then [] else PlacesIn(tables[0].name, tables[0].rows) + PlacesOf(tables[1..])
  }

  ghost predicate Free(places: seq<Place>, records: map<Place, StoredRecord>) {
    Distinct(places) && forall i | 0 <= i < |places| :: places[i] !in records
  }

  ghost function SetOf(places: seq<Place>): set<Place> {
    set p | p in places
  }

  lemma FreeConcat(a: seq<Place>, b: seq<Place>, records: map<Place, StoredRecord>, after: map<Place, StoredRecord>)
    requires Free(a, records) ==> after.Keys == records.Keys + SetOf(a)
    ensures Free(a + b, records) <==> Free(a, records) && Free(b, after)
    ensures SetOf(a + b) == SetOf(a) + SetOf(b)
  {
    var all := a + b;
    if Free(all, records) {
      assert forall i | 0 <= i < |a| :: all[i] == a[i];
      assert forall i | 0 <= i < |b| :: all[|a| + i] == b[i];
      assert forall i, j | 0 <= i < |a| && 0 <= j < |b| :: a[i] != b[j];
    }
    if Free(a, records) && Free(b, after) {
      forall i, j | 0 <= i < j < |all|
        ensures all[i] != all[j]
      {
        if i < |a| <= j {
          assert a[i] in SetOf(a) && b[j - |a|] !in after;
        }
      }
    }
  }

  lemma {:induction false} RowsEnterIff(records: map<Place, StoredRecord>, run: RunId, name: TableName,
                                        rows: seq<PreparedRow>)
    ensures var after := WithRows(records, run, name, rows);
            && (after.Some? <==> Free(PlacesIn(name, rows), records))
            && (after.Some? ==> after.value.Keys == records.Keys + SetOf(PlacesIn(name, rows)))
    decreases rows
  {
    var places := PlacesIn(name, rows);
    if rows != [] {
      var first := (name, rows[0].id);
      var next := records[first := RecordOf(run, rows[0])];
      assert places == [first] + PlacesIn(name, rows[1..]);
      if first !in records {
        RowsEnterIff(next, run, name, rows[1..]);
        FreeConcat([first], PlacesIn(name, rows[1..]), records, next);
      } else {
        assert places[0] in records;
      }
    }
  }

  lemma {:induction false} TablesEnterIff(records: map<Place, StoredRecord>, run: RunId, tables: seq<PreparedTable>)
    ensures var after := WithTables(records, run, tables);
            && (after.Some? <==> Free(PlacesOf(tables), records))
            && (after.Some? ==> after.value.Keys == records.Keys + SetOf(PlacesOf(tables)))
    decreases tables
  {
    if tables != [] {
      var t, rest := tables[0], tables[1..];
      RowsEnterIff(records, run, t.name, t.rows);
      var next := WithRows(records, run, t.name, t.rows);
      if next.Some? {
        TablesEnterIff(next.value, run, rest);
        FreeConcat(PlacesIn(t.name, t.rows), PlacesOf(rest), records, next.value);
      } else {
        FreeConcat(PlacesIn(t.name, t.rows), PlacesOf(rest), records, map[]);
      }
    }
  }

  /** An import can be applied exactly when its run is new and none of its rows' places is taken or named twice. */
  lemma AppliesIff(s: State, p: PreparedImport)
    ensures Applied(s, p).Some? <==> p.manifest.runId !in s.runs && Free(PlacesOf(p.tables), s.records)
  {
    TablesEnterIff(s.records, p.manifest.runId, p.tables);
  }

  predicate Stored(records: map<Place, StoredRecord>, run: RunId, name: TableName, r: PreparedRow) {
    && (name, r.id) in records
    && records[(name, r.id)] == StoredRecord(run, r.sourceTable, r.sourceId, r.id, r.values)
  }

  lemma {:induction false} RowsStored(records: map<Place, StoredRecord>, run: RunId, name: TableName,
                                      rows: seq<PreparedRow>)
    requires WithRows(records, run, name, rows).Some?
    ensures forall r | r in rows :: Stored(WithRows(records, run, name, rows).value, run, name, r)
    decreases rows
  {
    if rows != [] {
      var next := records[(name, rows[0].id) := RecordOf(run, rows[0])];
      RowsStored(next, run, name, rows[1..]);
      RowsExtend(next, run, name, rows[1..]);
    }
  }

  lemma {:induction false} TablesStored(records: map<Place, StoredRecord>, run: RunId, tables: seq<PreparedTable>)
    requires WithTables(records, run, tables).Some?
    ensures Extends(records, WithTables(records, run, tables).value)
    ensures forall t, r | t in tables && r in t.rows :: Stored(WithTables(records, run, tables).value, run, t.name, r)
    decreases tables
  {
    if tables != [] {
      var t := tables[0];
      var next := WithRows(records, run, t.name, t.rows).value;
      RowsStored(records, run, t.name, t.rows);
      RowsExtend(records, run, t.name, t.rows);
      TablesStored(next, run, tables[1..]);
    }
  }

  /**
   Applying records the run as not yet verified and stores every row of every table at its place, with its source; what
   was stored stays as it was, and nothing else is stored.
   */
  lemma AppliedOutcome(s: State, p: PreparedImport)
    requires Applied(s, p).Some?
    ensures var after, run := Applied(s, p).value, p.manifest.runId;
            && after.runs == s.runs[run := StoredRun(p.manifest, false)]
            && Extends(s.records, after.records)
            && (forall t, r | t in p.tables && r in t.rows :: Stored(after.records, run, t.name, r))
            && after.records.Keys == s.records.Keys + SetOf(PlacesOf(p.tables))
  {
    TablesEnterIff(s.records, p.manifest.runId, p.tables);
    TablesStored(s.records, p.manifest.runId, p.tables);
  }

  /** After an apply only the manifest that was applied, by its checksum, is known under its run. */
  lemma OnlyAppliedIsKnown(s: State, p: PreparedImport, m: Manifest)
    requires Applied(s, p).Some?
    ensures Known(Applied(s, p).value, m) <==>
            if m.runId == p.manifest.runId then m.checksum == p.manifest.checksum else Known(s, m)
  {
  }

  /**
   A run is written exactly when its manifest is intact and not blocked, planning it again gives the same schema,
   snapshot, resolutions and table manifests, the file can be opened and saved, and the import can be applied.
   */
  lemma WrittenIff(content: State, manifest: Manifest, intact: bool, replanned: Option<PreparedImport>, f: FileOps)
    ensures Replaced(content, manifest, intact, replanned, f).Some? <==>
            && intact && !manifest.blocked && f.opens && f.saves && replanned.Some?
            && var again := replanned.value.manifest;
               && again.schema == manifest.schema && again.snapshot == manifest.snapshot
               && again.resolutions == manifest.resolutions && again.tables == manifest.tables
               && manifest.runId !in content.runs && Free(PlacesOf(replanned.value.tables), content.records)
  {
    if replanned.Some? {
      AppliesIff(content, PreparedImport(manifest, replanned.value.tables));
    }
  }
}
