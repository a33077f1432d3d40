/**
 The import's target as a file of state: applying a prepared import, verifying it against its manifest, and
 the transaction that does both under an exclusive lock. A checksum is taken to be the checksummed list.
 */
module TargetState {
  import opened Wrappers
  import opened StringOrder
  import opened Bags

  type RunId = string
  type TableName = string
  type RowId = string

  /** values is the row's canonical JSON text. */
  datatype PreparedRow = PreparedRow(id: RowId, sourceTable: TableName, sourceId: string, values: string)
  datatype PreparedTable = PreparedTable(name: TableName, rows: seq<PreparedRow>)

  /** The count and checksum of the rows that one source table became. */
  datatype TableManifest = TableManifest(sourceTable: TableName, count: nat, content: seq<PreparedRow>)

  datatype Manifest = Manifest(
    runId: RunId, checksum: string, blocked: bool, schema: string, snapshot: string, resolutions: string,
    tables: seq<TableManifest>)

  datatype PreparedImport = PreparedImport(manifest: Manifest, tables: seq<PreparedTable>)

  datatype StoredRun = StoredRun(manifest: Manifest, verified: bool)
  datatype StoredRecord = StoredRecord(runId: RunId, sourceTable: TableName, sourceId: string, id: RowId,
                                       values: string)

  type Place = (TableName, RowId)
  datatype State = State(runs: map<RunId, StoredRun>, records: map<Place, StoredRecord>)

  function SortKey(r: PreparedRow): string {
    r.id + [0 as char] + r.values
  }

  // ----- applying -----

  function RecordOf(run: RunId, r: PreparedRow): StoredRecord {
    StoredRecord(run, r.sourceTable, r.sourceId, r.id, r.values)
  }

  /** The rows of a table entered one by one, or None when a row is there already. */
  function WithRows(records: map<Place, StoredRecord>, run: RunId, name: TableName, rows: seq<PreparedRow>):
      Option<map<Place, StoredRecord>>
    decreases rows
  {
    if rows == [] then Some(records)
    else if (name, rows[0].id) in records then None
    else WithRows(records[(name, rows[0].id) := RecordOf(run, rows[0])], run, name, rows[1..])
  }

  function WithTables(records: map<Place, StoredRecord>, run: RunId, tables: seq<PreparedTable>):
      Option<map<Place, StoredRecord>>
    decreases tables
  {
    if tables == [] then Some(records)
    else
      var next := WithRows(records, run, tables[0].name, tables[0].rows);
      if next.None? then None else WithTables(next.value, run, tables[1..])
  }

  function Applied(s: State, p: PreparedImport): Option<State> {
    var run := p.manifest.runId;
    if run in s.runs then None
    else
      var records := WithTables(s.records, run, p.tables);
      if records.None? then None else Some(State(s.runs[run := StoredRun(p.manifest, false)], records.value))
  }

  // ----- verifying -----

  function PreparedOf(r: StoredRecord): PreparedRow {
    PreparedRow(r.id, r.sourceTable, r.sourceId, r.values)
  }

  predicate Belongs(r: StoredRecord, run: RunId, source: TableName) {
    r.runId == run && r.sourceTable == source
  }

  /** The rows of a run that came from a source table, by place. */
  function Imported(records: map<Place, StoredRecord>, run: RunId, source: TableName): map<Place, PreparedRow> {
    map p | p in records && Belongs(records[p], run, source) :: PreparedOf(records[p])
  }

  ghost predicate Lists(rows: seq<PreparedRow>, records: map<Place, StoredRecord>, run: RunId, source: TableName) {
    multiset(rows) == BagOf(Imported(records, run, source))
  }

  predicate TableMatches(rows: seq<PreparedRow>, expected: TableManifest) {
    |rows| == expected.count && Sort(rows, SortKey) == expected.content
  }

  /** What a manifest expects of a source table is what the state holds of it. */
  ghost predicate Holds(records: map<Place, StoredRecord>, run: RunId, expected: TableManifest) {
    && SortedBy(expected.content, SortKey) && |expected.content| == expected.count
    && multiset(expected.content) == BagOf(Imported(records, run, expected.sourceTable))
  }

  predicate Known(s: State, m: Manifest) {
    m.runId in s.runs && s.runs[m.runId].manifest.checksum == m.checksum
  }

  ghost predicate Unambiguous(content: seq<PreparedRow>) {
    KeysTellApart(content, SortKey)
  }

  /**
   When sorting any listing of the rows gives the expected content, the rows are the expected ones; and the other
   way round, when no two expected rows share id and values.
   */
  lemma MatchesIffHolds(rows: seq<PreparedRow>, records: map<Place, StoredRecord>, run: RunId, expected: TableManifest)
    requires Lists(rows, records, run, expected.sourceTable)
    ensures TableMatches(rows, expected) ==> Holds(records, run, expected)
    ensures Unambiguous(expected.content) && Holds(records, run, expected) ==> TableMatches(rows, expected)
  {
    SortSorts(rows, SortKey);
    if Unambiguous(expected.content) && Holds(records, run, expected) {
      SortedListingIsUnique(expected.content, Sort(rows, SortKey), SortKey);
    }
  }

  function BagIf(r: StoredRecord, run: RunId, source: TableName): multiset<PreparedRow> {
    if Belongs(r, run, source) then multiset{PreparedOf(r)} else multiset{}
  }

  lemma ImportedOfWith(records: map<Place, StoredRecord>, p: Place, r: StoredRecord, run: RunId, source: TableName)
    requires p !in records
    ensures Imported(records[p := r], run, source) ==
            if Belongs(r, run, source) then Imported(records, run, source)[p := PreparedOf(r)]
            else Imported(records, run, source)
  {
  }

  /** A new record adds its row to what its run imported from its source table, and nothing else. */
  lemma RecordAdded(records: map<Place, StoredRecord>, p: Place, r: StoredRecord, run: RunId, source: TableName)
    requires p !in records
    ensures BagOf(Imported(records[p := r], run, source))
            == BagOf(Imported(records, run, source)) + BagIf(r, run, source)
  {
    ImportedOfWith(records, p, r, run, source);
    if Belongs(r, run, source) {
      BagWith(Imported(records, run, source), p, PreparedOf(r));
    }
  }

  method CollectRows(s: State, run: RunId, source: TableName) returns (rows: seq<PreparedRow>)
    ensures Lists(rows, s.records, run, source)
  {
    rows := [];
    var left := s.records.Keys;
    ghost var seen: map<Place, StoredRecord> := map[];
    while left != {}
      invariant left <= s.records.Keys
      invariant seen.Keys == s.records.Keys - left && forall p | p in seen :: seen[p] == s.records[p]
      invariant Lists(rows, seen, run, source)
      decreases |left|
    {
      var p :| p in left;
      left := left - {p};
      var r := s.records[p];
      RecordAdded(seen, p, r, run, source);
      seen := seen[p := r];
      if Belongs(r, run, source) {
        rows := rows + [PreparedOf(r)];
      }
    }
    assert seen == s.records;
  }

  ghost predicate AllHold(s: State, m: Manifest) {
    forall t | t in m.tables :: Holds(s.records, m.runId, t)
  }

  /** No two rows that the manifest expects of one source table share id and values. */
  ghost predicate Telling(m: Manifest) {
    forall t | t in m.tables :: Unambiguous(t.content)
  }

  datatype Verdict = RunNotFound | WrongManifest | Mismatch | Verified

  /** Verification in the order the state happens to be walked in. */
  method VerifyState(s: State, m: Manifest) returns (v: Verdict)
    ensures v == RunNotFound <==> m.runId !in s.runs
    ensures v == WrongManifest <==> m.runId in s.runs && !Known(s, m)
    ensures v == Verified ==> Known(s, m) && AllHold(s, m)
    ensures Telling(m) && Known(s, m) && AllHold(s, m) ==> v == Verified
  {
    if m.runId !in s.runs {
      return RunNotFound;
    }
    if s.runs[m.runId].manifest.checksum != m.checksum {
      return WrongManifest;
    }
    var i := 0;
    while i < |m.tables|
      invariant 0 <= i <= |m.tables|
      invariant forall j | 0 <= j < i :: Holds(s.records, m.runId, m.tables[j])
    {
      var rows := CollectRows(s, m.runId, m.tables[i].sourceTable);
      MatchesIffHolds(rows, s.records, m.runId, m.tables[i]);
      var sorted := Sort(rows, SortKey);
      if |rows| != m.tables[i].count || sorted != m.tables[i].content {
        assert m.tables[i] in m.tables;
        return Mismatch;
      }
      i := i + 1;
    }
    return Verified;
  }

  // ----- manifests -----

  function RowsFrom(rows: seq<PreparedRow>, source: TableName): seq<PreparedRow> {
    if rows == [] then [] else (if rows[0].sourceTable == source then [rows[0]] else []) + RowsFrom(rows[1..], source)
  }

  function AllRows(tables: seq<PreparedTable>): seq<PreparedRow> {
    if tables == [] then [] else tables[0].rows + AllRows(tables[1..])
  }

  function ManifestOf(tables: seq<PreparedTable>, source: TableName): TableManifest {
    var rows := RowsFrom(AllRows(tables), source);
    TableManifest(source, |rows|, Sort(rows, SortKey))
  }

  function ManifestsOf(tables: seq<PreparedTable>, sources: seq<TableName>): seq<TableManifest> {
    seq(|sources|, i requires 0 <= i < |sources| => ManifestOf(tables, sources[i]))
  }

  lemma {:induction false} RowsFromConcat(a: seq<PreparedRow>, b: seq<PreparedRow>, source: TableName)
    ensures RowsFrom(a + b, source) == RowsFrom(a, source) + RowsFrom(b, source)
  {
    if a == [] {
      assert a + b == b;
    } else {
      assert (a + b)[1..] == a[1..] + b;
      RowsFromConcat(a[1..], b, source);
    }
  }

  function Under(groups: map<TableName, seq<PreparedRow>>, source: TableName): seq<PreparedRow> {
    if source in groups then groups[source] else []
  }

  /** Every group has grown by the rows from its source table. */
  ghost predicate GroupedOnto(r: map<TableName, seq<PreparedRow>>, groups: map<TableName, seq<PreparedRow>>,
                              rows: seq<PreparedRow>)
  {
    forall source :: Under(r, source) == Under(groups, source) + RowsFrom(rows, source)
  }

  /** One more row is in the group of its own source table and in no other. */
  lemma RowGroupedUnder(before: seq<PreparedRow>, rows: seq<PreparedRow>, row: PreparedRow, source: TableName)
    ensures before + RowsFrom(rows + [row], source)
            == if row.sourceTable == source then (before + RowsFrom(rows, source)) + [row]
               else before + RowsFrom(rows, source)
  {
    RowsFromConcat(rows, [row], source);
    assert [row][1..] == [];
    if row.sourceTable == source {
      assert RowsFrom([row], source) == [row];
      assert before + (RowsFrom(rows, source) + [row]) == (before + RowsFrom(rows, source)) + [row];
    } else {
      assert RowsFrom([row], source) == [];
      assert RowsFrom(rows, source) + [] == RowsFrom(rows, source);
    }
  }

  lemma RowGrouped(r: map<TableName, seq<PreparedRow>>, groups: map<TableName, seq<PreparedRow>>,
                   rows: seq<PreparedRow>, row: PreparedRow)
    requires GroupedOnto(r, groups, rows)
    ensures GroupedOnto(r[row.sourceTable := Under(r, row.sourceTable) + [row]], groups, rows + [row])
  {
    var next := r[row.sourceTable := Under(r, row.sourceTable) + [row]];
    forall source
      ensures Under(next, source) == Under(groups, source) + RowsFrom(rows + [row], source)
    {
      RowGroupedUnder(Under(groups, source), rows, row, source);
      assert Under(r, source) == Under(groups, source) + RowsFrom(rows, source);
    }
  }

  lemma GroupedNothing(groups: map<TableName, seq<PreparedRow>>)
    ensures GroupedOnto(groups, groups, [])
  {
  }

  lemma GroupedFromNothing(r: map<TableName, seq<PreparedRow>>, rows: seq<PreparedRow>, source: TableName)
    requires GroupedOnto(r, map[], rows)
    ensures Under(r, source) == RowsFrom(rows, source)
  {
  }

  lemma NextRowGrouped(r: map<TableName, seq<PreparedRow>>, groups: map<TableName, seq<PreparedRow>>,
                       rows: seq<PreparedRow>, i: nat)
    requires i < |rows| && GroupedOnto(r, groups, rows[..i])
    ensures GroupedOnto(r[rows[i].sourceTable := Under(r, rows[i].sourceTable) + [rows[i]]], groups, rows[..i + 1])
  {
    RowGrouped(r, groups, rows[..i], rows[i]);
    assert rows[..i + 1] == rows[..i] + [rows[i]];
  }

  method GroupRows(groups: map<TableName, seq<PreparedRow>>, rows: seq<PreparedRow>)
    returns (r: map<TableName, seq<PreparedRow>>)
    ensures GroupedOnto(r, groups, rows)
  {
    r := groups;
    GroupedNothing(groups);
    assert rows[..0] == [];
    var i := 0;
    while i < |rows|
      invariant 0 <= i <= |rows|
      invariant GroupedOnto(r, groups, rows[..i])
    {
      NextRowGrouped(r, groups, rows, i);
      r := r[rows[i].sourceTable := Under(r, rows[i].sourceTable) + [rows[i]]];
      i := i + 1;
    }
    assert rows[..i] == rows;
  }

  lemma {:induction false} AllRowsOfConcat(a: seq<PreparedTable>, b: seq<PreparedTable>)
    ensures AllRows(a + b) == AllRows(a) + AllRows(b)
  {
    if a == [] {
      assert a + b == b;
    } else {
      assert (a + b)[1..] == a[1..] + b;
      AllRowsOfConcat(a[1..], b);
    }
  }

  lemma RowsOfNextTable(tables: seq<PreparedTable>, i: nat, source: TableName)
    requires i < |tables|
    ensures RowsFrom(AllRows(tables[..i + 1]), source)
            == RowsFrom(AllRows(tables[..i]), source) + RowsFrom(tables[i].rows, source)
  {
    assert tables[..i + 1] == tables[..i] + [tables[i]];
    AllRowsOfConcat(tables[..i], [tables[i]]);
    assert AllRows([tables[i]]) == tables[i].rows;
    RowsFromConcat(AllRows(tables[..i]), tables[i].rows, source);
  }

  lemma TableGrouped(r: map<TableName, seq<PreparedRow>>, groups: map<TableName, seq<PreparedRow>>,
                     tables: seq<PreparedTable>, i: nat)
    requires i < |tables|
    requires GroupedOnto(groups, map[], AllRows(tables[..i])) && GroupedOnto(r, groups, tables[i].rows)
    ensures GroupedOnto(r, map[], AllRows(tables[..i + 1]))
  {
    var none: map<TableName, seq<PreparedRow>> := map[];
    forall source
      ensures Under(r, source) == Under(none, source) + RowsFrom(AllRows(tables[..i + 1]), source)
    {
      RowsOfNextTable(tables, i, source);
    }
  }

  /** Groups prepared rows by their source table, then sorts each group. */
  method BuildTableManifests(tables: seq<PreparedTable>, sources: seq<TableName>) returns (result: seq<TableManifest>)
    ensures result == ManifestsOf(tables, sources)
  {
    var bySource: map<TableName, seq<PreparedRow>> := map[];
    var i := 0;
    while i < |tables|
      invariant 0 <= i <= |tables|
      invariant GroupedOnto(bySource, map[], AllRows(tables[..i]))
    {
      var next := GroupRows(bySource, tables[i].rows);
      TableGrouped(next, bySource, tables, i);
      bySource := next;
      i := i + 1;
    }
    assert tables[..i] == tables;
    result := [];
    i := 0;
    while i < |sources|
      invariant 0 <= i <= |sources| && |result| == i
      invariant forall j | 0 <= j < i :: result[j] == ManifestOf(tables, sources[j])
    {
      var rows := Under(bySource, sources[i]);
      GroupedFromNothing(bySource, AllRows(tables), sources[i]);
      result := result + [TableManifest(sources[i], |rows|, Sort(rows, SortKey))];
      i := i + 1;
    }
  }
}
