/**
 From the transformed snapshot to the prepared import that the engine applies. Keys are generated as texts that
 differ for different keys, so the manifests that the importer makes of its own rows tell them apart; planning,
 applying and verifying then agree with nothing assumed of the manifest.
 */
module LegacyManifests {
  import opened Wrappers
  import opened StringOrder
  import opened LegacySource
  import opened LegacyTransform
  import opened LegacyClosure
  import Store = TargetState
  import opened ImportEngine
  import opened StateTransaction

  /** How keys, names and the values of a row are written. */
  datatype Encoding = Encoding(
    key: Cell -> string, target: Target -> string, source: Table -> string, values: (Refs, Data) -> string)

  const NUL: char := 0 as char

  /** Generated keys are texts without a zero byte, and different for different keys; table names differ. */
  ghost predicate Proper(enc: Encoding) {
    && (forall a: Cell, b: Cell | a.Key? && b.Key? && enc.key(a) == enc.key(b) :: a == b)
    && (forall a: Cell | a.Key? :: NUL !in enc.key(a))
    && (forall t: Table, u: Table | enc.source(t) == enc.source(u) :: t == u)
  }

  function Written(enc: Encoding, row: PreparedRow): Store.PreparedRow {
    Store.PreparedRow(enc.key(row.id), enc.source(row.sourceTable), row.sourceId, enc.values(row.refs, row.data))
  }

  function WrittenRows(enc: Encoding, rows: seq<PreparedRow>): seq<Store.PreparedRow> {
    seq(|rows|, i requires 0 <= i < |rows| => Written(enc, rows[i]))
  }

  function WrittenTables(enc: Encoding, tables: seq<PreparedTable>): seq<Store.PreparedTable> {
    seq(|tables|, i requires 0 <= i < |tables| =>
      Store.PreparedTable(enc.target(tables[i].name), WrittenRows(enc, tables[i].rows)))
  }

  // ----- a key tells which legacy row it was made from -----

  /** The id that a legacy row gives to its row in a table. */
  function EmittedId(t: Target, legacyId: string): string {
    match t
    case GlobalRoleAssignments => DirectorIdOf(legacyId)
    case SeasonCloseEvents => CloseIdOf(legacyId)
    case _ => legacyId
  }

  lemma FinalKey(s: Snapshot, t: Target, row: PreparedRow)
    requires row in Final(s, t)
    ensures row.id == TargetKey(t, EmittedId(t, row.sourceId)) && row.sourceTable == SourceOf(t)
  {
    var source := FinalOnly(s, t, row);
  }

  lemma SamePrefix(p: string, a: string, b: string)
    requires p + a == p + b
    ensures a == b
  {
    assert a == (p + a)[|p|..] && b == (p + b)[|p|..];
  }

  lemma EmittedIdTells(t: Target, a: string, b: string)
    requires EmittedId(t, a) == EmittedId(t, b)
    ensures a == b
  {
    match t
    case GlobalRoleAssignments => SamePrefix("legacy-director:", a, b);
    case SeasonCloseEvents => SamePrefix("legacy-close:", a, b);
    case _ =>
  }

  /** Rows with one key come from one legacy row. */
  lemma KeyTellsSource(s: Snapshot, t: Target, u: Target, a: PreparedRow, b: PreparedRow)
    requires a in Final(s, t) && b in Final(s, u) && a.id == b.id
    ensures a.sourceId == b.sourceId
  {
    FinalKey(s, t, a);
    FinalKey(s, u, b);
    if t == u {
      EmittedIdTells(t, a.sourceId, b.sourceId);
    }
  }

  // ----- the rows of a manifest -----

  ghost predicate FromFinal(s: Snapshot, enc: Encoding, row: Store.PreparedRow) {
    exists t, r | r in Final(s, t) :: row == Written(enc, r)
  }

  ghost predicate WrittenFrom(enc: Encoding, tables: seq<PreparedTable>, i: int, r: PreparedRow, row: Store.PreparedRow)
  {
    0 <= i < |tables| && r in tables[i].rows && row == Written(enc, r)
  }

  lemma WrittenRow(enc: Encoding, rows: seq<PreparedRow>, row: Store.PreparedRow) returns (r: PreparedRow)
    requires row in WrittenRows(enc, rows)
    ensures r in rows && row == Written(enc, r)
  {
    var j :| 0 <= j < |rows| && WrittenRows(enc, rows)[j] == row;
    r := rows[j];
  }

  lemma {:induction false} AllRowsListed(enc: Encoding, tables: seq<PreparedTable>, row: Store.PreparedRow)
    returns (i: int, r: PreparedRow)
    requires row in Store.AllRows(WrittenTables(enc, tables))
    ensures WrittenFrom(enc, tables, i, r, row)
    decreases |tables|
  {
    var all := WrittenTables(enc, tables);
    assert all[0].rows == WrittenRows(enc, tables[0].rows);
    if row in WrittenRows(enc, tables[0].rows) {
      r := WrittenRow(enc, tables[0].rows, row);
      i := 0;
    } else {
      assert all[1..] == WrittenTables(enc, tables[1..]);
      i, r := AllRowsListed(enc, tables[1..], row);
      i := i + 1;
    }
  }

  lemma ImportedRowsAreFinal(s: Snapshot, enc: Encoding, row: Store.PreparedRow)
    requires row in Store.AllRows(WrittenTables(enc, Import(s)))
    ensures FromFinal(s, enc, row)
  {
    var i, r := AllRowsListed(enc, Import(s), row);
    TablesAreInOrder(AllTables(s), |TARGET_ORDER|);
    AllTablesAre(s, Import(s)[i].name);
    assert r in Final(s, Import(s)[i].name);
  }

  lemma {:induction false} RowsFromAre(rows: seq<Store.PreparedRow>, source: string, row: Store.PreparedRow)
    requires row in Store.RowsFrom(rows, source)
    ensures row in rows && row.sourceTable == source
  {
    if rows[0] != row || row.sourceTable != source {
      RowsFromAre(rows[1..], source, row);
    }
  }

  function FirstNul(s: string): nat {
    if s == [] || s[0] == NUL then 0 else 1 + FirstNul(s[1..])
  }

  lemma {:induction false} FirstNulIsEnd(a: string, x: string)
    requires NUL !in a
    ensures FirstNul(a + [NUL] + x) == |a|
    decreases a
  {
    var s := a + [NUL] + x;
    if a != [] {
      assert s[1..] == a[1..] + [NUL] + x;
      FirstNulIsEnd(a[1..], x);
    }
  }

  /** Before its zero byte a sort key is the row's id. */
  lemma SortKeySplits(a: Store.PreparedRow, b: Store.PreparedRow)
    requires NUL !in a.id && NUL !in b.id && Store.SortKey(a) == Store.SortKey(b)
    ensures a.id == b.id && a.values == b.values
  {
    var x, y := Store.SortKey(a), Store.SortKey(b);
    FirstNulIsEnd(a.id, a.values);
    FirstNulIsEnd(b.id, b.values);
    assert a.id == x[..|a.id|] && b.id == y[..|b.id|];
    assert a.values == x[|a.id| + 1..] && b.values == y[|b.id| + 1..];
  }

  lemma ImportedRowsTellApart(s: Snapshot, enc: Encoding, a: Store.PreparedRow, b: Store.PreparedRow)
    requires Proper(enc) && FromFinal(s, enc, a) && FromFinal(s, enc, b)
    requires a.sourceTable == b.sourceTable && Store.SortKey(a) == Store.SortKey(b)
    ensures a == b
  {
    var t, x :| x in Final(s, t) && a == Written(enc, x);
    var u, y :| y in Final(s, u) && b == Written(enc, y);
    FinalKey(s, t, x);
    FinalKey(s, u, y);
    SortKeySplits(a, b);
    assert enc.key(x.id) == enc.key(y.id);
    KeyTellsSource(s, t, u, x, y);
  }

  /** No two rows that the importer makes of one source table share id and values, whatever the snapshot. */
  lemma ImportIsUnambiguous(s: Snapshot, enc: Encoding, source: string)
    requires Proper(enc)
    ensures Store.Unambiguous(Store.ManifestOf(WrittenTables(enc, Import(s)), source).content)
  {
    var rows := Store.RowsFrom(Store.AllRows(WrittenTables(enc, Import(s))), source);
    var content := Sort(rows, Store.SortKey);
    SortSorts(rows, Store.SortKey);
    forall a | a in content
      ensures FromFinal(s, enc, a) && a.sourceTable == source
    {
      assert a in multiset(content);
      RowsFromAre(Store.AllRows(WrittenTables(enc, Import(s))), source, a);
      ImportedRowsAreFinal(s, enc, a);
    }
    forall a, b | a in content && b in content && Store.SortKey(a) == Store.SortKey(b)
      ensures a == b
    {
      ImportedRowsTellApart(s, enc, a, b);
    }
  }

  /** So the import that is planned from a snapshot is consistent with its own manifest. */
  lemma PlannedIsConsistent(s: Snapshot, enc: Encoding, m: Store.Manifest, sources: seq<string>)
    requires Proper(enc) && m.tables == Store.ManifestsOf(WrittenTables(enc, Import(s)), sources)
    ensures Consistent(Store.PreparedImport(m, WrittenTables(enc, Import(s))))
  {
    forall t | t in m.tables
      ensures t == Store.ManifestOf(WrittenTables(enc, Import(s)), t.sourceTable) && Store.Unambiguous(t.content)
    {
      ImportIsUnambiguous(s, enc, t.sourceTable);
    }
  }

  method WriteTables(enc: Encoding, tables: seq<PreparedTable>) returns (written: seq<Store.PreparedTable>)
    ensures written == WrittenTables(enc, tables)
  {
    written := [];
    var i := 0;
    while i < |tables|
      invariant 0 <= i <= |tables| && written == WrittenTables(enc, tables)[..i]
    {
      written := written + [Store.PreparedTable(enc.target(tables[i].name), WrittenRows(enc, tables[i].rows))];
      i := i + 1;
    }
  }

  /** The import that is planned from a snapshot under a manifest header. */
  method Plan(s: Snapshot, enc: Encoding, header: Store.Manifest, sources: seq<string>)
    returns (p: Store.PreparedImport)
    requires Proper(enc)
    ensures Consistent(p) && p.tables == WrittenTables(enc, Import(s))
    ensures p.manifest == header.(tables := Store.ManifestsOf(p.tables, sources))
  {
    var tables := TransformSnapshot(s);
    var written := WriteTables(enc, tables);
    var manifests := Store.BuildTableManifests(written, sources);
    p := Store.PreparedImport(header.(tables := manifests), written);
    PlannedIsConsistent(s, enc, p.manifest, sources);
  }

  /**
   Plan, apply and verify agree: what is planned from a snapshot is applied whenever nothing stands in its way, and
   what is applied verifies.
   */
  method PlanApplyVerify(file: StateFile, s: Snapshot, enc: Encoding, header: Store.Manifest, sources: seq<string>)
    returns (applied: bool, verified: bool)
    requires Proper(enc) && !header.blocked && !file.locked && Owned(file.content)
    modifies file
    ensures var m := header.(tables := Store.ManifestsOf(WrittenTables(enc, Import(s)), sources));
            applied <==> Store.Applied(old(file.content), Store.PreparedImport(m, WrittenTables(enc, Import(s)))).Some?
    ensures applied ==> verified
  {
    var approved := Plan(s, enc, header, sources);
    var replanned := Plan(s, enc, header, sources);
    applied, verified := ApplyThenVerify(file, approved.manifest, replanned);
  }
}
