/**
 * What the writer emits, as functions of the two snapshots: the lines of each migration
 * body (DropTables, DropCode, CreateTable, UpdateTable) and the sequence of migration
 * units. The writer class is proved to produce exactly these.
 */
module Plan {
  import opened Wrappers
  import opened Text
  import opened Seqs
  import opened Schema
  import opened TypeMap
  import opened Signatures
  import opened Diff

  // ---------------------------------------------------------------------------------------
  // The name -> code dictionaries of UpdateTable

  function ColumnNameOf(c: ColumnDefinition): string { c.name }
  function IndexNameOf(ix: IndexDefinition): string { ix.name }
  function ForeignKeyNameOf(fk: ForeignKeyDefinition): string { fk.name }

  /** GetColumnCode as a value, for ToDictionary. */
  function ColumnCodeOf(opts: Options, ext: Extensions): ColumnDefinition -> string
  {
    c => ColumnCode(opts, ext, c)
  }

  function ColumnDictionary(opts: Options, ext: Extensions, cols: seq<ColumnDefinition>): (d: seq<Entry>)
    ensures Keys(d) == ColumnNames(cols)
  {
    ToDictionary(cols, ColumnNameOf, ColumnCodeOf(opts, ext))
  }

  function IndexDictionary(ixs: seq<IndexDefinition>): (d: seq<Entry>)
    ensures Keys(d) == IndexNames(ixs)
  {
    ToDictionary(ixs, IndexNameOf, IndexCode)
  }

  function ForeignKeyDictionary(fks: seq<ForeignKeyDefinition>): (d: seq<Entry>)
    ensures Keys(d) == ForeignKeyNames(fks)
  {
    ToDictionary(fks, ForeignKeyNameOf, ForeignKeyCode)
  }

  /** `Select(code => code.Replace("WithColumn", verb))`. */
  function Renamed(codes: seq<string>, verb: string): (r: seq<string>)
    ensures |r| == |codes|
    ensures forall i :: 0 <= i < |codes| ==> r[i] == ReplaceAll(codes[i], "WithColumn", verb)
  {
    if codes == [] then [] else [ReplaceAll(codes[0], "WithColumn", verb)] + Renamed(codes[1..], verb)
  }

  /**
   * The rewrite turns the `.WithColumn("` that opens every column code into `.<verb>("`;
   * the rest of the code is rewritten in the same scan.
   */
  lemma RenamedColumnOpens(opts: Options, ext: Extensions, col: ColumnDefinition, verb: string)
    ensures |ColumnCode(opts, ext, col)| >= |".WithColumn(\""|
      && ReplaceAll(ColumnCode(opts, ext, col), "WithColumn", verb)
         == "." + verb + "(\"" + ReplaceAll(ColumnCode(opts, ext, col)[|".WithColumn(\""|..], "WithColumn", verb)
  {
    ColumnCodeHead(opts, ext, col);
    RenamedOpening(ColumnCode(opts, ext, col), verb);
  }

  lemma RenamedOpening(c: string, verb: string)
    requires |c| >= |".WithColumn(\""| && c[..|".WithColumn(\""|] == ".WithColumn(\""
    ensures ReplaceAll(c, "WithColumn", verb) == "." + verb + "(\"" + ReplaceAll(c[|".WithColumn(\""|..], "WithColumn", verb)
  {
    var tail := c[|".WithColumn(\""|..];
    OpeningSplit(c);
    ReplaceAllSkip('.', "WithColumn" + (['('] + (['"'] + tail)), "WithColumn", verb);
    ReplaceAllHead("WithColumn", verb, ['('] + (['"'] + tail));
    ReplaceAllSkip('(', ['"'] + tail, "WithColumn", verb);
    ReplaceAllSkip('"', tail, "WithColumn", verb);
    OpeningJoin(verb, ReplaceAll(tail, "WithColumn", verb));
  }

  lemma OpeningSplit(c: string)
    requires |c| >= |".WithColumn(\""| && c[..|".WithColumn(\""|] == ".WithColumn(\""
    ensures c == ['.'] + ("WithColumn" + (['('] + (['"'] + c[|".WithColumn(\""|..])))
  {
    assert c == c[..|".WithColumn(\""|] + c[|".WithColumn(\""|..];
  }

  lemma OpeningJoin(verb: string, r: string)
    ensures ['.'] + (verb + (['('] + (['"'] + r))) == "." + verb + "(\"" + r
  {
  }

  function RemoveColumnCodes(t: TableDefinition, names: seq<string>): (r: seq<string>)
    ensures |r| == |names| && forall i :: 0 <= i < |names| ==> r[i] == RemoveColumnCode(t, names[i])
  {
    seq(|names|, i requires 0 <= i < |names| => RemoveColumnCode(t, names[i]))
  }

  function RemoveIndexCodes(t: TableDefinition, names: seq<string>): (r: seq<string>)
    ensures |r| == |names| && forall i :: 0 <= i < |names| ==> r[i] == RemoveIndexCode(t, names[i])
  {
    seq(|names|, i requires 0 <= i < |names| => RemoveIndexCode(t, names[i]))
  }

  function RemoveForeignKeyCodes(t: TableDefinition, names: seq<string>): (r: seq<string>)
    ensures |r| == |names| && forall i :: 0 <= i < |names| ==> r[i] == RemoveForeignKeyCode(t, names[i])
  {
    seq(|names|, i requires 0 <= i < |names| => RemoveForeignKeyCode(t, names[i]))
  }

  // ---------------------------------------------------------------------------------------
  // UpdateTable

  /** The three pairs of dictionaries UpdateTable compares. */
  datatype Dictionaries = Dictionaries(
    oldColumns: seq<Entry>, newColumns: seq<Entry>,
    oldIndexes: seq<Entry>, newIndexes: seq<Entry>,
    oldForeignKeys: seq<Entry>, newForeignKeys: seq<Entry>)

  function TableDictionaries(opts: Options, ext: Extensions, before: TableDefinition, after: TableDefinition): Dictionaries
  {
    Dictionaries(
      ColumnDictionary(opts, ext, before.columns), ColumnDictionary(opts, ext, after.columns),
      IndexDictionary(NonColumnIndexes(before)), IndexDictionary(NonColumnIndexes(after)),
      ForeignKeyDictionary(before.foreignKeys), ForeignKeyDictionary(after.foreignKeys))
  }

  /** The seven groups of code UpdateTable writes, in emission order. */
  datatype UpdateGroups = UpdateGroups(
    addedColumns: seq<string>,
    addedIndexes: seq<string>,
    addedForeignKeys: seq<string>,
    updatedColumns: seq<string>,
    removedForeignKeys: seq<string>,
    removedIndexes: seq<string>,
    removedColumns: seq<string>)

  /**
   * The groups of one table update. An updated index or foreign key is both added (its new
   * code) and removed (by name). Index and foreign key removals name the old table, column
   * removals the new one.
   */
  function Groups(before: TableDefinition, after: TableDefinition, d: Dictionaries): UpdateGroups
  {
    UpdateGroups(
      Renamed(GetAdded(d.oldColumns, d.newColumns), "AddColumn"),
      GetAdded(d.oldIndexes, d.newIndexes) + GetUpdated(d.oldIndexes, d.newIndexes),
      GetAdded(d.oldForeignKeys, d.newForeignKeys) + GetUpdated(d.oldForeignKeys, d.newForeignKeys),
      Renamed(GetUpdated(d.oldColumns, d.newColumns), "AlterColumn"),
      RemoveForeignKeyCodes(before, GetRemovedKeys(d.oldForeignKeys, d.newForeignKeys) + GetUpdatedKeys(d.oldForeignKeys, d.newForeignKeys)),
      RemoveIndexCodes(before, GetRemovedKeys(d.oldIndexes, d.newIndexes) + GetUpdatedKeys(d.oldIndexes, d.newIndexes)),
      RemoveColumnCodes(after, GetRemovedKeys(d.oldColumns, d.newColumns)))
  }

  function AlterTableHeader(t: TableDefinition): string
  {
    "Alter.Table(\"" + t.name + "\").InSchema(\"" + t.schemaName + "\")"
  }

  /** The lines with `suffix` appended to the last one (WriteLines with appendLastLine). */
  function AppendLast(lines: seq<string>, suffix: string): (r: seq<string>)
    requires lines != []
    ensures |r| == |lines|
  {
    lines[..|lines| - 1] + [lines[|lines| - 1] + suffix]
  }

  /** AlterTable: nothing for no changes, else the Alter.Table line and the changes, the last ending in `;`. */
  function AlterTableLines(t: TableDefinition, changes: seq<string>): seq<string>
  {
    if changes == [] then [] else [AlterTableHeader(t)] + AppendLast(changes, ";")
  }

  /** WriteChanges: nothing for no changes, else an empty line and the changes. */
  function ChangeLines(changes: seq<string>): seq<string>
  {
    if changes == [] then [] else [""] + changes
  }

  /** The seven blocks UpdateTable writes, in order. */
  function GroupBlocks(t: TableDefinition, g: UpdateGroups): seq<seq<string>>
  {
    [ AlterTableLines(t, g.addedColumns),
      ChangeLines(g.addedIndexes),
      ChangeLines(g.addedForeignKeys),
      AlterTableLines(t, g.updatedColumns),
      ChangeLines(g.removedForeignKeys),
      ChangeLines(g.removedIndexes),
      ChangeLines(g.removedColumns) ]
  }

  function GroupLines(t: TableDefinition, g: UpdateGroups): seq<string>
  {
    Concat(GroupBlocks(t, g))
  }

  /** The lines UpdateTable writes for a table present in both snapshots. */
  function UpdateTableLines(opts: Options, ext: Extensions, before: TableDefinition, after: TableDefinition): seq<string>
  {
    GroupLines(after, Groups(before, after, TableDictionaries(opts, ext, before, after)))
  }

  /** The three comparisons found nothing. */
  predicate Unchanged(d: Dictionaries)
  {
    NoChanges(d.oldColumns, d.newColumns)
    && NoChanges(d.oldIndexes, d.newIndexes)
    && NoChanges(d.oldForeignKeys, d.newForeignKeys)
  }

  /** UpdateTable writes nothing exactly when no column, index or foreign key was added, updated or removed. */
  lemma UpdateTableSilent(opts: Options, ext: Extensions, before: TableDefinition, after: TableDefinition)
    ensures UpdateTableLines(opts, ext, before, after) == [] <==> Unchanged(TableDictionaries(opts, ext, before, after))
  {
    GroupsSilent(before, after, TableDictionaries(opts, ext, before, after));
  }

  lemma GroupsSilent(before: TableDefinition, after: TableDefinition, d: Dictionaries)
    ensures GroupLines(after, Groups(before, after, d)) == [] <==> Unchanged(d)
  {
    var g := Groups(before, after, d);
    BlocksSilent(after, g);
    assert |GetUpdatedKeys(d.oldIndexes, d.newIndexes)| == |GetUpdated(d.oldIndexes, d.newIndexes)|;
    assert |GetUpdatedKeys(d.oldForeignKeys, d.newForeignKeys)| == |GetUpdated(d.oldForeignKeys, d.newForeignKeys)|;
  }

  /** All seven groups are empty. */
  predicate EmptyGroups(g: UpdateGroups)
  {
    && g.addedColumns == [] && g.addedIndexes == [] && g.addedForeignKeys == []
    && g.updatedColumns == [] && g.removedForeignKeys == [] && g.removedIndexes == []
    && g.removedColumns == []
  }

  /** The blocks write nothing exactly when every group is empty. */
  lemma BlocksSilent(t: TableDefinition, g: UpdateGroups)
    ensures GroupLines(t, g) == [] <==> EmptyGroups(g)
  {
    var bs := GroupBlocks(t, g);
    ConcatEmpty(bs);
    if GroupLines(t, g) == [] {
      assert bs[0] == [] && bs[1] == [] && bs[2] == [] && bs[3] == [] && bs[4] == [] && bs[5] == [] && bs[6] == [];
    }
  }

  /** Position `i` of `lines` holds `x`. */
  predicate At(lines: seq<string>, i: int, x: string)
  {
    0 <= i < |lines| && lines[i] == x
  }

  /** Line `m1` of block `k1` comes before line `m2` of a later block `k2` of GroupLines. */
  lemma GroupOrder(t: TableDefinition, g: UpdateGroups, k1: nat, m1: nat, k2: nat, m2: nat)
    requires k1 < k2 < 7 && m1 < |GroupBlocks(t, g)[k1]| && m2 < |GroupBlocks(t, g)[k2]|
    ensures var bs := GroupBlocks(t, g);
      Pos(bs, k1, m1) < Pos(bs, k2, m2)
      && At(GroupLines(t, g), Pos(bs, k1, m1), bs[k1][m1])
      && At(GroupLines(t, g), Pos(bs, k2, m2), bs[k2][m2])
  {
    BlockOrder(GroupBlocks(t, g), k1, m1, k2, m2);
  }

  /** An updated entry's new code is among the added codes of its kind, at position `a`. */
  lemma UpdatedCodeListed(before: seq<Entry>, after: seq<Entry>, e: Entry) returns (a: nat)
    requires e in UpdatedEntries(before, after)
    ensures a < |GetAdded(before, after) + GetUpdated(before, after)|
    ensures (GetAdded(before, after) + GetUpdated(before, after))[a] == e.code
  {
    var u := UpdatedEntries(before, after);
    var k :| 0 <= k < |u| && u[k] == e;
    var ad, up := GetAdded(before, after), GetUpdated(before, after);
    assert up == Codes(u) && up[k] == e.code;
    a := |ad| + k;
    assert (ad + up)[a] == up[k];
  }

  /** An updated entry's key is among the removed keys of its kind, at position `b`. */
  lemma UpdatedKeyListed(before: seq<Entry>, after: seq<Entry>, e: Entry) returns (b: nat)
    requires e in UpdatedEntries(before, after)
    ensures b < |GetRemovedKeys(before, after) + GetUpdatedKeys(before, after)|
    ensures (GetRemovedKeys(before, after) + GetUpdatedKeys(before, after))[b] == e.key
  {
    var u := UpdatedEntries(before, after);
    var k :| 0 <= k < |u| && u[k] == e;
    var r, uk := GetRemovedKeys(before, after), GetUpdatedKeys(before, after);
    assert uk == Keys(u) && uk[k] == e.key;
    b := |r| + k;
    assert (r + uk)[b] == uk[k];
  }

  /**
   * An updated index is dropped and re-created: its new Create.Index code comes in the
   * added-index group and its Delete.Index line, naming the old table, in the removed-index
   * group, later.
   */
  lemma UpdatedIndexReplaced(before: TableDefinition, after: TableDefinition, d: Dictionaries, e: Entry)
    requires e in UpdatedEntries(d.oldIndexes, d.newIndexes)
    ensures exists i, j :: (i < j && At(GroupLines(after, Groups(before, after, d)), i, e.code)
      && At(GroupLines(after, Groups(before, after, d)), j, RemoveIndexCode(before, e.key)))
  {
    var g := Groups(before, after, d);
    var a := UpdatedCodeListed(d.oldIndexes, d.newIndexes, e);
    var b := UpdatedKeyListed(d.oldIndexes, d.newIndexes, e);
    var names := GetRemovedKeys(d.oldIndexes, d.newIndexes) + GetUpdatedKeys(d.oldIndexes, d.newIndexes);
    assert g.removedIndexes == RemoveIndexCodes(before, names);
    IndexPairOrder(after, g, a, b);
  }

  lemma IndexPairOrder(t: TableDefinition, g: UpdateGroups, a: nat, b: nat)
    requires a < |g.addedIndexes| && b < |g.removedIndexes|
    ensures exists i, j :: (i < j && At(GroupLines(t, g), i, g.addedIndexes[a]) && At(GroupLines(t, g), j, g.removedIndexes[b]))
  {
    GroupOrder(t, g, 1, 1 + a, 5, 1 + b);
    var bs := GroupBlocks(t, g);
    assert bs[1][1 + a] == g.addedIndexes[a] && bs[5][1 + b] == g.removedIndexes[b];
  }

  /**
   * An updated foreign key likewise: its new Create.ForeignKey code is added before its
   * Delete.ForeignKey line.
   */
  lemma UpdatedForeignKeyReplaced(before: TableDefinition, after: TableDefinition, d: Dictionaries, e: Entry)
    requires e in UpdatedEntries(d.oldForeignKeys, d.newForeignKeys)
    ensures exists i, j :: (i < j && At(GroupLines(after, Groups(before, after, d)), i, e.code)
      && At(GroupLines(after, Groups(before, after, d)), j, RemoveForeignKeyCode(before, e.key)))
  {
    var g := Groups(before, after, d);
    var a := UpdatedCodeListed(d.oldForeignKeys, d.newForeignKeys, e);
    var b := UpdatedKeyListed(d.oldForeignKeys, d.newForeignKeys, e);
    var names := GetRemovedKeys(d.oldForeignKeys, d.newForeignKeys) + GetUpdatedKeys(d.oldForeignKeys, d.newForeignKeys);
    assert g.removedForeignKeys == RemoveForeignKeyCodes(before, names);
    ForeignKeyPairOrder(after, g, a, b);
  }

  lemma ForeignKeyPairOrder(t: TableDefinition, g: UpdateGroups, a: nat, b: nat)
    requires a < |g.addedForeignKeys| && b < |g.removedForeignKeys|
    ensures exists i, j :: (i < j && At(GroupLines(t, g), i, g.addedForeignKeys[a]) && At(GroupLines(t, g), j, g.removedForeignKeys[b]))
  {
    GroupOrder(t, g, 2, 1 + a, 4, 1 + b);
    var bs := GroupBlocks(t, g);
    assert bs[2][1 + a] == g.addedForeignKeys[a] && bs[4][1 + b] == g.removedForeignKeys[b];
  }

  /**
   * Removals run in reverse order of additions: every foreign key removal precedes every
   * index removal, which precedes every column removal.
   */
  lemma RemovalOrder(t: TableDefinition, g: UpdateGroups, a: nat, b: nat, c: nat)
    requires a < |g.removedForeignKeys| && b < |g.removedIndexes| && c < |g.removedColumns|
    ensures exists i, j, k :: (i < j < k
      && At(GroupLines(t, g), i, g.removedForeignKeys[a])
      && At(GroupLines(t, g), j, g.removedIndexes[b])
      && At(GroupLines(t, g), k, g.removedColumns[c]))
  {
    var bs := GroupBlocks(t, g);
    assert bs[4][1 + a] == g.removedForeignKeys[a] && bs[5][1 + b] == g.removedIndexes[b] && bs[6][1 + c] == g.removedColumns[c];
    GroupOrder(t, g, 4, 1 + a, 5, 1 + b);
    GroupOrder(t, g, 5, 1 + b, 6, 1 + c);
  }

  /**
   * Additions come first: every added column (inside the first Alter.Table) precedes every
   * added index, which precedes every added foreign key, which precedes every updated column.
   */
  lemma AdditionOrder(t: TableDefinition, g: UpdateGroups, a: nat, b: nat, c: nat, u: nat)
    requires a < |g.addedColumns| && b < |g.addedIndexes| && c < |g.addedForeignKeys| && u < |g.updatedColumns|
    ensures exists h, i, j, k :: (h < i < j < k
      && At(GroupLines(t, g), h, AppendLast(g.addedColumns, ";")[a])
      && At(GroupLines(t, g), i, g.addedIndexes[b])
      && At(GroupLines(t, g), j, g.addedForeignKeys[c])
      && At(GroupLines(t, g), k, AppendLast(g.updatedColumns, ";")[u]))
  {
    var bs := GroupBlocks(t, g);
    assert bs[0][1 + a] == AppendLast(g.addedColumns, ";")[a] && bs[1][1 + b] == g.addedIndexes[b];
    assert bs[2][1 + c] == g.addedForeignKeys[c] && bs[3][1 + u] == AppendLast(g.updatedColumns, ";")[u];
    GroupOrder(t, g, 0, 1 + a, 1, 1 + b);
    GroupOrder(t, g, 1, 1 + b, 2, 1 + c);
    GroupOrder(t, g, 2, 1 + c, 3, 1 + u);
  }

  // ---------------------------------------------------------------------------------------
  // DropTables

  /** Every name has a rank: the dictionary lookup of the source fails on a missing one. */
  predicate Ranked(names: seq<string>, rank: map<string, int>)
  {
    forall n :: n in names ==> n in rank
  }

  /** `t => -rank[t]`: OrderBy over it sorts by descending rank. */
  function DescendingRank(rank: map<string, int>): string -> int
  {
    (t: string) => if t in rank then -rank[t] else 0
  }

  /** The tables of the old snapshot missing from the new one, most dependent first. */
  function DroppedTableNames(db1: Snapshot, db2: Snapshot): seq<string>
  {
    OrderBy(Except(TableNames(db1.tables), TableNames(db2.tables)), DescendingRank(db1.fkDependencyOrder(false)))
  }

  /**
   * The dropped tables are exactly the old-minus-new table names, each once, in descending
   * order of their dependency rank.
   */
  lemma DroppedTables(db1: Snapshot, db2: Snapshot)
    requires Ranked(Except(TableNames(db1.tables), TableNames(db2.tables)), db1.fkDependencyOrder(false))
    ensures forall n :: n in DroppedTableNames(db1, db2) <==> n in TableNames(db1.tables) && n !in TableNames(db2.tables)
    ensures Distinct(DroppedTableNames(db1, db2))
    ensures var r, rank := DroppedTableNames(db1, db2), db1.fkDependencyOrder(false);
      forall i, j :: 0 <= i < j < |r| ==> r[i] in rank && r[j] in rank && rank[r[i]] >= rank[r[j]]
  {
    var rank := db1.fkDependencyOrder(false);
    var e := Except(TableNames(db1.tables), TableNames(db2.tables));
    ExceptIsDifference(TableNames(db1.tables), TableNames(db2.tables));
    OrderByElements(e, DescendingRank(rank));
    OrderByDistinct(e, DescendingRank(rank));
    var r := DroppedTableNames(db1, db2);
    forall i, j | 0 <= i < j < |r| ensures r[i] in rank && r[j] in rank && rank[r[i]] >= rank[r[j]] {
      assert r[i] in r && r[j] in r;
      assert DescendingRank(rank)(r[i]) <= DescendingRank(rank)(r[j]);
    }
  }

  /** The delete line as the source writes it, naming the referenced table instead of the owner. */
  function DropForeignKeyLineAsWritten(fk: ForeignKeyDefinition): string
  {
    "Delete.ForeignKey(\"" + fk.name + "\").OnTable(\"" + fk.primaryTable + "\").InSchema(\"" + fk.primaryTableSchema + "\");"
  }

  function DropTableLine(t: TableDefinition): string
  {
    "Delete.Table(\"" + t.name + "\").InSchema(\"" + t.schemaName + "\");"
  }

  function DropForeignKeyLinesAsWritten(fks: seq<ForeignKeyDefinition>): (r: seq<string>)
    ensures |r| == |fks| && forall i :: 0 <= i < |fks| ==> r[i] == DropForeignKeyLineAsWritten(fks[i])
  {
    seq(|fks|, i requires 0 <= i < |fks| => DropForeignKeyLineAsWritten(fks[i]))
  }

  /** One dropped table, as DropTables writes it: a delete line per foreign key, then the table delete. */
  function TableDropLines(t: TableDefinition): seq<string>
  {
    DropForeignKeyLinesAsWritten(t.foreignKeys) + [DropTableLine(t)]
  }

  /** One dropped table with each foreign key delete naming the table that owns the key. */
  function TableDropLinesCorrected(t: TableDefinition): seq<string>
  {
    RemoveForeignKeyCodes(t, ForeignKeyNames(t.foreignKeys)) + [DropTableLine(t)]
  }

  /**
   * The two agree on a table whose foreign keys all reference the table itself and its schema;
   * they part as soon as a key references another table (DropForeignKeyAsWrittenNamesReferencedTable).
   */
  lemma DropLinesAgreeOnSelfReferences(t: TableDefinition)
    requires forall fk :: fk in t.foreignKeys ==> fk.primaryTable == t.name && fk.primaryTableSchema == t.schemaName
    ensures TableDropLines(t) == TableDropLinesCorrected(t)
  {
    var a := DropForeignKeyLinesAsWritten(t.foreignKeys);
    var c := RemoveForeignKeyCodes(t, ForeignKeyNames(t.foreignKeys));
    forall i | 0 <= i < |a| ensures a[i] == c[i] {
      assert t.foreignKeys[i] in t.foreignKeys;
    }
  }

  function DropBlocks(ts: seq<TableDefinition>): (r: seq<seq<string>>)
    ensures |r| == |ts| && forall i :: 0 <= i < |ts| ==> r[i] == TableDropLines(ts[i])
  {
    seq(|ts|, i requires 0 <= i < |ts| => TableDropLines(ts[i]))
  }

  /** The tables DropTables visits, in drop order. */
  function TablesToDrop(db1: Snapshot, db2: Snapshot): seq<TableDefinition>
  {
    GetTables(db1.tables, DroppedTableNames(db1, db2))
  }

  /** The body of the DropTables migration. */
  function DropTablesLines(db1: Snapshot, db2: Snapshot): seq<string>
  {
    Concat(DropBlocks(TablesToDrop(db1, db2)))
  }

  /** With every name present, GetTables returns one table per name, in the order of the names. */
  lemma {:induction false} GetTablesInOrder(ts: seq<TableDefinition>, names: seq<string>)
    requires forall n :: n in names ==> n in TableNames(ts)
    ensures TableNames(GetTables(ts, names)) == names
  {
    if names != [] {
      GetTablesInOrder(ts, names[1..]);
      var t := FindTable(ts, names[0]).value;
      assert GetTables(ts, names) == [t] + GetTables(ts, names[1..]);
    }
  }

  /** DropTables visits exactly the dropped tables, in drop order. */
  lemma DroppedTablesInOrder(db1: Snapshot, db2: Snapshot)
    requires Ranked(Except(TableNames(db1.tables), TableNames(db2.tables)), db1.fkDependencyOrder(false))
    ensures TableNames(TablesToDrop(db1, db2)) == DroppedTableNames(db1, db2)
  {
    DroppedTables(db1, db2);
    GetTablesInOrder(db1.tables, DroppedTableNames(db1, db2));
  }

  /** For each dropped table, each of its foreign key deletes comes before its table delete. */
  lemma ForeignKeysDroppedFirst(db1: Snapshot, db2: Snapshot, i: nat, m: nat)
    requires i < |TablesToDrop(db1, db2)| && m < |TablesToDrop(db1, db2)[i].foreignKeys|
    ensures var t := TablesToDrop(db1, db2)[i]; var bs := DropBlocks(TablesToDrop(db1, db2));
      Pos(bs, i, m) < Pos(bs, i, |t.foreignKeys|)
      && At(DropTablesLines(db1, db2), Pos(bs, i, m), DropForeignKeyLineAsWritten(t.foreignKeys[m]))
      && At(DropTablesLines(db1, db2), Pos(bs, i, |t.foreignKeys|), DropTableLine(t))
  {
    var t := TablesToDrop(db1, db2)[i];
    var bs := DropBlocks(TablesToDrop(db1, db2));
    assert bs[i][m] == DropForeignKeyLineAsWritten(t.foreignKeys[m]);
    assert bs[i][|t.foreignKeys|] == DropTableLine(t);
    ConcatAt(bs, i, m);
    ConcatAt(bs, i, |t.foreignKeys|);
  }

  /**
   * As written, dropping table Orders deletes its foreign key "on" the referenced table
   * Customers: the line is three characters longer than the one naming the owner.
   */
  lemma DropForeignKeyAsWrittenNamesReferencedTable()
    ensures var fk := ForeignKeyDefinition("FK_Orders_Customers", "Orders", ["CustomerId"], "Customers", "dbo", ["Id"], RuleNone, RuleNone);
      var t := TableDefinition("dbo", "Orders", [], [], [fk]);
      DropForeignKeyLineAsWritten(fk) != RemoveForeignKeyCode(t, fk.name)
  {
    var fk := ForeignKeyDefinition("FK_Orders_Customers", "Orders", ["CustomerId"], "Customers", "dbo", ["Id"], RuleNone, RuleNone);
    var t := TableDefinition("dbo", "Orders", [], [], [fk]);
    assert |DropForeignKeyLineAsWritten(fk)| - |fk.primaryTable| == |RemoveForeignKeyCode(t, fk.name)| - |t.name|;
  }

  /**
   * With the owning table named, the foreign key deletes of a dropped table are exactly the
   * removals UpdateTable writes when all of that table's foreign keys disappear.
   */
  lemma DropForeignKeysMatchUpdate(t: TableDefinition)
    ensures TableDropLinesCorrected(t)[..|t.foreignKeys|]
      == RemoveForeignKeyCodes(t, GetRemovedKeys(ForeignKeyDictionary(t.foreignKeys), []) + GetUpdatedKeys(ForeignKeyDictionary(t.foreignKeys), []))
  {
    var d := ForeignKeyDictionary(t.foreignKeys);
    RemovedAgainstEmpty(d);
    assert UpdatedEntries(d, []) == [];
    assert GetRemovedKeys(d, []) + GetUpdatedKeys(d, []) == ForeignKeyNames(t.foreignKeys);
    var r := RemoveForeignKeyCodes(t, ForeignKeyNames(t.foreignKeys));
    assert (r + [DropTableLine(t)])[..|t.foreignKeys|] == r;
  }

  // ---------------------------------------------------------------------------------------
  // DropCode

  /** `<call>("<name>");` for each name. */
  function DeleteLines(call: string, names: seq<string>): (r: seq<string>)
    ensures |r| == |names| && forall i :: 0 <= i < |names| ==> r[i] == call + "(\"" + names[i] + "\");"
  {
    seq(|names|, i requires 0 <= i < |names| => call + "(\"" + names[i] + "\");")
  }

  /** The code objects DropCode removes: procedures, views, functions, types. */
  function DroppedCode(db1: Snapshot, db2: Snapshot): seq<seq<string>>
  {
    [ Except(db1.storedProcedures, db2.storedProcedures),
      Except(db1.views, db2.views),
      Except(db1.userDefinedFunctions, db2.userDefinedFunctions),
      Except(db1.userDefinedDataTypes, db2.userDefinedDataTypes) ]
  }

  const DeleteCalls: seq<string> := ["DeleteStoredProcedure", "DeleteView", "DeleteFunction", "DeleteType"]

  function DropCodeBlocks(db1: Snapshot, db2: Snapshot): (r: seq<seq<string>>)
    ensures |r| == 4
  {
    var names := DroppedCode(db1, db2);
    seq(4, k requires 0 <= k < 4 => DeleteLines(DeleteCalls[k], names[k]))
  }

  /** The body of the DropCode migration. */
  function DropCodeLines(db1: Snapshot, db2: Snapshot): seq<string>
  {
    Concat(DropCodeBlocks(db1, db2))
  }

  /** The kind-`k` names of a snapshot (`k` indexes DeleteCalls). */
  function CodeNames(db: Snapshot, k: nat): seq<string>
    requires k < 4
  {
    [db.storedProcedures, db.views, db.userDefinedFunctions, db.userDefinedDataTypes][k]
  }

  /**
   * DropCode deletes, for each kind of code object, exactly the names of the old snapshot
   * missing from the new one, each once, and every kind before the next.
   */
  lemma DropCodeExact(db1: Snapshot, db2: Snapshot, k: nat)
    requires k < 4
    ensures Distinct(DroppedCode(db1, db2)[k])
    ensures forall n :: n in DroppedCode(db1, db2)[k] <==> n in CodeNames(db1, k) && n !in CodeNames(db2, k)
    ensures DropCodeBlocks(db1, db2)[k] == DeleteLines(DeleteCalls[k], DroppedCode(db1, db2)[k])
  {
    ExceptIsDifference(CodeNames(db1, k), CodeNames(db2, k));
  }

  /** Every delete of an earlier kind precedes every delete of a later kind. */
  lemma DropCodeKindOrder(db1: Snapshot, db2: Snapshot, k1: nat, m1: nat, k2: nat, m2: nat)
    requires k1 < k2 < 4 && m1 < |DroppedCode(db1, db2)[k1]| && m2 < |DroppedCode(db1, db2)[k2]|
    ensures var bs := DropCodeBlocks(db1, db2); var names := DroppedCode(db1, db2);
      Pos(bs, k1, m1) < Pos(bs, k2, m2)
      && At(DropCodeLines(db1, db2), Pos(bs, k1, m1), DeleteCalls[k1] + "(\"" + names[k1][m1] + "\");")
      && At(DropCodeLines(db1, db2), Pos(bs, k2, m2), DeleteCalls[k2] + "(\"" + names[k2][m2] + "\");")
  {
    BlockOrder(DropCodeBlocks(db1, db2), k1, m1, k2, m2);
  }

  // ---------------------------------------------------------------------------------------
  // CreateTable

  function CreateTableHeader(t: TableDefinition): string
  {
    "Create.Table(\"" + t.name + "\").InSchema(\"" + t.schemaName + "\")"
  }

  /** Column `i`'s line of CreateTable: its code, the last one ending the statement with `;`. */
  function ColumnLine(opts: Options, ext: Extensions, cols: seq<ColumnDefinition>, i: nat): string
    requires i < |cols|
  {
    if i == |cols| - 1 then ColumnCode(opts, ext, cols[i]) + ";" else ColumnCode(opts, ext, cols[i])
  }

  function ColumnLines(opts: Options, ext: Extensions, cols: seq<ColumnDefinition>): (r: seq<string>)
    ensures |r| == |cols| && forall i :: 0 <= i < |cols| ==> r[i] == ColumnLine(opts, ext, cols, i)
  {
    seq(|cols|, i requires 0 <= i < |cols| => ColumnLine(opts, ext, cols, i))
  }

  function IndexCodes(ixs: seq<IndexDefinition>): (r: seq<string>)
    ensures |r| == |ixs| && forall i :: 0 <= i < |ixs| ==> r[i] == IndexCode(ixs[i])
  {
    seq(|ixs|, i requires 0 <= i < |ixs| => IndexCode(ixs[i]))
  }

  function ForeignKeyCodes(fks: seq<ForeignKeyDefinition>): (r: seq<string>)
    ensures |r| == |fks| && forall i :: 0 <= i < |fks| ==> r[i] == ForeignKeyCode(fks[i])
  {
    seq(|fks|, i requires 0 <= i < |fks| => ForeignKeyCode(fks[i]))
  }

  /**
   * The body of a Create_ migration: the Create.Table statement with one line per column, an
   * empty line, the indexes no column declares, then the foreign keys.
   */
  function CreateTableLines(opts: Options, ext: Extensions, t: TableDefinition): seq<string>
  {
    [CreateTableHeader(t)] + ColumnLines(opts, ext, t.columns) + [""]
    + IndexCodes(NonColumnIndexes(t)) + ForeignKeyCodes(t.foreignKeys)
  }

  // ---------------------------------------------------------------------------------------
  // Migration units

  /** A migration class before it is numbered: its name, Up body and optional Down body. */
  datatype Body = Body(name: string, up: seq<string>, down: Option<seq<string>>)

  const CantUndoLines: seq<string> := ["throw new Exception(\"Cannot undo this database upgrade\");"]

  /** `t => rank[t.Name]`: OrderBy over it sorts by ascending rank. */
  function AscendingRank(rank: map<string, int>): TableDefinition -> int
  {
    (t: TableDefinition) => if t.name in rank then rank[t.name] else 0
  }

  /** The new snapshot's tables, least dependent first. */
  function TablesInFkOrder(db2: Snapshot): seq<TableDefinition>
  {
    OrderBy(db2.tables, AscendingRank(db2.fkDependencyOrder(true)))
  }

  /**
   * What CreateUpdateTables emits for one new table: an Update_ class when the old snapshot
   * has the table and the update buffer is not empty (its text split back into lines leaves a
   * final empty line), nothing when it is empty, and a Create_ class otherwise.
   */
  function TableBodies(opts: Options, ext: Extensions, db1: Snapshot, t: TableDefinition): seq<Body>
  {
    match FindTable(db1.tables, t.name)
    case Some(before) => UpdateBodies(t.name, UpdateTableLines(opts, ext, before, t))
    case None => CreateBodies(opts, ext, t)
  }

  /**
   * What UpdateTable demands of table `t` of the new snapshot: when the old snapshot has a
   * table of that name, both versions are well-formed.
   */
  predicate TableUpdatable(db1: Snapshot, t: TableDefinition)
  {
    match FindTable(db1.tables, t.name)
    case Some(before) => WellFormedTable(before) && WellFormedTable(t)
    case None => true
  }

  /** The Update_ class of table `name` with these update lines, unless its buffer is empty. */
  function UpdateBodies(name: string, updates: seq<string>): seq<Body>
  {
    if |BufferText(updates)| > 0 then [Body("Update_" + name, updates + [""], None)] else []
  }

  /** The Create_ class of a table only the new snapshot has. */
  function CreateBodies(opts: Options, ext: Extensions, t: TableDefinition): seq<Body>
  {
    [Body("Create_" + t.name, CreateTableLines(opts, ext, t), None)]
  }

  function CreateUpdateBlocks(opts: Options, ext: Extensions, db1: Snapshot, db2: Snapshot): (r: seq<seq<Body>>)
    ensures |r| == |TablesInFkOrder(db2)|
    ensures forall i :: 0 <= i < |r| ==> r[i] == TableBodies(opts, ext, db1, TablesInFkOrder(db2)[i])
  {
    var ts := TablesInFkOrder(db2);
    seq(|ts|, i requires 0 <= i < |ts| => TableBodies(opts, ext, db1, ts[i]))
  }

  function CreateUpdateBodies(opts: Options, ext: Extensions, db1: Snapshot, db2: Snapshot): seq<Body>
  {
    Concat(CreateUpdateBlocks(opts, ext, db1, db2))
  }

  /** WriteMigrations: DropTables and DropCode, always, then the per-table classes. */
  function MigrationBodies(opts: Options, ext: Extensions, db1: Snapshot, db2: Snapshot): seq<Body>
  {
    [ Body("DropTables", DropTablesLines(db1, db2), Some(CantUndoLines)),
      Body("DropCode", DropCodeLines(db1, db2), Some(CantUndoLines)) ]
    + CreateUpdateBodies(opts, ext, db1, db2)
  }

  /** A written migration class. */
  datatype Unit = Unit(order: nat, className: string, baseClass: string, up: seq<string>, down: Option<seq<string>>)

  /** `M{order,4:D4}0_{name}`. */
  function ClassName(order: nat, name: string): string
  {
    "M" + ZeroPad4(order) + "0_" + name
  }

  /** A class without a Down method reverses itself automatically. */
  function BaseClass(down: Option<seq<string>>): string
  {
    if down.None? then "AutoReversingMigrationExt" else "MigrationExt"
  }

  function MakeUnit(order: nat, b: Body): Unit
  {
    Unit(order, ClassName(order, b.name), BaseClass(b.down), b.up, b.down)
  }

  /** The bodies written as classes numbered from `start + 1` on. */
  function Numbered(start: nat, bs: seq<Body>): (r: seq<Unit>)
    ensures |r| == |bs| && forall i :: 0 <= i < |bs| ==> r[i] == MakeUnit(start + i + 1, bs[i])
  {
    seq(|bs|, i requires 0 <= i < |bs| => MakeUnit(start + i + 1, bs[i]))
  }

  /**
   * Each table of the new snapshot yields at most one class: Create_ when the old snapshot
   * lacks it; Update_ when the old snapshot has it and something changed; nothing otherwise.
   */
  lemma TableBodiesCases(opts: Options, ext: Extensions, db1: Snapshot, t: TableDefinition)
    ensures FindTable(db1.tables, t.name).None? ==>
      TableBodies(opts, ext, db1, t) == [Body("Create_" + t.name, CreateTableLines(opts, ext, t), None)]
    ensures FindTable(db1.tables, t.name).Some? ==>
      var before := FindTable(db1.tables, t.name).value;
      (TableBodies(opts, ext, db1, t) == [] <==> Unchanged(TableDictionaries(opts, ext, before, t)))
      && (TableBodies(opts, ext, db1, t) != [] ==>
            TableBodies(opts, ext, db1, t) == [Body("Update_" + t.name, UpdateTableLines(opts, ext, before, t) + [""], None)])
  {
    if FindTable(db1.tables, t.name).Some? {
      var before := FindTable(db1.tables, t.name).value;
      BufferTextEmpty(UpdateTableLines(opts, ext, before, t));
      UpdateTableSilent(opts, ext, before, t);
    }
  }

  /** Every table before a later one has a rank no higher. */
  predicate RankAscending(r: seq<TableDefinition>, rank: map<string, int>)
  {
    forall i, j :: 0 <= i < j < |r| ==> r[i].name in rank && r[j].name in rank && rank[r[i].name] <= rank[r[j].name]
  }

  /** Tables are created or updated in ascending rank, each exactly once. */
  lemma CreateUpdateOrder(db2: Snapshot)
    requires Ranked(TableNames(db2.tables), db2.fkDependencyOrder(true))
    ensures multiset(TablesInFkOrder(db2)) == multiset(db2.tables)
    ensures RankAscending(TablesInFkOrder(db2), db2.fkDependencyOrder(true))
  {
    var rank := db2.fkDependencyOrder(true);
    var r := TablesInFkOrder(db2);
    assert multiset(r) == multiset(db2.tables) && SortedBy(r, AscendingRank(rank));
    SortedIsRanked(db2.tables, rank, r);
  }

  lemma SortedIsRanked(ts: seq<TableDefinition>, rank: map<string, int>, r: seq<TableDefinition>)
    requires Ranked(TableNames(ts), rank)
    requires multiset(r) == multiset(ts) && SortedBy(r, AscendingRank(rank))
    ensures RankAscending(r, rank)
  {
    forall i, j | 0 <= i < j < |r| ensures r[i].name in rank && r[j].name in rank && rank[r[i].name] <= rank[r[j].name] {
      assert r[i] in multiset(ts) && r[j] in multiset(ts);
      assert r[i] in ts && r[j] in ts;
      NameOfMember(ts, r[i]);
      NameOfMember(ts, r[j]);
      assert r[i].name in rank && r[j].name in rank;
      assert AscendingRank(rank)(r[i]) <= AscendingRank(rank)(r[j]);
      assert AscendingRank(rank)(r[i]) == rank[r[i].name];
      assert AscendingRank(rank)(r[j]) == rank[r[j].name];
    }
  }

  lemma NameOfMember(ts: seq<TableDefinition>, t: TableDefinition)
    requires t in ts
    ensures t.name in TableNames(ts)
  {
    var i :| 0 <= i < |ts| && ts[i] == t;
    assert TableNames(ts)[i] == t.name;
  }

  /** Only the two drop classes have a Down method; every other class reverses itself. */
  lemma BaseClasses(opts: Options, ext: Extensions, db1: Snapshot, db2: Snapshot, start: nat, i: nat)
    requires i < |MigrationBodies(opts, ext, db1, db2)|
    ensures Numbered(start, MigrationBodies(opts, ext, db1, db2))[i].baseClass
      == if i < 2 then "MigrationExt" else "AutoReversingMigrationExt"
  {
    var bs := MigrationBodies(opts, ext, db1, db2);
    if i >= 2 {
      var c := CreateUpdateBodies(opts, ext, db1, db2);
      assert bs[i] == c[i - 2];
      CreateUpdateReversible(opts, ext, db1, db2, c[i - 2]);
    }
  }

  /** No Create_ or Update_ class has a Down method. */
  lemma CreateUpdateReversible(opts: Options, ext: Extensions, db1: Snapshot, db2: Snapshot, b: Body)
    requires b in CreateUpdateBodies(opts, ext, db1, db2)
    ensures b.down.None?
  {
    var blocks := CreateUpdateBlocks(opts, ext, db1, db2);
    var k, m := ConcatMember(blocks, b);
    var t := TablesInFkOrder(db2)[k];
    assert blocks[k] == TableBodies(opts, ext, db1, t);
    TableBodyReversible(opts, ext, db1, t, m);
  }

  /** Create_ and Update_ classes have no Down method. */
  lemma TableBodyReversible(opts: Options, ext: Extensions, db1: Snapshot, t: TableDefinition, m: nat)
    requires m < |TableBodies(opts, ext, db1, t)|
    ensures TableBodies(opts, ext, db1, t)[m].down.None?
  {
  }

  /** An element of a concatenation sits in one of its blocks. */
  lemma {:induction false} ConcatMember<T>(bs: seq<seq<T>>, x: T) returns (k: nat, m: nat)
    requires x in Concat(bs)
    ensures k < |bs| && m < |bs[k]| && bs[k][m] == x
  {
    var init := bs[..|bs| - 1];
    if x in Concat(init) {
      k, m := ConcatMember(init, x);
    } else {
      k := |bs| - 1;
      var c := Concat(init);
      var j :| 0 <= j < |Concat(bs)| && Concat(bs)[j] == x;
      m := j - |c|;
    }
  }

  // ---------------------------------------------------------------------------------------
  // Comparing a snapshot with itself

  /** A well-formed table compared with itself shows no change at all. */
  lemma SelfTableUnchanged(opts: Options, ext: Extensions, t: TableDefinition)
    requires WellFormedTable(t)
    ensures Unchanged(TableDictionaries(opts, ext, t, t))
  {
    var d := TableDictionaries(opts, ext, t, t);
    SelfDiff(d.oldColumns);
    SelfDiff(d.oldIndexes);
    SelfDiff(d.oldForeignKeys);
  }

  /** No table of a snapshot is dropped when it is compared with itself. */
  lemma NoTablesDropped(db: Snapshot)
    ensures DropTablesLines(db, db) == []
  {
    ExceptSelf(TableNames(db.tables));
    assert |DroppedTableNames(db, db)| == 0 by {
      var e := Except(TableNames(db.tables), TableNames(db.tables));
      assert multiset(OrderBy(e, DescendingRank(db.fkDependencyOrder(false)))) == multiset(e);
    }
    assert TablesToDrop(db, db) == [];
  }

  /** No code object of a snapshot is dropped when it is compared with itself. */
  lemma NoCodeDropped(db: Snapshot)
    ensures DropCodeLines(db, db) == []
  {
    ExceptSelf(db.storedProcedures);
    ExceptSelf(db.views);
    ExceptSelf(db.userDefinedFunctions);
    ExceptSelf(db.userDefinedDataTypes);
    var bs := DropCodeBlocks(db, db);
    forall k | 0 <= k < 4 ensures bs[k] == [] {
      assert DroppedCode(db, db)[k] == [];
    }
    ConcatEmpty(bs);
  }

  /** No table of a well-formed snapshot is created or updated when it is compared with itself. */
  lemma NoTablesChanged(opts: Options, ext: Extensions, db: Snapshot)
    requires WellFormed(db)
    ensures CreateUpdateBodies(opts, ext, db, db) == []
  {
    var blocks := CreateUpdateBlocks(opts, ext, db, db);
    var ts := TablesInFkOrder(db);
    OrderByElements(db.tables, AscendingRank(db.fkDependencyOrder(true)));
    forall k | 0 <= k < |blocks| ensures blocks[k] == [] {
      assert ts[k] in ts;
      var i :| 0 <= i < |db.tables| && db.tables[i] == ts[k];
      SelfTableSilent(opts, ext, db, i);
    }
    ConcatEmpty(blocks);
  }

  /** A table of a well-formed snapshot compared with itself yields no class. */
  lemma SelfTableSilent(opts: Options, ext: Extensions, db: Snapshot, i: nat)
    requires WellFormed(db) && i < |db.tables|
    ensures TableBodies(opts, ext, db, db.tables[i]) == []
  {
    FindTableOwnName(db.tables, i);
    SelfTableUnchanged(opts, ext, db.tables[i]);
    TableBodiesCases(opts, ext, db, db.tables[i]);
  }

  /**
   * Comparing a well-formed snapshot with itself writes only the two drop classes, both with
   * empty Up bodies.
   */
  lemma IdenticalSnapshots(opts: Options, ext: Extensions, db: Snapshot)
    requires WellFormed(db)
    ensures MigrationBodies(opts, ext, db, db)
      == [Body("DropTables", [], Some(CantUndoLines)), Body("DropCode", [], Some(CantUndoLines))]
  {
    NoTablesDropped(db);
    NoCodeDropped(db);
    NoTablesChanged(opts, ext, db);
  }

  /** Numbering two runs of bodies one after the other numbers their concatenation. */
  lemma NumberedAppend(start: nat, a: seq<Body>, b: seq<Body>)
    ensures Numbered(start, a + b) == Numbered(start, a) + Numbered(start + |a|, b)
  {
  }
}
