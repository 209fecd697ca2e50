/**
 * The writer itself: a run-wide class counter, the classes written so far, the lines of the
 * class file being written, and the stack of string buffers that lets UpdateTable and
 * GetCreateForeignKeyCode capture output instead of writing it. Every method is proved to
 * write exactly the lines the Plan functions describe.
 */
module Writer {
  import opened Wrappers
  import opened Seqs
  import opened Schema
  import opened TypeMap
  import opened Signatures
  import opened Diff
  import opened Plan

  /** The Up and Down bodies WriteClass is handed. */
  datatype Action =
    | DropTablesAction
    | DropCodeAction
    | CantUndoAction
    | WriteLinesAction(lines: seq<string>)
    | CreateTableAction(table: TableDefinition)

  class FmDiffMigrationWriter {
    const options: Options
    const ext: Extensions
    const db1: Snapshot
    const db2: Snapshot

    /** The number of the last class written. */
    var order: nat
    /** The classes written so far. */
    var units: seq<Unit>
    /** The lines written to the current class file while no buffer is open. */
    var file: seq<string>
    /** The open buffer, as the lines written to it, or None. */
    var sb: Option<seq<string>>
    /** The buffers suspended by BeginBuffer, innermost last. */
    var nestedBuffers: seq<seq<string>>

    /** What each body action writes, fixed when the writer is made. */
    ghost const actionLines: Action -> seq<string>
    /** The classes each table of the new snapshot gets, fixed when the writer is made. */
    ghost const tableBodies: TableDefinition -> seq<Body>

    /** The plan the writer follows is the one the Plan functions describe for its snapshots. */
    ghost predicate Planned()
    {
      && (forall a {:trigger ActionLines(options, ext, db1, db2, a)} :: actionLines(a) == ActionLines(options, ext, db1, db2, a))
      && (forall t {:trigger TableBodies(options, ext, db1, t)} :: tableBodies(t) == TableBodies(options, ext, db1, t))
    }

    /** A suspended buffer implies an open one. */
    ghost predicate BuffersValid()
      reads this
    {
      nestedBuffers != [] ==> sb.Some?
    }

    /** Classes are numbered 1, 2, ... in the order written. */
    ghost predicate Valid()
      reads this
    {
      && Planned()
      && |units| == order
      && (forall i :: 0 <= i < |units| ==> units[i].order == i + 1)
      && BuffersValid()
    }

    /** Since the method began it wrote `lines` and changed nothing else. */
    twostate predicate Wrote(lines: seq<string>)
      reads this
    {
      && Appended(old(file), old(sb), file, sb, lines)
      && order == old(order) && units == old(units) && nestedBuffers == old(nestedBuffers)
    }

    constructor (options: Options, ext: Extensions, db1: Snapshot, db2: Snapshot)
      ensures Valid()
      ensures this.options == options && this.ext == ext && this.db1 == db1 && this.db2 == db2
      ensures order == 0 && units == [] && file == [] && sb.None? && nestedBuffers == []
    {
      this.options := options;
      this.ext := ext;
      this.db1 := db1;
      this.db2 := db2;
      actionLines := a => ActionLines(options, ext, db1, db2, a);
      tableBodies := t => TableBodies(options, ext, db1, t);
      order := 0;
      units := [];
      file := [];
      sb := None;
      nestedBuffers := [];
    }

    // -------------------------------------------------------------------------------------
    // Output helpers

    /** Writes a line to the open buffer, or to the class file when none is open. */
    method WriteLine(line: string)
      modifies this
      ensures Wrote([line])
    {
      if sb.None? {
        file := file + [line];
      } else {
        sb := Some(sb.value + [line]);
      }
    }

    method WriteLines(lines: seq<string>)
      modifies this
      ensures Wrote(lines)
    {
      AppendedNothing(file, sb);
      var i := 0;
      while i < |lines|
        invariant 0 <= i <= |lines|
        invariant Wrote(lines[..i])
      {
        ghost var f1, s1 := file, sb;
        WriteLine(lines[i]);
        AppendedChain(old(file), old(sb), f1, s1, file, sb, lines[..i], [lines[i]]);
        PrefixSnoc(lines, i);
        i := i + 1;
      }
      assert lines[..|lines|] == lines;
    }

    /** WriteLines with appendLastLine: the last line gets `suffix`. */
    method WriteLinesAppending(lines: seq<string>, suffix: string)
      modifies this
      ensures Wrote(if lines == [] then [] else AppendLast(lines, suffix))
    {
      AppendedNothing(file, sb);
      ghost var written: seq<string> := [];
      var i := 0;
      while i < |lines|
        invariant 0 <= i <= |lines| && |written| == i
        invariant forall k :: 0 <= k < i ==> written[k] == if k == |lines| - 1 then lines[k] + suffix else lines[k]
        invariant Wrote(written)
      {
        var line := if i < |lines| - 1 then lines[i] else lines[i] + suffix;
        ghost var f1, s1 := file, sb;
        if i < |lines| - 1 {
          WriteLine(lines[i]);
        } else {
          WriteLine(lines[i] + suffix);
        }
        AppendedChain(old(file), old(sb), f1, s1, file, sb, written, [line]);
        written := written + [line];
        i := i + 1;
      }
      if lines != [] {
        assert written == AppendLast(lines, suffix);
      }
    }

    /** Starts capturing output in a fresh buffer, suspending the open one. */
    method BeginBuffer()
      requires BuffersValid()
      modifies this
      ensures BuffersValid()
      ensures sb == Some([])
      ensures nestedBuffers == if old(sb).Some? then old(nestedBuffers) + [old(sb).value] else old(nestedBuffers)
      ensures file == old(file) && order == old(order) && units == old(units)
    {
      if sb.Some? {
        nestedBuffers := nestedBuffers + [sb.value];
      }
      sb := Some([]);
    }

    /**
     * Closes the open buffer, returning its text (every line ends with a newline) and its
     * lines, and resumes the suspended buffer, if any.
     */
    method EndBuffer() returns (text: string, lines: seq<string>)
      requires BuffersValid() && sb.Some?
      modifies this
      ensures BuffersValid()
      ensures lines == old(sb).value && text == BufferText(lines)
      ensures old(nestedBuffers) == [] ==> sb.None? && nestedBuffers == []
      ensures old(nestedBuffers) != [] ==>
        sb == Some(old(nestedBuffers)[|old(nestedBuffers)| - 1]) && nestedBuffers == old(nestedBuffers)[..|old(nestedBuffers)| - 1]
      ensures file == old(file) && order == old(order) && units == old(units)
    {
      lines := sb.value;
      text := BufferTextOf(lines);
      if nestedBuffers == [] {
        sb := None;
      } else {
        sb := Some(nestedBuffers[|nestedBuffers| - 1]);
        nestedBuffers := nestedBuffers[..|nestedBuffers| - 1];
      }
    }

    /** StringBuilder.ToString of a buffer: each line followed by a newline. */
    method BufferTextOf(lines: seq<string>) returns (text: string)
      ensures text == BufferText(lines)
    {
      text := "";
      var i := 0;
      while i < |lines|
        invariant 0 <= i <= |lines| && text == BufferText(lines[..i])
      {
        assert lines[..i + 1][..i] == lines[..i];
        text := text + lines[i] + NewLine;
        i := i + 1;
      }
      assert lines[..|lines|] == lines;
    }

    // -------------------------------------------------------------------------------------
    // Code signatures

    /** GetColumnCode: the chain for the column's type call and default argument. */
    method GetColumnCode(col: ColumnDefinition) returns (code: string)
      ensures code == ColumnCode(options, ext, col)
    {
      code := ChainCode(col, MigrationTypeFunction(options, col), DefaultArgument(ext, col));
    }

    /** GetColumnCode's StringBuilder: one call appended after another. */
    static method ChainCode(col: ColumnDefinition, typeCall: string, defaultArg: string) returns (code: string)
      ensures code == RenderParts(ChainParts(col, typeCall, defaultArg))
    {
      code := ".WithColumn(\"" + col.name + "\")." + typeCall;
      ghost var c := code;
      if col.isIdentity {
        code := code + ".Identity()";
      }
      SingletonPart(IdentityPart(col));
      assert code == c + RenderParts(IdentityPart(col));
      c := code;
      if col.isPrimaryKey {
        code := code + (".PrimaryKey(\"" + col.primaryKeyName + "\")");
      } else if col.isUnique {
        code := code + (".Unique(\"" + col.indexName + "\")");
      } else if col.isIndexed {
        code := code + (".Indexed(\"" + col.indexName + "\")");
      }
      SingletonPart(KeyPart(col));
      assert code == c + RenderParts(KeyPart(col));
      c := code;
      if col.isNullable.Some? {
        code := code + (if col.isNullable.value then ".Nullable()" else ".NotNullable()");
      }
      SingletonPart(NullablePart(col));
      assert code == c + RenderParts(NullablePart(col));
      c := code;
      if col.defaultValue.Some? && !col.isIdentity {
        code := code + (".WithDefaultValue(" + defaultArg + ")");
      }
      SingletonPart(DefaultPart(col, defaultArg));
      assert code == c + RenderParts(DefaultPart(col, defaultArg));
      ChainRendered(col, typeCall, defaultArg);
    }

    /** GetCreateIndexCode: the header, one clause per column, then `;`. */
    method GetCreateIndexCode(ix: IndexDefinition) returns (code: string)
      ensures code == IndexCode(ix)
    {
      code := "Create.Index(\"" + ix.name + "\").OnTable(\"" + ix.tableName + "\")";
      if ix.isUnique {
        code := code + ".WithOptions().Unique()";
      } else {
        assert code + "" == code;
      }
      if ix.isClustered {
        code := code + ".WithOptions().Clustered()";
      } else {
        assert code + "" == code;
      }
      assert code == IndexHeader(ix);
      assert IndexHeader(ix) + IndexColumnClauses(ix.columns[..0]) == code;
      var i := 0;
      while i < |ix.columns|
        invariant 0 <= i <= |ix.columns|
        invariant code == IndexHeader(ix) + IndexColumnClauses(ix.columns[..i])
      {
        var c := ix.columns[i];
        assert ix.columns[..i + 1][..i] == ix.columns[..i];
        ghost var prior := code;
        code := code + (".OnColumn(\"" + c.name + "\")");
        code := code + ("." + DirectionName(c.direction) + "()");
        Assoc(prior, ".OnColumn(\"" + c.name + "\")", "." + DirectionName(c.direction) + "()");
        Assoc(IndexHeader(ix), IndexColumnClauses(ix.columns[..i]), IndexColumnClause(c));
        i := i + 1;
      }
      assert ix.columns[..|ix.columns|] == ix.columns;
      code := code + ";";
    }

    /**
     * GetCreateForeignKeyCode: writes the statement's lines into a buffer of its own, then
     * drops the final newline and ends the statement. The output state is left as it was.
     */
    method GetCreateForeignKeyCode(fk: ForeignKeyDefinition) returns (code: string)
      requires BuffersValid()
      modifies this
      ensures BuffersValid()
      ensures code == ForeignKeyCode(fk)
      ensures file == old(file) && sb == old(sb) && nestedBuffers == old(nestedBuffers)
      ensures order == old(order) && units == old(units)
    {
      var text, lines := BufferForeignKey(fk);
      BufferTextTrim(lines);
      code := text[..|text| - |NewLine|] + ";";
    }

    /** A foreign key's lines written into a fresh buffer: the lines and their text. */
    method BufferForeignKey(fk: ForeignKeyDefinition) returns (text: string, lines: seq<string>)
      requires BuffersValid()
      modifies this
      ensures BuffersValid()
      ensures lines == ForeignKeyLines(fk) && text == BufferText(lines)
      ensures file == old(file) && sb == old(sb) && nestedBuffers == old(nestedBuffers)
      ensures order == old(order) && units == old(units)
    {
      BeginBuffer();
      WriteForeignKeyHead(fk);
      EmptyPrefix(ForeignKeyHeadLines(fk));
      WriteRules(fk);
      text, lines := EndBuffer();
    }

    /** The first five lines of a foreign key, into the open buffer. */
    method WriteForeignKeyHead(fk: ForeignKeyDefinition)
      requires sb.Some?
      modifies this
      ensures sb == Some(old(sb).value + ForeignKeyHeadLines(fk))
      ensures file == old(file) && nestedBuffers == old(nestedBuffers) && order == old(order) && units == old(units)
    {
      ghost var w := sb.value;
      var line := "Create.ForeignKey(\"" + fk.name + "\")";
      WriteLine(line);
      w := w + [line];
      line := ".FromTable(\"" + fk.foreignTable + "\")";
      WriteLine(line);
      w := w + [line];
      if |fk.foreignColumns| == 1 {
        line := ".ForeignColumn(\"" + fk.foreignColumns[0] + "\")";
      } else {
        line := "ForeignColumns(" + ToStringArray(fk.foreignColumns) + ")";
      }
      WriteLine(line);
      w := w + [line];
      line := ".ToTable(\"" + fk.primaryTable + "\")";
      WriteLine(line);
      w := w + [line];
      if |fk.primaryColumns| == 1 {
        line := ".PrimaryColumn(\"" + fk.primaryColumns[0] + "\")";
      } else {
        line := ".PrimaryColumns(" + ToStringArray(fk.primaryColumns) + ")";
      }
      WriteLine(line);
      w := w + [line];
      assert w == old(sb).value + ForeignKeyHeadLines(fk);
    }

    /** The rule clauses of a foreign key, into the open buffer. */
    method WriteRules(fk: ForeignKeyDefinition)
      requires sb.Some?
      modifies this
      ensures sb == Some(old(sb).value + RuleLines(fk))
      ensures file == old(file) && nestedBuffers == old(nestedBuffers) && order == old(order) && units == old(units)
    {
      if fk.onDelete != RuleNone && fk.onDelete == fk.onUpdate {
        WriteLine(".OnDeleteOrUpdate(System.Data.Rule." + RuleName(fk.onDelete) + ")");
      } else {
        ghost var w := sb.value;
        if fk.onDelete != RuleNone {
          var line := ".OnDelete(System.Data.Rule." + RuleName(fk.onDelete) + ")";
          WriteLine(line);
          w := w + [line];
        }
        if fk.onUpdate != RuleNone {
          var line := ".OnUpdate(System.Data.Rule." + RuleName(fk.onUpdate) + ")";
          WriteLine(line);
          w := w + [line];
        }
        assert w == old(sb).value + RuleLines(fk);
      }
    }

    // -------------------------------------------------------------------------------------
    // Table updates

    /** ToDictionary(col => col.Name, GetColumnCode). */
    method ColumnCodes(cols: seq<ColumnDefinition>) returns (d: seq<Entry>)
      ensures d == ColumnDictionary(options, ext, cols)
    {
      d := [];
      var i := 0;
      while i < |cols|
        invariant 0 <= i <= |cols|
        invariant d == ToDictionary(cols[..i], ColumnNameOf, ColumnCodeOf(options, ext))
      {
        var code := GetColumnCode(cols[i]);
        ToDictionarySnoc(cols, ColumnNameOf, ColumnCodeOf(options, ext), i);
        d := d + [Entry(cols[i].name, code)];
        i := i + 1;
      }
      assert cols[..|cols|] == cols;
    }

    /** ToDictionary(index => index.Name, GetCreateIndexCode). */
    method IndexCodeDictionary(ixs: seq<IndexDefinition>) returns (d: seq<Entry>)
      ensures d == IndexDictionary(ixs)
    {
      d := [];
      var i := 0;
      while i < |ixs|
        invariant 0 <= i <= |ixs|
        invariant d == ToDictionary(ixs[..i], IndexNameOf, IndexCode)
      {
        var code := GetCreateIndexCode(ixs[i]);
        ToDictionarySnoc(ixs, IndexNameOf, IndexCode, i);
        d := d + [Entry(ixs[i].name, code)];
        i := i + 1;
      }
      assert ixs[..|ixs|] == ixs;
    }

    /** ToDictionary(fk => fk.Name, GetCreateForeignKeyCode), each code built in a nested buffer. */
    method ForeignKeyCodeDictionary(fks: seq<ForeignKeyDefinition>) returns (d: seq<Entry>)
      requires BuffersValid()
      modifies this
      ensures BuffersValid()
      ensures d == ForeignKeyDictionary(fks)
      ensures file == old(file) && sb == old(sb) && nestedBuffers == old(nestedBuffers)
      ensures order == old(order) && units == old(units)
    {
      d := [];
      var i := 0;
      while i < |fks|
        invariant 0 <= i <= |fks|
        invariant d == ToDictionary(fks[..i], ForeignKeyNameOf, ForeignKeyCode)
        invariant BuffersValid()
        invariant file == old(file) && sb == old(sb) && nestedBuffers == old(nestedBuffers)
        invariant order == old(order) && units == old(units)
      {
        var code := GetCreateForeignKeyCode(fks[i]);
        ToDictionarySnoc(fks, ForeignKeyNameOf, ForeignKeyCode, i);
        d := d + [Entry(fks[i].name, code)];
        i := i + 1;
      }
      assert fks[..|fks|] == fks;
    }

    /** AlterTable: an Alter.Table statement for a non-empty list of column changes. */
    method AlterTable(t: TableDefinition, changes: seq<string>)
      modifies this
      ensures Wrote(AlterTableLines(t, changes))
    {
      if |changes| > 0 {
        WriteLine("Alter.Table(\"" + t.name + "\").InSchema(\"" + t.schemaName + "\")");
        ghost var f1, s1 := file, sb;
        WriteLinesAppending(changes, ";");
        AppendedChain(old(file), old(sb), f1, s1, file, sb, [AlterTableHeader(t)], AppendLast(changes, ";"));
      } else {
        AppendedNothing(file, sb);
      }
    }

    /** WriteChanges: an empty line, then the changes, when there are any. */
    method WriteChanges(changes: seq<string>)
      modifies this
      ensures Wrote(ChangeLines(changes))
    {
      if |changes| > 0 {
        WriteLine("");
        ghost var f1, s1 := file, sb;
        WriteLines(changes);
        AppendedChain(old(file), old(sb), f1, s1, file, sb, [""], changes);
      } else {
        AppendedNothing(file, sb);
      }
    }

    /** Builds the three pairs of dictionaries UpdateTable compares. */
    method BuildDictionaries(before: TableDefinition, after: TableDefinition) returns (d: Dictionaries)
      requires BuffersValid()
      modifies this
      ensures BuffersValid()
      ensures d == TableDictionaries(options, ext, before, after)
      ensures file == old(file) && sb == old(sb) && nestedBuffers == old(nestedBuffers)
      ensures order == old(order) && units == old(units)
    {
      var oldCols := ColumnCodes(before.columns);
      var newCols := ColumnCodes(after.columns);
      var oldIndexes := IndexCodeDictionary(NonColumnIndexes(before));
      var newIndexes := IndexCodeDictionary(NonColumnIndexes(after));
      var oldFks := ForeignKeyCodeDictionary(before.foreignKeys);
      var newFks := ForeignKeyCodeDictionary(after.foreignKeys);
      d := Dictionaries(oldCols, newCols, oldIndexes, newIndexes, oldFks, newFks);
    }

    /**
     * UpdateTable: the seven groups of changes between two versions of a table, in their
     * fixed order. ToDictionary rejects duplicate names, hence the well-formedness demand.
     */
    method UpdateTable(before: TableDefinition, after: TableDefinition)
      requires BuffersValid() && WellFormedTable(before) && WellFormedTable(after)
      modifies this
      ensures BuffersValid()
      ensures Wrote(UpdateTableLines(options, ext, before, after))
    {
      var d := BuildDictionaries(before, after);
      var addedColsCode := Renamed(GetAdded(d.oldColumns, d.newColumns), "AddColumn");
      var updatedColsCode := Renamed(GetUpdated(d.oldColumns, d.newColumns), "AlterColumn");
      var removedColsCode := RemoveColumnCodes(after, GetRemovedKeys(d.oldColumns, d.newColumns));
      var addedIndexCode := GetAdded(d.oldIndexes, d.newIndexes) + GetUpdated(d.oldIndexes, d.newIndexes);
      var removedIndexCode := RemoveIndexCodes(before, GetRemovedKeys(d.oldIndexes, d.newIndexes) + GetUpdatedKeys(d.oldIndexes, d.newIndexes));
      var addedFkCode := GetAdded(d.oldForeignKeys, d.newForeignKeys) + GetUpdated(d.oldForeignKeys, d.newForeignKeys);
      var removedFkCode := RemoveForeignKeyCodes(before, GetRemovedKeys(d.oldForeignKeys, d.newForeignKeys) + GetUpdatedKeys(d.oldForeignKeys, d.newForeignKeys));
      var g := UpdateGroups(addedColsCode, addedIndexCode, addedFkCode, updatedColsCode, removedFkCode, removedIndexCode, removedColsCode);
      assert g == Groups(before, after, d);
      WriteGroups(after, g);
    }

    /** The emission half of UpdateTable. */
    method WriteGroups(t: TableDefinition, g: UpdateGroups)
      modifies this
      ensures Wrote(GroupLines(t, g))
    {
      ghost var bs := GroupBlocks(t, g);
      assert bs[..0] == [];
      AlterTable(t, g.addedColumns);
      ConcatSnoc(bs, 0);
      assert Concat(bs[..1]) == bs[0];
      ghost var f1, s1 := file, sb;
      WriteChanges(g.addedIndexes);
      AppendedBlock(old(file), old(sb), f1, s1, file, sb, bs, 1);
      f1, s1 := file, sb;
      WriteChanges(g.addedForeignKeys);
      AppendedBlock(old(file), old(sb), f1, s1, file, sb, bs, 2);
      f1, s1 := file, sb;
      AlterTable(t, g.updatedColumns);
      AppendedBlock(old(file), old(sb), f1, s1, file, sb, bs, 3);
      f1, s1 := file, sb;
      WriteChanges(g.removedForeignKeys);
      AppendedBlock(old(file), old(sb), f1, s1, file, sb, bs, 4);
      f1, s1 := file, sb;
      WriteChanges(g.removedIndexes);
      AppendedBlock(old(file), old(sb), f1, s1, file, sb, bs, 5);
      f1, s1 := file, sb;
      WriteChanges(g.removedColumns);
      AppendedBlock(old(file), old(sb), f1, s1, file, sb, bs, 6);
      assert bs[..7] == bs;
    }

    // -------------------------------------------------------------------------------------
    // Migration bodies

    /** CreateTable: the Create.Table statement, an empty line, the indexes, the foreign keys. */
    method CreateTable(t: TableDefinition)
      requires BuffersValid()
      modifies this
      ensures BuffersValid()
      ensures Wrote(CreateTableLines(options, ext, t))
    {
      WriteLine("Create.Table(\"" + t.name + "\").InSchema(\"" + t.schemaName + "\")");
      ghost var w := [CreateTableHeader(t)];
      ghost var f1, s1 := file, sb;
      WriteColumns(t.columns);
      AppendedChain(old(file), old(sb), f1, s1, file, sb, w, ColumnLines(options, ext, t.columns));
      w := w + ColumnLines(options, ext, t.columns);
      f1, s1 := file, sb;
      WriteLine("");
      AppendedChain(old(file), old(sb), f1, s1, file, sb, w, [""]);
      w := w + [""];
      f1, s1 := file, sb;
      WriteIndexCodes(NonColumnIndexes(t));
      AppendedChain(old(file), old(sb), f1, s1, file, sb, w, IndexCodes(NonColumnIndexes(t)));
      w := w + IndexCodes(NonColumnIndexes(t));
      f1, s1 := file, sb;
      WriteForeignKeyCodes(t.foreignKeys);
      AppendedChain(old(file), old(sb), f1, s1, file, sb, w, ForeignKeyCodes(t.foreignKeys));
    }

    /** CreateTable's column loop: the last column ends the statement. */
    method WriteColumns(cols: seq<ColumnDefinition>)
      modifies this
      ensures Wrote(ColumnLines(options, ext, cols))
    {
      ghost var lines := ColumnLines(options, ext, cols);
      AppendedNothing(file, sb);
      var i := 0;
      while i < |cols|
        invariant 0 <= i <= |cols|
        invariant Wrote(lines[..i])
      {
        var colCode := GetColumnCode(cols[i]);
        if i == |cols| - 1 {
          colCode := colCode + ";";
        }
        assert colCode == lines[i];
        ghost var f1, s1 := file, sb;
        WriteLine(colCode);
        AppendedChain(old(file), old(sb), f1, s1, file, sb, lines[..i], [lines[i]]);
        PrefixSnoc(lines, i);
        i := i + 1;
      }
      assert lines[..|cols|] == lines;
    }

    /** WriteLines(indexes.Select(GetCreateIndexCode)). */
    method WriteIndexCodes(ixs: seq<IndexDefinition>)
      modifies this
      ensures Wrote(IndexCodes(ixs))
    {
      ghost var lines := IndexCodes(ixs);
      AppendedNothing(file, sb);
      var i := 0;
      while i < |ixs|
        invariant 0 <= i <= |ixs|
        invariant Wrote(lines[..i])
      {
        var code := GetCreateIndexCode(ixs[i]);
        ghost var f1, s1 := file, sb;
        WriteLine(code);
        AppendedChain(old(file), old(sb), f1, s1, file, sb, lines[..i], [lines[i]]);
        PrefixSnoc(lines, i);
        i := i + 1;
      }
      assert lines[..|ixs|] == lines;
    }

    /** WriteLines(foreignKeys.Select(GetCreateForeignKeyCode)). */
    method WriteForeignKeyCodes(fks: seq<ForeignKeyDefinition>)
      requires BuffersValid()
      modifies this
      ensures BuffersValid()
      ensures Wrote(ForeignKeyCodes(fks))
    {
      ghost var lines := ForeignKeyCodes(fks);
      AppendedNothing(file, sb);
      var i := 0;
      while i < |fks|
        invariant 0 <= i <= |fks| && BuffersValid()
        invariant Wrote(lines[..i])
      {
        var code := GetCreateForeignKeyCode(fks[i]);
        ghost var f1, s1 := file, sb;
        WriteLine(code);
        AppendedChain(old(file), old(sb), f1, s1, file, sb, lines[..i], [lines[i]]);
        PrefixSnoc(lines, i);
        i := i + 1;
      }
      assert lines[..|fks|] == lines;
    }

    /**
     * DropTables: the old tables missing from the new snapshot, most dependent first, each
     * preceded by the removal of its foreign keys. OrderBy looks up every such table's rank.
     */
    method DropTables()
      requires Ranked(Except(TableNames(db1.tables), TableNames(db2.tables)), db1.fkDependencyOrder(false))
      modifies this
      ensures Wrote(DropTablesLines(db1, db2))
    {
      var tables := GetTables(db1.tables, DroppedTableNames(db1, db2));
      WriteTableDrops(tables);
    }

    /** DropTables' loop: each table's drop lines in turn. */
    method WriteTableDrops(tables: seq<TableDefinition>)
      modifies this
      ensures Wrote(Concat(DropBlocks(tables)))
    {
      ghost var bs := DropBlocks(tables);
      AppendedNothing(file, sb);
      assert bs[..0] == [];
      var i := 0;
      while i < |tables|
        invariant 0 <= i <= |tables|
        invariant Wrote(Concat(bs[..i]))
      {
        ghost var f1, s1 := file, sb;
        WriteTableDrop(tables[i]);
        AppendedBlock(old(file), old(sb), f1, s1, file, sb, bs, i);
        i := i + 1;
      }
      assert bs[..|tables|] == bs;
    }

    /** One table of DropTables: its foreign keys, then the table itself. */
    method WriteTableDrop(table: TableDefinition)
      modifies this
      ensures Wrote(TableDropLines(table))
    {
      ghost var fkLines := DropForeignKeyLinesAsWritten(table.foreignKeys);
      AppendedNothing(file, sb);
      var j := 0;
      while j < |table.foreignKeys|
        invariant 0 <= j <= |table.foreignKeys|
        invariant Wrote(fkLines[..j])
      {
        var fk := table.foreignKeys[j];
        ghost var f1, s1 := file, sb;
        WriteLine("Delete.ForeignKey(\"" + fk.name + "\").OnTable(\"" + fk.primaryTable + "\").InSchema(\"" + fk.primaryTableSchema + "\");");
        AppendedChain(old(file), old(sb), f1, s1, file, sb, fkLines[..j], [fkLines[j]]);
        PrefixSnoc(fkLines, j);
        j := j + 1;
      }
      assert fkLines[..|table.foreignKeys|] == fkLines;
      ghost var f1, s1 := file, sb;
      WriteLine("Delete.Table(\"" + table.name + "\").InSchema(\"" + table.schemaName + "\");");
      AppendedChain(old(file), old(sb), f1, s1, file, sb, fkLines, [DropTableLine(table)]);
    }

    /** One DropCode loop: a delete call per name. */
    method WriteDeletes(call: string, names: seq<string>)
      modifies this
      ensures Wrote(DeleteLines(call, names))
    {
      ghost var r := DeleteLines(call, names);
      AppendedNothing(file, sb);
      var i := 0;
      while i < |names|
        invariant 0 <= i <= |names|
        invariant Wrote(r[..i])
      {
        ghost var f1, s1 := file, sb;
        WriteLine(call + "(\"" + names[i] + "\");");
        AppendedChain(old(file), old(sb), f1, s1, file, sb, r[..i], [r[i]]);
        PrefixSnoc(r, i);
        i := i + 1;
      }
      assert r[..|names|] == r;
    }

    /** DropCode: procedures, views, functions and types of the old snapshot missing from the new. */
    method DropCode()
      modifies this
      ensures Wrote(DropCodeLines(db1, db2))
    {
      ghost var bs := DropCodeBlocks(db1, db2);
      AppendedNothing(file, sb);
      assert bs[..0] == [];
      WriteDeleteBlock(old(file), old(sb), 0);
      WriteDeleteBlock(old(file), old(sb), 1);
      WriteDeleteBlock(old(file), old(sb), 2);
      WriteDeleteBlock(old(file), old(sb), 3);
      assert bs[..4] == bs;
    }

    /**
     * The loop of DropCode for kind `k` (stored procedures, views, functions, types): the
     * deletes of the old snapshot's names of that kind missing from the new one.
     */
    method WriteDeleteBlock(ghost f0: seq<string>, ghost s0: Option<seq<string>>, k: nat)
      requires k < 4
      requires Appended(f0, s0, file, sb, Concat(DropCodeBlocks(db1, db2)[..k]))
      modifies this
      ensures Appended(f0, s0, file, sb, Concat(DropCodeBlocks(db1, db2)[..k + 1]))
      ensures order == old(order) && units == old(units) && nestedBuffers == old(nestedBuffers)
    {
      ghost var f1, s1 := file, sb;
      WriteDeletes(DeleteCalls[k], DroppedCode(db1, db2)[k]);
      assert DropCodeBlocks(db1, db2)[k] == DeleteLines(DeleteCalls[k], DroppedCode(db1, db2)[k]);
      AppendedBlock(f0, s0, f1, s1, file, sb, DropCodeBlocks(db1, db2), k);
    }

    method CantUndo()
      modifies this
      ensures Wrote(CantUndoLines)
    {
      WriteLine("throw new Exception(\"Cannot undo this database upgrade\");");
    }

    method Run(a: Action)
      requires BuffersValid() && CanRun(db1, db2, a) && Planned()
      modifies this
      ensures BuffersValid()
      ensures Wrote(actionLines(a))
    {
      assert actionLines(a) == ActionLines(options, ext, db1, db2, a);
      match a
      case DropTablesAction => DropTables();
      case DropCodeAction => DropCode();
      case CantUndoAction => CantUndo();
      case WriteLinesAction(lines) => WriteLines(lines);
      case CreateTableAction(t) => CreateTable(t);
    }

    /** WriteMethod: one method of a class, the action run on an emptied class file. */
    method WriteMethod(body: Action) returns (lines: seq<string>)
      requires BuffersValid() && sb.None? && CanRun(db1, db2, body) && Planned()
      modifies this
      ensures BuffersValid() && sb.None? && lines == file
      ensures lines == actionLines(body)
      ensures order == old(order) && units == old(units) && nestedBuffers == old(nestedBuffers)
    {
      file := [];
      Run(body);
      StartedEmpty(file, sb, actionLines(body));
      lines := file;
    }

    /** The body a class of this name and these actions holds. */
    ghost function ActionBody(name: string, up: Action, down: Option<Action>): Body
    {
      Body(name, actionLines(up), match down case Some(a) => Some(actionLines(a)) case None => None)
    }

    /**
     * WriteClass: numbers the class with the next order, writes its Up method and its Down
     * method if there is one, and records the class. A class without a Down method reverses
     * itself.
     */
    method WriteClass(className: string, up: Action, down: Option<Action>)
      requires Valid() && sb.None? && CanRun(db1, db2, up) && (down.Some? ==> CanRun(db1, db2, down.value))
      modifies this
      ensures Valid() && sb.None? && nestedBuffers == old(nestedBuffers) && file == []
      ensures order == old(order) + 1
      ensures units == old(units) + [MakeUnit(order, ActionBody(className, up, down))]
    {
      order := order + 1;
      var upLines := WriteMethod(up);
      var downLines: Option<seq<string>> := None;
      if down.Some? {
        var lines := WriteMethod(down.value);
        downLines := Some(lines);
      }
      units := units + [Unit(order, ClassName(order, className), BaseClass(downLines), upLines, downLines)];
      file := [];
    }

    /**
     * One table of CreateUpdateTables: a Create_ class when the old snapshot lacks it, else an
     * Update_ class when its update buffer is not empty.
     */
    method WriteTable(table: TableDefinition)
      requires Valid() && sb.None? && TableUpdatable(db1, table)
      modifies this
      ensures Valid() && sb.None? && nestedBuffers == old(nestedBuffers)
      ensures units == old(units) + Numbered(old(order), tableBodies(table))
      ensures order == old(order) + |tableBodies(table)|
    {
      assert tableBodies(table) == TableBodies(options, ext, db1, table);
      match FindTable(db1.tables, table.name) {
        case Some(oldTable) =>
          var updates, lines := BufferUpdates(oldTable, table);
          WriteUpdateClass(table.name, updates, lines);
        case None =>
          WriteCreateClass(table);
      }
    }

    /** WriteTable after the classes `done`, numbered from `start + 1`, that follow `before`. */
    method WriteNextTable(ghost before: seq<Unit>, ghost start: nat, ghost done: seq<Body>, table: TableDefinition)
      requires Valid() && sb.None? && TableUpdatable(db1, table)
      requires units == before + Numbered(start, done) && order == start + |done|
      modifies this
      ensures Valid() && sb.None? && nestedBuffers == old(nestedBuffers)
      ensures units == before + Numbered(start, done + tableBodies(table))
      ensures order == start + |done + tableBodies(table)|
    {
      WriteTable(table);
      UnitsStep(before, start, done, tableBodies(table), old(units), old(order), units);
    }

    /** UpdateTable run into a fresh buffer: its lines and their text. */
    method BufferUpdates(oldTable: TableDefinition, table: TableDefinition) returns (text: string, lines: seq<string>)
      requires Valid() && sb.None? && WellFormedTable(oldTable) && WellFormedTable(table)
      modifies this
      ensures Valid() && sb.None? && file == old(file) && nestedBuffers == old(nestedBuffers)
      ensures order == old(order) && units == old(units)
      ensures lines == UpdateTableLines(options, ext, oldTable, table) && text == BufferText(lines)
    {
      BeginBuffer();
      UpdateTable(oldTable, table);
      EmptyPrefix(UpdateTableLines(options, ext, oldTable, table));
      text, lines := EndBuffer();
    }

    /** CreateUpdateTables for a table both snapshots have, once its updates are buffered. */
    method WriteUpdateClass(name: string, text: string, lines: seq<string>)
      requires Valid() && sb.None? && text == BufferText(lines)
      modifies this
      ensures Valid() && sb.None? && nestedBuffers == old(nestedBuffers)
      ensures units == old(units) + Numbered(old(order), UpdateBodies(name, lines))
      ensures order == old(order) + |UpdateBodies(name, lines)|
    {
      if |text| > 0 {
        WriteClass("Update_" + name, WriteLinesAction(lines + [""]), None);
        assert actionLines(WriteLinesAction(lines + [""])) == ActionLines(options, ext, db1, db2, WriteLinesAction(lines + [""]));
        NumberedOne(old(order), Body("Update_" + name, lines + [""], None));
      } else {
        assert old(units) + [] == old(units);
      }
    }

    /** CreateUpdateTables for a table only the new snapshot has. */
    method WriteCreateClass(table: TableDefinition)
      requires Valid() && sb.None?
      modifies this
      ensures Valid() && sb.None? && nestedBuffers == old(nestedBuffers)
      ensures units == old(units) + Numbered(old(order), CreateBodies(options, ext, table))
      ensures order == old(order) + |CreateBodies(options, ext, table)|
    {
      WriteClass("Create_" + table.name, CreateTableAction(table), None);
      assert actionLines(CreateTableAction(table)) == ActionLines(options, ext, db1, db2, CreateTableAction(table));
      NumberedOne(old(order), Body("Create_" + table.name, CreateTableLines(options, ext, table), None));
    }

    /** The classes of the tables in `ts`, table by table. */
    ghost function TableBlocks(ts: seq<TableDefinition>): (r: seq<seq<Body>>)
      ensures |r| == |ts| && forall i :: 0 <= i < |ts| ==> r[i] == tableBodies(ts[i])
    {
      seq(|ts|, i requires 0 <= i < |ts| => tableBodies(ts[i]))
    }

    /** Table by table, the planned classes are CreateUpdateBodies. */
    lemma PlannedTables()
      requires Planned()
      ensures Concat(TableBlocks(TablesInFkOrder(db2))) == CreateUpdateBodies(options, ext, db1, db2)
    {
      var ts := TablesInFkOrder(db2);
      var bs := CreateUpdateBlocks(options, ext, db1, db2);
      forall i | 0 <= i < |ts|
        ensures TableBlocks(ts)[i] == bs[i]
      {
        assert tableBodies(ts[i]) == TableBodies(options, ext, db1, ts[i]);
      }
      assert TableBlocks(ts) == bs;
    }

    /** The foreach of CreateUpdateTables: each table in turn through WriteTable, one class block each. */
    method WriteTables(ts: seq<TableDefinition>)
      requires Valid() && sb.None?
      requires forall t :: t in ts ==> TableUpdatable(db1, t)
      modifies this
      ensures Valid() && sb.None? && nestedBuffers == old(nestedBuffers)
      ensures units == old(units) + Numbered(old(order), Concat(TableBlocks(ts)))
      ensures order == old(order) + |Concat(TableBlocks(ts))|
    {
      ghost var bs := TableBlocks(ts);
      ghost var done: seq<Body> := [];
      assert bs[..0] == [];
      assert units + Numbered(order, done) == units;
      var i := 0;
      while i < |ts|
        invariant 0 <= i <= |ts| && Valid() && sb.None? && nestedBuffers == old(nestedBuffers)
        invariant done == Concat(bs[..i])
        invariant units == old(units) + Numbered(old(order), done)
        invariant order == old(order) + |done|
      {
        assert ts[i] in ts && bs[i] == tableBodies(ts[i]);
        WriteNextTable(old(units), old(order), done, ts[i]);
        ConcatSnoc(bs, i);
        done := done + bs[i];
        i := i + 1;
      }
      assert bs[..|ts|] == bs;
    }

    /**
     * CreateUpdateTables: the new tables in ascending rank through WriteTable. OrderBy looks up
     * every new table's rank; ToDictionary demands unique old table names; UpdateTable
     * well-formed versions of each table both snapshots have.
     */
    method CreateUpdateTables()
      requires Valid() && sb.None?
      requires Ranked(TableNames(db2.tables), db2.fkDependencyOrder(true))
      requires Distinct(TableNames(db1.tables))
      requires forall t :: t in db2.tables ==> TableUpdatable(db1, t)
      modifies this
      ensures Valid() && sb.None? && nestedBuffers == old(nestedBuffers)
      ensures units == old(units) + Numbered(old(order), Concat(TableBlocks(TablesInFkOrder(db2))))
      ensures order == old(order) + |Concat(TableBlocks(TablesInFkOrder(db2)))|
    {
      var ts := TablesInFkOrder(db2);
      OrderByElements(db2.tables, AscendingRank(db2.fkDependencyOrder(true)));
      WriteTables(ts);
    }

    /** The first two classes are the ones MigrationBodies starts with. */
    lemma PlannedDrops()
      requires Planned()
      ensures DropBodies() + Concat(TableBlocks(TablesInFkOrder(db2))) == MigrationBodies(options, ext, db1, db2)
    {
      PlannedTables();
      assert actionLines(DropTablesAction) == ActionLines(options, ext, db1, db2, DropTablesAction);
      assert actionLines(DropCodeAction) == ActionLines(options, ext, db1, db2, DropCodeAction);
      assert actionLines(CantUndoAction) == ActionLines(options, ext, db1, db2, CantUndoAction);
    }

    /** WriteMigrations: DropTables and DropCode (neither can be undone), then each table. */
    method WriteMigrations()
      requires Valid() && sb.None?
      requires Ranked(Except(TableNames(db1.tables), TableNames(db2.tables)), db1.fkDependencyOrder(false))
      requires Ranked(TableNames(db2.tables), db2.fkDependencyOrder(true))
      requires Distinct(TableNames(db1.tables))
      requires forall t :: t in db2.tables ==> TableUpdatable(db1, t)
      modifies this
      ensures Valid() && sb.None?
      ensures units == old(units) + Numbered(old(order), MigrationBodies(options, ext, db1, db2))
      ensures order == old(order) + |MigrationBodies(options, ext, db1, db2)|
    {
      WriteMigrationClasses();
      PlannedDrops();
    }

    /** WriteMigrations' body: the drop classes, then the classes of the tables. */
    method WriteMigrationClasses()
      requires Valid() && sb.None?
      requires Ranked(Except(TableNames(db1.tables), TableNames(db2.tables)), db1.fkDependencyOrder(false))
      requires Ranked(TableNames(db2.tables), db2.fkDependencyOrder(true))
      requires Distinct(TableNames(db1.tables))
      requires forall t :: t in db2.tables ==> TableUpdatable(db1, t)
      modifies this
      ensures Valid() && sb.None?
      ensures units == old(units) + Numbered(old(order), DropBodies() + Concat(TableBlocks(TablesInFkOrder(db2))))
      ensures order == old(order) + |DropBodies() + Concat(TableBlocks(TablesInFkOrder(db2)))|
    {
      WriteDropClasses();
      ghost var u1, o1 := units, order;
      CreateUpdateTables();
      UnitsStep(old(units), old(order), DropBodies(), Concat(TableBlocks(TablesInFkOrder(db2))), u1, o1, units);
    }

    /** The two drop classes WriteMigrations starts with. */
    ghost function DropBodies(): seq<Body>
    {
      [ActionBody("DropTables", DropTablesAction, Some(CantUndoAction)),
       ActionBody("DropCode", DropCodeAction, Some(CantUndoAction))]
    }

    /** WriteMigrations' first two classes: DropTables and DropCode, each with a CantUndo Down. */
    method WriteDropClasses()
      requires Valid() && sb.None?
      requires Ranked(Except(TableNames(db1.tables), TableNames(db2.tables)), db1.fkDependencyOrder(false))
      modifies this
      ensures Valid() && sb.None? && nestedBuffers == old(nestedBuffers)
      ensures units == old(units) + Numbered(old(order), DropBodies())
      ensures order == old(order) + |DropBodies()|
    {
      ghost var b1 := ActionBody("DropTables", DropTablesAction, Some(CantUndoAction));
      ghost var b2 := ActionBody("DropCode", DropCodeAction, Some(CantUndoAction));
      WriteClass("DropTables", DropTablesAction, Some(CantUndoAction));
      NumberedOne(old(order), b1);
      ghost var u1, o1 := units, order;
      WriteClass("DropCode", DropCodeAction, Some(CantUndoAction));
      NumberedOne(o1, b2);
      UnitsStep(old(units), old(order), [b1], [b2], u1, o1, units);
      assert [b1] + [b2] == DropBodies();
    }
  }

  /** The lines a body action writes. */
  function ActionLines(opts: Options, ext: Extensions, db1: Snapshot, db2: Snapshot, a: Action): seq<string>
  {
    match a
    case DropTablesAction => DropTablesLines(db1, db2)
    case DropCodeAction => DropCodeLines(db1, db2)
    case CantUndoAction => CantUndoLines
    case WriteLinesAction(lines) => lines
    case CreateTableAction(t) => CreateTableLines(opts, ext, t)
  }

  /** DropTables looks up the rank of every dropped table. */
  predicate CanRun(db1: Snapshot, db2: Snapshot, a: Action)
  {
    a.DropTablesAction? ==> Ranked(Except(TableNames(db1.tables), TableNames(db2.tables)), db1.fkDependencyOrder(false))
  }

  /**
   * From class file `f0` and buffer `s0` to `f` and `s`, exactly `lines` were written: to
   * the buffer when one is open, else to the file.
   */
  ghost predicate Appended(f0: seq<string>, s0: Option<seq<string>>, f: seq<string>, s: Option<seq<string>>, lines: seq<string>)
  {
    match s0
    case None => s.None? && f == f0 + lines
    case Some(b) => s == Some(b + lines) && f == f0
  }

  lemma AppendedNothing(f: seq<string>, s: Option<seq<string>>)
    ensures Appended(f, s, f, s, [])
  {
    assert f + [] == f;
    if s.Some? {
      assert s.value + [] == s.value;
    }
  }

  /** Writing to an empty class file with no buffer open leaves just what was written. */
  lemma StartedEmpty(f: seq<string>, s: Option<seq<string>>, lines: seq<string>)
    requires Appended([], None, f, s, lines)
    ensures f == lines && s.None?
  {
    assert [] + lines == lines;
  }

  /** Classes numbered on from where the earlier ones stop extend the numbering of both. */
  lemma UnitsStep(u0: seq<Unit>, start: nat, done: seq<Body>, next: seq<Body>, u1: seq<Unit>, mid: nat, u: seq<Unit>)
    requires u1 == u0 + Numbered(start, done) && mid == start + |done|
    requires u == u1 + Numbered(mid, next)
    ensures u == u0 + Numbered(start, done + next)
  {
    NumberedAppend(start, done, next);
    Assoc(u0, Numbered(start, done), Numbered(start + |done|, next));
  }

  lemma EmptyPrefix<T>(s: seq<T>)
    ensures [] + s == s
  {
  }

  lemma NumberedOne(start: nat, b: Body)
    ensures Numbered(start, [b]) == [MakeUnit(start + 1, b)]
  {
  }

  /** Writing `a` and then `b` writes `a + b`. */
  lemma AppendedChain(f0: seq<string>, s0: Option<seq<string>>, f1: seq<string>, s1: Option<seq<string>>,
                      f2: seq<string>, s2: Option<seq<string>>, a: seq<string>, b: seq<string>)
    requires Appended(f0, s0, f1, s1, a) && Appended(f1, s1, f2, s2, b)
    ensures Appended(f0, s0, f2, s2, a + b)
  {
    match s0
    case None => assert f2 == f0 + (a + b);
    case Some(x) => assert s2.value == x + (a + b);
  }

  /** AppendedChain for the next block of a concatenation. */
  lemma AppendedBlock(f0: seq<string>, s0: Option<seq<string>>, f1: seq<string>, s1: Option<seq<string>>,
                      f2: seq<string>, s2: Option<seq<string>>, bs: seq<seq<string>>, k: nat)
    requires k < |bs|
    requires Appended(f0, s0, f1, s1, Concat(bs[..k])) && Appended(f1, s1, f2, s2, bs[k])
    ensures Appended(f0, s0, f2, s2, Concat(bs[..k + 1]))
  {
    AppendedChain(f0, s0, f1, s1, f2, s2, Concat(bs[..k]), bs[k]);
    ConcatSnoc(bs, k);
  }

  /** An empty segment renders as nothing, a single call as itself. */
  lemma SingletonPart(ps: seq<ColumnPart>)
    requires |ps| <= 1
    ensures RenderParts(ps) == if ps == [] then "" else RenderPart(ps[0])
  {
    if ps != [] {
      assert ps[..0] == [];
    }
  }
}
