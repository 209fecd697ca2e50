# FmDiffMigrationWriter in Dafny

FluentMigrator's SchemaGen tool compares two schema snapshots of a database: the old one
(`db1`) and the new one (`db2`). It writes Fluent Migrator migration classes that turn
the old schema into the new one.

`FmDiffMigrationWriter.WriteMigrations` always writes two classes first:

- `DropTables` deletes the tables that only the old snapshot has. Each table's foreign keys
  are deleted before the table itself, and tables are taken in descending dependency rank.
- `DropCode` deletes the stored procedures, views, functions and types that only the old
  snapshot has.

Both of these have a Down method that throws. Then the writer visits the new snapshot's
tables in ascending dependency rank:

- A table the old snapshot lacks gets a `Create_` class.
- A table both snapshots have gets an `Update_` class, but only when something changed.

An `Update_` class is found by rendering every column, index and foreign key of both
versions of the table as Fluent Migrator code. The two name -> code dictionaries are then
compared. Added and changed columns become `Alter.Table(...)` blocks. A changed index or
foreign key is created again under its new definition, and the old one is deleted after
that, among the removals. Removed objects are deleted. Every class is
numbered: `M00010_DropTables`, `M00020_DropCode`, and so on.

The project has these modules:

- `Schema` is the snapshot: tables, columns, indexes, foreign keys and the code-object
  name lists.
- `Text` holds the .NET string operations the writer uses: `int.ToString`, `ToLower` and
  `Replace`.
- `Seqs` holds the LINQ operators: `Where`, `Except` and a stable `OrderBy`.
- `TypeMap` maps a column type (`GetMigrationTypeSize`, `GetMigrationTypeFunctionForType`)
  and a default value (`GetColumnDefaultValue`). These are pure functions.
- `Signatures` renders the code of columns, indexes and foreign keys, and holds
  `GetNonColumnIndexes`.
- `Diff` holds the dictionary comparisons `GetAdded`, `GetUpdated`, `GetRemovedKeys` and
  `GetUpdatedKeys`.
- `Plan` holds specification functions. They give every line each migration body contains
  and the sequence of classes written, as functions of the two snapshots.
- `Writer` is the class `FmDiffMigrationWriter` itself. Its fields are:
  - the class counter `order`;
  - the classes written so far, `units`;
  - the lines of the current class file, `file`;
  - the open string buffer, `sb`;
  - the `nestedBuffers` stack.

  Each method of `Writer` is proved to write exactly the lines that `Plan` gives. All
  paths below are relative to the repository root.

## Model

| member | source | states |
|---|---|---|
| Text.IntToStringRoundTrip | src/FluentMigrator.SchemaGen/SchemaWriters/FmDiffMigrationWriter.cs:562 | parsing the decimal text `int.ToString()` gives for an integer yields that integer again |
| Text.IntToStringInjective | src/FluentMigrator.SchemaGen/SchemaWriters/FmDiffMigrationWriter.cs:569 | two integers with the same decimal text are equal, so distinct precisions give distinct `AsDecimal` calls |
| Text.RemoveChar | src/FluentMigrator.SchemaGen/SchemaWriters/FmDiffMigrationWriter.cs:679 | `Replace("'", "")` leaves no occurrence of the character; every other character is kept; the text never grows; text without the character is unchanged |
| Text.RemoveCharOne | src/FluentMigrator.SchemaGen/SchemaWriters/FmDiffMigrationWriter.cs:679 | a single character is dropped exactly when it is the removed character |
| Text.RemoveCharAppend | src/FluentMigrator.SchemaGen/SchemaWriters/FmDiffMigrationWriter.cs:679 | removal distributes over concatenation, so with RemoveCharOne it fixes the result on every text: the other characters stay, in their order |
| Text.RemoveCharCounts | src/FluentMigrator.SchemaGen/SchemaWriters/FmDiffMigrationWriter.cs:679 | as multisets, the result is the text with every occurrence of the character taken out and each other character kept as often as it occurs |
| Text.ReplaceAllHead | src/FluentMigrator.SchemaGen/SchemaWriters/FmDiffMigrationWriter.cs:449-450 | `Replace(pat, rep)` replaces an occurrence at the start and carries on scanning after it |
| Text.ReplaceAllSkip | src/FluentMigrator.SchemaGen/SchemaWriters/FmDiffMigrationWriter.cs:449-450 | a leading character that cannot start the pattern is copied and the scan moves on |
| Seqs.Where | src/FluentMigrator.SchemaGen/SchemaWriters/FmDiffMigrationWriter.cs:427-432 | a LINQ `where` keeps exactly the elements satisfying the condition, and never more elements than it was given |
| Seqs.WhereCounts | src/FluentMigrator.SchemaGen/SchemaWriters/FmDiffMigrationWriter.cs:427-432 | a LINQ `where` keeps every satisfying element as often as it occurs and no other element |
| Seqs.ExceptIsDifference | src/FluentMigrator.SchemaGen/SchemaWriters/FmDiffMigrationWriter.cs:317 | `Except` yields each element of the first sequence that is absent from the second, each once |
| Seqs.ExceptOrder | src/FluentMigrator.SchemaGen/SchemaWriters/FmDiffMigrationWriter.cs:333 | `Except` on a duplicate-free sequence keeps the elements in their original order |
| Seqs.OrderBy | src/FluentMigrator.SchemaGen/SchemaWriters/FmDiffMigrationWriter.cs:318 | `OrderBy` returns a permutation of its input, sorted by the key |
| Seqs.OrderByStable | src/FluentMigrator.SchemaGen/SchemaWriters/FmDiffMigrationWriter.cs:364 | `OrderBy` is stable: the elements with any one key keep their input order |
| Seqs.OrderByElements | src/FluentMigrator.SchemaGen/SchemaWriters/FmDiffMigrationWriter.cs:364 | the sorted tables are the same tables, as many as before |
| Seqs.OrderByDistinct | src/FluentMigrator.SchemaGen/SchemaWriters/FmDiffMigrationWriter.cs:318 | sorting a duplicate-free name list keeps it duplicate-free |
| Schema.FindTable | src/FluentMigrator.SchemaGen/SchemaWriters/FmDiffMigrationWriter.cs:370-372 | the lookup of a table by name fails exactly when no table has that name; a found table has that name and belongs to the snapshot |
| Schema.FindTableOwnName | src/FluentMigrator.SchemaGen/SchemaWriters/FmDiffMigrationWriter.cs:359 | with unique table names, looking up a table's own name finds that table |
| Schema.GetTables | src/FluentMigrator.SchemaGen/SchemaWriters/FmDiffMigrationWriter.cs:320 | every requested name that some table has is matched by a returned table of that name |
| Plan.GetTablesInOrder | src/FluentMigrator.SchemaGen/SchemaWriters/FmDiffMigrationWriter.cs:320 | when every requested name exists, `GetTables` returns one table per name, in the order of the names |
| Diff.ToDictionary | src/FluentMigrator.SchemaGen/SchemaWriters/FmDiffMigrationWriter.cs:445-446 | the dictionary has one entry per element, in order, holding the element's key and code |
| Diff.Lookup | src/FluentMigrator.SchemaGen/SchemaWriters/FmDiffMigrationWriter.cs:449-451 | a lookup fails exactly for keys the dictionary lacks; a found code is stored under that key |
| Diff.LookupUnique | src/FluentMigrator.SchemaGen/SchemaWriters/FmDiffMigrationWriter.cs:449-451 | in a dictionary with unique keys, looking up an entry's key finds that entry's code |
| Diff.Classification | src/FluentMigrator.SchemaGen/SchemaWriters/FmDiffMigrationWriter.cs:449-451 | a key is added iff only the new dictionary has it, removed iff only the old one has it, and updated iff both have it with different code |
| Diff.DiffOrder | src/FluentMigrator.SchemaGen/SchemaWriters/FmDiffMigrationWriter.cs:458-468 | removed entries keep the old dictionary's order; added and updated entries keep the new one's; removed and updated key lists have no duplicates |
| Diff.SelfDiff | src/FluentMigrator.SchemaGen/SchemaWriters/FmDiffMigrationWriter.cs:449-468 | comparing a dictionary with itself finds nothing added, updated or removed |
| TypeMap.UnlimitedSize | src/FluentMigrator.SchemaGen/SchemaWriters/FmDiffMigrationWriter.cs:556 | size -1 is written `int.MaxValue` whatever the type |
| TypeMap.PlainSizeReadsBack | src/FluentMigrator.SchemaGen/SchemaWriters/FmDiffMigrationWriter.cs:556-562 | any size other than -1 and the three large-object capacities is written as its decimal text, which parses back to the size |
| TypeMap.MigrationTypeSizeRoundTrip | src/FluentMigrator.SchemaGen/SchemaWriters/FmDiffMigrationWriter.cs:554-563 | every size argument, including `int.MaxValue` and the `DbTypeSizes` names, reads back to the size it was written for |
| TypeMap.MigrationTypeSizeInjective | src/FluentMigrator.SchemaGen/SchemaWriters/FmDiffMigrationWriter.cs:554-563 | for one type, two sizes with the same size argument are equal |
| TypeMap.IntegerWidthsCollapse | src/FluentMigrator.SchemaGen/SchemaWriters/FmDiffMigrationWriter.cs:634-645 | signed and unsigned integers of one width map to the same `AsInt16()`, `AsInt32()` or `AsInt64()` call |
| TypeMap.NullTypeIsCustom | src/FluentMigrator.SchemaGen/SchemaWriters/FmDiffMigrationWriter.cs:649-651 | a column with no DbType maps to `AsCustom(<custom type>)` |
| TypeMap.DeprecatedLargeObjects | src/FluentMigrator.SchemaGen/SchemaWriters/FmDiffMigrationWriter.cs:574-609 | AnsiString, String and Binary at their TEXT, NTEXT or IMAGE capacity map to `AsCustom("TEXT")`, `AsCustom("NTEXT")` or `AsCustom("IMAGE")` exactly when deprecated types are on; otherwise they map to the sized call |
| TypeMap.DecimalPrecision | src/FluentMigrator.SchemaGen/SchemaWriters/FmDiffMigrationWriter.cs:567-627 | `AsDecimal` carries the size, followed by `,precision` unless the precision is -1 |
| TypeMap.UnlistedKindsAreStrings | src/FluentMigrator.SchemaGen/SchemaWriters/FmDiffMigrationWriter.cs:570-656 | the types the switch does not list keep the initial `AsString(size)` |
| TypeMap.TypeCallSizeRoundTrip | src/FluentMigrator.SchemaGen/SchemaWriters/FmDiffMigrationWriter.cs:565-657 | for every sized type, the column's size can be read back from the type call |
| TypeMap.SizeChangeIsVisible | src/FluentMigrator.SchemaGen/SchemaWriters/FmDiffMigrationWriter.cs:565-657 | changing the size of a sized column changes its type call, so UpdateTable sees a resized column as updated |
| TypeMap.ColumnDefaultValue | src/FluentMigrator.SchemaGen/SchemaWriters/FmDiffMigrationWriter.cs:659-713 | the default is null exactly for a Guid column whose literal does not parse as a Guid |
| TypeMap.NumericDefaultUnquoted | src/FluentMigrator.SchemaGen/SchemaWriters/FmDiffMigrationWriter.cs:667-680 | numeric and boolean defaults drop every quote character and keep every other character, as often as it occurs, before `CleanBracket` |
| TypeMap.StripQuotesAppend | src/FluentMigrator.SchemaGen/SchemaWriters/FmDiffMigrationWriter.cs:679 | quote stripping distributes over concatenation, so it keeps the order of the remaining characters |
| TypeMap.StripQuotesOne | src/FluentMigrator.SchemaGen/SchemaWriters/FmDiffMigrationWriter.cs:679 | a single character survives quote stripping exactly when it is neither `'` nor `"` |
| TypeMap.GuidDefault | src/FluentMigrator.SchemaGen/SchemaWriters/FmDiffMigrationWriter.cs:682-690 | a Guid default is null when the literal does not parse, `Guid.Empty` for the empty Guid, and `new System.Guid("<text>")` otherwise |
| TypeMap.CurrentTimeDefault | src/FluentMigrator.SchemaGen/SchemaWriters/FmDiffMigrationWriter.cs:692-705 | a date default is `SystemMethods.CurrentDateTime` iff its lower-cased literal is current_time, current_date or current_timestamp; otherwise it is the bracket-cleaned literal in quotes |
| TypeMap.UpperCaseTimestampDefault | src/FluentMigrator.SchemaGen/SchemaWriters/FmDiffMigrationWriter.cs:695-699 | `CURRENT_TIMESTAMP` on a DateTime column maps to `SystemMethods.CurrentDateTime`, since the comparison is case-insensitive |
| TypeMap.OtherDefaultsQuoted | src/FluentMigrator.SchemaGen/SchemaWriters/FmDiffMigrationWriter.cs:707-709 | any other type quotes the literal unchanged |
| Signatures.ChainRendered | src/FluentMigrator.SchemaGen/SchemaWriters/FmDiffMigrationWriter.cs:516-552 | a column's code is `.WithColumn(...)` followed by the identity, key, nullability and default segments, in that order |
| Signatures.ColumnCodeHead | src/FluentMigrator.SchemaGen/SchemaWriters/FmDiffMigrationWriter.cs:520 | every column code starts with `.WithColumn("` |
| Signatures.ColumnKeyPart | src/FluentMigrator.SchemaGen/SchemaWriters/FmDiffMigrationWriter.cs:527-538 | a column code has at most one key segment: PrimaryKey beats Unique, which beats Indexed |
| Signatures.ColumnNullablePart | src/FluentMigrator.SchemaGen/SchemaWriters/FmDiffMigrationWriter.cs:540-543 | `.Nullable()` is present iff nullability is known and true; `.NotNullable()` is present iff it is known and false |
| Signatures.ColumnDefaultPart | src/FluentMigrator.SchemaGen/SchemaWriters/FmDiffMigrationWriter.cs:545-548 | a `.WithDefaultValue(...)` segment is present iff the column has a default and is not an identity |
| Signatures.ColumnIndexNames | src/FluentMigrator.SchemaGen/SchemaWriters/FmDiffMigrationWriter.cs:427-429 | the declared names are exactly primary-key names of key columns and index names of unique or indexed columns |
| Signatures.NonColumnIndexesExact | src/FluentMigrator.SchemaGen/SchemaWriters/FmDiffMigrationWriter.cs:424-433 | GetNonColumnIndexes keeps exactly the table's indexes whose name no column declares, each as often as the table has it, in table order |
| Signatures.DeclaredNamesAreKeyParts | src/FluentMigrator.SchemaGen/SchemaWriters/FmDiffMigrationWriter.cs:424-433 | a name is column-declared iff some column's code carries it as its PrimaryKey, Unique or Indexed segment, so exactly the other indexes need their own Create.Index |
| Signatures.BufferTextTrim | src/FluentMigrator.SchemaGen/SchemaWriters/FmDiffMigrationWriter.cs:825-826 | cutting the final newline from a non-empty buffer leaves its lines joined by newlines |
| Signatures.BufferTextEmpty | src/FluentMigrator.SchemaGen/SchemaWriters/FmDiffMigrationWriter.cs:379 | a buffer's text is empty iff nothing was written to it |
| Signatures.ForeignKeyRules | src/FluentMigrator.SchemaGen/SchemaWriters/FmDiffMigrationWriter.cs:807-822 | the rule lines are exactly `[.OnDeleteOrUpdate(System.Data.Rule.<delete>)]` iff both rules are equal and not None; exactly `[.OnDelete(...<delete>)]` iff only the delete rule is set; exactly `[.OnUpdate(...<update>)]` iff only the update rule is set; exactly the OnDelete then the OnUpdate line iff both are set and differ; none iff both are None |
| Signatures.RuleClausesDistinct | src/FluentMigrator.SchemaGen/SchemaWriters/FmDiffMigrationWriter.cs:809-821 | the OnDeleteOrUpdate, OnDelete and OnUpdate clauses never coincide, whatever rules they name |
| Plan.ColumnDictionary | src/FluentMigrator.SchemaGen/SchemaWriters/FmDiffMigrationWriter.cs:445-446 | the column dictionary's keys are the column names in table order |
| Plan.IndexDictionary | src/FluentMigrator.SchemaGen/SchemaWriters/FmDiffMigrationWriter.cs:454-455 | the index dictionary's keys are the index names in order |
| Plan.ForeignKeyDictionary | src/FluentMigrator.SchemaGen/SchemaWriters/FmDiffMigrationWriter.cs:463-464 | the foreign-key dictionary's keys are the foreign-key names in order |
| Plan.RenamedColumnOpens | src/FluentMigrator.SchemaGen/SchemaWriters/FmDiffMigrationWriter.cs:449-450 | the rewrite of a column code opens with `.AddColumn("` or `.AlterColumn("`, followed by the rewritten rest of the code |
| Plan.UpdateTableSilent | src/FluentMigrator.SchemaGen/SchemaWriters/FmDiffMigrationWriter.cs:441-482 | UpdateTable writes nothing iff no column, index or foreign key was added, updated or removed |
| Plan.GroupsSilent | src/FluentMigrator.SchemaGen/SchemaWriters/FmDiffMigrationWriter.cs:471-505 | the seven change blocks are all empty iff every comparison found nothing |
| Plan.GroupOrder | src/FluentMigrator.SchemaGen/SchemaWriters/FmDiffMigrationWriter.cs:473-481 | every line of an earlier change block comes before every line of a later one |
| Plan.AdditionOrder | src/FluentMigrator.SchemaGen/SchemaWriters/FmDiffMigrationWriter.cs:473-477 | added columns come before added indexes, which come before added foreign keys, which come before altered columns |
| Plan.RemovalOrder | src/FluentMigrator.SchemaGen/SchemaWriters/FmDiffMigrationWriter.cs:479-481 | removed foreign keys are deleted before removed indexes, which are deleted before removed columns |
| Plan.UpdatedIndexReplaced | src/FluentMigrator.SchemaGen/SchemaWriters/FmDiffMigrationWriter.cs:457-460 | a changed index's new Create.Index line is written before the Delete.Index line for the old one |
| Plan.UpdatedForeignKeyReplaced | src/FluentMigrator.SchemaGen/SchemaWriters/FmDiffMigrationWriter.cs:466-469 | a changed foreign key's new Create.ForeignKey code is written before the Delete.ForeignKey line for the old one |
| Plan.DroppedTables | src/FluentMigrator.SchemaGen/SchemaWriters/FmDiffMigrationWriter.cs:314-318 | the dropped tables are exactly the old tables missing from the new snapshot, each once, in descending dependency rank |
| Plan.DroppedTablesInOrder | src/FluentMigrator.SchemaGen/SchemaWriters/FmDiffMigrationWriter.cs:320 | DropTables visits one table per dropped name, in drop order |
| Plan.ForeignKeysDroppedFirst | src/FluentMigrator.SchemaGen/SchemaWriters/FmDiffMigrationWriter.cs:320-328 | in DropTables, each foreign key of a dropped table is deleted, by the line the code writes, before the table itself |
| Plan.DropForeignKeyAsWrittenNamesReferencedTable | src/FluentMigrator.SchemaGen/SchemaWriters/FmDiffMigrationWriter.cs:324 | the delete line as written names the referenced table, not the table that owns the key |
| Plan.DropForeignKeysMatchUpdate | src/FluentMigrator.SchemaGen/SchemaWriters/FmDiffMigrationWriter.cs:755-757 | in the corrected drop (`TableDropLinesCorrected`), the foreign-key delete lines of a dropped table are exactly the lines UpdateTable writes when all of the table's foreign keys are removed |
| Plan.DropLinesAgreeOnSelfReferences | src/FluentMigrator.SchemaGen/SchemaWriters/FmDiffMigrationWriter.cs:322-325 | the drop lines as written and the corrected ones agree on a table whose every foreign key references the table itself; the line-324 difference only shows for keys that reference another table |
| Plan.DropCodeExact | src/FluentMigrator.SchemaGen/SchemaWriters/FmDiffMigrationWriter.cs:331-352 | each of the four delete blocks names exactly the old snapshot's procedures, views, functions or types missing from the new one, each once |
| Plan.DropCodeKindOrder | src/FluentMigrator.SchemaGen/SchemaWriters/FmDiffMigrationWriter.cs:331-352 | stored procedures are deleted before views, views before functions, and functions before types |
| Plan.TableBodiesCases | src/FluentMigrator.SchemaGen/SchemaWriters/FmDiffMigrationWriter.cs:366-389 | a new table gets one Create_ class; a table in both snapshots gets no class iff nothing changed, and otherwise one Update_ class holding the update lines |
| Plan.CreateUpdateOrder | src/FluentMigrator.SchemaGen/SchemaWriters/FmDiffMigrationWriter.cs:363-366 | the new tables are visited once each, in ascending dependency rank |
| Plan.BaseClasses | src/FluentMigrator.SchemaGen/SchemaWriters/FmDiffMigrationWriter.cs:208 | the two drop classes derive from MigrationExt; every Create_ and Update_ class derives from AutoReversingMigrationExt |
| Plan.CreateUpdateReversible | src/FluentMigrator.SchemaGen/SchemaWriters/FmDiffMigrationWriter.cs:380-388 | no Create_ or Update_ class has a Down method |
| Plan.SelfTableUnchanged | src/FluentMigrator.SchemaGen/SchemaWriters/FmDiffMigrationWriter.cs:441-482 | comparing a well-formed table with itself finds no change |
| Plan.NoTablesDropped | src/FluentMigrator.SchemaGen/SchemaWriters/FmDiffMigrationWriter.cs:312-329 | comparing a snapshot with itself drops no table |
| Plan.NoCodeDropped | src/FluentMigrator.SchemaGen/SchemaWriters/FmDiffMigrationWriter.cs:331-353 | comparing a snapshot with itself drops no code object |
| Plan.NoTablesChanged | src/FluentMigrator.SchemaGen/SchemaWriters/FmDiffMigrationWriter.cs:357-391 | comparing a well-formed snapshot with itself writes no Create_ or Update_ class |
| Plan.IdenticalSnapshots | src/FluentMigrator.SchemaGen/SchemaWriters/FmDiffMigrationWriter.cs:249-256 | for identical snapshots the migrations are exactly an empty DropTables class and an empty DropCode class |
| Plan.NumberedAppend | src/FluentMigrator.SchemaGen/SchemaWriters/FmDiffMigrationWriter.cs:180 | numbering continues across consecutive groups of classes: the counter is never reset |
| Writer.FmDiffMigrationWriter.constructor | src/FluentMigrator.SchemaGen/SchemaWriters/FmDiffMigrationWriter.cs:28-39 | a new writer holds its options and snapshots, has no buffer open, and has written nothing |
| Writer.FmDiffMigrationWriter.WriteLine | src/FluentMigrator.SchemaGen/SchemaWriters/FmDiffMigrationWriter.cs:73-84 | the line goes to the open buffer if there is one, and to the class file otherwise |
| Writer.FmDiffMigrationWriter.WriteLines | src/FluentMigrator.SchemaGen/SchemaWriters/FmDiffMigrationWriter.cs:100-106 | the lines are written in order |
| Writer.FmDiffMigrationWriter.WriteLinesAppending | src/FluentMigrator.SchemaGen/SchemaWriters/FmDiffMigrationWriter.cs:108-122 | the lines are written in order with the suffix on the last one; nothing is written for no lines |
| Writer.FmDiffMigrationWriter.BeginBuffer | src/FluentMigrator.SchemaGen/SchemaWriters/FmDiffMigrationWriter.cs:136-140 | an empty buffer is opened; an already open buffer is pushed onto the stack |
| Writer.FmDiffMigrationWriter.EndBuffer | src/FluentMigrator.SchemaGen/SchemaWriters/FmDiffMigrationWriter.cs:142-147 | returns the buffer's text and reopens the buffer on top of the stack, or none when the stack is empty |
| Writer.FmDiffMigrationWriter.GetColumnCode | src/FluentMigrator.SchemaGen/SchemaWriters/FmDiffMigrationWriter.cs:516-552 | the builder produces the column code whose segments the Signatures lemmas describe |
| Signatures.IndexColumnClausesHead | src/FluentMigrator.SchemaGen/SchemaWriters/FmDiffMigrationWriter.cs:740-744 | the column clauses are empty exactly for an index without columns, and otherwise start with `.O` of `.OnColumn(` |
| Signatures.ClusteredTail | src/FluentMigrator.SchemaGen/SchemaWriters/FmDiffMigrationWriter.cs:735-746 | what follows the Unique option starts with `.WithOptions().C` when the index is clustered, and otherwise with `.O` of `.OnColumn(` or is just `;` |
| Signatures.UniqueNotClusteredTail | src/FluentMigrator.SchemaGen/SchemaWriters/FmDiffMigrationWriter.cs:730-746 | the Unique option followed by anything never equals what can follow it |
| Signatures.IndexCodeParts | src/FluentMigrator.SchemaGen/SchemaWriters/FmDiffMigrationWriter.cs:723-749 | the Create.Index statement is its name and table part, then the Unique option, then the rest |
| Signatures.IndexOptionsReadBack | src/FluentMigrator.SchemaGen/SchemaWriters/FmDiffMigrationWriter.cs:723-749 | two indexes of the same name on the same table with equal Create.Index statements agree on Unique and on Clustered, so a change of either option changes the code UpdateTable compares |
| Writer.FmDiffMigrationWriter.GetCreateIndexCode | src/FluentMigrator.SchemaGen/SchemaWriters/FmDiffMigrationWriter.cs:723-749 | the builder produces the Create.Index statement with its option and column clauses, ending in `;` |
| Writer.FmDiffMigrationWriter.WriteForeignKeyHead | src/FluentMigrator.SchemaGen/SchemaWriters/FmDiffMigrationWriter.cs:774-805 | the Create.ForeignKey, FromTable, ForeignColumn(s), ToTable and PrimaryColumn(s) lines are added to the buffer |
| Writer.FmDiffMigrationWriter.WriteRules | src/FluentMigrator.SchemaGen/SchemaWriters/FmDiffMigrationWriter.cs:807-822 | the rule lines `ForeignKeyRules` classifies are added to the buffer |
| Writer.FmDiffMigrationWriter.GetCreateForeignKeyCode | src/FluentMigrator.SchemaGen/SchemaWriters/FmDiffMigrationWriter.cs:766-827 | returns the buffered foreign-key lines without the final newline and ending in `;`, and leaves the output and buffer state as it was |
| Writer.FmDiffMigrationWriter.AlterTable | src/FluentMigrator.SchemaGen/SchemaWriters/FmDiffMigrationWriter.cs:484-495 | nothing for no changes; otherwise the Alter.Table line and the changes, the last ending in `;` |
| Writer.FmDiffMigrationWriter.WriteChanges | src/FluentMigrator.SchemaGen/SchemaWriters/FmDiffMigrationWriter.cs:497-505 | nothing for no changes; otherwise an empty line, then the changes |
| Writer.FmDiffMigrationWriter.UpdateTable | src/FluentMigrator.SchemaGen/SchemaWriters/FmDiffMigrationWriter.cs:441-482 | writes exactly the seven change blocks of the compared dictionaries |
| Writer.FmDiffMigrationWriter.CreateTable | src/FluentMigrator.SchemaGen/SchemaWriters/FmDiffMigrationWriter.cs:393-417 | writes the Create.Table line, one line per column with `;` on the last, an empty line, the indexes no column declares, then the foreign keys |
| Writer.FmDiffMigrationWriter.WriteDeletes | src/FluentMigrator.SchemaGen/SchemaWriters/FmDiffMigrationWriter.cs:333-336 | one delete line per name, in order |
| Writer.FmDiffMigrationWriter.WriteTableDrop | src/FluentMigrator.SchemaGen/SchemaWriters/FmDiffMigrationWriter.cs:320-328 | one `Delete.ForeignKey` line per foreign key of the table, naming the key's primary table and its schema as the code writes it, then the table's Delete.Table line |
| Writer.FmDiffMigrationWriter.DropTables | src/FluentMigrator.SchemaGen/SchemaWriters/FmDiffMigrationWriter.cs:312-329 | writes exactly the DropTables body that Plan gives |
| Writer.FmDiffMigrationWriter.DropCode | src/FluentMigrator.SchemaGen/SchemaWriters/FmDiffMigrationWriter.cs:331-353 | writes exactly the four delete blocks |
| Writer.FmDiffMigrationWriter.CantUndo | src/FluentMigrator.SchemaGen/SchemaWriters/FmDiffMigrationWriter.cs:242-245 | writes the single throw line |
| Writer.FmDiffMigrationWriter.WriteMethod | src/FluentMigrator.SchemaGen/SchemaWriters/FmDiffMigrationWriter.cs:232-240 | runs the body with no buffer open and returns the lines the body writes to the file |
| Writer.FmDiffMigrationWriter.WriteClass | src/FluentMigrator.SchemaGen/SchemaWriters/FmDiffMigrationWriter.cs:177-230 | increments the counter and appends one class with that number, its `M<order:4>0_` name, base class, Up lines and optional Down lines |
| Writer.FmDiffMigrationWriter.BufferUpdates | src/FluentMigrator.SchemaGen/SchemaWriters/FmDiffMigrationWriter.cs:375-377 | captures UpdateTable's lines in a buffer and returns them without writing to the file |
| Writer.FmDiffMigrationWriter.WriteUpdateClass | src/FluentMigrator.SchemaGen/SchemaWriters/FmDiffMigrationWriter.cs:379-383 | writes one Update_ class when the buffer text is not empty, and nothing otherwise |
| Writer.FmDiffMigrationWriter.WriteCreateClass | src/FluentMigrator.SchemaGen/SchemaWriters/FmDiffMigrationWriter.cs:385-388 | writes the table's Create_ class |
| Writer.FmDiffMigrationWriter.WriteTables | src/FluentMigrator.SchemaGen/SchemaWriters/FmDiffMigrationWriter.cs:366-389 | appends, numbered on from the counter, each given table's class block in the given order |
| Writer.FmDiffMigrationWriter.CreateUpdateTables | src/FluentMigrator.SchemaGen/SchemaWriters/FmDiffMigrationWriter.cs:357-391 | appends, numbered on from the counter, the classes of the new tables in ascending dependency rank |
| Writer.FmDiffMigrationWriter.PlannedTables | src/FluentMigrator.SchemaGen/SchemaWriters/FmDiffMigrationWriter.cs:366-389 | the classes written per table add up to the Create_ and Update_ classes that Plan gives |
| Writer.FmDiffMigrationWriter.WriteMigrations | src/FluentMigrator.SchemaGen/SchemaWriters/FmDiffMigrationWriter.cs:249-256 | appends exactly the classes that Plan gives (DropTables, DropCode, then those per table), numbered on from the counter |

## Left out

- File output is not modelled: directory creation, the file streams and `Console.WriteLine`
  are left out. A class file is modelled as the sequence of lines its Up and Down methods
  receive.
- The fixed class text is not modelled: the using lines, namespace, `[MigrationVersion]`
  attribute, class and method headers, and braces. Indentation (`Indent`, `Indenter`,
  `Block`) is not modelled either. Only the class number, name, base class and bodies are.
- `WriteClass` catches every exception thrown while it writes a class file (lines 187-228).
  An I/O failure is not modelled, so this path is not modelled either. The catch also
  swallows the `KeyNotFoundException` that line 318 throws in the DropTables action when a
  dropped table has no rank: that class file is left half-written, `++order` at line 180 has
  already used up its number, and the run goes on. The model requires this case away:
  `Writer.FmDiffMigrationWriter.DropTables` requires every dropped name to be `Ranked`.
- `IDbSchemaReader.GetTables(names)` and `TableNames` are defined outside
  `FmDiffMigrationWriter.cs`. They are not part of this model. `Schema.GetTables` assumes
  GetTables returns the first table of each name, in the order of the names, and skips a
  name no table has. `Schema.TableNames` assumes TableNames lists the names of `Tables` in
  order. `Plan.DroppedTablesInOrder` and `Plan.GetTablesInOrder` rest on both assumptions.
- The writer and buffer fields are `static` in the source, so instances share them. The
  model gives each instance its own fields.
- `CleanBracket`, `IsGuid` and `TableFkDependencyOrder` are defined outside
  `FmDiffMigrationWriter.cs`. Their definitions are not part of this model. The first two
  are parameters (the `Extensions` value). `TableFkDependencyOrder` is a rank map held by
  each snapshot.
- The definitions of `GetAdded`, `GetUpdated`, `GetRemovedKeys` and `GetUpdatedKeys` are
  not part of this model either. The `Diff` module models them from how UpdateTable uses
  them. A dictionary enumerates in insertion order.
- A missing rank throws `KeyNotFoundException` in the source. Duplicate names throw in
  `ToDictionary`. The model requires both away instead of modelling the exceptions:
  - `Ranked` requires every name to have a rank. For a dropped table the exception is caught
    inside WriteClass, as said above. For a table of the new snapshot, `OrderBy` at lines
    363-364 throws in CreateUpdateTables, outside any try, so it ends WriteMigrations.
    `CreateUpdateTables`, `WriteMigrationClasses` and `WriteMigrations` therefore require
    `Ranked(TableNames(db2.tables), db2.fkDependencyOrder(true))`;
  - the old table names must be unique, for the `ToDictionary` at line 359. For each table
    both snapshots have, `Plan.TableUpdatable` requires both versions to be
    `WellFormedTable`: unique column names (lines 446-447), unique names among the indexes no
    column declares (454-455) and unique foreign-key names (463-464). A table only one
    snapshot has is not constrained. The self-comparison lemmas require `WellFormed(db)`,
    which is the same demand when every table is in both snapshots.
- The `DbTypeSizes` capacities are taken to be the SQL Server values.
- `ToString` and `ToLower` use the current culture in the source (lines 562, 569, 695-697).
  The model assumes a culture whose number format and casing of ASCII letters are the
  invariant culture's, such as en-US, and lowers only ASCII letters. Under tr-TR, for
  example, `I` lowers to a dotless i, `CURRENT_TIMESTAMP` is then not recognised, and
  `TypeMap.UpperCaseTimestampDefault` does not hold.
- Update_ buffer text: the source joins the buffered text with newlines and splits it again
  on `'\n'`. The model keeps the buffered lines, plus the empty line the split leaves at the
  end. A multi-line foreign-key code therefore stays one element. The joined text is the
  same for codes without a line break of their own. A bare `'\n'` inside a code, for example
  in a default literal, is split there by the source, and each piece is then written with a
  full newline (`\r\n` on Windows). The model does not show that.
- Writer.FmDiffMigrationWriter.CreateTable: the source picks the last column by reference
  (`Columns.Last() == column`). The model picks it by position. These differ only when the
  same column object occurs twice.
- Plan.RenamedColumnOpens: states only how the rewrite begins. `Replace("WithColumn", ...)`
  also rewrites `WithColumn` wherever it occurs later in the code, for example inside a
  column name. `ReplaceAll` models that, but no lemma states it.
- The `Action` delegates passed to WriteClass are a datatype of the five bodies the writer
  uses.
- An unparseable Guid default does not drop the default. `GetColumnDefaultValue` returns
  null for it, and `GetColumnCode` still appends `.WithDefaultValue()`, because formatting
  null gives the empty string. The model follows the code: `TypeMap.ColumnDefaultValue`
  returns None and the rendered argument is empty.

## Findings

| source | as written | input that shows it | evidently intended | confidence | as-written member | corrected member |
|---|---|---|---|---|---|---|
| src/FluentMigrator.SchemaGen/SchemaWriters/FmDiffMigrationWriter.cs:324 | DropTables deletes each foreign key with `.OnTable(fk.PrimaryTable).InSchema(fk.PrimaryTableSchema)`, which names the referenced table | table `Orders` with key `FK_Orders_Customers` referencing `Customers`: the line says `OnTable("Customers")`, but the key belongs to `Orders` | name the table being dropped, which owns the key, as GetRemoveFKCode does at lines 755-757 | not executed | Plan.DropForeignKeyAsWrittenNamesReferencedTable | Plan.DropForeignKeysMatchUpdate |

The writer follows the code as written: `Plan.TableDropLines`, `Writer.FmDiffMigrationWriter.WriteTableDrop`
and hence `DropTables` and `WriteMigrations` write line 324's delete line. The corrected drop is
`Plan.TableDropLinesCorrected`. `Plan.DropLinesAgreeOnSelfReferences` shows the two agree on a
table whose foreign keys all reference itself.
