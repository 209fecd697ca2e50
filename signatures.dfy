/**
 * The Fluent Migrator code the writer generates for one column, index or foreign key.
 * UpdateTable compares these strings to decide what changed, so they are the signatures
 * of the diff.
 */
module Signatures {
  import opened Wrappers
  import opened Schema
  import opened TypeMap
  import Seqs

  /** Environment.NewLine of the platform the generator runs on (Windows). */
  const NewLine: string := "\r\n"

  /** One call of the fluent chain GetColumnCode builds. */
  datatype ColumnPart =
    | WithColumn(name: string, typeCall: string)
    | Identity
    | PrimaryKey(keyName: string)
    | Unique(indexName: string)
    | Indexed(indexName: string)
    | Nullable
    | NotNullable
    | WithDefaultValue(argument: string)

  function RenderPart(p: ColumnPart): string
  {
    match p
    case WithColumn(n, t) => ".WithColumn(\"" + n + "\")." + t
    case Identity => ".Identity()"
    case PrimaryKey(n) => ".PrimaryKey(\"" + n + "\")"
    case Unique(n) => ".Unique(\"" + n + "\")"
    case Indexed(n) => ".Indexed(\"" + n + "\")"
    case Nullable => ".Nullable()"
    case NotNullable => ".NotNullable()"
    case WithDefaultValue(v) => ".WithDefaultValue(" + v + ")"
  }

  /** The parts rendered one after the other, as a StringBuilder appends them. */
  function RenderParts(ps: seq<ColumnPart>): string
  {
    if ps == [] then "" else RenderParts(ps[..|ps| - 1]) + RenderPart(ps[|ps| - 1])
  }

  /** The calls GetColumnCode chains for a column, in order. */
  function ColumnParts(opts: Options, ext: Extensions, col: ColumnDefinition): seq<ColumnPart>
  {
    ChainParts(col, MigrationTypeFunction(opts, col), DefaultArgument(ext, col))
  }

  /** The chain for a column once its type call and default argument are known. */
  function ChainParts(col: ColumnDefinition, typeCall: string, defaultArg: string): seq<ColumnPart>
  {
    [WithColumn(col.name, typeCall)]
    + IdentityPart(col) + KeyPart(col) + NullablePart(col) + DefaultPart(col, defaultArg)
  }

  function IdentityPart(col: ColumnDefinition): seq<ColumnPart>
  {
    if col.isIdentity then [Identity] else []
  }

  function KeyPart(col: ColumnDefinition): seq<ColumnPart>
  {
    if col.isPrimaryKey then [PrimaryKey(col.primaryKeyName)]
    else if col.isUnique then [Unique(col.indexName)]
    else if col.isIndexed then [Indexed(col.indexName)]
    else []
  }

  function NullablePart(col: ColumnDefinition): seq<ColumnPart>
  {
    match col.isNullable
    case Some(b) => if b then [Nullable] else [NotNullable]
    case None => []
  }

  function DefaultPart(col: ColumnDefinition, defaultArg: string): seq<ColumnPart>
  {
    if col.defaultValue.Some? && !col.isIdentity then [WithDefaultValue(defaultArg)] else []
  }

  /**
   * The argument `string.Format` inserts for the default value: a null result of
   * GetColumnDefaultValue formats as the empty string.
   */
  function DefaultArgument(ext: Extensions, col: ColumnDefinition): string
  {
    if col.defaultValue.None? then ""
    else match ColumnDefaultValue(ext, col) case Some(v) => v case None => ""
  }

  /** GetColumnCode: the `.WithColumn(...)` chain declaring a column. */
  function ColumnCode(opts: Options, ext: Extensions, col: ColumnDefinition): string
  {
    RenderParts(ColumnParts(opts, ext, col))
  }

  predicate IsKeyPart(p: ColumnPart)
  {
    p.PrimaryKey? || p.Unique? || p.Indexed?
  }

  /** The key parts of a chain, in order. */
  function KeyParts(ps: seq<ColumnPart>): (r: seq<ColumnPart>)
    ensures forall p :: p in r <==> p in ps && IsKeyPart(p)
  {
    if ps == [] then [] else (if IsKeyPart(ps[0]) then [ps[0]] else []) + KeyParts(ps[1..])
  }

  /**
   * A column declares at most one of PrimaryKey, Unique and Indexed; PrimaryKey wins over
   * Unique and Unique over Indexed.
   */
  lemma ColumnKeyPart(opts: Options, ext: Extensions, col: ColumnDefinition)
    ensures |KeyParts(ColumnParts(opts, ext, col))| <= 1
    ensures KeyParts(ColumnParts(opts, ext, col)) ==
      if col.isPrimaryKey then [PrimaryKey(col.primaryKeyName)]
      else if col.isUnique then [Unique(col.indexName)]
      else if col.isIndexed then [Indexed(col.indexName)]
      else []
  {
    ChainKeyPart(col, MigrationTypeFunction(opts, col), DefaultArgument(ext, col));
  }

  lemma ChainKeyPart(col: ColumnDefinition, typeCall: string, defaultArg: string)
    ensures KeyParts(ChainParts(col, typeCall, defaultArg)) == KeyPart(col)
  {
    var h: seq<ColumnPart> := [WithColumn(col.name, typeCall)];
    var i, k, n, d := IdentityPart(col), KeyPart(col), NullablePart(col), DefaultPart(col, defaultArg);
    assert KeyParts(h) == [] && KeyParts(i) == [] && KeyParts(n) == [] && KeyParts(d) == [];
    assert KeyParts(k) == k;
    WhereConcat(h, i);
    assert KeyParts(h + i) == [];
    WhereConcat(h + i, k);
    assert KeyParts(h + i + k) == k;
    WhereConcat(h + i + k, n);
    assert KeyParts(h + i + k + n) == k;
    WhereConcat(h + i + k + n, d);
    assert KeyParts(h + i + k + n + d) == k;
  }

  /** An identity column never carries a default value; any other column with a default does. */
  lemma ColumnDefaultPart(opts: Options, ext: Extensions, col: ColumnDefinition)
    ensures (exists p :: p in ColumnParts(opts, ext, col) && p.WithDefaultValue?)
        <==> col.defaultValue.Some? && !col.isIdentity
  {
    ChainDefaultPart(col, MigrationTypeFunction(opts, col), DefaultArgument(ext, col));
  }

  lemma ChainDefaultPart(col: ColumnDefinition, typeCall: string, defaultArg: string)
    ensures (exists p :: p in ChainParts(col, typeCall, defaultArg) && p.WithDefaultValue?)
        <==> col.defaultValue.Some? && !col.isIdentity
  {
    var ps := ChainParts(col, typeCall, defaultArg);
    var others := [WithColumn(col.name, typeCall)] + IdentityPart(col) + KeyPart(col) + NullablePart(col);
    assert ps == others + DefaultPart(col, defaultArg);
    assert forall p :: p in others ==> !p.WithDefaultValue?;
    if col.defaultValue.Some? && !col.isIdentity {
      assert ps[|ps| - 1].WithDefaultValue?;
    }
  }

  /** Nullability is written only when it is known. */
  lemma ColumnNullablePart(opts: Options, ext: Extensions, col: ColumnDefinition)
    ensures Nullable in ColumnParts(opts, ext, col) <==> col.isNullable == Some(true)
    ensures NotNullable in ColumnParts(opts, ext, col) <==> col.isNullable == Some(false)
  {
    ChainNullablePart(col, MigrationTypeFunction(opts, col), DefaultArgument(ext, col));
  }

  lemma ChainNullablePart(col: ColumnDefinition, typeCall: string, defaultArg: string)
    ensures Nullable in ChainParts(col, typeCall, defaultArg) <==> col.isNullable == Some(true)
    ensures NotNullable in ChainParts(col, typeCall, defaultArg) <==> col.isNullable == Some(false)
  {
    var others := [WithColumn(col.name, typeCall)] + IdentityPart(col) + KeyPart(col);
    assert ChainParts(col, typeCall, defaultArg) == others + NullablePart(col) + DefaultPart(col, defaultArg);
  }

  lemma {:induction false} WhereConcat(a: seq<ColumnPart>, b: seq<ColumnPart>)
    ensures KeyParts(a + b) == KeyParts(a) + KeyParts(b)
  {
    if a != [] {
      assert (a + b)[1..] == a[1..] + b;
      WhereConcat(a[1..], b);
    } else {
      assert a + b == b;
    }
  }

  lemma {:induction false} RenderPartsAppend(a: seq<ColumnPart>, b: seq<ColumnPart>)
    ensures RenderParts(a + b) == RenderParts(a) + RenderParts(b)
    decreases |b|
  {
    if b == [] {
      assert a + b == a;
    } else {
      var init, last := b[..|b| - 1], b[|b| - 1];
      RenderPartsAppend(a, init);
      assert (a + b)[..|a + b| - 1] == a + init;
      assert (a + b)[|a + b| - 1] == last;
      assert RenderParts(a + b) == RenderParts(a + init) + RenderPart(last);
      assert RenderParts(b) == RenderParts(init) + RenderPart(last);
      Seqs.Assoc(RenderParts(a), RenderParts(init), RenderPart(last));
    }
  }

  /** A chain renders as its five segments one after the other. */
  lemma ChainRendered(col: ColumnDefinition, typeCall: string, defaultArg: string)
    ensures RenderParts(ChainParts(col, typeCall, defaultArg))
      == RenderPart(WithColumn(col.name, typeCall)) + RenderParts(IdentityPart(col)) + RenderParts(KeyPart(col))
         + RenderParts(NullablePart(col)) + RenderParts(DefaultPart(col, defaultArg))
  {
    var w := [WithColumn(col.name, typeCall)];
    assert RenderParts(w) == RenderPart(w[0]) by {
      assert w[..0] == [];
    }
    RenderPartsAppend(w, IdentityPart(col));
    RenderPartsAppend(w + IdentityPart(col), KeyPart(col));
    RenderPartsAppend(w + IdentityPart(col) + KeyPart(col), NullablePart(col));
    RenderPartsAppend(w + IdentityPart(col) + KeyPart(col) + NullablePart(col), DefaultPart(col, defaultArg));
  }

  /** Every column code opens with `.WithColumn("<name>")`, which UpdateTable rewrites. */
  lemma ColumnCodeHead(opts: Options, ext: Extensions, col: ColumnDefinition)
    ensures |ColumnCode(opts, ext, col)| >= |".WithColumn(\""|
    ensures ColumnCode(opts, ext, col)[..|".WithColumn(\""|] == ".WithColumn(\""
  {
    ChainHead(col, MigrationTypeFunction(opts, col), DefaultArgument(ext, col));
  }

  lemma ChainHead(col: ColumnDefinition, typeCall: string, defaultArg: string)
    ensures |RenderParts(ChainParts(col, typeCall, defaultArg))| >= |".WithColumn(\""|
    ensures RenderParts(ChainParts(col, typeCall, defaultArg))[..|".WithColumn(\""|] == ".WithColumn(\""
  {
    var ps := ChainParts(col, typeCall, defaultArg);
    assert ps[0] == WithColumn(col.name, typeCall);
    RenderPartsPrefix(ps);
    WithColumnOpens(col.name, typeCall);
    var r, h := RenderParts(ps), RenderPart(ps[0]);
    assert r[..|h|][..|".WithColumn(\""|] == r[..|".WithColumn(\""|];
  }

  lemma WithColumnOpens(name: string, typeCall: string)
    ensures |RenderPart(WithColumn(name, typeCall))| >= |".WithColumn(\""|
    ensures RenderPart(WithColumn(name, typeCall))[..|".WithColumn(\""|] == ".WithColumn(\""
  {
    var open, rest := ".WithColumn(\"", name + "\")." + typeCall;
    assert RenderPart(WithColumn(name, typeCall)) == open + rest;
    Seqs.PrefixOfAppend(open, rest, |open|);
  }

  lemma {:induction false} RenderPartsPrefix(ps: seq<ColumnPart>)
    requires ps != [] && ps[0].WithColumn?
    ensures |RenderParts(ps)| >= |RenderPart(ps[0])|
    ensures RenderParts(ps)[..|RenderPart(ps[0])|] == RenderPart(ps[0])
    decreases |ps|
  {
    var h := RenderPart(ps[0]);
    if |ps| > 1 {
      var init := ps[..|ps| - 1];
      RenderPartsPrefix(init);
      assert init[0] == ps[0];
      assert RenderParts(ps) == RenderParts(init) + RenderPart(ps[|ps| - 1]);
      Seqs.PrefixOfAppend(RenderParts(init), RenderPart(ps[|ps| - 1]), |h|);
    } else {
      assert ps[..0] == [];
      assert RenderParts(ps) == "" + h;
      assert "" + h == h;
    }
  }

  // ---------------------------------------------------------------------------------------
  // Indexes

  /** `.OnColumn("<name>").<Direction>()` for one index column. */
  function IndexColumnClause(c: IndexColumnDefinition): string
  {
    (".OnColumn(\"" + c.name + "\")") + ("." + DirectionName(c.direction) + "()")
  }

  function IndexColumnClauses(cs: seq<IndexColumnDefinition>): string
  {
    if cs == [] then "" else IndexColumnClauses(cs[..|cs| - 1]) + IndexColumnClause(cs[|cs| - 1])
  }

  /** The part of GetCreateIndexCode before the column clauses. */
  function IndexHeader(ix: IndexDefinition): string
  {
    "Create.Index(\"" + ix.name + "\").OnTable(\"" + ix.tableName + "\")"
    + (if ix.isUnique then ".WithOptions().Unique()" else "")
    + (if ix.isClustered then ".WithOptions().Clustered()" else "")
  }

  /** GetCreateIndexCode: the `Create.Index(...)` statement of an index. */
  function IndexCode(ix: IndexDefinition): string
  {
    IndexHeader(ix) + IndexColumnClauses(ix.columns) + ";"
  }

  /** The column clauses are empty for no columns and otherwise start with `.OnColumn(`. */
  lemma {:induction false} IndexColumnClausesHead(cs: seq<IndexColumnDefinition>)
    ensures cs == [] <==> IndexColumnClauses(cs) == ""
    ensures cs != [] ==> |IndexColumnClauses(cs)| > 1 && IndexColumnClauses(cs)[0] == '.' && IndexColumnClauses(cs)[1] == 'O'
    decreases |cs|
  {
    if cs != [] {
      var pre := IndexColumnClauses(cs[..|cs| - 1]);
      var c := IndexColumnClause(cs[|cs| - 1]);
      IndexColumnClausesHead(cs[..|cs| - 1]);
      assert c[0] == '.' && c[1] == 'O';
      assert (pre + c)[0] == (if pre == "" then c[0] else pre[0]);
      assert (pre + c)[1] == (if pre == "" then c[1] else pre[1]);
    }
  }

  /** What follows the Unique option in GetCreateIndexCode: the Clustered option, the column clauses and `;`. */
  function ClusteredTail(isClustered: bool, cs: seq<IndexColumnDefinition>): (r: string)
    ensures |r| > 0
    ensures isClustered ==> |r| > 15 && r[0] == '.' && r[1] == 'W' && r[15] == 'C'
    ensures !isClustered ==> (r[0] == ';' && |r| == 1) || (|r| > 1 && r[0] == '.' && r[1] == 'O')
  {
    IndexColumnClausesHead(cs);
    (if isClustered then ".WithOptions().Clustered()" else "") + IndexColumnClauses(cs) + ";"
  }

  /** The Unique option never starts the rest of an index statement. */
  lemma UniqueNotClusteredTail(k: string, isClustered: bool, cs: seq<IndexColumnDefinition>)
    ensures ".WithOptions().Unique()" + k != ClusteredTail(isClustered, cs)
  {
    var t := ".WithOptions().Unique()" + k;
    assert t[0] == '.' && t[1] == 'W' && t[15] == 'U';
  }

  /** GetCreateIndexCode as its name and table part followed by the option and column part. */
  lemma IndexCodeParts(ix: IndexDefinition)
    ensures IndexCode(ix) == "Create.Index(\"" + ix.name + "\").OnTable(\"" + ix.tableName + "\")"
      + ((if ix.isUnique then ".WithOptions().Unique()" else "") + ClusteredTail(ix.isClustered, ix.columns))
  {
    var p := "Create.Index(\"" + ix.name + "\").OnTable(\"" + ix.tableName + "\")";
    var u := if ix.isUnique then ".WithOptions().Unique()" else "";
    var k := if ix.isClustered then ".WithOptions().Clustered()" else "";
    var cols := IndexColumnClauses(ix.columns);
    Seqs.Assoc(p + u + k, cols, ";");
    Seqs.Assoc(k, cols, ";");
    Seqs.Assoc(p + u, k, cols + ";");
    Seqs.Assoc(p, u, k + (cols + ";"));
  }

  lemma PrefixCancel(p: string, x: string, y: string)
    requires p + x == p + y
    ensures x == y
  {
    assert x == (p + x)[|p|..];
    assert y == (p + y)[|p|..];
  }

  /**
   * The options read back from the code: two indexes of the same name on the same table whose
   * Create.Index statements are equal agree on Unique and on Clustered.
   */
  lemma IndexOptionsReadBack(a: IndexDefinition, b: IndexDefinition)
    requires a.name == b.name && a.tableName == b.tableName
    requires IndexCode(a) == IndexCode(b)
    ensures a.isUnique == b.isUnique && a.isClustered == b.isClustered
  {
    var p := "Create.Index(\"" + a.name + "\").OnTable(\"" + a.tableName + "\")";
    var u := ".WithOptions().Unique()";
    var ka, kb := ClusteredTail(a.isClustered, a.columns), ClusteredTail(b.isClustered, b.columns);
    IndexCodeParts(a);
    IndexCodeParts(b);
    PrefixCancel(p, (if a.isUnique then u else "") + ka, (if b.isUnique then u else "") + kb);
    UniqueNotClusteredTail(ka, b.isClustered, b.columns);
    UniqueNotClusteredTail(kb, a.isClustered, a.columns);
    if a.isUnique && b.isUnique {
      PrefixCancel(u, ka, kb);
    } else if !a.isUnique && !b.isUnique {
      assert "" + ka == ka && "" + kb == kb;
    }
  }

  /** The name of the index a column flag declares (GetNonColumnIndexes' projection). */
  function DeclaredIndexName(col: ColumnDefinition): string
  {
    if col.isPrimaryKey then col.primaryKeyName else col.indexName
  }

  predicate DeclaresIndex(col: ColumnDefinition)
  {
    col.isPrimaryKey || col.isUnique || col.isIndexed
  }

  /** The names of the indexes declared by the columns' own flags. */
  function ColumnIndexNames(cols: seq<ColumnDefinition>): (r: seq<string>)
    ensures forall n :: n in r <==> exists c :: c in cols && DeclaresIndex(c) && DeclaredIndexName(c) == n
  {
    if cols == [] then []
    else
      (if DeclaresIndex(cols[0]) then [DeclaredIndexName(cols[0])] else [])
      + ColumnIndexNames(cols[1..])
  }

  /** GetNonColumnIndexes: the indexes of a table that no column flag declares. */
  function NonColumnIndexes(t: TableDefinition): seq<IndexDefinition>
  {
    var declared := ColumnIndexNames(t.columns);
    Seqs.Where(t.indexes, (ix: IndexDefinition) => ix.name !in declared)
  }
  /**
   * Names are unique where UpdateTable builds a dictionary from them (`ToDictionary` throws
   * on a repeated key): the columns, the indexes no column declares, and the foreign keys.
   */
  predicate WellFormedTable(t: TableDefinition)
  {
    && Seqs.Distinct(ColumnNames(t.columns))
    && Seqs.Distinct(IndexNames(NonColumnIndexes(t)))
    && Seqs.Distinct(ForeignKeyNames(t.foreignKeys))
  }

  /** A snapshot with unique table names and well-formed tables. */
  predicate WellFormed(db: Snapshot)
  {
    && Seqs.Distinct(TableNames(db.tables))
    && forall i :: 0 <= i < |db.tables| ==> WellFormedTable(db.tables[i])
  }

  /**
   * The non-column indexes are exactly the table's indexes whose name no flagged column
   * declares, each as often as the table has it, in their original order.
   */
  lemma NonColumnIndexesExact(t: TableDefinition)
    ensures forall ix :: ix in NonColumnIndexes(t) <==>
      ix in t.indexes && forall c :: c in t.columns && DeclaresIndex(c) ==> DeclaredIndexName(c) != ix.name
    ensures forall ix ::
      multiset(NonColumnIndexes(t))[ix] == if ix.name in ColumnIndexNames(t.columns) then 0 else multiset(t.indexes)[ix]
    ensures Seqs.IsSubsequence(NonColumnIndexes(t), t.indexes)
  {
    var declared := ColumnIndexNames(t.columns);
    var p := (ix: IndexDefinition) => ix.name !in declared;
    Seqs.WhereIsSubsequence(t.indexes, p);
    forall ix ensures multiset(NonColumnIndexes(t))[ix] == if ix.name in declared then 0 else multiset(t.indexes)[ix] {
      Seqs.WhereCounts(t.indexes, p, ix);
    }
  }

  /** A declared index name is exactly a name that some column's key part carries. */
  lemma DeclaredNamesAreKeyParts(opts: Options, ext: Extensions, t: TableDefinition, n: string)
    ensures n in ColumnIndexNames(t.columns) <==>
      exists c :: c in t.columns &&
        (PrimaryKey(n) in ColumnParts(opts, ext, c) || Unique(n) in ColumnParts(opts, ext, c) || Indexed(n) in ColumnParts(opts, ext, c))
  {
    forall c | c in t.columns
      ensures (DeclaresIndex(c) && DeclaredIndexName(c) == n) <==>
        (PrimaryKey(n) in ColumnParts(opts, ext, c) || Unique(n) in ColumnParts(opts, ext, c) || Indexed(n) in ColumnParts(opts, ext, c))
    {
      ColumnKeyPart(opts, ext, c);
      var ps := ColumnParts(opts, ext, c);
      forall p | p in ps && IsKeyPart(p) ensures p in KeyParts(ps) { }
      if DeclaresIndex(c) && DeclaredIndexName(c) == n {
        assert KeyParts(ps)[0] in ps;
      }
    }
  }

  // ---------------------------------------------------------------------------------------
  // Foreign keys

  /** ToStringArray: `{"a", "b"}`. */
  function QuotedList(cols: seq<string>): string
  {
    if cols == [] then ""
    else if |cols| == 1 then "\"" + cols[0] + "\""
    else "\"" + cols[0] + "\", " + QuotedList(cols[1..])
  }

  function ToStringArray(cols: seq<string>): string
  {
    "{" + QuotedList(cols) + "}"
  }

  /** The rule clauses: one combined clause when both rules agree, otherwise one per set rule. */
  function RuleLines(fk: ForeignKeyDefinition): seq<string>
  {
    if fk.onDelete != RuleNone && fk.onDelete == fk.onUpdate then
      [".OnDeleteOrUpdate(System.Data.Rule." + RuleName(fk.onDelete) + ")"]
    else
      (if fk.onDelete != RuleNone then [".OnDelete(System.Data.Rule." + RuleName(fk.onDelete) + ")"] else [])
      + (if fk.onUpdate != RuleNone then [".OnUpdate(System.Data.Rule." + RuleName(fk.onUpdate) + ")"] else [])
  }

  /** The lines naming the key, its two tables and their columns. */
  function ForeignKeyHeadLines(fk: ForeignKeyDefinition): seq<string>
  {
    [ "Create.ForeignKey(\"" + fk.name + "\")",
      ".FromTable(\"" + fk.foreignTable + "\")",
      if |fk.foreignColumns| == 1 then ".ForeignColumn(\"" + fk.foreignColumns[0] + "\")"
      else "ForeignColumns(" + ToStringArray(fk.foreignColumns) + ")",
      ".ToTable(\"" + fk.primaryTable + "\")",
      if |fk.primaryColumns| == 1 then ".PrimaryColumn(\"" + fk.primaryColumns[0] + "\")"
      else ".PrimaryColumns(" + ToStringArray(fk.primaryColumns) + ")"
    ]
  }

  /** The lines GetCreateForeignKeyCode buffers. */
  function ForeignKeyLines(fk: ForeignKeyDefinition): seq<string>
  {
    ForeignKeyHeadLines(fk) + RuleLines(fk)
  }

  /** The text a buffer holds after WriteLine of each line: every line ends with a newline. */
  function BufferText(lines: seq<string>): string
  {
    if lines == [] then "" else BufferText(lines[..|lines| - 1]) + lines[|lines| - 1] + NewLine
  }

  /** The lines joined with a newline between consecutive ones. */
  function JoinLines(lines: seq<string>): string
  {
    if lines == [] then ""
    else if |lines| == 1 then lines[0]
    else JoinLines(lines[..|lines| - 1]) + NewLine + lines[|lines| - 1]
  }

  /** GetCreateForeignKeyCode: the buffered lines, without the final newline, then `;`. */
  function ForeignKeyCode(fk: ForeignKeyDefinition): string
  {
    JoinLines(ForeignKeyLines(fk)) + ";"
  }

  /** Removing the newline after the last line of a buffer leaves the lines joined by newlines. */
  lemma {:induction false} BufferTextTrim(lines: seq<string>)
    requires lines != []
    ensures |BufferText(lines)| >= |NewLine|
    ensures BufferText(lines)[..|BufferText(lines)| - |NewLine|] == JoinLines(lines)
  {
    var init := lines[..|lines| - 1];
    if |lines| == 1 {
      assert init == [];
    } else {
      BufferTextTrim(init);
      var b := BufferText(init);
      assert b == b[..|b| - |NewLine|] + NewLine;
    }
  }

  /** A buffer's text is empty exactly when nothing was written to it. */
  lemma {:induction false} BufferTextEmpty(lines: seq<string>)
    ensures |BufferText(lines)| == 0 <==> lines == []
  {
  }

  /** The three kinds of rule clause never coincide, whatever rules they name. */
  lemma RuleClausesDistinct(a: Rule, b: Rule)
    ensures ".OnDeleteOrUpdate(System.Data.Rule." + RuleName(a) + ")" != ".OnDelete(System.Data.Rule." + RuleName(b) + ")"
    ensures ".OnDeleteOrUpdate(System.Data.Rule." + RuleName(a) + ")" != ".OnUpdate(System.Data.Rule." + RuleName(b) + ")"
    ensures ".OnDelete(System.Data.Rule." + RuleName(a) + ")" != ".OnUpdate(System.Data.Rule." + RuleName(b) + ")"
  {
    var both := ".OnDeleteOrUpdate(System.Data.Rule." + RuleName(a) + ")";
    var del := ".OnDelete(System.Data.Rule." + RuleName(b) + ")";
    var upd := ".OnUpdate(System.Data.Rule." + RuleName(b) + ")";
    var del2 := ".OnDelete(System.Data.Rule." + RuleName(a) + ")";
    assert both[9] == 'O' && del[9] == '(';
    assert both[3] == 'D' && upd[3] == 'U';
    assert del2[3] == 'D';
  }

  /**
   * The rule clauses, stated outright: the combined OnDeleteOrUpdate clause exactly when both
   * rules are set and equal; the OnDelete clause alone exactly when only the delete rule is set;
   * the OnUpdate clause alone exactly when only the update rule is set; both, OnDelete first,
   * exactly when both are set and differ; none when neither is set.
   */
  lemma ForeignKeyRules(fk: ForeignKeyDefinition)
    ensures RuleLines(fk) == [".OnDeleteOrUpdate(System.Data.Rule." + RuleName(fk.onDelete) + ")"]
        <==> fk.onDelete != RuleNone && fk.onDelete == fk.onUpdate
    ensures RuleLines(fk) == [".OnDelete(System.Data.Rule." + RuleName(fk.onDelete) + ")"]
        <==> fk.onDelete != RuleNone && fk.onUpdate == RuleNone
    ensures RuleLines(fk) == [".OnUpdate(System.Data.Rule." + RuleName(fk.onUpdate) + ")"]
        <==> fk.onDelete == RuleNone && fk.onUpdate != RuleNone
    ensures RuleLines(fk) == [".OnDelete(System.Data.Rule." + RuleName(fk.onDelete) + ")",
                              ".OnUpdate(System.Data.Rule." + RuleName(fk.onUpdate) + ")"]
        <==> fk.onDelete != RuleNone && fk.onUpdate != RuleNone && fk.onDelete != fk.onUpdate
    ensures RuleLines(fk) == [] <==> fk.onDelete == RuleNone && fk.onUpdate == RuleNone
    ensures |RuleLines(fk)| == 2 <==> fk.onDelete != RuleNone && fk.onUpdate != RuleNone && fk.onDelete != fk.onUpdate
  {
    var both := ".OnDeleteOrUpdate(System.Data.Rule." + RuleName(fk.onDelete) + ")";
    var del := ".OnDelete(System.Data.Rule." + RuleName(fk.onDelete) + ")";
    var upd := ".OnUpdate(System.Data.Rule." + RuleName(fk.onUpdate) + ")";
    RuleClausesDistinct(fk.onDelete, fk.onDelete);
    RuleClausesDistinct(fk.onDelete, fk.onUpdate);
    if fk.onDelete != RuleNone && fk.onDelete == fk.onUpdate {
      assert RuleLines(fk) == [both];
    } else if fk.onDelete != RuleNone && fk.onUpdate == RuleNone {
      assert RuleLines(fk) == [del];
      assert [del] != [both] && [del][0] != upd;
    } else if fk.onDelete == RuleNone && fk.onUpdate != RuleNone {
      assert RuleLines(fk) == [upd];
      assert [upd][0] != both && [upd][0] != del;
    } else if fk.onDelete != RuleNone {
      assert RuleLines(fk) == [del, upd];
    } else {
      assert RuleLines(fk) == [];
    }
  }

  // ---------------------------------------------------------------------------------------
  // Removals

  function RemoveColumnCode(t: TableDefinition, colName: string): string
  {
    "Delete.Column(\"" + colName + "\").FromTable(\"" + t.name + "\").InSchema(\"" + t.schemaName + "\");"
  }

  function RemoveIndexCode(t: TableDefinition, indexName: string): string
  {
    "Delete.Index(\"" + indexName + "\").OnTable(\"" + t.name + "\");"
  }

  function RemoveForeignKeyCode(t: TableDefinition, fkName: string): string
  {
    "Delete.ForeignKey(\"" + fkName + "\").OnTable(\"" + t.name + "\").InSchema(\"" + t.schemaName + "\");"
  }
}
