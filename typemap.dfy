/**
 * Column type and default-value mapping of FmDiffMigrationWriter: a column's
 * DbType, size and precision become a Fluent Migrator type call such as `AsInt32()` or
 * `AsAnsiString(50)`, and a default literal becomes the argument of `WithDefaultValue(...)`.
 */
module TypeMap {
  import opened Wrappers
  import opened Text
  import opened Schema

  /** The writer's options that the mapping reads (IOptions.UseDeprecatedTypes). */
  datatype Options = Options(useDeprecatedTypes: bool)

  /**
   * The string extensions the mapping calls, whose code is not part of this model:
   * `CleanBracket` and `IsGuid`. `isGuid` yields the text `Guid.ToString()` gives for the
   * parsed identifier, or None when the literal does not parse.
   */
  datatype Extensions = Extensions(cleanBracket: string -> string, isGuid: string -> Option<string>)

  /** FluentMigrator's DbTypeSizes capacities of the large-object types (SQL Server values). */
  const AnsiTextCapacity: int := 2147483647
  const UnicodeTextCapacity: int := 1073741823
  const ImageCapacity: int := 2147483647

  /** `Guid.Empty.ToString()`. */
  const EmptyGuidText: string := "00000000-0000-0000-0000-000000000000"

  /** GetMigrationTypeSize: the size argument of a sized type call. */
  function MigrationTypeSize(t: Option<DbType>, size: int): string
  {
    if size == -1 then "int.MaxValue"
    else if t == Some(Binary) && size == ImageCapacity then "DbTypeSizes.ImageCapacity"
    else if t == Some(AnsiString) && size == AnsiTextCapacity then "DbTypeSizes.AnsiTextCapacity"
    else if t == Some(String) && size == UnicodeTextCapacity then "DbTypeSizes.UnicodeTextCapacity"
    else IntToString(size)
  }

  /** GetMigrationTypeFunctionForType: the type call of a column. */
  function MigrationTypeFunction(opts: Options, col: ColumnDefinition): string
  {
    var sizeStr := MigrationTypeSize(col.dbType, col.size);
    var precisionStr := if col.precision == -1 then "" else "," + IntToString(col.precision);
    match col.dbType
    case None => "AsCustom(" + col.customType + ")"
    case Some(t) =>
      match t
      case AnsiString =>
        if opts.useDeprecatedTypes && col.size == AnsiTextCapacity then "AsCustom(\"TEXT\")"
        else "AsAnsiString(" + sizeStr + ")"
      case AnsiStringFixedLength => "AsFixedLengthAnsiString(" + sizeStr + ")"
      case String =>
        if opts.useDeprecatedTypes && col.size == UnicodeTextCapacity then "AsCustom(\"NTEXT\")"
        else "AsString(" + sizeStr + ")"
      case StringFixedLength => "AsFixedLengthString(" + sizeStr + ")"
      case Binary =>
        if opts.useDeprecatedTypes && col.size == ImageCapacity then "AsCustom(\"IMAGE\")"
        else "AsBinary(" + sizeStr + ")"
      case Boolean => "AsBoolean()"
      case Byte => "AsByte()"
      case Currency => "AsCurrency()"
      case Date => "AsDate()"
      case DateTime => "AsDateTime()"
      case Decimal => "AsDecimal(" + sizeStr + precisionStr + ")"
      case Double => "AsDouble()"
      case Guid => "AsGuid()"
      case Int16 => "AsInt16()"
      case UInt16 => "AsInt16()"
      case Int32 => "AsInt32()"
      case UInt32 => "AsInt32()"
      case Int64 => "AsInt64()"
      case UInt64 => "AsInt64()"
      case Single => "AsFloat()"
      // every other kind keeps the initial value of the source's switch variable
      case _ => "AsString(" + sizeStr + ")"
  }

  /** The kinds whose default literal is passed through unquoted. */
  predicate IsNumericKind(t: DbType)
  {
    t in {Boolean, Byte, Currency, Decimal, Double, Int16, Int32, Int64, Single, UInt16, UInt32, UInt64}
  }

  predicate IsDateKind(t: DbType)
  {
    t in {DateTime, DateTime2, Date}
  }

  predicate IsCurrentTimeToken(s: string)
  {
    s == "current_time" || s == "current_date" || s == "current_timestamp"
  }

  /** `'` and `"` removed from a literal. */
  function StripQuotes(s: string): string
  {
    RemoveChar(RemoveChar(s, '\''), '"')
  }

  /**
   * GetColumnDefaultValue: the default-value argument of a column with a non-null default.
   * None stands for the null the source returns for a Guid literal that does not parse.
   */
  function ColumnDefaultValue(ext: Extensions, col: ColumnDefinition): (r: Option<string>)
    requires col.defaultValue.Some?
    ensures r.None? <==> col.dbType == Some(Guid) && ext.isGuid(col.defaultValue.value).None?
  {
    var defValue := col.defaultValue.value;
    match col.dbType
    case Some(t) =>
      if IsNumericKind(t) then Some(ext.cleanBracket(StripQuotes(defValue)))
      else if t == Guid then
        match ext.isGuid(defValue)
        case None => None
        case Some(g) => if g == EmptyGuidText then Some("Guid.Empty") else Some("new System.Guid(\"" + g + "\")")
      else if IsDateKind(t) then
        if IsCurrentTimeToken(ToLower(defValue)) then Some("SystemMethods.CurrentDateTime")
        else Some("\"" + ext.cleanBracket(defValue) + "\"")
      else Some("\"" + defValue + "\"")
    case None => Some("\"" + defValue + "\"")
  }

  // ---------------------------------------------------------------------------------------
  // Properties of the type mapping

  function WithType(col: ColumnDefinition, t: DbType): ColumnDefinition
  {
    col.(dbType := Some(t))
  }

  /** Signed and unsigned integers of one width map to the same call. */
  lemma IntegerWidthsCollapse(opts: Options, col: ColumnDefinition)
    ensures MigrationTypeFunction(opts, WithType(col, Int16)) == MigrationTypeFunction(opts, WithType(col, UInt16)) == "AsInt16()"
    ensures MigrationTypeFunction(opts, WithType(col, Int32)) == MigrationTypeFunction(opts, WithType(col, UInt32)) == "AsInt32()"
    ensures MigrationTypeFunction(opts, WithType(col, Int64)) == MigrationTypeFunction(opts, WithType(col, UInt64)) == "AsInt64()"
  {
    TypeCallOf(opts, col, Int16, "AsInt16()");
    TypeCallOf(opts, col, UInt16, "AsInt16()");
    TypeCallOf(opts, col, Int32, "AsInt32()");
    TypeCallOf(opts, col, UInt32, "AsInt32()");
    TypeCallOf(opts, col, Int64, "AsInt64()");
    TypeCallOf(opts, col, UInt64, "AsInt64()");
  }

  /** The type call of an integer kind, whatever the rest of the column. */
  lemma TypeCallOf(opts: Options, col: ColumnDefinition, t: DbType, call: string)
    requires t in {Int16, UInt16, Int32, UInt32, Int64, UInt64}
    requires call == (if t == Int16 || t == UInt16 then "AsInt16()" else if t == Int32 || t == UInt32 then "AsInt32()" else "AsInt64()")
    ensures MigrationTypeFunction(opts, WithType(col, t)) == call
  {
  }

  /** A column whose type the reader could not map carries its raw type name. */
  lemma NullTypeIsCustom(opts: Options, col: ColumnDefinition)
    requires col.dbType.None?
    ensures MigrationTypeFunction(opts, col) == "AsCustom(" + col.customType + ")"
  {
  }

  /** A size of -1 (unlimited) is always written as `int.MaxValue`. */
  lemma UnlimitedSize(t: Option<DbType>)
    ensures MigrationTypeSize(t, -1) == "int.MaxValue"
  {
  }

  /** A size that is neither -1 nor a capacity sentinel is written as the number, which reads back. */
  lemma PlainSizeReadsBack(t: Option<DbType>, size: int)
    requires size != -1
    requires !(t == Some(Binary) && size == ImageCapacity)
    requires !(t == Some(AnsiString) && size == AnsiTextCapacity)
    requires !(t == Some(String) && size == UnicodeTextCapacity)
    ensures ParseInt(MigrationTypeSize(t, size)) == Some(size)
  {
    IntToStringRoundTrip(size);
  }

  /**
   * Reads a size argument back: the inverse of MigrationTypeSize for a known kind, so the
   * rendered size loses no information.
   */
  function ReadMigrationTypeSize(t: Option<DbType>, text: string): Option<int>
  {
    if text == "int.MaxValue" then Some(-1)
    else if text == "DbTypeSizes.ImageCapacity" && t == Some(Binary) then Some(ImageCapacity)
    else if text == "DbTypeSizes.AnsiTextCapacity" && t == Some(AnsiString) then Some(AnsiTextCapacity)
    else if text == "DbTypeSizes.UnicodeTextCapacity" && t == Some(String) then Some(UnicodeTextCapacity)
    else ParseInt(text)
  }

  lemma MigrationTypeSizeRoundTrip(t: Option<DbType>, size: int)
    ensures ReadMigrationTypeSize(t, MigrationTypeSize(t, size)) == Some(size)
  {
    var text := MigrationTypeSize(t, size);
    if text == IntToString(size) {
      IntToStringHead(size);
      IntToStringRoundTrip(size);
      assert "int.MaxValue"[0] == 'i';
      assert "DbTypeSizes.ImageCapacity"[0] == 'D';
      assert "DbTypeSizes.AnsiTextCapacity"[0] == 'D';
      assert "DbTypeSizes.UnicodeTextCapacity"[0] == 'D';
    }
  }

  /** The size text determines the size: a changed size always changes the text. */
  lemma MigrationTypeSizeInjective(t: Option<DbType>, s1: int, s2: int)
    requires MigrationTypeSize(t, s1) == MigrationTypeSize(t, s2)
    ensures s1 == s2
  {
    MigrationTypeSizeRoundTrip(t, s1);
    MigrationTypeSizeRoundTrip(t, s2);
  }

  /**
   * The deprecated large-object calls: with UseDeprecatedTypes set and the size equal to the
   * kind's capacity, AnsiString, String and Binary become TEXT, NTEXT and IMAGE; otherwise each
   * keeps its sized call.
   */
  lemma DeprecatedLargeObjects(opts: Options, col: ColumnDefinition)
    ensures col.dbType == Some(AnsiString) ==>
      MigrationTypeFunction(opts, col) ==
        if opts.useDeprecatedTypes && col.size == AnsiTextCapacity then "AsCustom(\"TEXT\")"
        else "AsAnsiString(" + MigrationTypeSize(col.dbType, col.size) + ")"
    ensures col.dbType == Some(String) ==>
      MigrationTypeFunction(opts, col) ==
        if opts.useDeprecatedTypes && col.size == UnicodeTextCapacity then "AsCustom(\"NTEXT\")"
        else "AsString(" + MigrationTypeSize(col.dbType, col.size) + ")"
    ensures col.dbType == Some(Binary) ==>
      MigrationTypeFunction(opts, col) ==
        if opts.useDeprecatedTypes && col.size == ImageCapacity then "AsCustom(\"IMAGE\")"
        else "AsBinary(" + MigrationTypeSize(col.dbType, col.size) + ")"
  {
  }

  /** Decimal carries `,precision` after the size exactly when the precision is not -1. */
  lemma DecimalPrecision(opts: Options, col: ColumnDefinition)
    requires col.dbType == Some(Decimal)
    ensures col.precision == -1 ==>
      MigrationTypeFunction(opts, col) == "AsDecimal(" + MigrationTypeSize(col.dbType, col.size) + ")"
    ensures col.precision != -1 ==>
      MigrationTypeFunction(opts, col)
        == "AsDecimal(" + MigrationTypeSize(col.dbType, col.size) + "," + IntToString(col.precision) + ")"
  {
  }

  /** The kinds the source's switch does not list fall back to `AsString(size)`. */
  lemma UnlistedKindsAreStrings(opts: Options, col: ColumnDefinition)
    requires col.dbType.Some? && col.dbType.value in {Object, SByte, Time, VarNumeric, Xml, DateTime2, DateTimeOffset}
    ensures MigrationTypeFunction(opts, col) == "AsString(" + MigrationTypeSize(col.dbType, col.size) + ")"
  {
  }

  /** The kinds whose type call carries a size. */
  predicate IsSizedKind(t: DbType)
  {
    t in {AnsiString, AnsiStringFixedLength, String, StringFixedLength, Binary}
  }

  /** The text before the size in the sized call of a kind. */
  function SizedPrefix(t: DbType): string
  {
    match t
    case AnsiString => "AsAnsiString("
    case AnsiStringFixedLength => "AsFixedLengthAnsiString("
    case StringFixedLength => "AsFixedLengthString("
    case Binary => "AsBinary("
    case _ => "AsString("
  }

  /**
   * Reads the size back from the type call of a sized kind: the inverse of
   * MigrationTypeFunction on the size.
   */
  function ReadTypeCallSize(t: DbType, call: string): Option<int>
  {
    var p := SizedPrefix(t);
    if t == AnsiString && call == "AsCustom(\"TEXT\")" then Some(AnsiTextCapacity)
    else if t == String && call == "AsCustom(\"NTEXT\")" then Some(UnicodeTextCapacity)
    else if t == Binary && call == "AsCustom(\"IMAGE\")" then Some(ImageCapacity)
    else if |call| > |p| && call[..|p|] == p && call[|call| - 1] == ')' then
      ReadMigrationTypeSize(Some(t), call[|p|..|call| - 1])
    else None
  }

  lemma TypeCallSizeRoundTrip(opts: Options, col: ColumnDefinition)
    requires col.dbType.Some? && IsSizedKind(col.dbType.value)
    ensures ReadTypeCallSize(col.dbType.value, MigrationTypeFunction(opts, col)) == Some(col.size)
  {
    var t := col.dbType.value;
    var call := MigrationTypeFunction(opts, col);
    var sizeStr := MigrationTypeSize(col.dbType, col.size);
    MigrationTypeSizeRoundTrip(col.dbType, col.size);
    if call == SizedPrefix(t) + sizeStr + ")" {
      SizedCallReadsBack(t, sizeStr, col.size);
    }
  }

  lemma SizedCallReadsBack(t: DbType, sizeStr: string, size: int)
    requires IsSizedKind(t)
    requires ReadMigrationTypeSize(Some(t), sizeStr) == Some(size)
    ensures ReadTypeCallSize(t, SizedPrefix(t) + sizeStr + ")") == Some(size)
  {
    var p := SizedPrefix(t);
    SizedPrefixIsNotCustom(t);
    CallSlices(p, sizeStr);
    var call := p + sizeStr + ")";
    assert call[2] == p[2];
    assert "AsCustom("[2] == 'C';
  }

  /** No sized call starts like `AsCustom(`. */
  lemma SizedPrefixIsNotCustom(t: DbType)
    ensures |SizedPrefix(t)| > 2 && SizedPrefix(t)[2] != 'C'
  {
  }

  /** A call `p + arg + ")"` splits back into its prefix, its argument and the parenthesis. */
  lemma CallSlices(p: string, arg: string)
    ensures var call := p + arg + ")";
      |call| > |p| && call[..|p|] == p && call[|call| - 1] == ')' && call[|p|..|call| - 1] == arg
  {
    var call := p + arg + ")";
    assert call[..|p|] == p;
    assert call[|p|..|call| - 1] == arg;
  }

  /**
   * Changing only the size of a sized text or binary column always changes its type call,
   * so the diff of column codes sees the change.
   */
  lemma SizeChangeIsVisible(opts: Options, col: ColumnDefinition, size: int)
    requires col.dbType.Some? && IsSizedKind(col.dbType.value)
    requires size != col.size
    ensures MigrationTypeFunction(opts, col) != MigrationTypeFunction(opts, col.(size := size))
  {
    TypeCallSizeRoundTrip(opts, col);
    TypeCallSizeRoundTrip(opts, col.(size := size));
  }

  // ---------------------------------------------------------------------------------------
  // Properties of the default-value mapping

  /**
   * For Date, DateTime and DateTime2 a default equal to current_time, current_date or
   * current_timestamp in any letter case becomes `SystemMethods.CurrentDateTime`, and any
   * other literal becomes a quoted string.
   */
  lemma CurrentTimeDefault(ext: Extensions, col: ColumnDefinition)
    requires col.defaultValue.Some? && col.dbType.Some? && IsDateKind(col.dbType.value)
    ensures ColumnDefaultValue(ext, col) == Some("SystemMethods.CurrentDateTime")
        <==> IsCurrentTimeToken(ToLower(col.defaultValue.value))
    ensures !IsCurrentTimeToken(ToLower(col.defaultValue.value)) ==>
      ColumnDefaultValue(ext, col) == Some("\"" + ext.cleanBracket(col.defaultValue.value) + "\"")
  {
    if !IsCurrentTimeToken(ToLower(col.defaultValue.value)) {
      var r := ColumnDefaultValue(ext, col).value;
      assert r[0] == '"';
      assert "SystemMethods.CurrentDateTime"[0] == 'S';
    }
  }

  /** `CURRENT_TIMESTAMP`, as a database reports it, is recognised as the current moment. */
  lemma UpperCaseTimestampDefault(ext: Extensions, col: ColumnDefinition)
    requires col.dbType == Some(DateTime) && col.defaultValue == Some("CURRENT_TIMESTAMP")
    ensures ColumnDefaultValue(ext, col) == Some("SystemMethods.CurrentDateTime")
  {
    UpperCaseTimestampLower(col.defaultValue.value);
  }

  lemma UpperCaseTimestampLower(u: string)
    requires u == "CURRENT_TIMESTAMP"
    ensures IsCurrentTimeToken(ToLower(u))
  {
    var l, e := ToLower(u), "current_timestamp";
    assert l[0] == e[0]; assert l[1] == e[1]; assert l[2] == e[2]; assert l[3] == e[3];
    assert l[4] == e[4]; assert l[5] == e[5]; assert l[6] == e[6]; assert l[7] == e[7];
    assert l[8] == e[8]; assert l[9] == e[9]; assert l[10] == e[10]; assert l[11] == e[11];
    assert l[12] == e[12]; assert l[13] == e[13]; assert l[14] == e[14]; assert l[15] == e[15];
    assert l[16] == e[16];
    assert l == e;
  }

  /**
   * Guid defaults: the all-zero identifier becomes `Guid.Empty`, another parsed identifier a
   * `new System.Guid(...)` expression, and a literal that does not parse yields no value.
   */
  lemma GuidDefault(ext: Extensions, col: ColumnDefinition)
    requires col.defaultValue.Some? && col.dbType == Some(Guid)
    ensures ext.isGuid(col.defaultValue.value) == None ==> ColumnDefaultValue(ext, col) == None
    ensures ext.isGuid(col.defaultValue.value) == Some(EmptyGuidText) ==> ColumnDefaultValue(ext, col) == Some("Guid.Empty")
    ensures forall g :: ext.isGuid(col.defaultValue.value) == Some(g) && g != EmptyGuidText ==>
      ColumnDefaultValue(ext, col) == Some("new System.Guid(\"" + g + "\")")
  {
  }

  /** Numeric defaults are passed to CleanBracket with every `'` and `"` removed. */
  lemma NumericDefaultUnquoted(ext: Extensions, col: ColumnDefinition)
    requires col.defaultValue.Some? && col.dbType.Some? && IsNumericKind(col.dbType.value)
    ensures ColumnDefaultValue(ext, col) == Some(ext.cleanBracket(StripQuotes(col.defaultValue.value)))
    ensures '\'' !in StripQuotes(col.defaultValue.value) && '"' !in StripQuotes(col.defaultValue.value)
    ensures forall c :: c != '\'' && c != '"' ==> (c in StripQuotes(col.defaultValue.value) <==> c in col.defaultValue.value)
    ensures multiset(StripQuotes(col.defaultValue.value)) == multiset(col.defaultValue.value)['\'' := 0]['"' := 0]
  {
    var v := col.defaultValue.value;
    RemoveCharCounts(v, '\'');
    RemoveCharCounts(RemoveChar(v, '\''), '"');
  }

  /** Quote stripping works piece by piece and keeps every other character in place. */
  lemma StripQuotesAppend(s1: string, s2: string)
    ensures StripQuotes(s1 + s2) == StripQuotes(s1) + StripQuotes(s2)
  {
    RemoveCharAppend(s1, s2, '\'');
    RemoveCharAppend(RemoveChar(s1, '\''), RemoveChar(s2, '\''), '"');
  }

  /** A single character survives quote stripping exactly when it is not a quote. */
  lemma StripQuotesOne(d: char)
    ensures StripQuotes([d]) == if d == '\'' || d == '"' then [] else [d]
  {
    RemoveCharOne(d, '\'');
    if d != '\'' {
      RemoveCharOne(d, '"');
    }
  }

  /** Every kind not numeric, Guid or date-like, and a column of unmapped type, gets the literal quoted as it is. */
  lemma OtherDefaultsQuoted(ext: Extensions, col: ColumnDefinition)
    requires col.defaultValue.Some?
    requires col.dbType.Some? ==> !IsNumericKind(col.dbType.value) && col.dbType.value != Guid && !IsDateKind(col.dbType.value)
    ensures ColumnDefaultValue(ext, col) == Some("\"" + col.defaultValue.value + "\"")
  {
  }
}
