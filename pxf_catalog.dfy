/**
 * The PXF foreign-data wrapper's static option catalog: the option names it
 * knows, the two tables that bind each to the one catalog in which it may be
 * declared, the lookups over those tables, and the errors the option code
 * raises.
 */
module PxfCatalog {
  import opened Wrappers
  import opened OptionLists

  /** The system catalog holding the object an option is declared on. */
  datatype Level =
    | Wrapper       // ForeignDataWrapperRelationId
    | Server        // ForeignServerRelationId
    | UserMapping   // UserMappingRelationId
    | ForeignTable  // ForeignTableRelationId
    | Attribute     // AttributeRelationId: options of one column

  const OptionProtocol := "protocol"
  const OptionResource := "resource"
  const OptionFormat := "format"
  const OptionRejectLimitType := "reject_limit_type"
  const OptionRejectLimit := "reject_limit"
  const OptionWireFormat := "wire_format"
  const OptionPxfPort := "pxf_port"
  const OptionPxfHost := "pxf_host"
  const OptionPxfProtocol := "pxf_protocol"

  const FormatText := "text"
  const FormatCsv := "csv"
  const FormatRc := "rc"

  const RejectLimitRows := "rows"
  const RejectLimitPercent := "percent"

  const ForceNotNull := "force_not_null"
  const ForceNull := "force_null"

  /**
   * The names and values the wrapper's header defines; their values are not
   * part of this model, so every operation takes them as a parameter.
   */
  datatype Header = Header(
    textFormatName: string,          // TextFormatName
    gpdbWritableFormatName: string,  // GpdbWritableFormatName
    defaultHost: string,             // PXF_FDW_DEFAULT_HOST
    defaultPort: int,                // PXF_FDW_DEFAULT_PORT
    defaultProtocol: string)         // PXF_FDW_DEFAULT_PROTOCOL

  /**
   * The core COPY code the copy-style options are handed to: whether a value
   * is a legal boolean (defGetBoolean) and whether ProcessCopyOptions accepts
   * the options passed on to it.
   */
  datatype CopyDelegate = CopyDelegate(isBoolean: string -> bool, accepts: seq<DefElem> -> bool)

  /** An option name and the catalog in which it may appear. */
  datatype PxfFdwOption = PxfFdwOption(optname: string, optcontext: Level)

  /** The wrapper's own options, each legal at exactly one level. */
  const ValidOptions: seq<PxfFdwOption> := [
    PxfFdwOption(OptionProtocol, Wrapper),
    PxfFdwOption(OptionResource, ForeignTable),
    PxfFdwOption(OptionFormat, ForeignTable),
    PxfFdwOption(OptionWireFormat, ForeignTable),
    PxfFdwOption(OptionRejectLimit, ForeignTable),
    PxfFdwOption(OptionRejectLimitType, ForeignTable)
  ]

  /** The COPY FROM options the wrapper passes on; the two force flags are column options. */
  const ValidCopyOptions: seq<PxfFdwOption> := [
    PxfFdwOption("format", ForeignTable),
    PxfFdwOption("header", ForeignTable),
    PxfFdwOption("delimiter", ForeignTable),
    PxfFdwOption("quote", ForeignTable),
    PxfFdwOption("escape", ForeignTable),
    PxfFdwOption("null", ForeignTable),
    PxfFdwOption("encoding", ForeignTable),
    PxfFdwOption("newline", ForeignTable),
    PxfFdwOption("fill_missing_fields", ForeignTable),
    PxfFdwOption(ForceNotNull, Attribute),
    PxfFdwOption(ForceNull, Attribute)
  ]

  /** The errors the option code raises, each with the fields its message is built from. */
  datatype Error =
    | WrongCatalogLevel(option: string, level: Level)  // option legal only at level
    | InvalidWireFormat(value: string)
    | InvalidRejectLimit(value: string)                // not a positive integer
    | InvalidRejectLimitType(value: string)
    | ProtocolRequired                                 // wrapper without protocol
    | ResourceRequired                                 // foreign table without resource
    | RowsRejectLimitTooSmall(limit: int)              // rows: must be 2 or larger
    | PercentRejectLimitOutOfRange(limit: int)         // percent: must be 1 to 100
    | InvalidOptionName(option: string, hint: string)  // not a COPY option of this catalog
    | RedundantOption(option: string)                  // force flag given twice
    | BooleanRequired(option: string)                  // defGetBoolean refused the value
    | CopyOptionsRejected                              // ProcessCopyOptions refused the options
    | InvalidPort(value: string)                       // pxf_port outside 1..65534

  /** The SQLSTATE class each error is reported with. */
  datatype ErrorCode =
    | FdwInvalidOptionName
    | FdwInvalidAttributeValue
    | FdwInvalidStringFormat
    | FdwDynamicParameterValueNeeded
    | SyntaxError
    | CopyCode        // whatever ProcessCopyOptions reports
    | InternalError   // elog(ERROR, ...)

  function Code(e: Error): ErrorCode
  {
    match e
    case WrongCatalogLevel(_, _) => FdwInvalidOptionName
    case InvalidWireFormat(_) => FdwInvalidAttributeValue
    case InvalidRejectLimit(_) => FdwInvalidStringFormat
    case InvalidRejectLimitType(_) => FdwInvalidStringFormat
    case ProtocolRequired => FdwDynamicParameterValueNeeded
    case ResourceRequired => FdwDynamicParameterValueNeeded
    case RowsRejectLimitTooSmall(_) => FdwInvalidStringFormat
    case PercentRejectLimitOutOfRange(_) => FdwInvalidStringFormat
    case InvalidOptionName(_, _) => FdwInvalidOptionName
    case RedundantOption(_) => SyntaxError
    case BooleanRequired(_) => SyntaxError
    case CopyOptionsRejected => CopyCode
    case InvalidPort(_) => InternalError
  }

  predicate Listed(table: seq<PxfFdwOption>, name: string)
  {
    exists i | 0 <= i < |table| :: table[i].optname == name
  }

  predicate ListedAt(table: seq<PxfFdwOption>, name: string, context: Level)
  {
    exists i | 0 <= i < |table| :: table[i].optname == name && table[i].optcontext == context
  }

  predicate UniqueNames(table: seq<PxfFdwOption>)
  {
    forall i, j | 0 <= i < j < |table| :: table[i].optname != table[j].optname
  }

  /** The context of the first entry called name, if any. */
  function ContextOf(table: seq<PxfFdwOption>, name: string): (r: Option<Level>)
    ensures r.None? <==> !Listed(table, name)
    ensures r.Some? ==> ListedAt(table, name, r.value)
  {
    if table == [] then None
    else if table[0].optname == name then Some(table[0].optcontext)
    else
      var r := ContextOf(table[1..], name);
      assert forall i | 1 <= i < |table| :: table[1..][i - 1] == table[i];
      r
  }

  /** In a table of unique names, every entry gives the context of its name. */
  lemma {:induction false} ContextOfEntry(table: seq<PxfFdwOption>, k: nat)
    requires UniqueNames(table) && k < |table|
    ensures ContextOf(table, table[k].optname) == Some(table[k].optcontext)
  {
    if k > 0 {
      assert UniqueNames(table[1..]) by {
        forall i, j | 0 <= i < j < |table| - 1
          ensures table[1..][i].optname != table[1..][j].optname
        {
          assert table[1..][i] == table[i + 1] && table[1..][j] == table[j + 1];
        }
      }
      assert table[0].optname != table[k].optname;
      ContextOfEntry(table[1..], k - 1);
    }
  }

  /** No name is bound to two catalogs in the wrapper's option table. */
  lemma ValidOptionsUnique()
    ensures UniqueNames(ValidOptions)
  {
    forall i, j | 0 <= i < j < |ValidOptions|
      ensures ValidOptions[i].optname != ValidOptions[j].optname
    {
      assert |ValidOptions[i].optname| != |ValidOptions[j].optname| ||
             ValidOptions[i].optname[0] != ValidOptions[j].optname[0];
    }
  }

  /** What ValidateOption raises for option declared in catalog, if anything. */
  function LevelError(option: string, catalog: Level): Option<Error>
  {
    match ContextOf(ValidOptions, option)
    case Some(context) => if context != catalog then Some(WrongCatalogLevel(option, context)) else None
    case None => None
  }

  /**
   * The level check: an option of the wrapper's table declared in a catalog
   * other than its own is refused, naming the catalog where it belongs;
   * declared there, or not in the table, it passes.
   */
  lemma LevelCheck(option: string, catalog: Level)
    ensures LevelError(option, catalog).Some? <==>
            exists i | 0 <= i < |ValidOptions| :: ValidOptions[i].optname == option && ValidOptions[i].optcontext != catalog
    ensures forall i | 0 <= i < |ValidOptions| && ValidOptions[i].optname == option && ValidOptions[i].optcontext != catalog ::
              LevelError(option, catalog) == Some(WrongCatalogLevel(option, ValidOptions[i].optcontext))
    ensures !Listed(ValidOptions, option) ==> LevelError(option, catalog).None?
  {
    ValidOptionsUnique();
    forall i | 0 <= i < |ValidOptions| && ValidOptions[i].optname == option
      ensures ContextOf(ValidOptions, option) == Some(ValidOptions[i].optcontext)
    {
      ContextOfEntry(ValidOptions, i);
    }
  }

  /**
   * ValidateOption: walks the wrapper's option table and refuses option when
   * the table binds it to a catalog other than catalog.
   */
  method ValidateOption(option: string, catalog: Level) returns (err: Option<Error>)
    ensures err == LevelError(option, catalog)
  {
    ValidOptionsUnique();
    var k := 0;
    while k < |ValidOptions|
      invariant 0 <= k <= |ValidOptions|
      invariant forall j | 0 <= j < k :: !(ValidOptions[j].optname == option && ValidOptions[j].optcontext != catalog)
    {
      var entry := ValidOptions[k];
      if entry.optname == option && catalog != entry.optcontext {
        ContextOfEntry(ValidOptions, k);
        return Some(WrongCatalogLevel(option, entry.optcontext));
      }
      k := k + 1;
    }
    ghost var context := ContextOf(ValidOptions, option);
    if context.Some? {
      ghost var i :| 0 <= i < |ValidOptions| && ValidOptions[i].optname == option && ValidOptions[i].optcontext == context.value;
    }
    return None;
  }

  /** IsCopyOption: whether option is a COPY option at any level. */
  method IsCopyOption(option: string) returns (b: bool)
    ensures b <==> Listed(ValidCopyOptions, option)
  {
    var k := 0;
    while k < |ValidCopyOptions|
      invariant 0 <= k <= |ValidCopyOptions|
      invariant forall j | 0 <= j < k :: ValidCopyOptions[j].optname != option
    {
      if ValidCopyOptions[k].optname == option {
        return true;
      }
      k := k + 1;
    }
    return false;
  }

  /** IsValidCopyOption: whether option is a COPY option of the given catalog. */
  method IsValidCopyOption(option: string, context: Level) returns (b: bool)
    ensures b <==> ListedAt(ValidCopyOptions, option, context)
  {
    var k := 0;
    while k < |ValidCopyOptions|
      invariant 0 <= k <= |ValidCopyOptions|
      invariant forall j | 0 <= j < k :: !(ValidCopyOptions[j].optcontext == context && ValidCopyOptions[j].optname == option)
    {
      var entry := ValidCopyOptions[k];
      if context == entry.optcontext && entry.optname == option {
        return true;
      }
      k := k + 1;
    }
    return false;
  }

  /** The names of the table's entries for catalog, in table order. */
  function NamesAt(table: seq<PxfFdwOption>, catalog: Level): seq<string>
  {
    if table == [] then []
    else if table[|table| - 1].optcontext == catalog then NamesAt(table[..|table| - 1], catalog) + [table[|table| - 1].optname]
    else NamesAt(table[..|table| - 1], catalog)
  }

  /** The names joined by ", " as the hint buffer accumulates them. */
  function JoinNames(names: seq<string>): string
  {
    if names == [] then ""
    else
      var buf := JoinNames(names[..|names| - 1]);
      buf + (if |buf| > 0 then ", " else "") + names[|names| - 1]
  }

  const NoValidOptionsHint := "There are no valid options in this context."
  const ValidOptionsHintPrefix := "Valid options in this context are: "

  /** The hint of an invalid COPY option error raised in catalog. */
  function CopyOptionHint(catalog: Level): string
  {
    var buf := JoinNames(NamesAt(ValidCopyOptions, catalog));
    if |buf| > 0 then ValidOptionsHintPrefix + buf else NoValidOptionsHint
  }

  /** At the foreign table level the hint lists the nine table-level COPY options in table order. */
  lemma CopyHintForeignTable()
    ensures CopyOptionHint(ForeignTable) ==
      ValidOptionsHintPrefix + "format, header, delimiter, quote, escape, null, encoding, newline, fill_missing_fields"
  {
    CopyNamesForeignTable();
    JoinForeignTableNames();
    assert ForeignTableCopyNames[..9] == ForeignTableCopyNames;
  }

  /** At the column level the hint lists the two force flags. */
  lemma CopyHintAttribute()
    ensures CopyOptionHint(Attribute) == ValidOptionsHintPrefix + "force_not_null, force_null"
  {
    CopyNamesAttribute();
    var fl := [ForceNotNull, ForceNull];
    assert fl[..1] == [ForceNotNull] && fl[..2] == fl;
    assert [ForceNotNull][..0] == [];
    assert JoinNames([ForceNotNull]) == ForceNotNull;
    assert JoinNames(fl) == ForceNotNull + ", " + ForceNull;
  }

  /** The wrapper, the server and the user mapping have no COPY options: the hint says so. */
  lemma CopyHintNone(c: Level)
    requires c == Wrapper || c == Server || c == UserMapping
    ensures CopyOptionHint(c) == NoValidOptionsHint
  {
    CopyNamesNone(c);
  }

  const ForeignTableCopyNames: seq<string> :=
    ["format", "header", "delimiter", "quote", "escape", "null", "encoding", "newline", "fill_missing_fields"]

  lemma JoinForeignTableNames1()
    ensures JoinNames(ForeignTableCopyNames[..3]) == "format, header, delimiter"
  {
    var ft := ForeignTableCopyNames;
    assert ft[..1][..0] == ft[..0];
    assert JoinNames(ft[..1]) == "format";
    assert ft[..2][..1] == ft[..1];
    assert JoinNames(ft[..2]) == "format, header";
    assert ft[..3][..2] == ft[..2];
    assert JoinNames(ft[..3]) == "format, header, delimiter";
  }

  lemma JoinForeignTableNames2()
    ensures JoinNames(ForeignTableCopyNames[..6]) == "format, header, delimiter, quote, escape, null"
  {
    var ft := ForeignTableCopyNames;
    JoinForeignTableNames1();
    assert ft[..4][..3] == ft[..3];
    assert JoinNames(ft[..4]) == "format, header, delimiter, quote";
    assert ft[..5][..4] == ft[..4];
    assert JoinNames(ft[..5]) == "format, header, delimiter, quote, escape";
    assert ft[..6][..5] == ft[..5];
    assert JoinNames(ft[..6]) == "format, header, delimiter, quote, escape, null";
  }

  lemma JoinForeignTableNames3()
    ensures JoinNames(ForeignTableCopyNames[..8]) == "format, header, delimiter, quote, escape, null, encoding, newline"
  {
    var ft := ForeignTableCopyNames;
    JoinForeignTableNames2();
    assert ft[..7][..6] == ft[..6];
    assert JoinNames(ft[..7]) == "format, header, delimiter, quote, escape, null, encoding";
    assert ft[..8][..7] == ft[..7];
  }

  lemma JoinForeignTableNames()
    ensures JoinNames(ForeignTableCopyNames[..9]) == "format, header, delimiter, quote, escape, null, encoding, newline, fill_missing_fields"
  {
    var ft := ForeignTableCopyNames;
    JoinForeignTableNames3();
    assert ft[..9][..8] == ft[..8];
  }

  lemma CopyNamesForeignTable1()
    ensures NamesAt(ValidCopyOptions[..5], ForeignTable) == ["format", "header", "delimiter", "quote", "escape"]
  {
    var c := ForeignTable;
    var t := ValidCopyOptions;
    assert t[..1][..0] == [];
    assert NamesAt(t[..1], c) == ["format"];
    assert t[..2][..1] == t[..1];
    assert NamesAt(t[..2], c) == ["format", "header"];
    assert t[..3][..2] == t[..2];
    assert NamesAt(t[..3], c) == ["format", "header", "delimiter"];
    assert t[..4][..3] == t[..3];
    assert NamesAt(t[..4], c) == ["format", "header", "delimiter", "quote"];
    assert t[..5][..4] == t[..4];
  }

  lemma CopyNamesForeignTable2()
    ensures NamesAt(ValidCopyOptions[..9], ForeignTable) == ForeignTableCopyNames
  {
    var c := ForeignTable;
    var t := ValidCopyOptions;
    CopyNamesForeignTable1();
    assert t[..6][..5] == t[..5];
    assert NamesAt(t[..6], c) == ["format", "header", "delimiter", "quote", "escape", "null"];
    assert t[..7][..6] == t[..6];
    assert NamesAt(t[..7], c) == ["format", "header", "delimiter", "quote", "escape", "null", "encoding"];
    assert t[..8][..7] == t[..7];
    assert NamesAt(t[..8], c) == ["format", "header", "delimiter", "quote", "escape", "null", "encoding", "newline"];
    assert t[..9][..8] == t[..8];
  }

  lemma CopyNamesForeignTable()
    ensures NamesAt(ValidCopyOptions, ForeignTable) == ForeignTableCopyNames
  {
    var c := ForeignTable;
    var t := ValidCopyOptions;
    CopyNamesForeignTable2();
    assert t[..10][..9] == t[..9];
    assert NamesAt(t[..10], c) == ForeignTableCopyNames;
    assert t[..11][..10] == t[..10];
    assert t[..11] == t;
  }

  lemma CopyNamesAttribute()
    ensures NamesAt(ValidCopyOptions, Attribute) == [ForceNotNull, ForceNull]
  {
    var c := Attribute;
    var t := ValidCopyOptions;
    assert t[..1][..0] == [];
    assert NamesAt(t[..1], c) == [];
    assert t[..2][..1] == t[..1];
    assert NamesAt(t[..2], c) == [];
    assert t[..3][..2] == t[..2];
    assert NamesAt(t[..3], c) == [];
    assert t[..4][..3] == t[..3];
    assert NamesAt(t[..4], c) == [];
    assert t[..5][..4] == t[..4];
    assert NamesAt(t[..5], c) == [];
    assert t[..6][..5] == t[..5];
    assert NamesAt(t[..6], c) == [];
    assert t[..7][..6] == t[..6];
    assert NamesAt(t[..7], c) == [];
    assert t[..8][..7] == t[..7];
    assert NamesAt(t[..8], c) == [];
    assert t[..9][..8] == t[..8];
    assert NamesAt(t[..9], c) == [];
    assert t[..10][..9] == t[..9];
    assert NamesAt(t[..10], c) == ["force_not_null"];
    assert t[..11][..10] == t[..10];
    assert NamesAt(t[..11], c) == ["force_not_null", "force_null"];
    assert t[..11] == t;
  }

  lemma CopyNamesNone(c: Level)
    requires c != ForeignTable && c != Attribute
    ensures NamesAt(ValidCopyOptions, c) == []
  {
    var t := ValidCopyOptions;
    assert t[..1][..0] == [];
    assert NamesAt(t[..1], c) == [];
    assert t[..2][..1] == t[..1];
    assert NamesAt(t[..2], c) == [];
    assert t[..3][..2] == t[..2];
    assert NamesAt(t[..3], c) == [];
    assert t[..4][..3] == t[..3];
    assert NamesAt(t[..4], c) == [];
    assert t[..5][..4] == t[..4];
    assert NamesAt(t[..5], c) == [];
    assert t[..6][..5] == t[..5];
    assert NamesAt(t[..6], c) == [];
    assert t[..7][..6] == t[..6];
    assert NamesAt(t[..7], c) == [];
    assert t[..8][..7] == t[..7];
    assert NamesAt(t[..8], c) == [];
    assert t[..9][..8] == t[..8];
    assert NamesAt(t[..9], c) == [];
    assert t[..10][..9] == t[..9];
    assert NamesAt(t[..10], c) == [];
    assert t[..11][..10] == t[..10];
    assert NamesAt(t[..11], c) == [];
    assert t[..11] == t;
  }
}
