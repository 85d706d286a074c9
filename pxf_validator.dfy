/**
 * pxf_fdw_validator: the check run when a FOREIGN DATA WRAPPER, SERVER,
 * USER MAPPING, FOREIGN TABLE or column is given options, and
 * ValidateCopyOptions, the check of the COPY-style options it forwards.
 * Each is a method walking the option list, proved equal to a specification
 * function; the lemmas state what that function promises.
 */
module PxfValidator {
  import opened Wrappers
  import opened CStrings
  import opened OptionLists
  import opened PxfCatalog

  // ---------------------------------------------------------------------
  // ValidateCopyOptions
  // ---------------------------------------------------------------------

  /** The errors the COPY option walk can raise before ProcessCopyOptions. */
  predicate IsCopyCheckError(e: Error)
  {
    e.InvalidOptionName? || e.RedundantOption? || e.BooleanRequired?
  }

  /** The error one COPY option raises after the options seen before it passed. */
  function CopyOptionError(seen: seq<DefElem>, def: DefElem, catalog: Level, dlg: CopyDelegate): (r: Option<Error>)
    ensures r.Some? ==> IsCopyCheckError(r.value)
  {
    if !ListedAt(ValidCopyOptions, def.defname, catalog) then
      Some(InvalidOptionName(def.defname, CopyOptionHint(catalog)))
    else if def.defname == ForceNotNull then
      if HasName(seen, ForceNotNull) then Some(RedundantOption(ForceNotNull))
      else if !dlg.isBoolean(def.arg) then Some(BooleanRequired(ForceNotNull))
      else None
    else if def.defname == ForceNull then
      if HasName(seen, ForceNull) then Some(RedundantOption(ForceNull))
      else if !dlg.isBoolean(def.arg) then Some(BooleanRequired(ForceNull))
      else None
    else None
  }

  /** The first error of the COPY option walk (fail fast). */
  function FirstCopyError(s: seq<DefElem>, catalog: Level, dlg: CopyDelegate): (r: Option<Error>)
    ensures r.Some? ==> IsCopyCheckError(r.value)
  {
    if s == [] then None
    else
      var before := FirstCopyError(s[..|s| - 1], catalog, dlg);
      if before.Some? then before else CopyOptionError(s[..|s| - 1], s[|s| - 1], catalog, dlg)
  }

  /** The options handed on to ProcessCopyOptions: all but the two force flags. */
  predicate PassedToCopy(def: DefElem)
  {
    def.defname != ForceNotNull && def.defname != ForceNull
  }

  /** What ValidateCopyOptions does with a list of COPY options. */
  function CopyValidation(s: seq<DefElem>, catalog: Level, dlg: CopyDelegate): Outcome<Error>
  {
    var e := FirstCopyError(s, catalog, dlg);
    if e.Some? then Fail(e.value)
    else if dlg.accepts(Filter(s, PassedToCopy)) then Pass
    else Fail(CopyOptionsRejected)
  }

  /** Once a prefix has raised an error, the whole list raises that error. */
  lemma {:induction false} FirstCopyErrorStable(s: seq<DefElem>, k: nat, catalog: Level, dlg: CopyDelegate)
    requires k <= |s| && FirstCopyError(s[..k], catalog, dlg).Some?
    ensures FirstCopyError(s, catalog, dlg) == FirstCopyError(s[..k], catalog, dlg)
    decreases |s| - k
  {
    if k == |s| {
      assert s[..k] == s;
    } else {
      var s' := s[..|s| - 1];
      assert s'[..k] == s[..k];
      FirstCopyErrorStable(s', k, catalog, dlg);
    }
  }

  /** The names of table's options for catalog, comma-joined as the message buffer accumulates them. */
  method JoinContextNames(table: seq<PxfFdwOption>, catalog: Level) returns (buf: string)
    ensures buf == JoinNames(NamesAt(table, catalog))
  {
    buf := "";
    var k := 0;
    while k < |table|
      invariant 0 <= k <= |table|
      invariant buf == JoinNames(NamesAt(table[..k], catalog))
    {
      var opt := table[k];
      assert table[..k + 1][..k] == table[..k];
      if catalog == opt.optcontext {
        ghost var names := NamesAt(table[..k], catalog);
        assert (names + [opt.optname])[..|names|] == names;
        buf := buf + (if |buf| > 0 then ", " else "") + opt.optname;
      }
      k := k + 1;
    }
    assert table[..k] == table;
  }

  /** The hint of the invalid-option error raised for a COPY option in catalog. */
  method CopyHint(catalog: Level) returns (hint: string)
    ensures hint == CopyOptionHint(catalog)
  {
    var buf := JoinContextNames(ValidCopyOptions, catalog);
    hint := if |buf| > 0 then ValidOptionsHintPrefix + buf else NoValidOptionsHint;
  }

  /** How one more option changes what the COPY option walk keeps. */
  lemma CopyStep(prefix: seq<DefElem>, def: DefElem, catalog: Level, dlg: CopyDelegate)
    requires FirstCopyError(prefix, catalog, dlg).None?
    ensures FirstCopyError(prefix + [def], catalog, dlg) == CopyOptionError(prefix, def, catalog, dlg)
    ensures Filter(prefix + [def], PassedToCopy) ==
            Filter(prefix, PassedToCopy) + (if PassedToCopy(def) then [def] else [])
    ensures HasName(prefix + [def], ForceNotNull) <==> HasName(prefix, ForceNotNull) || def.defname == ForceNotNull
    ensures HasName(prefix + [def], ForceNull) <==> HasName(prefix, ForceNull) || def.defname == ForceNull
  {
    assert (prefix + [def])[..|prefix|] == prefix;
    HasNameSnoc(prefix, def, ForceNotNull);
    HasNameSnoc(prefix, def, ForceNull);
  }

  /**
   * The checks ValidateCopyOptions makes on one option, given whether each
   * force flag has been seen: the option must be a COPY option of catalog,
   * and a force flag may not repeat and must have a boolean value.
   */
  method CheckCopyOption(ghost seen: seq<DefElem>, def: DefElem, catalog: Level, dlg: CopyDelegate,
                               forceNotNull: bool, forceNull: bool) returns (err: Option<Error>)
    requires forceNotNull == HasName(seen, ForceNotNull) && forceNull == HasName(seen, ForceNull)
    ensures err == CopyOptionError(seen, def, catalog, dlg)
  {
    var valid := IsValidCopyOption(def.defname, catalog);
    if !valid {
      var hint := CopyHint(catalog);
      return Some(InvalidOptionName(def.defname, hint));
    }
    if def.defname == ForceNotNull {
      if forceNotNull {
        return Some(RedundantOption(ForceNotNull));
      }
      if !dlg.isBoolean(def.arg) {
        return Some(BooleanRequired(ForceNotNull));
      }
    } else if def.defname == ForceNull {
      if forceNull {
        return Some(RedundantOption(ForceNull));
      }
      if !dlg.isBoolean(def.arg) {
        return Some(BooleanRequired(ForceNull));
      }
    }
    return None;
  }

  /**
   * The loop of ValidateCopyOptions: every option must pass CheckCopyOption;
   * the force flags are recorded as seen and the others are collected, in
   * their original order, for ProcessCopyOptions.
   */
  method WalkCopyOptions(optionsList: seq<DefElem>, catalog: Level, dlg: CopyDelegate)
    returns (r: Result<seq<DefElem>, Error>)
    ensures FirstCopyError(optionsList, catalog, dlg).Some? ==>
            r == Err(FirstCopyError(optionsList, catalog, dlg).value)
    ensures FirstCopyError(optionsList, catalog, dlg).None? ==> r == Ok(Filter(optionsList, PassedToCopy))
  {
    var forceNotNull := false;
    var forceNull := false;
    var copyOptions: seq<DefElem> := [];
    var i := 0;
    while i < |optionsList|
      invariant 0 <= i <= |optionsList|
      invariant FirstCopyError(optionsList[..i], catalog, dlg).None?
      invariant forceNotNull == HasName(optionsList[..i], ForceNotNull)
      invariant forceNull == HasName(optionsList[..i], ForceNull)
      invariant copyOptions == Filter(optionsList[..i], PassedToCopy)
    {
      var def := optionsList[i];
      ghost var prefix := optionsList[..i];
      assert optionsList[..i + 1] == prefix + [def];
      CopyStep(prefix, def, catalog, dlg);
      var err := CheckCopyOption(prefix, def, catalog, dlg, forceNotNull, forceNull);
      if err.Some? {
        FirstCopyErrorStable(optionsList, i + 1, catalog, dlg);
        return Err(err.value);
      }
      if def.defname == ForceNotNull {
        forceNotNull := true;
      } else if def.defname == ForceNull {
        forceNull := true;
      } else {
        copyOptions := copyOptions + [def];
      }
      i := i + 1;
    }
    assert optionsList[..i] == optionsList;
    r := Ok(copyOptions);
  }

  /**
   * ValidateCopyOptions: the option walk, then ProcessCopyOptions on the
   * options it collected.
   */
  method ValidateCopyOptions(optionsList: seq<DefElem>, catalog: Level, dlg: CopyDelegate) returns (r: Outcome<Error>)
    ensures r == CopyValidation(optionsList, catalog, dlg)
  {
    var walked := WalkCopyOptions(optionsList, catalog, dlg);
    if walked.Err? {
      return Fail(walked.error);
    }
    if !dlg.accepts(walked.value) {
      return Fail(CopyOptionsRejected);
    }
    return Pass;
  }

  lemma HasNameSnoc(s: seq<DefElem>, d: DefElem, name: string)
    ensures HasName(s + [d], name) <==> HasName(s, name) || d.defname == name
  {
    if HasName(s, name) {
      var j :| 0 <= j < |s| && s[j].defname == name;
      assert (s + [d])[j] == s[j];
    }
    if HasName(s + [d], name) && d.defname != name {
      var j :| 0 <= j < |s| + 1 && (s + [d])[j].defname == name;
      assert j < |s| && s[j] == (s + [d])[j];
    }
    assert (s + [d])[|s|] == d;
  }

  /** Every option is a COPY option of catalog; each force flag appears at most once, with a boolean value. */
  predicate CopyOptionsLegal(s: seq<DefElem>, catalog: Level, dlg: CopyDelegate)
  {
    (forall i | 0 <= i < |s| :: ListedAt(ValidCopyOptions, s[i].defname, catalog)) &&
    CountName(s, ForceNotNull) <= 1 && CountName(s, ForceNull) <= 1 &&
    (forall i | 0 <= i < |s| && !PassedToCopy(s[i]) :: dlg.isBoolean(s[i].arg))
  }

  /** The listed-at-level part of CopyOptionsLegal on one more option. */
  lemma ListedAllSnoc(s: seq<DefElem>, d: DefElem, catalog: Level)
    ensures (forall i | 0 <= i < |s + [d]| :: ListedAt(ValidCopyOptions, (s + [d])[i].defname, catalog)) <==>
            (forall i | 0 <= i < |s| :: ListedAt(ValidCopyOptions, s[i].defname, catalog)) &&
            ListedAt(ValidCopyOptions, d.defname, catalog)
  {
    assert forall i | 0 <= i < |s| :: (s + [d])[i] == s[i];
    assert (s + [d])[|s|] == d;
  }

  /** The boolean part of CopyOptionsLegal on one more option. */
  lemma BooleansSnoc(s: seq<DefElem>, d: DefElem, dlg: CopyDelegate)
    ensures (forall i | 0 <= i < |s + [d]| && !PassedToCopy((s + [d])[i]) :: dlg.isBoolean((s + [d])[i].arg)) <==>
            (forall i | 0 <= i < |s| && !PassedToCopy(s[i]) :: dlg.isBoolean(s[i].arg)) &&
            (!PassedToCopy(d) ==> dlg.isBoolean(d.arg))
  {
    assert forall i | 0 <= i < |s| :: (s + [d])[i] == s[i];
    assert (s + [d])[|s|] == d;
  }

  /** The at-most-once part of CopyOptionsLegal on one more option. */
  lemma CountSnoc(s: seq<DefElem>, d: DefElem, name: string)
    ensures CountName(s + [d], name) <= 1 <==>
            CountName(s, name) <= 1 && !(d.defname == name && HasName(s, name))
  {
    assert (s + [d])[..|s|] == s;
    CountNameHas(s, name);
  }

  lemma CopyOptionsLegalSnoc(s: seq<DefElem>, d: DefElem, catalog: Level, dlg: CopyDelegate)
    ensures CopyOptionsLegal(s + [d], catalog, dlg) <==>
            CopyOptionsLegal(s, catalog, dlg) && CopyOptionError(s, d, catalog, dlg).None?
  {
    ListedAllSnoc(s, d, catalog);
    BooleansSnoc(s, d, dlg);
    CountSnoc(s, d, ForceNotNull);
    CountSnoc(s, d, ForceNull);
  }

  lemma {:induction false} FirstCopyErrorNone(s: seq<DefElem>, catalog: Level, dlg: CopyDelegate)
    ensures FirstCopyError(s, catalog, dlg).None? <==> CopyOptionsLegal(s, catalog, dlg)
  {
    if s != [] {
      var s' := s[..|s| - 1];
      var d := s[|s| - 1];
      assert s == s' + [d];
      FirstCopyErrorNone(s', catalog, dlg);
      CopyOptionsLegalSnoc(s', d, catalog, dlg);
    }
  }

  /**
   * ValidateCopyOptions succeeds exactly when every option is a COPY option
   * of the catalog, force_not_null and force_null each appear at most once
   * with a boolean value, and ProcessCopyOptions accepts the other options.
   */
  lemma CopyValidationPass(s: seq<DefElem>, catalog: Level, dlg: CopyDelegate)
    ensures CopyValidation(s, catalog, dlg).Pass? <==>
            CopyOptionsLegal(s, catalog, dlg) && dlg.accepts(Filter(s, PassedToCopy))
  {
    FirstCopyErrorNone(s, catalog, dlg);
  }

  /**
   * The first option that fails decides the error: a name that is not a
   * COPY option of the catalog raises the invalid-option error with the
   * catalog's hint, a repeated force flag the conflicting-options error.
   */
  lemma CopyValidationFirstError(s: seq<DefElem>, i: nat, catalog: Level, dlg: CopyDelegate)
    requires i < |s| && FirstCopyError(s[..i], catalog, dlg).None?
    ensures !ListedAt(ValidCopyOptions, s[i].defname, catalog) ==>
              CopyValidation(s, catalog, dlg) == Fail(InvalidOptionName(s[i].defname, CopyOptionHint(catalog)))
    ensures !PassedToCopy(s[i]) && ListedAt(ValidCopyOptions, s[i].defname, catalog) && HasName(s[..i], s[i].defname) ==>
              CopyValidation(s, catalog, dlg) == Fail(RedundantOption(s[i].defname))
  {
    assert s[..i + 1][..i] == s[..i];
    if CopyOptionError(s[..i], s[i], catalog, dlg).Some? {
      FirstCopyErrorStable(s, i + 1, catalog, dlg);
    }
  }

  /**
   * Two force_not_null options on one column conflict; one force_not_null
   * and one force_null do not.
   */
  lemma DuplicateFlagLaw(a: string, b: string, dlg: CopyDelegate)
    requires dlg.isBoolean(a) && dlg.isBoolean(b) && dlg.accepts([])
    ensures CopyValidation([DefElem(ForceNotNull, a), DefElem(ForceNotNull, b)], Attribute, dlg) ==
            Fail(RedundantOption(ForceNotNull))
    ensures CopyValidation([DefElem(ForceNotNull, a), DefElem(ForceNull, b)], Attribute, dlg) == Pass
  {
    var fnn := DefElem(ForceNotNull, a);
    assert ListedAt(ValidCopyOptions, ForceNotNull, Attribute) by { assert ValidCopyOptions[9].optname == ForceNotNull; }
    assert ListedAt(ValidCopyOptions, ForceNull, Attribute) by { assert ValidCopyOptions[10].optname == ForceNull; }
    var s1 := [fnn, DefElem(ForceNotNull, b)];
    var s2 := [fnn, DefElem(ForceNull, b)];
    assert s1[..1] == [fnn] && s2[..1] == [fnn];
    assert [fnn][..0] == [];
    assert HasName([fnn], ForceNotNull) by { assert [fnn][0].defname == ForceNotNull; }
    assert !HasName([fnn], ForceNull);
    assert FirstCopyError([], Attribute, dlg) == None;
    assert CopyOptionError([], fnn, Attribute, dlg) == None;
    assert FirstCopyError([fnn], Attribute, dlg) == None;
    assert FirstCopyError(s1, Attribute, dlg) == Some(RedundantOption(ForceNotNull));
    assert FirstCopyError(s2, Attribute, dlg) == None;
    assert Filter([fnn], PassedToCopy) == [];
    assert Filter(s2, PassedToCopy) == [];
  }

  // ---------------------------------------------------------------------
  // pxf_fdw_validator
  // ---------------------------------------------------------------------

  /** The options the validator handles by name; every one of them is in the wrapper's option table. */
  predicate IsValidatorField(name: string)
  {
    name == OptionProtocol || name == OptionResource || name == OptionWireFormat ||
    name == OptionFormat || name == OptionRejectLimit || name == OptionRejectLimitType
  }

  /** Whether the validator forwards an option to ValidateCopyOptions. */
  predicate ForwardedByValidator(def: DefElem)
  {
    if def.defname == OptionFormat then CaseEq(def.arg, FormatText) || CaseEq(def.arg, FormatCsv)
    else !IsValidatorField(def.defname) && Listed(ValidCopyOptions, def.defname)
  }

  /** A reject_limit value with no leading digits, or whose int value is below 1. */
  predicate RejectLimitMalformed(value: string)
  {
    var parsed := StrToL(value);
    parsed.end == 0 || Int32Of(parsed.value) < 1
  }

  /** The errors raised inside the validator's walk over the options. */
  predicate IsOptionCheckError(e: Error)
  {
    e.WrongCatalogLevel? || e.InvalidWireFormat? || e.InvalidRejectLimit? || e.InvalidRejectLimitType?
  }

  /** The value check of one option whose level was accepted. */
  function ValueError(def: DefElem, h: Header): Option<Error>
  {
    if def.defname == OptionWireFormat then
      if h.textFormatName != def.arg && h.gpdbWritableFormatName != def.arg then Some(InvalidWireFormat(def.arg)) else None
    else if def.defname == OptionRejectLimit then
      if RejectLimitMalformed(def.arg) then Some(InvalidRejectLimit(def.arg)) else None
    else if def.defname == OptionRejectLimitType then
      if !CaseEq(def.arg, RejectLimitRows) && !CaseEq(def.arg, RejectLimitPercent) then Some(InvalidRejectLimitType(def.arg))
      else None
    else None
  }

  /** The error one option raises in the walk: its level first, then its value. */
  function OptionError(def: DefElem, catalog: Level, h: Header): Option<Error>
  {
    var levelError := LevelError(def.defname, catalog);
    if levelError.Some? then levelError else ValueError(def, h)
  }

  /** The first error of the walk (fail fast). */
  function FirstOptionError(s: seq<DefElem>, catalog: Level, h: Header): (r: Option<Error>)
    ensures r.Some? ==> IsOptionCheckError(r.value)
  {
    if s == [] then None
    else
      var before := FirstOptionError(s[..|s| - 1], catalog, h);
      if before.Some? then before else OptionError(s[|s| - 1], catalog, h)
  }

  /** The reject limit after the walk: the last reject_limit as strtol reads it, or -1. */
  function RejectLimitOf(s: seq<DefElem>): int
  {
    match LastValue(s, OptionRejectLimit)
    case None => -1
    case Some(v) => Int32Of(StrToL(v).value)
  }

  /** The reject limit type after the walk: the last reject_limit_type, or "rows". */
  function RejectLimitTypeOf(s: seq<DefElem>): string
  {
    LastValue(s, OptionRejectLimitType).GetOr(RejectLimitRows)
  }

  /** The cross-check of a set reject limit against its type. */
  function RejectLimitError(limit: int, limitType: string): Option<Error>
  {
    if limit == -1 then None
    else if CaseEq(limitType, RejectLimitRows) then
      if limit < 2 then Some(RowsRejectLimitTooSmall(limit)) else None
    else if limit < 1 || limit > 100 then Some(PercentRejectLimitOutOfRange(limit))
    else None
  }

  /** A string option that is NULL or "", as the required-option checks test it. */
  predicate Blank(v: Option<string>)
  {
    v.None? || v.value == ""
  }

  /** What pxf_fdw_validator does with the options given to one catalog object. */
  function Validate(s: seq<DefElem>, catalog: Level, h: Header, dlg: CopyDelegate): Outcome<Error>
  {
    var first := FirstOptionError(s, catalog, h);
    if first.Some? then Fail(first.value)
    else if catalog == Wrapper && Blank(LastValue(s, OptionProtocol)) then Fail(ProtocolRequired)
    else if catalog == ForeignTable && Blank(LastValue(s, OptionResource)) then Fail(ResourceRequired)
    else
      var limitError := RejectLimitError(RejectLimitOf(s), RejectLimitTypeOf(s));
      if limitError.Some? then Fail(limitError.value)
      else CopyValidation(Filter(s, ForwardedByValidator), catalog, dlg)
  }

  /** Once a prefix has raised an error, the whole list raises that error. */
  lemma {:induction false} FirstOptionErrorStable(s: seq<DefElem>, k: nat, catalog: Level, h: Header)
    requires k <= |s| && FirstOptionError(s[..k], catalog, h).Some?
    ensures FirstOptionError(s, catalog, h) == FirstOptionError(s[..k], catalog, h)
    decreases |s| - k
  {
    if k == |s| {
      assert s[..k] == s;
    } else {
      var s' := s[..|s| - 1];
      assert s'[..k] == s[..k];
      FirstOptionErrorStable(s', k, catalog, h);
    }
  }

  /** The walk passes exactly when every option passes its own check. */
  lemma {:induction false} FirstOptionErrorNone(s: seq<DefElem>, catalog: Level, h: Header)
    ensures FirstOptionError(s, catalog, h).None? <==> forall i | 0 <= i < |s| :: OptionError(s[i], catalog, h).None?
  {
    if s != [] {
      var s' := s[..|s| - 1];
      FirstOptionErrorNone(s', catalog, h);
      assert forall i | 0 <= i < |s'| :: s'[i] == s[i];
    }
  }

  /** The first option that fails its own check decides the walk's error. */
  lemma FirstOptionErrorAt(s: seq<DefElem>, i: nat, catalog: Level, h: Header)
    requires i < |s| && OptionError(s[i], catalog, h).Some?
    requires forall j | 0 <= j < i :: OptionError(s[j], catalog, h).None?
    ensures FirstOptionError(s, catalog, h) == OptionError(s[i], catalog, h)
  {
    var p := s[..i];
    FirstOptionErrorNone(p, catalog, h);
    assert s[..i + 1][..i] == p;
    FirstOptionErrorStable(s, i + 1, catalog, h);
  }

  /** How one more option changes what the validator's walk keeps. */
  lemma WalkStep(prefix: seq<DefElem>, def: DefElem, catalog: Level, h: Header)
    requires FirstOptionError(prefix, catalog, h).None?
    ensures FirstOptionError(prefix + [def], catalog, h) == OptionError(def, catalog, h)
    ensures LastValue(prefix + [def], OptionProtocol) ==
            if def.defname == OptionProtocol then Some(def.arg) else LastValue(prefix, OptionProtocol)
    ensures LastValue(prefix + [def], OptionResource) ==
            if def.defname == OptionResource then Some(def.arg) else LastValue(prefix, OptionResource)
    ensures RejectLimitOf(prefix + [def]) ==
            if def.defname == OptionRejectLimit then Int32Of(StrToL(def.arg).value) else RejectLimitOf(prefix)
    ensures RejectLimitTypeOf(prefix + [def]) ==
            if def.defname == OptionRejectLimitType then def.arg else RejectLimitTypeOf(prefix)
    ensures Filter(prefix + [def], ForwardedByValidator) ==
            Filter(prefix, ForwardedByValidator) + (if ForwardedByValidator(def) then [def] else [])
  {
    assert (prefix + [def])[..|prefix|] == prefix;
  }

  /** What the validator's walk over the options gathers. */
  datatype Walked = Walked(
    protocol: Option<string>,
    resource: Option<string>,
    rejectLimit: int,
    rejectLimitType: string,
    copyOptions: seq<DefElem>)

  /** The gathered options: last protocol, resource, reject limit and type, and the COPY options. */
  function WalkOf(s: seq<DefElem>): Walked
  {
    Walked(LastValue(s, OptionProtocol), LastValue(s, OptionResource), RejectLimitOf(s), RejectLimitTypeOf(s),
           Filter(s, ForwardedByValidator))
  }

  /**
   * The checks pxf_fdw_validator makes on one option: ValidateOption's level
   * check, then the wire format, the reject limit and its type.
   */
  method CheckOption(def: DefElem, catalog: Level, h: Header) returns (err: Option<Error>)
    ensures err == OptionError(def, catalog, h)
  {
    err := ValidateOption(def.defname, catalog);
    if err.Some? {
      return;
    }
    if def.defname == OptionWireFormat {
      if h.textFormatName != def.arg && h.gpdbWritableFormatName != def.arg {
        return Some(InvalidWireFormat(def.arg));
      }
    } else if def.defname == OptionRejectLimit {
      var parsed := StrToL(def.arg);
      var rejectLimit := Int32Of(parsed.value);
      if parsed.end == 0 || rejectLimit < 1 {
        return Some(InvalidRejectLimit(def.arg));
      }
    } else if def.defname == OptionRejectLimitType {
      if !CaseEq(def.arg, RejectLimitRows) && !CaseEq(def.arg, RejectLimitPercent) {
        return Some(InvalidRejectLimitType(def.arg));
      }
    }
  }

  /**
   * What pxf_fdw_validator records of one option that passed its checks:
   * the protocol, the resource, the reject limit as strtol reads it cut to
   * int, the reject limit type, and a COPY option to forward.
   */
  method GatherOption(w: Walked, def: DefElem) returns (w': Walked)
    ensures w'.protocol == if def.defname == OptionProtocol then Some(def.arg) else w.protocol
    ensures w'.resource == if def.defname == OptionResource then Some(def.arg) else w.resource
    ensures w'.rejectLimit == if def.defname == OptionRejectLimit then Int32Of(StrToL(def.arg).value) else w.rejectLimit
    ensures w'.rejectLimitType == if def.defname == OptionRejectLimitType then def.arg else w.rejectLimitType
    ensures w'.copyOptions == w.copyOptions + if ForwardedByValidator(def) then [def] else []
  {
    w' := w;
    if def.defname == OptionProtocol {
      w' := w'.(protocol := Some(def.arg));
    } else if def.defname == OptionResource {
      w' := w'.(resource := Some(def.arg));
    } else if def.defname == OptionWireFormat {
      // only checked, never gathered
    } else if def.defname == OptionFormat {
      if CaseEq(def.arg, FormatText) || CaseEq(def.arg, FormatCsv) {
        w' := w'.(copyOptions := w'.copyOptions + [def]);
      }
    } else if def.defname == OptionRejectLimit {
      w' := w'.(rejectLimit := Int32Of(StrToL(def.arg).value));
    } else if def.defname == OptionRejectLimitType {
      w' := w'.(rejectLimitType := def.arg);
    } else {
      var isCopy := IsCopyOption(def.defname);
      if isCopy {
        w' := w'.(copyOptions := w'.copyOptions + [def]);
      }
    }
  }

  /**
   * The loop of pxf_fdw_validator: checks each option's level and value,
   * stopping at the first failure, and gathers the protocol, resource,
   * reject limit and type and the COPY options with GatherOption.
   */
  method WalkOptions(optionsList: seq<DefElem>, catalog: Level, h: Header) returns (r: Result<Walked, Error>)
    ensures FirstOptionError(optionsList, catalog, h).Some? ==>
            r == Err(FirstOptionError(optionsList, catalog, h).value)
    ensures FirstOptionError(optionsList, catalog, h).None? ==> r == Ok(WalkOf(optionsList))
  {
    var w := Walked(None, None, -1, RejectLimitRows, []);
    var i := 0;
    while i < |optionsList|
      invariant 0 <= i <= |optionsList|
      invariant FirstOptionError(optionsList[..i], catalog, h).None?
      invariant w == WalkOf(optionsList[..i])
    {
      var def := optionsList[i];
      ghost var prefix := optionsList[..i];
      assert optionsList[..i + 1] == prefix + [def];
      WalkStep(prefix, def, catalog, h);
      var err := CheckOption(def, catalog, h);
      if err.Some? {
        FirstOptionErrorStable(optionsList, i + 1, catalog, h);
        return Err(err.value);
      }
      w := GatherOption(w, def);
      i := i + 1;
    }
    assert optionsList[..i] == optionsList;
    r := Ok(w);
  }

  /**
   * pxf_fdw_validator: the walk over the options of one catalog object,
   * then the required options, the reject limit against its type, and
   * ValidateCopyOptions on the COPY options.
   */
  method PxfFdwValidator(optionsList: seq<DefElem>, catalog: Level, h: Header, dlg: CopyDelegate) returns (r: Outcome<Error>)
    ensures r == Validate(optionsList, catalog, h, dlg)
  {
    var walked := WalkOptions(optionsList, catalog, h);
    if walked.Err? {
      return Fail(walked.error);
    }
    var w := walked.value;
    if catalog == Wrapper && (w.protocol.None? || w.protocol.value == "") {
      return Fail(ProtocolRequired);
    }
    if catalog == ForeignTable && (w.resource.None? || w.resource.value == "") {
      return Fail(ResourceRequired);
    }
    if w.rejectLimit != -1 {
      if CaseEq(w.rejectLimitType, RejectLimitRows) {
        if w.rejectLimit < 2 {
          return Fail(RowsRejectLimitTooSmall(w.rejectLimit));
        }
      } else if w.rejectLimit < 1 || w.rejectLimit > 100 {
        return Fail(PercentRejectLimitOutOfRange(w.rejectLimit));
      }
    }
    r := ValidateCopyOptions(w.copyOptions, catalog, dlg);
  }

  // ---------------------------------------------------------------------
  // What the validator promises
  // ---------------------------------------------------------------------

  /** The walk's errors are reported as an invalid option name, attribute value or string format. */
  lemma OptionErrorCodes(s: seq<DefElem>, catalog: Level, h: Header)
    ensures var e := FirstOptionError(s, catalog, h);
            e.Some? ==> Code(e.value) in {FdwInvalidOptionName, FdwInvalidAttributeValue, FdwInvalidStringFormat}
  {
    var e := FirstOptionError(s, catalog, h);
    if e.Some? {
      assert IsOptionCheckError(e.value);
    }
  }

  /**
   * The errors of ValidateCopyOptions are reported as an invalid option
   * name, a syntax error, or whatever the core COPY code reports.
   */
  lemma CopyErrorCodes(s: seq<DefElem>, catalog: Level, dlg: CopyDelegate)
    ensures var r := CopyValidation(s, catalog, dlg);
            r.Fail? ==> Code(r.error) in {FdwInvalidOptionName, SyntaxError, CopyCode}
  {
    var e := FirstCopyError(s, catalog, dlg);
    if e.Some? {
      assert IsCopyCheckError(e.value);
    }
  }

  /** No error the validator raises carries an internal error code. */
  lemma ValidatorErrorCodes(s: seq<DefElem>, catalog: Level, h: Header, dlg: CopyDelegate)
    ensures var r := Validate(s, catalog, h, dlg);
            r.Fail? ==> Code(r.error) != InternalError
  {
    OptionErrorCodes(s, catalog, h);
    CopyErrorCodes(Filter(s, ForwardedByValidator), catalog, dlg);
  }

  /** The first option that fails its own check decides the validator's error. */
  lemma ValidatorFirstError(s: seq<DefElem>, i: nat, catalog: Level, h: Header, dlg: CopyDelegate)
    requires i < |s| && OptionError(s[i], catalog, h).Some?
    requires forall j | 0 <= j < i :: OptionError(s[j], catalog, h).None?
    ensures Validate(s, catalog, h, dlg) == Fail(OptionError(s[i], catalog, h).value)
  {
    FirstOptionErrorAt(s, i, catalog, h);
  }

  /**
   * Level check: when validation passes, every option of the wrapper's table
   * is declared in its own catalog; an option declared elsewhere that is the
   * first to fail raises WrongCatalogLevel naming the catalog it belongs to.
   */
  lemma ValidatorLevelCheck(s: seq<DefElem>, catalog: Level, h: Header, dlg: CopyDelegate)
    ensures Validate(s, catalog, h, dlg).Pass? ==>
            forall i, j | 0 <= i < |s| && 0 <= j < |ValidOptions| && ValidOptions[j].optname == s[i].defname ::
              ValidOptions[j].optcontext == catalog
    ensures forall i, j | 0 <= i < |s| && 0 <= j < |ValidOptions| &&
                          ValidOptions[j].optname == s[i].defname && ValidOptions[j].optcontext != catalog &&
                          (forall k | 0 <= k < i :: OptionError(s[k], catalog, h).None?) ::
              Validate(s, catalog, h, dlg) == Fail(WrongCatalogLevel(s[i].defname, ValidOptions[j].optcontext))
  {
    FirstOptionErrorNone(s, catalog, h);
    forall i | 0 <= i < |s|
      ensures LevelError(s[i].defname, catalog).Some? <==>
              exists j | 0 <= j < |ValidOptions| :: ValidOptions[j].optname == s[i].defname && ValidOptions[j].optcontext != catalog
      ensures forall j | 0 <= j < |ValidOptions| && ValidOptions[j].optname == s[i].defname && ValidOptions[j].optcontext != catalog ::
              LevelError(s[i].defname, catalog) == Some(WrongCatalogLevel(s[i].defname, ValidOptions[j].optcontext))
    {
      LevelCheck(s[i].defname, catalog);
    }
    forall i, j | 0 <= i < |s| && 0 <= j < |ValidOptions| &&
                  ValidOptions[j].optname == s[i].defname && ValidOptions[j].optcontext != catalog &&
                  (forall k | 0 <= k < i :: OptionError(s[k], catalog, h).None?)
      ensures Validate(s, catalog, h, dlg) == Fail(WrongCatalogLevel(s[i].defname, ValidOptions[j].optcontext))
    {
      FirstOptionErrorAt(s, i, catalog, h);
    }
  }

  /**
   * Required options: a wrapper needs a non-empty protocol and a foreign
   * table a non-empty resource; a missing or empty one raises the
   * dynamic-parameter-needed error once every option passed its own check
   * (a name never given counts as missing); no other catalog requires either.
   */
  lemma ValidatorRequiredOptions(s: seq<DefElem>, catalog: Level, h: Header, dlg: CopyDelegate)
    ensures catalog == Wrapper && Validate(s, catalog, h, dlg).Pass? ==>
            HasName(s, OptionProtocol) && LastValue(s, OptionProtocol).value != ""
    ensures catalog == ForeignTable && Validate(s, catalog, h, dlg).Pass? ==>
            HasName(s, OptionResource) && LastValue(s, OptionResource).value != ""
    ensures catalog == Wrapper && FirstOptionError(s, catalog, h).None? && Blank(LastValue(s, OptionProtocol)) ==>
            Validate(s, catalog, h, dlg) == Fail(ProtocolRequired)
    ensures catalog == ForeignTable && FirstOptionError(s, catalog, h).None? && Blank(LastValue(s, OptionResource)) ==>
            Validate(s, catalog, h, dlg) == Fail(ResourceRequired)
    ensures !HasName(s, OptionProtocol) ==> Blank(LastValue(s, OptionProtocol))
    ensures !HasName(s, OptionResource) ==> Blank(LastValue(s, OptionResource))
    ensures catalog != Wrapper ==> Validate(s, catalog, h, dlg) != Fail(ProtocolRequired)
    ensures catalog != ForeignTable ==> Validate(s, catalog, h, dlg) != Fail(ResourceRequired)
  {
    LastValueNone(s, OptionProtocol);
    LastValueNone(s, OptionResource);
  }

  /**
   * Value checks: when validation passes, every wire_format is one of the
   * two wire format names, every reject_limit_type is "rows" or "percent"
   * up to case, and every reject_limit starts with digits and is at least 1.
   */
  lemma ValidatorValueChecks(s: seq<DefElem>, catalog: Level, h: Header, dlg: CopyDelegate)
    requires Validate(s, catalog, h, dlg).Pass?
    ensures forall i | 0 <= i < |s| && s[i].defname == OptionWireFormat ::
              s[i].arg == h.textFormatName || s[i].arg == h.gpdbWritableFormatName
    ensures forall i | 0 <= i < |s| && s[i].defname == OptionRejectLimitType ::
              CaseEq(s[i].arg, RejectLimitRows) || CaseEq(s[i].arg, RejectLimitPercent)
    ensures forall i | 0 <= i < |s| && s[i].defname == OptionRejectLimit ::
              StrToL(s[i].arg).end > 0 && Int32Of(StrToL(s[i].arg).value) >= 1
  {
    FirstOptionErrorNone(s, catalog, h);
    assert forall i | 0 <= i < |s| :: OptionError(s[i], catalog, h).None?;
  }

  /**
   * Reject limit: when validation passes, a set reject limit is at least 2
   * when its type is rows (the default) and within 1..100 otherwise; with
   * no reject_limit option it stays unset (-1).
   */
  lemma ValidatorRejectLimitBounds(s: seq<DefElem>, catalog: Level, h: Header, dlg: CopyDelegate)
    requires Validate(s, catalog, h, dlg).Pass?
    ensures HasName(s, OptionRejectLimit) && CaseEq(RejectLimitTypeOf(s), RejectLimitRows) ==> RejectLimitOf(s) >= 2
    ensures HasName(s, OptionRejectLimit) && !CaseEq(RejectLimitTypeOf(s), RejectLimitRows) ==> 1 <= RejectLimitOf(s) <= 100
    ensures !HasName(s, OptionRejectLimit) ==> RejectLimitOf(s) == -1
  {
    LastValueNone(s, OptionRejectLimit);
    LastValueIn(s, OptionRejectLimit);
    ValidatorValueChecks(s, catalog, h, dlg);
  }

  /**
   * The cross-check after the walk: once the walk and the required options
   * pass, a set reject limit out of its type's range is refused.
   */
  lemma ValidatorRejectLimitVerdict(s: seq<DefElem>, catalog: Level, h: Header, dlg: CopyDelegate)
    requires FirstOptionError(s, catalog, h).None?
    requires catalog == Wrapper ==> !Blank(LastValue(s, OptionProtocol))
    requires catalog == ForeignTable ==> !Blank(LastValue(s, OptionResource))
    requires HasName(s, OptionRejectLimit)
    ensures CaseEq(RejectLimitTypeOf(s), RejectLimitRows) && RejectLimitOf(s) < 2 ==>
            Validate(s, catalog, h, dlg) == Fail(RowsRejectLimitTooSmall(RejectLimitOf(s)))
    ensures !CaseEq(RejectLimitTypeOf(s), RejectLimitRows) && RejectLimitOf(s) > 100 ==>
            Validate(s, catalog, h, dlg) == Fail(PercentRejectLimitOutOfRange(RejectLimitOf(s)))
  {
    LastValueNone(s, OptionRejectLimit);
    LastValueIn(s, OptionRejectLimit);
    FirstOptionErrorNone(s, catalog, h);
    var i :| 0 <= i < |s| && s[i].defname == OptionRejectLimit && s[i].arg == LastValue(s, OptionRejectLimit).value;
    assert OptionError(s[i], catalog, h).None?;
    assert RejectLimitOf(s) >= 1;
  }

  /**
   * Routing to ValidateCopyOptions: a format option is forwarded exactly
   * when it is "text" or "csv" up to case; the other options the validator
   * handles by name never are; any other option is forwarded exactly when
   * it is a COPY option of some catalog.
   */
  lemma ValidatorRouting(s: seq<DefElem>, x: DefElem)
    requires x in s
    ensures x.defname == OptionFormat ==>
            (x in Filter(s, ForwardedByValidator) <==> CaseEq(x.arg, FormatText) || CaseEq(x.arg, FormatCsv))
    ensures x.defname in [OptionProtocol, OptionResource, OptionWireFormat, OptionRejectLimit, OptionRejectLimitType] ==>
            x !in Filter(s, ForwardedByValidator)
    ensures !IsValidatorField(x.defname) ==>
            (x in Filter(s, ForwardedByValidator) <==> Listed(ValidCopyOptions, x.defname))
  {
    FilterMembers(s, ForwardedByValidator);
  }

  lemma {:induction false} FirstOptionErrorSkip(s1: seq<DefElem>, d: DefElem, s2: seq<DefElem>, catalog: Level, h: Header)
    requires OptionError(d, catalog, h).None?
    ensures FirstOptionError(s1 + [d] + s2, catalog, h) == FirstOptionError(s1 + s2, catalog, h)
  {
    if s2 == [] {
      assert (s1 + [d] + s2)[..|s1 + [d] + s2| - 1] == s1;
      assert s1 + s2 == s1;
    } else {
      var s2' := s2[..|s2| - 1];
      FirstOptionErrorSkip(s1, d, s2', catalog, h);
      assert (s1 + [d] + s2)[..|s1 + [d] + s2| - 1] == s1 + [d] + s2';
      assert (s1 + s2)[..|s1 + s2| - 1] == s1 + s2';
    }
  }

  /**
   * An option in neither table is ignored: removing it, wherever it stands,
   * does not change the validator's verdict.
   */
  lemma IgnoredOptionIrrelevant(s1: seq<DefElem>, d: DefElem, s2: seq<DefElem>, catalog: Level, h: Header, dlg: CopyDelegate)
    requires !Listed(ValidOptions, d.defname) && !Listed(ValidCopyOptions, d.defname)
    ensures Validate(s1 + [d] + s2, catalog, h, dlg) == Validate(s1 + s2, catalog, h, dlg)
  {
    assert !IsValidatorField(d.defname) by {
      assert ValidOptions[0].optname == OptionProtocol && ValidOptions[1].optname == OptionResource;
      assert ValidOptions[2].optname == OptionFormat && ValidOptions[3].optname == OptionWireFormat;
      assert ValidOptions[4].optname == OptionRejectLimit && ValidOptions[5].optname == OptionRejectLimitType;
    }
    assert LevelError(d.defname, catalog).None?;
    FirstOptionErrorSkip(s1, d, s2, catalog, h);
    LastValueSkip(s1, d, s2, OptionProtocol);
    LastValueSkip(s1, d, s2, OptionResource);
    LastValueSkip(s1, d, s2, OptionRejectLimit);
    LastValueSkip(s1, d, s2, OptionRejectLimitType);
    FilterSkip(s1, d, s2, ForwardedByValidator);
  }

  /** A foreign table with a resource, a reject limit and a reject limit type. */
  function RejectLimitExample(limit: string, limitType: string): seq<DefElem>
  {
    [DefElem(OptionResource, "data"), DefElem(OptionRejectLimit, limit), DefElem(OptionRejectLimitType, limitType)]
  }

  /** Every entry of the wrapper's table passes the level check in its own catalog. */
  lemma EntryLevel(i: nat)
    requires i < |ValidOptions|
    ensures LevelError(ValidOptions[i].optname, ValidOptions[i].optcontext).None?
  {
    ValidOptionsUnique();
    ContextOfEntry(ValidOptions, i);
  }

  /** The three options of the example are all allowed on a foreign table. */
  lemma ExampleLevels()
    ensures LevelError(OptionResource, ForeignTable).None?
    ensures LevelError(OptionRejectLimit, ForeignTable).None?
    ensures LevelError(OptionRejectLimitType, ForeignTable).None?
  {
    EntryLevel(1);
    EntryLevel(4);
    EntryLevel(5);
  }

  /** Each option of the example on its own: only the reject limit can fail. */
  lemma ExampleOptionErrors(limit: string, limitType: string, h: Header)
    requires CaseEq(limitType, RejectLimitRows) || CaseEq(limitType, RejectLimitPercent)
    ensures OptionError(DefElem(OptionResource, "data"), ForeignTable, h).None?
    ensures OptionError(DefElem(OptionRejectLimit, limit), ForeignTable, h) ==
            if RejectLimitMalformed(limit) then Some(InvalidRejectLimit(limit)) else None
    ensures OptionError(DefElem(OptionRejectLimitType, limitType), ForeignTable, h).None?
  {
    ExampleLevels();
  }

  lemma RejectLimitExampleWalk(limit: string, limitType: string, h: Header)
    requires CaseEq(limitType, RejectLimitRows) || CaseEq(limitType, RejectLimitPercent)
    ensures FirstOptionError(RejectLimitExample(limit, limitType), ForeignTable, h) ==
            if RejectLimitMalformed(limit) then Some(InvalidRejectLimit(limit)) else None
  {
    var s := RejectLimitExample(limit, limitType);
    var d0, d1, d2 := s[0], s[1], s[2];
    assert s[..2] == [d0, d1] && [d0, d1][..1] == [d0] && [d0][..0] == [];
    ExampleOptionErrors(limit, limitType, h);
    assert FirstOptionError([d0], ForeignTable, h).None?;
    assert FirstOptionError([d0, d1], ForeignTable, h) == OptionError(d1, ForeignTable, h);
  }

  lemma RejectLimitExampleFields(limit: string, limitType: string)
    ensures LastValue(RejectLimitExample(limit, limitType), OptionResource) == Some("data")
    ensures RejectLimitOf(RejectLimitExample(limit, limitType)) == Int32Of(StrToL(limit).value)
    ensures RejectLimitTypeOf(RejectLimitExample(limit, limitType)) == limitType
    ensures Filter(RejectLimitExample(limit, limitType), ForwardedByValidator) == []
  {
    var s := RejectLimitExample(limit, limitType);
    var d0, d1, d2 := s[0], s[1], s[2];
    assert s[..2] == [d0, d1] && [d0, d1][..1] == [d0] && [d0][..0] == [];
    assert !ForwardedByValidator(d0) && !ForwardedByValidator(d1) && !ForwardedByValidator(d2);
    assert OptionResource != OptionRejectLimit && OptionResource != OptionRejectLimitType;
    assert OptionRejectLimit != OptionRejectLimitType;
    assert LastValue([d0], OptionResource) == Some("data");
    assert LastValue([d0, d1], OptionResource) == Some("data");
    assert LastValue([d0, d1], OptionRejectLimit) == Some(limit);
    assert Filter([d0], ForwardedByValidator) == [];
    assert Filter([d0, d1], ForwardedByValidator) == [];
  }

  lemma RejectLimitExampleVerdict(limit: string, limitType: string, h: Header, dlg: CopyDelegate)
    requires CaseEq(limitType, RejectLimitRows) || CaseEq(limitType, RejectLimitPercent)
    requires dlg.accepts([])
    ensures RejectLimitMalformed(limit) ==>
            Validate(RejectLimitExample(limit, limitType), ForeignTable, h, dlg) == Fail(InvalidRejectLimit(limit))
    ensures !RejectLimitMalformed(limit) ==>
            var n := Int32Of(StrToL(limit).value);
            Validate(RejectLimitExample(limit, limitType), ForeignTable, h, dlg) ==
              if RejectLimitError(n, limitType).Some? then Fail(RejectLimitError(n, limitType).value) else Pass
  {
    RejectLimitExampleWalk(limit, limitType, h);
    RejectLimitExampleFields(limit, limitType);
    assert CopyValidation([], ForeignTable, dlg) == Pass;
  }

  /** The case-insensitive comparisons the boundary examples make. */
  lemma LimitTypeNames()
    ensures CaseEq("rows", RejectLimitRows) && CaseEq("percent", RejectLimitPercent)
    ensures !CaseEq("percent", RejectLimitRows)
  {
  }

  /** The rows boundary: a limit of 1 row is refused and 2 rows accepted. */
  lemma RejectLimitRowsBoundary(h: Header, dlg: CopyDelegate)
    requires dlg.accepts([])
    ensures Validate(RejectLimitExample("1", "rows"), ForeignTable, h, dlg) == Fail(RowsRejectLimitTooSmall(1))
    ensures Validate(RejectLimitExample("2", "rows"), ForeignTable, h, dlg) == Pass
  {
    DigitsParse("1", 1);
    DigitsParse("2", 2);
    LimitTypeNames();
    RejectLimitExampleVerdict("1", "rows", h, dlg);
    RejectLimitExampleVerdict("2", "rows", h, dlg);
  }

  /**
   * The percent boundaries: 0 percent is refused as malformed, 100 percent
   * accepted and 101 percent refused.
   */
  lemma RejectLimitPercentBoundary(h: Header, dlg: CopyDelegate)
    requires dlg.accepts([])
    ensures Validate(RejectLimitExample("0", "percent"), ForeignTable, h, dlg) == Fail(InvalidRejectLimit("0"))
    ensures Validate(RejectLimitExample("100", "percent"), ForeignTable, h, dlg) == Pass
    ensures Validate(RejectLimitExample("101", "percent"), ForeignTable, h, dlg) == Fail(PercentRejectLimitOutOfRange(101))
  {
    DigitsParse("0", 0);
    DigitsParse("100", 100);
    DigitsParse("101", 101);
    LimitTypeNames();
    RejectLimitExampleVerdict("0", "percent", h, dlg);
    RejectLimitExampleVerdict("100", "percent", h, dlg);
    RejectLimitExampleVerdict("101", "percent", h, dlg);
  }

  lemma DigitsParse(ds: string, n: nat)
    requires |ds| > 0 && forall i | 0 <= i < |ds| :: IsDigit(ds[i])
    requires DecimalValue(ds) == n && n < 0x8000_0000
    ensures Int32Of(StrToL(ds).value) == n && StrToL(ds).end > 0
  {
    StrToLOfDigits(ds);
    Int32OfIdentity(n);
  }
}
