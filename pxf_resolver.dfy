/**
 * PxfGetOptions: the options of one foreign table, merged from the table,
 * the user mapping, the server and the wrapper, with the profile and the
 * defaults derived from them. The catalog fetches are left to the caller,
 * which passes the four option lists, the server's name and the wrapper's
 * execution location.
 */
module PxfResolver {
  import opened Wrappers
  import opened CStrings
  import opened OptionLists
  import opened PxfCatalog

  /** The merged options of one foreign table (the PxfOptions struct). */
  datatype PxfOptions = PxfOptions(
    pxfHost: string,
    pxfPort: int,
    pxfProtocol: string,
    protocol: Option<string>,
    resource: Option<string>,
    format: Option<string>,
    wireFormat: string,
    profile: Option<string>,
    rejectLimit: int,
    isRejectLimitRows: bool,
    server: string,
    execLocation: char,
    copyOptions: seq<DefElem>,
    options: seq<DefElem>)

  /** The options the resolver stores in a field of their own. */
  predicate IsResolverField(name: string)
  {
    name == OptionPxfHost || name == OptionPxfPort || name == OptionPxfProtocol ||
    name == OptionProtocol || name == OptionResource || name == OptionRejectLimit ||
    name == OptionRejectLimitType || name == OptionFormat || name == OptionWireFormat
  }

  /** Whether an option goes to copy_options. */
  predicate ResolverCopy(def: DefElem)
  {
    if def.defname == OptionFormat then CaseEq(def.arg, FormatText) || CaseEq(def.arg, FormatCsv)
    else !IsResolverField(def.defname) && Listed(ValidCopyOptions, def.defname)
  }

  /** Whether an option is a generic pass-through option. */
  predicate PassThrough(def: DefElem)
  {
    !IsResolverField(def.defname) && !Listed(ValidCopyOptions, def.defname)
  }

  /** A pxf_port whose atoi value is outside 1..65534. */
  predicate BadPort(def: DefElem)
  {
    def.defname == OptionPxfPort && (Atoi(def.arg) <= 0 || Atoi(def.arg) >= 65535)
  }

  /** The value of the first bad pxf_port, if any. */
  function FirstBadPort(s: seq<DefElem>): Option<string>
  {
    if s == [] then None
    else
      var before := FirstBadPort(s[..|s| - 1]);
      if before.Some? then before
      else if BadPort(s[|s| - 1]) then Some(s[|s| - 1].arg)
      else None
  }

  /** The port after the merge: atoi of the last pxf_port, or 0 when none is given. */
  function PortOf(s: seq<DefElem>): int
  {
    match LastValue(s, OptionPxfPort)
    case None => 0
    case Some(v) => Atoi(v)
  }

  /** The reject limit after the merge: atoi of the last reject_limit, or -1. */
  function ResolvedRejectLimit(s: seq<DefElem>): int
  {
    match LastValue(s, OptionRejectLimit)
    case None => -1
    case Some(v) => Atoi(v)
  }

  /** Whether the last reject_limit_type is "rows" up to case; true when none is given. */
  function ResolvedIsRows(s: seq<DefElem>): bool
  {
    match LastValue(s, OptionRejectLimitType)
    case None => true
    case Some(v) => CaseEq(RejectLimitRows, v)
  }

  /**
   * GetWireFormatName as written: the csv and rc comparisons test
   * pg_strcasecmp for non-zero, and a format cannot equal both, so every
   * format that is set yields the text wire format; only an unset format
   * yields the GPDBWritable one.
   */
  function GetWireFormatName(format: Option<string>, h: Header): (r: string)
    ensures format.Some? ==> r == h.textFormatName
    ensures format.None? ==> r == h.gpdbWritableFormatName
  {
    if format.Some? &&
       (ContainsCaseInsensitive(format.value, FormatText) ||
        !CaseEq(format.value, FormatCsv) || !CaseEq(format.value, FormatRc))
    then h.textFormatName
    else h.gpdbWritableFormatName
  }

  /** What "%s" prints for a string that may be NULL (glibc prints "(null)"). */
  function FormatString(v: Option<string>): string
  {
    v.GetOr("(null)")
  }

  /** The profile: protocol, or "protocol:format" when a format is set. */
  function Profile(protocol: Option<string>, format: Option<string>): Option<string>
  {
    if format.Some? then Some(FormatString(protocol) + ":" + format.value) else protocol
  }

  /** The four option lists in the order the resolver reads them. */
  function AllOptions(tableOptions: seq<DefElem>, userOptions: seq<DefElem>, serverOptions: seq<DefElem>,
                      wrapperOptions: seq<DefElem>): seq<DefElem>
  {
    tableOptions + userOptions + serverOptions + wrapperOptions
  }

  /** What PxfGetOptions returns for the four option lists of one foreign table. */
  function Resolve(tableOptions: seq<DefElem>, userOptions: seq<DefElem>, serverOptions: seq<DefElem>,
                   wrapperOptions: seq<DefElem>, serverName: string, execLocation: char, h: Header): Result<PxfOptions, Error>
  {
    var all := AllOptions(tableOptions, userOptions, serverOptions, wrapperOptions);
    var bad := FirstBadPort(all);
    if bad.Some? then Err(InvalidPort(bad.value))
    else
      var protocol := LastValue(all, OptionProtocol);
      var format := LastValue(all, OptionFormat);
      var port := PortOf(all);
      Ok(PxfOptions(
        pxfHost := LastValue(all, OptionPxfHost).GetOr(h.defaultHost),
        pxfPort := if port == 0 then h.defaultPort else port,
        pxfProtocol := LastValue(all, OptionPxfProtocol).GetOr(h.defaultProtocol),
        protocol := protocol,
        resource := LastValue(all, OptionResource),
        format := format,
        wireFormat := LastValue(all, OptionWireFormat).GetOr(GetWireFormatName(format, h)),
        profile := Profile(protocol, format),
        rejectLimit := ResolvedRejectLimit(all),
        isRejectLimitRows := ResolvedIsRows(all),
        server := serverName,
        execLocation := execLocation,
        copyOptions := Filter(all, ResolverCopy),
        options := FirstByName(Filter(all, PassThrough))))
  }

  /** Once a prefix has a bad port, the whole list reports that port. */
  lemma {:induction false} FirstBadPortStable(s: seq<DefElem>, k: nat)
    requires k <= |s| && FirstBadPort(s[..k]).Some?
    ensures FirstBadPort(s) == FirstBadPort(s[..k])
    decreases |s| - k
  {
    if k == |s| {
      assert s[..k] == s;
    } else {
      var s' := s[..|s| - 1];
      assert s'[..k] == s[..k];
      FirstBadPortStable(s', k);
    }
  }

  /** What the option loop of PxfGetOptions gathers before the defaults are applied. */
  datatype ScanState = ScanState(
    pxfHost: Option<string>,
    pxfPort: int,
    pxfProtocol: Option<string>,
    protocol: Option<string>,
    resource: Option<string>,
    rejectLimit: int,
    isRejectLimitRows: bool,
    format: Option<string>,
    wireFormat: Option<string>,
    copyOptions: seq<DefElem>,
    otherOptions: seq<DefElem>)

  /** The gathered options: last-wins named fields, COPY options, first-wins pass-through options. */
  function Scanned(s: seq<DefElem>): ScanState
  {
    ScanState(
      LastValue(s, OptionPxfHost),
      PortOf(s),
      LastValue(s, OptionPxfProtocol),
      LastValue(s, OptionProtocol),
      LastValue(s, OptionResource),
      ResolvedRejectLimit(s),
      ResolvedIsRows(s),
      LastValue(s, OptionFormat),
      LastValue(s, OptionWireFormat),
      Filter(s, ResolverCopy),
      FirstByName(Filter(s, PassThrough)))
  }

  /** How one more option changes each quantity the option loop keeps. */
  lemma ScanStep(prefix: seq<DefElem>, def: DefElem)
    ensures LastValue(prefix + [def], OptionPxfHost) == if def.defname == OptionPxfHost then Some(def.arg) else LastValue(prefix, OptionPxfHost)
    ensures LastValue(prefix + [def], OptionPxfPort) == if def.defname == OptionPxfPort then Some(def.arg) else LastValue(prefix, OptionPxfPort)
    ensures LastValue(prefix + [def], OptionPxfProtocol) == if def.defname == OptionPxfProtocol then Some(def.arg) else LastValue(prefix, OptionPxfProtocol)
    ensures LastValue(prefix + [def], OptionProtocol) == if def.defname == OptionProtocol then Some(def.arg) else LastValue(prefix, OptionProtocol)
    ensures LastValue(prefix + [def], OptionResource) == if def.defname == OptionResource then Some(def.arg) else LastValue(prefix, OptionResource)
    ensures LastValue(prefix + [def], OptionRejectLimit) == if def.defname == OptionRejectLimit then Some(def.arg) else LastValue(prefix, OptionRejectLimit)
    ensures LastValue(prefix + [def], OptionRejectLimitType) == if def.defname == OptionRejectLimitType then Some(def.arg) else LastValue(prefix, OptionRejectLimitType)
    ensures LastValue(prefix + [def], OptionFormat) == if def.defname == OptionFormat then Some(def.arg) else LastValue(prefix, OptionFormat)
    ensures LastValue(prefix + [def], OptionWireFormat) == if def.defname == OptionWireFormat then Some(def.arg) else LastValue(prefix, OptionWireFormat)
    ensures Filter(prefix + [def], ResolverCopy) == Filter(prefix, ResolverCopy) + (if ResolverCopy(def) then [def] else [])
    ensures FirstBadPort(prefix).None? ==> FirstBadPort(prefix + [def]) == if BadPort(def) then Some(def.arg) else None
    ensures var kept := FirstByName(Filter(prefix, PassThrough));
            FirstByName(Filter(prefix + [def], PassThrough)) ==
              if PassThrough(def) && def.defname !in NameSeq(kept) then kept + [def] else kept
  {
    assert (prefix + [def])[..|prefix|] == prefix;
    var passed := Filter(prefix, PassThrough);
    if PassThrough(def) {
      assert Filter(prefix + [def], PassThrough) == passed + [def];
      assert (passed + [def])[..|passed|] == passed;
    } else {
      assert Filter(prefix + [def], PassThrough) == passed;
    }
  }

  /**
   * The option loop of PxfGetOptions: one pass over the merged options;
   * named fields are overwritten, COPY options appended, other options kept
   * once per name; an out-of-range pxf_port stops the pass.
   */
  method ScanOptions(options: seq<DefElem>) returns (r: Result<ScanState, Error>)
    ensures FirstBadPort(options).Some? ==> r == Err(InvalidPort(FirstBadPort(options).value))
    ensures FirstBadPort(options).None? ==> r == Ok(Scanned(options))
  {
    var rejectLimit := -1;
    var isRejectLimitRows := true;
    var pxfHost: Option<string> := None;
    var pxfPort := 0;
    var pxfProtocol: Option<string> := None;
    var protocol: Option<string> := None;
    var resource: Option<string> := None;
    var format: Option<string> := None;
    var wireFormat: Option<string> := None;
    var copyOptions: seq<DefElem> := [];
    var otherOptions: seq<DefElem> := [];
    var otherOptionNames: seq<string> := [];

    var i := 0;
    while i < |options|
      invariant 0 <= i <= |options|
      invariant FirstBadPort(options[..i]).None?
      invariant pxfHost == LastValue(options[..i], OptionPxfHost)
      invariant pxfPort == PortOf(options[..i])
      invariant pxfProtocol == LastValue(options[..i], OptionPxfProtocol)
      invariant protocol == LastValue(options[..i], OptionProtocol)
      invariant resource == LastValue(options[..i], OptionResource)
      invariant rejectLimit == ResolvedRejectLimit(options[..i])
      invariant isRejectLimitRows == ResolvedIsRows(options[..i])
      invariant format == LastValue(options[..i], OptionFormat)
      invariant wireFormat == LastValue(options[..i], OptionWireFormat)
      invariant copyOptions == Filter(options[..i], ResolverCopy)
      invariant otherOptions == FirstByName(Filter(options[..i], PassThrough))
      invariant otherOptionNames == NameSeq(otherOptions)
    {
      var def := options[i];
      var prefix := options[..i];
      assert options[..i + 1] == prefix + [def];
      ScanStep(prefix, def);
      if def.defname == OptionPxfHost {
        pxfHost := Some(def.arg);
      } else if def.defname == OptionPxfPort {
        pxfPort := Atoi(def.arg);
        if pxfPort <= 0 || pxfPort >= 65535 {
          FirstBadPortStable(options, i + 1);
          return Err(InvalidPort(def.arg));
        }
      } else if def.defname == OptionPxfProtocol {
        pxfProtocol := Some(def.arg);
      } else if def.defname == OptionProtocol {
        protocol := Some(def.arg);
      } else if def.defname == OptionResource {
        resource := Some(def.arg);
      } else if def.defname == OptionRejectLimit {
        rejectLimit := Atoi(def.arg);
      } else if def.defname == OptionRejectLimitType {
        isRejectLimitRows := CaseEq(RejectLimitRows, def.arg);
      } else if def.defname == OptionFormat {
        format := Some(def.arg);
        if CaseEq(def.arg, FormatText) || CaseEq(def.arg, FormatCsv) {
          copyOptions := copyOptions + [def];
        }
      } else if def.defname == OptionWireFormat {
        wireFormat := Some(def.arg);
      } else {
        var isCopy := IsCopyOption(def.defname);
        if isCopy {
          copyOptions := copyOptions + [def];
        } else if def.defname !in otherOptionNames {
          otherOptions := otherOptions + [def];
          otherOptionNames := otherOptionNames + [def.defname];
        }
      }
      i := i + 1;
    }
    assert options[..i] == options;
    r := Ok(ScanState(pxfHost, pxfPort, pxfProtocol, protocol, resource, rejectLimit, isRejectLimitRows,
                      format, wireFormat, copyOptions, otherOptions));
  }

  /** Resolve fails with the first out-of-range pxf_port. */
  lemma ResolveBadPort(tableOptions: seq<DefElem>, userOptions: seq<DefElem>, serverOptions: seq<DefElem>,
                       wrapperOptions: seq<DefElem>, serverName: string, execLocation: char, h: Header)
    requires FirstBadPort(tableOptions + userOptions + serverOptions + wrapperOptions).Some?
    ensures Resolve(tableOptions, userOptions, serverOptions, wrapperOptions, serverName, execLocation, h) ==
            Err(InvalidPort(FirstBadPort(tableOptions + userOptions + serverOptions + wrapperOptions).value))
  {
  }

  /** Resolve, once no pxf_port is out of range, field by field. */
  lemma ResolveFields(tableOptions: seq<DefElem>, userOptions: seq<DefElem>, serverOptions: seq<DefElem>,
                      wrapperOptions: seq<DefElem>, serverName: string, execLocation: char, h: Header)
    requires FirstBadPort(tableOptions + userOptions + serverOptions + wrapperOptions).None?
    ensures var all := tableOptions + userOptions + serverOptions + wrapperOptions;
            Resolve(tableOptions, userOptions, serverOptions, wrapperOptions, serverName, execLocation, h) ==
            Ok(PxfOptions(
                 LastValue(all, OptionPxfHost).GetOr(h.defaultHost),
                 if PortOf(all) == 0 then h.defaultPort else PortOf(all),
                 LastValue(all, OptionPxfProtocol).GetOr(h.defaultProtocol),
                 LastValue(all, OptionProtocol),
                 LastValue(all, OptionResource),
                 LastValue(all, OptionFormat),
                 LastValue(all, OptionWireFormat).GetOr(GetWireFormatName(LastValue(all, OptionFormat), h)),
                 Profile(LastValue(all, OptionProtocol), LastValue(all, OptionFormat)),
                 ResolvedRejectLimit(all),
                 ResolvedIsRows(all),
                 serverName,
                 execLocation,
                 Filter(all, ResolverCopy),
                 FirstByName(Filter(all, PassThrough))))
  {
  }

  /**
   * PxfGetOptions: the option loop over the table, user mapping, server
   * and wrapper options in that order, then the profile and the defaults.
   */
  method PxfGetOptions(tableOptions: seq<DefElem>, userOptions: seq<DefElem>, serverOptions: seq<DefElem>,
                       wrapperOptions: seq<DefElem>, serverName: string, execLocation: char, h: Header)
    returns (r: Result<PxfOptions, Error>)
    ensures r == Resolve(tableOptions, userOptions, serverOptions, wrapperOptions, serverName, execLocation, h)
  {
    var options := tableOptions + userOptions + serverOptions + wrapperOptions;
    var scanned := ScanOptions(options);
    if scanned.Err? {
      ResolveBadPort(tableOptions, userOptions, serverOptions, wrapperOptions, serverName, execLocation, h);
      return Err(scanned.error);
    }
    var st := scanned.value;
    ResolveFields(tableOptions, userOptions, serverOptions, wrapperOptions, serverName, execLocation, h);

    var profile := st.protocol;
    if st.format.Some? {
      profile := Some(FormatString(st.protocol) + ":" + st.format.value);
    }
    var host := if st.pxfHost.None? then h.defaultHost else st.pxfHost.value;
    var port := if st.pxfPort == 0 then h.defaultPort else st.pxfPort;
    var subProtocol := if st.pxfProtocol.None? then h.defaultProtocol else st.pxfProtocol.value;
    var wire := if st.wireFormat.None? then GetWireFormatName(st.format, h) else st.wireFormat.value;
    assert profile == Profile(st.protocol, st.format);
    r := Ok(PxfOptions(host, port, subProtocol, st.protocol, st.resource, st.format, wire, profile,
                       st.rejectLimit, st.isRejectLimitRows, serverName, execLocation, st.copyOptions, st.otherOptions));
  }

  /** FirstBadPort finds nothing exactly when no pxf_port is out of range. */
  lemma {:induction false} FirstBadPortNone(s: seq<DefElem>)
    ensures FirstBadPort(s).None? <==> forall i | 0 <= i < |s| :: !BadPort(s[i])
  {
    if s != [] {
      var s' := s[..|s| - 1];
      FirstBadPortNone(s');
      assert forall i | 0 <= i < |s'| :: s'[i] == s[i];
    }
  }

  /** FirstBadPort reports the value of the first out-of-range pxf_port. */
  lemma {:induction false} FirstBadPortAt(s: seq<DefElem>, i: nat)
    requires i < |s| && BadPort(s[i])
    requires forall j | 0 <= j < i :: !BadPort(s[j])
    ensures FirstBadPort(s) == Some(s[i].arg)
  {
    var s' := s[..|s| - 1];
    if i == |s| - 1 {
      FirstBadPortNone(s');
    } else {
      FirstBadPortAt(s', i);
    }
  }

  /**
   * The port check: the merge fails exactly when some pxf_port, at any
   * level, has an atoi value outside 1..65534, and then it names the first
   * one; on success the port is in range, or the default when none is given.
   */
  lemma ResolverPortCheck(tableOptions: seq<DefElem>, userOptions: seq<DefElem>, serverOptions: seq<DefElem>,
                          wrapperOptions: seq<DefElem>, serverName: string, execLocation: char, h: Header)
    ensures var all := AllOptions(tableOptions, userOptions, serverOptions, wrapperOptions);
            var r := Resolve(tableOptions, userOptions, serverOptions, wrapperOptions, serverName, execLocation, h);
            (r.Err? <==> exists i | 0 <= i < |all| :: BadPort(all[i])) &&
            (forall i | 0 <= i < |all| && BadPort(all[i]) && (forall j | 0 <= j < i :: !BadPort(all[j])) ::
               r == Err(InvalidPort(all[i].arg))) &&
            (r.Ok? && HasName(all, OptionPxfPort) ==> 1 <= r.value.pxfPort <= 65534) &&
            (r.Ok? && !HasName(all, OptionPxfPort) ==> r.value.pxfPort == h.defaultPort)
  {
    var all := AllOptions(tableOptions, userOptions, serverOptions, wrapperOptions);
    FirstBadPortNone(all);
    forall i | 0 <= i < |all| && BadPort(all[i]) && (forall j | 0 <= j < i :: !BadPort(all[j]))
      ensures FirstBadPort(all) == Some(all[i].arg)
    {
      FirstBadPortAt(all, i);
    }
    LastValueNone(all, OptionPxfPort);
    LastValueIn(all, OptionPxfPort);
  }

  /** The port check accepts 5888. */
  lemma PortAccepted()
    ensures !BadPort(DefElem(OptionPxfPort, "5888"))
  {
    DecimalValue5888();
    AtoiOfNumber("", "", "5888", "");
    assert "" + "" + "5888" + "" == "5888";
  }

  lemma DecimalValue5888()
    ensures DecimalValue("5888") == 5888
  {
    assert "5888"[..3] == "588";
    assert "588"[..2] == "58";
    assert "58"[..1] == "5";
  }

  /** The port check refuses 65535, the first value past its upper bound. */
  lemma PortTooLarge()
    ensures BadPort(DefElem(OptionPxfPort, "65535"))
  {
    DecimalValue65535();
    AtoiOfNumber("", "", "65535", "");
    assert "" + "" + "65535" + "" == "65535";
  }

  lemma DecimalValue65535()
    ensures DecimalValue("65535") == 65535
  {
    assert "65535"[..4] == "6553";
    assert "6553"[..3] == "655";
    assert "655"[..2] == "65";
    assert "65"[..1] == "6";
  }

  /** The port check refuses 0 and a value with no digits, which atoi reads as 0. */
  lemma PortZero()
    ensures BadPort(DefElem(OptionPxfPort, "0"))
    ensures BadPort(DefElem(OptionPxfPort, "abc"))
  {
    assert DecimalValue("0") == 0;
    AtoiOfNumber("", "", "0", "");
    assert "" + "" + "0" + "" == "0";
    AtoiOfNoNumber("", "", "abc");
    assert "" + "" + "abc" == "abc";
  }

  /** PxfGetOptions raises only the invalid-port error, through elog, so with an internal error code. */
  lemma ResolverErrorCode(tableOptions: seq<DefElem>, userOptions: seq<DefElem>, serverOptions: seq<DefElem>,
                          wrapperOptions: seq<DefElem>, serverName: string, execLocation: char, h: Header)
    ensures var r := Resolve(tableOptions, userOptions, serverOptions, wrapperOptions, serverName, execLocation, h);
            r.Err? ==> r.error.InvalidPort? && Code(r.error) == InternalError
  {
  }

  /**
   * Named fields are last-wins: the last option of a name, in the order
   * table, user mapping, server, wrapper, sets the field.
   */
  lemma ResolverLastWins(tableOptions: seq<DefElem>, userOptions: seq<DefElem>, serverOptions: seq<DefElem>,
                         wrapperOptions: seq<DefElem>, serverName: string, execLocation: char, h: Header,
                         i: nat)
    requires var all := AllOptions(tableOptions, userOptions, serverOptions, wrapperOptions);
             i < |all| && forall j | i < j < |all| :: all[j].defname != all[i].defname
    requires Resolve(tableOptions, userOptions, serverOptions, wrapperOptions, serverName, execLocation, h).Ok?
    ensures var all := AllOptions(tableOptions, userOptions, serverOptions, wrapperOptions);
            var o := Resolve(tableOptions, userOptions, serverOptions, wrapperOptions, serverName, execLocation, h).value;
            var d := all[i];
            (d.defname == OptionPxfHost ==> o.pxfHost == d.arg) &&
            (d.defname == OptionPxfPort ==> o.pxfPort == Atoi(d.arg)) &&
            (d.defname == OptionPxfProtocol ==> o.pxfProtocol == d.arg) &&
            (d.defname == OptionProtocol ==> o.protocol == Some(d.arg)) &&
            (d.defname == OptionResource ==> o.resource == Some(d.arg)) &&
            (d.defname == OptionFormat ==> o.format == Some(d.arg)) &&
            (d.defname == OptionWireFormat ==> o.wireFormat == d.arg) &&
            (d.defname == OptionRejectLimit ==> o.rejectLimit == Atoi(d.arg)) &&
            (d.defname == OptionRejectLimitType ==> o.isRejectLimitRows == CaseEq(RejectLimitRows, d.arg))
  {
    var all := AllOptions(tableOptions, userOptions, serverOptions, wrapperOptions);
    LastValueAt(all, all[i].defname, i);
    if all[i].defname == OptionPxfPort {
      ResolverPortCheck(tableOptions, userOptions, serverOptions, wrapperOptions, serverName, execLocation, h);
      FirstBadPortNone(all);
    }
  }

  /**
   * The defaults: host, port and sub-protocol from the build-time header,
   * reject limit -1 of type rows, and a wire format chosen from the format
   * when wire_format is not given.
   */
  lemma ResolverDefaults(tableOptions: seq<DefElem>, userOptions: seq<DefElem>, serverOptions: seq<DefElem>,
                         wrapperOptions: seq<DefElem>, serverName: string, execLocation: char, h: Header)
    requires Resolve(tableOptions, userOptions, serverOptions, wrapperOptions, serverName, execLocation, h).Ok?
    ensures var all := AllOptions(tableOptions, userOptions, serverOptions, wrapperOptions);
            var o := Resolve(tableOptions, userOptions, serverOptions, wrapperOptions, serverName, execLocation, h).value;
            (!HasName(all, OptionPxfHost) ==> o.pxfHost == h.defaultHost) &&
            (!HasName(all, OptionPxfPort) ==> o.pxfPort == h.defaultPort) &&
            (!HasName(all, OptionPxfProtocol) ==> o.pxfProtocol == h.defaultProtocol) &&
            (!HasName(all, OptionRejectLimit) ==> o.rejectLimit == -1) &&
            (!HasName(all, OptionRejectLimitType) ==> o.isRejectLimitRows) &&
            (!HasName(all, OptionWireFormat) && HasName(all, OptionFormat) ==> o.wireFormat == h.textFormatName) &&
            (!HasName(all, OptionWireFormat) && !HasName(all, OptionFormat) ==> o.wireFormat == h.gpdbWritableFormatName) &&
            (!HasName(all, OptionProtocol) ==> o.protocol.None?) &&
            (!HasName(all, OptionResource) ==> o.resource.None?) &&
            (!HasName(all, OptionFormat) ==> o.format.None?) &&
            o.server == serverName && o.execLocation == execLocation
  {
    var all := AllOptions(tableOptions, userOptions, serverOptions, wrapperOptions);
    LastValueNone(all, OptionPxfHost);
    LastValueNone(all, OptionPxfPort);
    LastValueNone(all, OptionPxfProtocol);
    LastValueNone(all, OptionRejectLimit);
    LastValueNone(all, OptionRejectLimitType);
    LastValueNone(all, OptionWireFormat);
    LastValueNone(all, OptionFormat);
    LastValueNone(all, OptionProtocol);
    LastValueNone(all, OptionResource);
  }

  /**
   * The profile is the protocol when no format is given, and
   * "protocol:format" when one is.
   */
  lemma ResolverProfile(tableOptions: seq<DefElem>, userOptions: seq<DefElem>, serverOptions: seq<DefElem>,
                        wrapperOptions: seq<DefElem>, serverName: string, execLocation: char, h: Header)
    requires Resolve(tableOptions, userOptions, serverOptions, wrapperOptions, serverName, execLocation, h).Ok?
    ensures var all := AllOptions(tableOptions, userOptions, serverOptions, wrapperOptions);
            var o := Resolve(tableOptions, userOptions, serverOptions, wrapperOptions, serverName, execLocation, h).value;
            (!HasName(all, OptionFormat) ==> o.profile == o.protocol) &&
            (HasName(all, OptionFormat) && HasName(all, OptionProtocol) ==>
               o.format.Some? && o.protocol.Some? && o.profile == Some(o.protocol.value + ":" + o.format.value)) &&
            (HasName(all, OptionFormat) && !HasName(all, OptionProtocol) ==>
               o.format.Some? && o.profile == Some("(null):" + o.format.value))
  {
    var all := AllOptions(tableOptions, userOptions, serverOptions, wrapperOptions);
    LastValueNone(all, OptionFormat);
    LastValueNone(all, OptionProtocol);
    assert FormatString(None) + ":" == "(null):";
  }

  /** The profile examples: protocol "s3" alone, and "s3" with format "csv". */
  lemma ProfileExamples()
    ensures Profile(Some("s3"), None) == Some("s3")
    ensures Profile(Some("s3"), Some("csv")) == Some("s3:csv")
  {
    assert "s3" + ":" + "csv" == "s3:csv";
  }

  /**
   * copy_options holds every COPY option of every level, in scan order,
   * with no de-duplication by name.
   */
  lemma ResolverCopyOptions(tableOptions: seq<DefElem>, userOptions: seq<DefElem>, serverOptions: seq<DefElem>,
                            wrapperOptions: seq<DefElem>, serverName: string, execLocation: char, h: Header)
    requires Resolve(tableOptions, userOptions, serverOptions, wrapperOptions, serverName, execLocation, h).Ok?
    ensures var all := AllOptions(tableOptions, userOptions, serverOptions, wrapperOptions);
            var o := Resolve(tableOptions, userOptions, serverOptions, wrapperOptions, serverName, execLocation, h).value;
            o.copyOptions == Filter(tableOptions, ResolverCopy) + Filter(userOptions, ResolverCopy) +
                             Filter(serverOptions, ResolverCopy) + Filter(wrapperOptions, ResolverCopy) &&
            forall x :: x in o.copyOptions <==> x in all && ResolverCopy(x)
  {
    var all := AllOptions(tableOptions, userOptions, serverOptions, wrapperOptions);
    FilterConcat(tableOptions, userOptions, ResolverCopy);
    FilterConcat(tableOptions + userOptions, serverOptions, ResolverCopy);
    FilterConcat(tableOptions + userOptions + serverOptions, wrapperOptions, ResolverCopy);
    FilterMembers(all, ResolverCopy);
  }

  /**
   * The pass-through list holds pass-through options of the four levels
   * only, one per name, and every pass-through name given anywhere.
   */
  lemma ResolverPassThrough(tableOptions: seq<DefElem>, userOptions: seq<DefElem>, serverOptions: seq<DefElem>,
                            wrapperOptions: seq<DefElem>, serverName: string, execLocation: char, h: Header,
                            name: string)
    requires Resolve(tableOptions, userOptions, serverOptions, wrapperOptions, serverName, execLocation, h).Ok?
    ensures var all := AllOptions(tableOptions, userOptions, serverOptions, wrapperOptions);
            var o := Resolve(tableOptions, userOptions, serverOptions, wrapperOptions, serverName, execLocation, h).value;
            (forall k | 0 <= k < |o.options| :: o.options[k] in all && PassThrough(o.options[k])) &&
            (forall k, l | 0 <= k < l < |o.options| :: o.options[k].defname != o.options[l].defname) &&
            (HasName(o.options, name) <==> HasName(Filter(all, PassThrough), name))
  {
    var all := AllOptions(tableOptions, userOptions, serverOptions, wrapperOptions);
    var f := Filter(all, PassThrough);
    FirstByNameShape(f);
    FilterMembers(all, PassThrough);
    FirstByNameNames(f, name);
  }

  /**
   * Pass-through options are first-wins: the first option of its name, in
   * the order table, user mapping, server, wrapper, is the one kept.
   */
  lemma ResolverFirstWins(tableOptions: seq<DefElem>, userOptions: seq<DefElem>, serverOptions: seq<DefElem>,
                          wrapperOptions: seq<DefElem>, serverName: string, execLocation: char, h: Header,
                          i: nat)
    requires var all := AllOptions(tableOptions, userOptions, serverOptions, wrapperOptions);
             i < |all| && PassThrough(all[i]) && forall j | 0 <= j < i :: all[j].defname != all[i].defname
    requires Resolve(tableOptions, userOptions, serverOptions, wrapperOptions, serverName, execLocation, h).Ok?
    ensures var all := AllOptions(tableOptions, userOptions, serverOptions, wrapperOptions);
            var o := Resolve(tableOptions, userOptions, serverOptions, wrapperOptions, serverName, execLocation, h).value;
            all[i] in o.options &&
            forall k | 0 <= k < |o.options| && o.options[k].defname == all[i].defname :: o.options[k] == all[i]
  {
    var all := AllOptions(tableOptions, userOptions, serverOptions, wrapperOptions);
    var f := Filter(all, PassThrough);
    FilterFirstOccurrence(all, PassThrough, i);
    var m :| 0 <= m < |f| && f[m] == all[i] && forall l | 0 <= l < m :: f[l].defname != all[i].defname;
    FirstByNameKeepsFirst(f, m);
  }

  /**
   * The precedence law for a pass-through option given on the table and
   * again on the wrapper: the table's value is the one kept.
   */
  lemma ResolverTableBeatsWrapper(tableOptions: seq<DefElem>, userOptions: seq<DefElem>, serverOptions: seq<DefElem>,
                                  wrapperOptions: seq<DefElem>, serverName: string, execLocation: char, h: Header,
                                  i: nat)
    requires i < |tableOptions| && PassThrough(tableOptions[i])
    requires forall j | 0 <= j < i :: tableOptions[j].defname != tableOptions[i].defname
    requires Resolve(tableOptions, userOptions, serverOptions, wrapperOptions, serverName, execLocation, h).Ok?
    ensures var o := Resolve(tableOptions, userOptions, serverOptions, wrapperOptions, serverName, execLocation, h).value;
            forall k | 0 <= k < |o.options| && o.options[k].defname == tableOptions[i].defname ::
              o.options[k].arg == tableOptions[i].arg
  {
    var all := AllOptions(tableOptions, userOptions, serverOptions, wrapperOptions);
    assert all[i] == tableOptions[i];
    assert forall j | 0 <= j < i :: all[j] == tableOptions[j];
    ResolverFirstWins(tableOptions, userOptions, serverOptions, wrapperOptions, serverName, execLocation, h, i);
  }

  /** GetWireFormatName as written: parquet, like any other format, maps to text. */
  lemma WireFormatOfParquet(h: Header)
    ensures GetWireFormatName(Some("parquet"), h) == h.textFormatName
    ensures GetWireFormatName(Some("CSV"), h) == h.textFormatName
    ensures GetWireFormatName(None, h) == h.gpdbWritableFormatName
  {
  }
}
