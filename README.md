# PXF foreign-data wrapper option handling

A Dafny model of the option handling in the PXF foreign-data wrapper for
Greenplum/PostgreSQL (`contrib/pxf_fdw/pxf_option.c`). It covers three entry points:

- `pxf_fdw_validator` checks the options given to a FOREIGN DATA WRAPPER,
  SERVER, USER MAPPING, FOREIGN TABLE or column. It checks each option's
  catalog level, the `wire_format`, `reject_limit` and `reject_limit_type`
  values, the required `protocol` and `resource`, and the reject limit
  against its type. It then forwards the COPY-style options to
  `ValidateCopyOptions`.
- `ValidateCopyOptions` checks that each forwarded option is a COPY option
  of the catalog. `force_not_null` and `force_null` may each appear once,
  with a boolean value. The remaining options go to the core COPY code.
- `PxfGetOptions` merges a foreign table's options from the table, the
  user mapping, the server and the wrapper, in that order. Named fields
  are last-wins. COPY options are collected. Other options are kept
  first-wins, one per name. It then derives the profile and fills in the
  defaults, including the wire format chosen by `GetWireFormatName`.

The files:

| file | module | what it holds |
|---|---|---|
| `wrappers.dfy` | `Wrappers` | `Option`, `Result`, `Outcome` |
| `c_strings.dfy` | `CStrings` | `pg_strcasecmp`, `strcasestr`, `strtol`, the `(int)` cast and `atoi`, in the "C" locale |
| `option_lists.dfy` | `OptionLists` | the `DefElem` option lists and the functions over them: last value of a name, filtering, first-of-each-name |
| `pxf_catalog.dfy` | `PxfCatalog` | the option names, the two option tables, the errors, the table lookups and the invalid-option hint |
| `pxf_validator.dfy` | `PxfValidator` | `pxf_fdw_validator` and `ValidateCopyOptions` |
| `pxf_resolver.dfy` | `PxfResolver` | `PxfGetOptions` and `GetWireFormatName` |

How the model works:

- Each loop of the C code is a `method` with a `while` loop. Each one is
  proved equal to a specification function over the option list:
  - `ValidateOption` to `LevelError`;
  - `ValidateCopyOptions` to `CopyValidation`;
  - `PxfFdwValidator` to `Validate`;
  - `PxfGetOptions` to `Resolve`.
- The lemmas state what these functions promise.
- Every `ereport(ERROR, ...)` and `elog(ERROR, ...)` is an `Error` value returned through `Outcome`, `Result` or, for the per-option checks, `Option<Error>`.
- The code below the options is passed in as explicit parameters:
  - `Header` holds the constants from the wrapper's header. These are `TextFormatName`, `GpdbWritableFormatName` and the `PXF_FDW_DEFAULT_*` values.
  - `CopyDelegate` stands for `defGetBoolean` and `ProcessCopyOptions`.

## Model

| member | source | states |
|---|---|---|
| `PxfCatalog.ValidOptionsUnique` | contrib/pxf_fdw/pxf_option.c:49-61 | no option name is bound to two catalogs in the wrapper's option table |
| `PxfCatalog.LevelCheck` | contrib/pxf_fdw/pxf_option.c:500-520 | an option is refused exactly when the table binds it to another catalog, and the error names that catalog; an option not in the table passes |
| `PxfCatalog.ValidateOption` | contrib/pxf_fdw/pxf_option.c:500-520 | the table walk returns the level error of `LevelError`, or none |
| `PxfValidator.EntryLevel` | contrib/pxf_fdw/pxf_option.c:49-61 | every entry of the option table passes the level check in its own catalog |
| `PxfCatalog.IsCopyOption` | contrib/pxf_fdw/pxf_option.c:471-482 | true exactly when the name is in the COPY option table at some level |
| `PxfCatalog.IsValidCopyOption` | contrib/pxf_fdw/pxf_option.c:455-466 | true exactly when the name is in the COPY option table for the given catalog |
| `PxfCatalog.CopyNamesForeignTable` | contrib/pxf_fdw/pxf_option.c:72-95 | the foreign-table COPY options are the nine format options, in table order |
| `PxfCatalog.CopyNamesAttribute` | contrib/pxf_fdw/pxf_option.c:72-95 | the column-level COPY options are `force_not_null` and `force_null` |
| `PxfCatalog.CopyNamesNone` | contrib/pxf_fdw/pxf_option.c:72-95 | the wrapper, server and user mapping have no COPY options |
| `PxfCatalog.CopyHintForeignTable` | contrib/pxf_fdw/pxf_option.c:275-289 | the foreign-table hint is "Valid options in this context are: " followed by the nine names joined by ", " |
| `PxfCatalog.CopyHintAttribute` | contrib/pxf_fdw/pxf_option.c:275-289 | the column-level hint lists `force_not_null, force_null` |
| `PxfCatalog.CopyHintNone` | contrib/pxf_fdw/pxf_option.c:286-289 | with an empty buffer the hint is "There are no valid options in this context." |
| `PxfValidator.JoinContextNames` | contrib/pxf_fdw/pxf_option.c:275-281 | the buffer loop joins the table's names for the catalog with ", " and no leading separator |
| `PxfValidator.CopyHint` | contrib/pxf_fdw/pxf_option.c:275-289 | the hint built for an invalid COPY option is `CopyOptionHint` of the catalog |
| `PxfValidator.CheckCopyOption` | contrib/pxf_fdw/pxf_option.c:266-317 | one option's checks: not a COPY option of the catalog, a repeated force flag, a non-boolean force flag |
| `PxfValidator.WalkCopyOptions` | contrib/pxf_fdw/pxf_option.c:262-320 | the loop fails with the first option's error, or returns, in order, every option except the force flags |
| `PxfValidator.ValidateCopyOptions` | contrib/pxf_fdw/pxf_option.c:250-328 | the result is `CopyValidation`: the first error of the walk, else the verdict of the core COPY code on the forwarded options |
| `PxfValidator.FirstCopyErrorNone` | contrib/pxf_fdw/pxf_option.c:262-320 | the walk raises nothing exactly when every option is a COPY option of the catalog and each force flag appears at most once with a boolean value |
| `PxfValidator.CopyOptionsLegalSnoc` | contrib/pxf_fdw/pxf_option.c:262-320 | a list stays legal on one more option exactly when that option raises no error |
| `PxfValidator.CopyValidationPass` | contrib/pxf_fdw/pxf_option.c:250-328 | `ValidateCopyOptions` passes if and only if the options are legal and the core COPY code accepts the non-flag options |
| `PxfValidator.CopyValidationFirstError` | contrib/pxf_fdw/pxf_option.c:266-314 | the first failing option decides the error: an unknown name gets the catalog's hint, a repeated force flag the conflicting-options error |
| `PxfValidator.DuplicateFlagLaw` | contrib/pxf_fdw/pxf_option.c:296-317 | two `force_not_null` options conflict; a `force_not_null` paired with a `force_null` passes |
| `PxfValidator.CheckOption` | contrib/pxf_fdw/pxf_option.c:141-196 | one option's checks, in order: catalog level, then the `wire_format`, `reject_limit` or `reject_limit_type` value |
| `PxfValidator.WalkOptions` | contrib/pxf_fdw/pxf_option.c:127-199 | the loop fails with the first option's error, or returns the last protocol, resource, reject limit (strtol cut to int) and type, and the forwarded COPY options |
| `PxfValidator.GatherOption` | contrib/pxf_fdw/pxf_option.c:143-198 | what one option that passed its checks records: `protocol` and `resource` take its value, `reject_limit` takes strtol of it cut to int, `reject_limit_type` takes its value, and the option is appended to `copy_options` exactly when line 171 (a text or csv `format`) or line 198 (any other COPY option) appends it; every other field is unchanged |
| `PxfValidator.PxfFdwValidator` | contrib/pxf_fdw/pxf_option.c:124-248 | the validator's result is `Validate`: walk, required options, reject-limit cross-check, then `ValidateCopyOptions` |
| `PxfValidator.FirstOptionErrorNone` | contrib/pxf_fdw/pxf_option.c:136-199 | the walk raises nothing exactly when every option passes its own check |
| `PxfValidator.ValidatorFirstError` | contrib/pxf_fdw/pxf_option.c:136-199 | the first option that fails its own check decides the validator's error (fail fast) |
| `PxfValidator.OptionErrorCodes` | contrib/pxf_fdw/pxf_option.c:141-196 | the walk's errors carry SQLSTATE FDW_INVALID_OPTION_NAME, FDW_INVALID_ATTRIBUTE_VALUE or FDW_INVALID_STRING_FORMAT, as the `ereport` calls at lines 152-195 and 512-517 give them |
| `PxfValidator.CopyErrorCodes` | contrib/pxf_fdw/pxf_option.c:283-314 | the COPY option checks raise FDW_INVALID_OPTION_NAME or SYNTAX_ERROR, or whatever the core COPY code reports |
| `PxfValidator.ValidatorErrorCodes` | contrib/pxf_fdw/pxf_option.c:124-248 | no error the validator raises is an internal (`elog`) error |
| `PxfValidator.ValidatorLevelCheck` | contrib/pxf_fdw/pxf_option.c:141 | on success every table option is declared in its own catalog; the first misplaced option raises the level error naming its catalog |
| `PxfValidator.ValidatorRequiredOptions` | contrib/pxf_fdw/pxf_option.c:201-217 | a wrapper that passes has a non-empty protocol; a foreign table that passes has a non-empty resource; once every option passed its own check, a missing or empty one raises the dynamic-parameter-needed error; no other catalog raises either |
| `PxfValidator.ValidatorValueChecks` | contrib/pxf_fdw/pxf_option.c:147-196 | on success every `wire_format` is one of the two wire format names, every `reject_limit_type` is rows or percent up to case, and every `reject_limit` parses to at least 1 |
| `PxfValidator.ValidatorRejectLimitBounds` | contrib/pxf_fdw/pxf_option.c:219-240 | on success a set reject limit is at least 2 for rows and within 1..100 for percent; without the option it stays -1 |
| `PxfValidator.ValidatorRejectLimitVerdict` | contrib/pxf_fdw/pxf_option.c:219-240 | once the earlier checks pass, a rows limit below 2 or a percent limit above 100 raises the matching error |
| `PxfValidator.ValidatorRouting` | contrib/pxf_fdw/pxf_option.c:158-198 | `format` is forwarded exactly when it is text or csv up to case; the other named options never are; any other option exactly when it is a COPY option |
| `PxfValidator.FirstOptionErrorSkip` | contrib/pxf_fdw/pxf_option.c:136-199 | an option that passes its own check does not change the walk's first error |
| `PxfValidator.IgnoredOptionIrrelevant` | contrib/pxf_fdw/pxf_option.c:136-199 | an option in neither table is ignored: removing it does not change the verdict |
| `PxfValidator.ExampleLevels` | contrib/pxf_fdw/pxf_option.c:49-61 | `resource`, `reject_limit` and `reject_limit_type` are allowed on a foreign table |
| `PxfValidator.ExampleOptionErrors` | contrib/pxf_fdw/pxf_option.c:141-196 | on a foreign table, of `resource`, `reject_limit` and a valid type, only a malformed reject limit fails |
| `PxfValidator.RejectLimitExampleWalk` | contrib/pxf_fdw/pxf_option.c:136-199 | the walk over the three-option example fails only on a malformed reject limit |
| `PxfValidator.RejectLimitExampleFields` | contrib/pxf_fdw/pxf_option.c:127-199 | the example's walk keeps resource "data", the parsed limit and its type, and forwards nothing |
| `PxfValidator.RejectLimitExampleVerdict` | contrib/pxf_fdw/pxf_option.c:173-240 | the example's verdict: malformed limit error, else the reject-limit cross-check |
| `PxfValidator.RejectLimitRowsBoundary` | contrib/pxf_fdw/pxf_option.c:222-230 | a limit of 1 row is refused with the rows error, 2 rows is accepted |
| `PxfValidator.RejectLimitPercentBoundary` | contrib/pxf_fdw/pxf_option.c:173-240 | 0 percent is refused as malformed, 100 percent accepted, 101 percent refused with the percent error |
| `PxfValidator.DigitsParse` | contrib/pxf_fdw/pxf_option.c:178 | a digit string whose value fits in int parses completely to that value |
| `CStrings.StrToL` | contrib/pxf_fdw/pxf_option.c:178 | strtol's result lies in the long range, with no digits it is 0 with endptr at the start, otherwise endptr stops just after the last digit |
| `CStrings.Int32Of` | contrib/pxf_fdw/pxf_option.c:178 | the (int) cast lands in the 32-bit range and agrees with its argument modulo 2^32 |
| `CStrings.Int32OfIdentity` | contrib/pxf_fdw/pxf_option.c:178 | a value already in the int range is unchanged by the cast |
| `CStrings.StrToLOfDigits` | contrib/pxf_fdw/pxf_option.c:178 | a string of digits parses completely to its decimal value |
| `CStrings.NoDigitsNoParse` | contrib/pxf_fdw/pxf_option.c:180 | a string without digits leaves endptr at the start, the case the validator rejects |
| `CStrings.StrToLOfNumber` | contrib/pxf_fdw/pxf_option.c:178 | strtol on blanks, an optional sign, digits and a rest not starting with a digit gives the signed value clamped to a long, with endptr just after the digits |
| `CStrings.StrToLOfNoNumber` | contrib/pxf_fdw/pxf_option.c:178-180 | strtol on blanks and an optional sign with no digit after them converts nothing: value 0 and endptr at the start, which line 180 rejects |
| `CStrings.StrToLNegative` | contrib/pxf_fdw/pxf_option.c:178 | strtol("-5") is -5 with endptr at the end |
| `CStrings.StrToLSuffix` | contrib/pxf_fdw/pxf_option.c:178 | strtol("5abc") is 5 with endptr after the digit |
| `CStrings.StrToLLeadingLetter` | contrib/pxf_fdw/pxf_option.c:178-180 | strtol("x5") converts nothing, so endptr stays at the start |
| `CStrings.Atoi` | contrib/pxf_fdw/pxf_option.c:380 | atoi lies in the int range and agrees with strtol's value modulo 2^32, as for the port (line 380) and the reject limit (line 392) |
| `CStrings.AtoiOfNumber` | contrib/pxf_fdw/pxf_option.c:380 | atoi of a number is its clamped value cut to 32 bits, and the number itself when it fits in an int |
| `CStrings.AtoiOfNoNumber` | contrib/pxf_fdw/pxf_option.c:380 | atoi of a string with no number at its start is 0 |
| `CStrings.CaseEqLowered` | contrib/pxf_fdw/pxf_option.c:170 | `pg_strcasecmp(a, b) == 0`, as used at lines 170, 189-190, 222, 394 and 399-400, holds exactly when the lowered strings are equal, so it is reflexive, symmetric and transitive |
| `CStrings.ContainsInfix` | contrib/pxf_fdw/pxf_option.c:490-491 | strcasestr finds a needle that occurs, up to case, anywhere in the haystack |
| `CStrings.ContainsShorter` | contrib/pxf_fdw/pxf_option.c:491 | strcasestr finds nothing in a haystack shorter than the needle |
| `CStrings.ContainsExamples` | contrib/pxf_fdw/pxf_option.c:490-491 | "text:multi" and "TEXT" contain "text" up to case; "csv" does not |
| `OptionLists.LastValueAt` | contrib/pxf_fdw/pxf_option.c:375-404 | the occurrence of a name with no later occurrence sets the field (repeated assignment is last-wins) |
| `OptionLists.LastValueNone` | contrib/pxf_fdw/pxf_option.c:375-404 | a field stays unset exactly when its name does not occur |
| `OptionLists.FilterMembers` | contrib/pxf_fdw/pxf_option.c:395-406 | appending the options that satisfy a test keeps exactly those options |
| `OptionLists.FirstByNameShape` | contrib/pxf_fdw/pxf_option.c:407-416 | the pass-through merge keeps only given options, at most one per name |
| `OptionLists.FirstByNameKeepsFirst` | contrib/pxf_fdw/pxf_option.c:407-416 | the first option of a name is the one and only option of that name kept |
| `OptionLists.FirstByNameNames` | contrib/pxf_fdw/pxf_option.c:407-416 | a name is kept exactly when it is given |
| `PxfResolver.GetWireFormatName` | contrib/pxf_fdw/pxf_option.c:487-495 | as written: any set format gives the text wire format; only an unset format gives GPDBWritable |
| `PxfResolver.WireFormatOfParquet` | contrib/pxf_fdw/pxf_option.c:487-495 | "parquet" and "CSV" both map to text; no format maps to GPDBWritable |
| `PxfResolver.ScanOptions` | contrib/pxf_fdw/pxf_option.c:370-417 | the option loop fails on the first bad `pxf_port`, or returns the last value of each named field, the COPY options in order, and the first pass-through option of each name |
| `PxfResolver.PxfGetOptions` | contrib/pxf_fdw/pxf_option.c:333-449 | the result is `Resolve` of the table, user mapping, server and wrapper options |
| `PxfResolver.FirstBadPortNone` | contrib/pxf_fdw/pxf_option.c:378-384 | no port error exactly when no `pxf_port` is outside 1..65534 |
| `PxfResolver.FirstBadPortAt` | contrib/pxf_fdw/pxf_option.c:378-384 | the error reports the value of the first out-of-range `pxf_port` |
| `PxfResolver.PortAccepted` | contrib/pxf_fdw/pxf_option.c:380-383 | a `pxf_port` of 5888 passes the range check |
| `PxfResolver.PortTooLarge` | contrib/pxf_fdw/pxf_option.c:380-383 | a `pxf_port` of 65535 is refused |
| `PxfResolver.PortZero` | contrib/pxf_fdw/pxf_option.c:380-383 | a `pxf_port` of 0, or one with no digits (atoi gives 0), is refused |
| `PxfResolver.ResolverErrorCode` | contrib/pxf_fdw/pxf_option.c:382-383 | the only error `PxfGetOptions` raises is the invalid-port `elog`, an internal error |
| `PxfResolver.ResolverPortCheck` | contrib/pxf_fdw/pxf_option.c:378-440 | the merge fails exactly when some `pxf_port` is out of range, naming the first; on success the port is in 1..65534 or the default |
| `PxfResolver.ResolverLastWins` | contrib/pxf_fdw/pxf_option.c:371-404 | the last option of a named field, in the order table, user mapping, server, wrapper, sets that field |
| `PxfResolver.ResolverDefaults` | contrib/pxf_fdw/pxf_option.c:353-446 | missing host, port and sub-protocol take the defaults; reject limit -1 of type rows; wire format from `GetWireFormatName`; server name and execution location copied |
| `PxfResolver.ResolverProfile` | contrib/pxf_fdw/pxf_option.c:425-431 | the profile is the protocol, or "protocol:format" when a format is set ("(null):format" without a protocol) |
| `PxfResolver.ProfileExamples` | contrib/pxf_fdw/pxf_option.c:425-431 | protocol "s3" alone gives "s3"; with format "csv" it gives "s3:csv" |
| `PxfResolver.ResolverCopyOptions` | contrib/pxf_fdw/pxf_option.c:395-406 | the COPY list is the COPY options of each level in scan order, not de-duplicated |
| `PxfResolver.ResolverPassThrough` | contrib/pxf_fdw/pxf_option.c:407-416 | the pass-through list holds only pass-through options, one per name, and every pass-through name given anywhere |
| `PxfResolver.ResolverFirstWins` | contrib/pxf_fdw/pxf_option.c:407-416 | the first pass-through option of a name is the one kept |
| `PxfResolver.ResolverTableBeatsWrapper` | contrib/pxf_fdw/pxf_option.c:364-416 | a pass-through option given on the table keeps the table's value over the later levels |

## Left out

- Catalog access is not modelled. `untransformRelOptions`, `GetForeignTable`, `GetUserMapping`, `GetForeignServer` and `GetForeignDataWrapper` are replaced by parameters: the four option lists, the server's name and the wrapper's execution location.
- Line 360 passes `server->serverid` to `GetUserMapping` before `server` is assigned on line 361. The catalog fetches are outside the model, so this read of an unassigned variable is not captured.
- `defGetBoolean` is the generic option reader of `commands/defrem.h` (line 19), and `ProcessCopyOptions` belongs to the core COPY code of `commands/copy.h` (line 18). Neither is defined in this file; they are the two predicates of `CopyDelegate`, whatever they check.
- `ereport` and `elog` become returned `Error` values. The message text, `errhint` formatting and `RelationGetRelationName` are left out; the error carries the option, the value or the catalog.
- `Header` holds the values of `TextFormatName`, `GpdbWritableFormatName` and the `PXF_FDW_DEFAULT_*` constants. Their definitions are outside this file, so they are parameters.
- `pg_strcasecmp` and `strcasestr` fold ASCII letters only. This is the "C" locale; locale-dependent case folding is not modelled.
- `strtol` clamps to a 64-bit `long`. The `(int)` cast is taken to keep the low 32 bits, as two's-complement targets do. `errno` is not modelled.
- `palloc`, `memset`, `PG_FUNCTION_ARGS` and the fmgr calling convention are left out. String ownership and `Value` nodes are left out too.
- The loops are split into helper methods:
  - `ScanOptions` is the loop of `PxfGetOptions`.
  - `WalkOptions`, `CheckOption` and `GatherOption` are the loop of `pxf_fdw_validator`.
  - `WalkCopyOptions` and `CheckCopyOption` are the loop of `ValidateCopyOptions`.

  Each loop checks an option, then records it. In the C code that check and record are interleaved. The order of the checks and the point where each error is raised are unchanged.
- `GetWireFormatName` is modelled as written. The comment at line 490 and the `text`, `csv` and `rc` constants at lines 22-24 show that the formats containing `text` (such as `text:multi`), plus csv and rc, were meant to give `TextFormatName`. But lines 491-492 test `pg_strcasecmp(...)` for csv and rc without comparing it to 0, and no format equals both, so every format that is set, parquet included, gives the text wire format.
- The COPY options of `PxfGetOptions` are collected as the code collects them: lines 401 and 406 append every COPY option of every level, so a COPY option given at two levels appears twice. Only the pass-through options of lines 409-415 are kept one per name.
- The invalid-option hint lists the valid names in table order, as the loop at lines 276-281 builds them, not sorted.
