/**
 * The C library and PostgreSQL string primitives the option code relies on:
 * pg_strcasecmp, strcasestr, strtol and atoi, in the "C" locale.
 */
module CStrings {

  /** tolower on 7-bit ASCII */
  function ToLower(c: char): char
  {
    if 'A' <= c <= 'Z' then (c as int + 32) as char else c
  }

  /** pg_strcasecmp(a, b) == 0: equal up to ASCII case */
  predicate CaseEq(a: string, b: string)
  {
    |a| == |b| && forall i | 0 <= i < |a| :: ToLower(a[i]) == ToLower(b[i])
  }

  /** needle occurs, up to ASCII case, in haystack at index i */
  predicate OccursAt(haystack: string, needle: string, i: nat)
  {
    i + |needle| <= |haystack| && CaseEq(haystack[i..i + |needle|], needle)
  }

  /** strcasestr(haystack, needle) != NULL */
  predicate ContainsCaseInsensitive(haystack: string, needle: string)
  {
    exists i: nat | i <= |haystack| :: OccursAt(haystack, needle, i)
  }

  /** isspace in the "C" locale: space, \t, \n, \v, \f, \r */
  predicate IsSpace(c: char)
  {
    c == ' ' || '\t' <= c <= '\r'
  }

  predicate IsDigit(c: char)
  {
    '0' <= c <= '9'
  }

  /** The value of a run of decimal digits, most significant first. */
  function DecimalValue(ds: string): (v: nat)
    requires forall i | 0 <= i < |ds| :: IsDigit(ds[i])
  {
    if ds == [] then 0
    else
      var last := ds[|ds| - 1];
      assert IsDigit(last);
      10 * DecimalValue(ds[..|ds| - 1]) + (last as int - '0' as int)
  }

  /** The first index at or after i that does not satisfy IsSpace. */
  function SkipSpaces(s: string, i: nat): (j: nat)
    requires i <= |s|
    ensures i <= j <= |s|
    ensures forall k | i <= k < j :: IsSpace(s[k])
    ensures j < |s| ==> !IsSpace(s[j])
    decreases |s| - i
  {
    if i < |s| && IsSpace(s[i]) then SkipSpaces(s, i + 1) else i
  }

  /** The end of the run of digits that starts at i. */
  function DigitsEnd(s: string, i: nat): (j: nat)
    requires i <= |s|
    ensures i <= j <= |s|
    ensures forall k | i <= k < j :: IsDigit(s[k])
    ensures j < |s| ==> !IsDigit(s[j])
    decreases |s| - i
  {
    if i < |s| && IsDigit(s[i]) then DigitsEnd(s, i + 1) else i
  }

  const LongMin: int := -0x8000_0000_0000_0000
  const LongMax: int := 0x7FFF_FFFF_FFFF_FFFF

  /** strtol's clamping of a value to the range of a long. */
  function ClampLong(v: int): int
  {
    if v > LongMax then LongMax else if v < LongMin then LongMin else v
  }

  /** What strtol(s, &endptr, 10) returns, with endptr as an index into s. */
  datatype Parsed = Parsed(value: int, end: nat)

  /**
   * strtol(s, &endptr, 10): leading white space, an optional sign, then the
   * longest run of decimal digits; a result outside the range of a 64-bit
   * long is clamped to LongMin or LongMax. When no digit follows the sign,
   * the value is 0 and endptr is s itself (end == 0).
   */
  function StrToL(s: string): (r: Parsed)
    ensures r.end <= |s|
    ensures LongMin <= r.value <= LongMax
    ensures r.end == 0 ==> r.value == 0
    ensures r.end > 0 ==> IsDigit(s[r.end - 1]) && (r.end == |s| || !IsDigit(s[r.end]))
  {
    var a := SkipSpaces(s, 0);
    var signed := a < |s| && (s[a] == '+' || s[a] == '-');
    var b := if signed then a + 1 else a;
    var e := DigitsEnd(s, b);
    if e == b then Parsed(0, 0)
    else
      var magnitude: int := DecimalValue(s[b..e]);
      var v: int := if signed && s[a] == '-' then -magnitude else magnitude;
      Parsed(ClampLong(v), e)
  }

  /** The (int) cast of a long on a two's-complement target: keep the low 32 bits. */
  function Int32Of(x: int): (r: int)
    ensures -0x8000_0000 <= r < 0x8000_0000
    ensures (r - x) % 0x1_0000_0000 == 0
  {
    var m := x % 0x1_0000_0000;
    if m >= 0x8000_0000 then m - 0x1_0000_0000 else m
  }

  /** atoi(s), which glibc defines as (int) strtol(s, NULL, 10). */
  function Atoi(s: string): (r: int)
    ensures -0x8000_0000 <= r < 0x8000_0000
    ensures (r - StrToL(s).value) % 0x1_0000_0000 == 0
  {
    Int32Of(StrToL(s).value)
  }

  /** A value of the int range survives the cast unchanged. */
  lemma Int32OfIdentity(x: int)
    requires -0x8000_0000 <= x < 0x8000_0000
    ensures Int32Of(x) == x
  {
  }

  /** A string made only of decimal digits parses completely to its value. */
  lemma {:induction false} StrToLOfDigits(ds: string)
    requires |ds| > 0 && forall i | 0 <= i < |ds| :: IsDigit(ds[i])
    requires DecimalValue(ds) <= LongMax
    ensures StrToL(ds) == Parsed(DecimalValue(ds), |ds|)
  {
    assert !IsSpace(ds[0]) && ds[0] != '+' && ds[0] != '-';
    assert SkipSpaces(ds, 0) == 0;
    DigitsEndAll(ds, 0);
    assert ds[0..|ds|] == ds;
  }

  lemma {:induction false} DigitsEndAll(s: string, i: nat)
    requires i <= |s|
    requires forall k | i <= k < |s| :: IsDigit(s[k])
    ensures DigitsEnd(s, i) == |s|
    decreases |s| - i
  {
    if i < |s| {
      DigitsEndAll(s, i + 1);
    }
  }

  /** A string without any digit gives "no digits": endptr stays at the start. */
  lemma NoDigitsNoParse(s: string)
    requires forall i | 0 <= i < |s| :: !IsDigit(s[i])
    ensures StrToL(s) == Parsed(0, 0)
  {
  }

  /** SkipSpaces stops at the first character after a run of white space. */
  lemma {:induction false} SkipSpacesTo(s: string, i: nat, j: nat)
    requires i <= j <= |s|
    requires forall k | i <= k < j :: IsSpace(s[k])
    requires j < |s| ==> !IsSpace(s[j])
    ensures SkipSpaces(s, i) == j
    decreases j - i
  {
    if i < j {
      SkipSpacesTo(s, i + 1, j);
    }
  }

  /** DigitsEnd stops at the first non-digit after a run of digits. */
  lemma {:induction false} DigitsEndTo(s: string, i: nat, j: nat)
    requires i <= j <= |s|
    requires forall k | i <= k < j :: IsDigit(s[k])
    requires j < |s| ==> !IsDigit(s[j])
    ensures DigitsEnd(s, i) == j
    decreases j - i
  {
    if i < j {
      DigitsEndTo(s, i + 1, j);
    }
  }

  /** The sign strtol accepts before the digits: none, "+" or "-". */
  predicate IsSign(sign: string)
  {
    sign == "" || sign == "+" || sign == "-"
  }

  /** The value of a run of digits under an optional sign. */
  function SignedValue(sign: string, ds: string): int
    requires forall i | 0 <= i < |ds| :: IsDigit(ds[i])
  {
    if sign == "-" then -(DecimalValue(ds) as int) else DecimalValue(ds)
  }

  /** Where strtol's scan of white space, sign and digits stops in ws + sign + ds + rest. */
  lemma NumberShape(ws: string, sign: string, ds: string, rest: string)
    requires forall i | 0 <= i < |ws| :: IsSpace(ws[i])
    requires IsSign(sign)
    requires |ds| > 0 && forall i | 0 <= i < |ds| :: IsDigit(ds[i])
    requires rest == [] || !IsDigit(rest[0])
    ensures var s := ws + sign + ds + rest;
            var a := |ws|;
            SkipSpaces(s, 0) == a && a < |s| &&
            ((s[a] == '+' || s[a] == '-') <==> sign != "") && (sign != "" ==> s[a] == sign[0]) &&
            DigitsEnd(s, a + |sign|) == a + |sign| + |ds| && s[a + |sign|..a + |sign| + |ds|] == ds
  {
    var s := ws + sign + ds + rest;
    var a := |ws|;
    var b := a + |sign|;
    var e := b + |ds|;
    assert s[a] == if sign == "" then ds[0] else sign[0];
    assert forall k | 0 <= k < a :: s[k] == ws[k];
    SkipSpacesTo(s, 0, a);
    assert forall k | b <= k < e :: s[k] == ds[k - b];
    assert e < |s| ==> s[e] == rest[0];
    DigitsEndTo(s, b, e);
    assert s[b..e] == ds;
  }

  /**
   * strtol on white space, an optional sign, a run of digits and a rest that
   * does not continue the digits: the signed value of the digits, clamped to
   * a long, with endptr just after the last digit.
   */
  lemma StrToLOfNumber(ws: string, sign: string, ds: string, rest: string)
    requires forall i | 0 <= i < |ws| :: IsSpace(ws[i])
    requires IsSign(sign)
    requires |ds| > 0 && forall i | 0 <= i < |ds| :: IsDigit(ds[i])
    requires rest == [] || !IsDigit(rest[0])
    ensures StrToL(ws + sign + ds + rest) == Parsed(ClampLong(SignedValue(sign, ds)), |ws| + |sign| + |ds|)
  {
    NumberShape(ws, sign, ds, rest);
  }

  /**
   * strtol on white space and an optional sign followed by no digit: no
   * conversion, the value 0 and endptr at the start of the string.
   */
  lemma StrToLOfNoNumber(ws: string, sign: string, rest: string)
    requires forall i | 0 <= i < |ws| :: IsSpace(ws[i])
    requires IsSign(sign)
    requires rest == [] || !IsDigit(rest[0])
    requires sign == "" && rest != [] ==> !IsSpace(rest[0]) && rest[0] != '+' && rest[0] != '-'
    ensures StrToL(ws + sign + rest) == Parsed(0, 0)
  {
    var s := ws + sign + rest;
    var a := |ws|;
    var b := a + |sign|;
    assert a < |s| ==> s[a] == if sign == "" then rest[0] else sign[0];
    SkipSpacesTo(s, 0, a);
    assert b < |s| ==> s[b] == rest[0];
    DigitsEndTo(s, b, b);
  }

  /** strtol("-5") is -5, with endptr at the end. */
  lemma StrToLNegative()
    ensures StrToL("-5") == Parsed(-5, 2)
  {
    StrToLOfNumber("", "-", "5", "");
    assert "" + "-" + "5" + "" == "-5";
  }

  /** strtol("5abc") is 5, with endptr just after the digit. */
  lemma StrToLSuffix()
    ensures StrToL("5abc") == Parsed(5, 1)
  {
    StrToLOfNumber("", "", "5", "abc");
    assert "" + "" + "5" + "abc" == "5abc";
  }

  /** strtol("x5") converts nothing: a leading letter stops the scan. */
  lemma StrToLLeadingLetter()
    ensures StrToL("x5") == Parsed(0, 0)
  {
    StrToLOfNoNumber("", "", "x5");
    assert "" + "" + "x5" == "x5";
  }

  /**
   * atoi on white space, an optional sign and digits: the signed value of the
   * digits when it fits in an int, and in any case its clamped value cut to
   * 32 bits.
   */
  lemma AtoiOfNumber(ws: string, sign: string, ds: string, rest: string)
    requires forall i | 0 <= i < |ws| :: IsSpace(ws[i])
    requires IsSign(sign)
    requires |ds| > 0 && forall i | 0 <= i < |ds| :: IsDigit(ds[i])
    requires rest == [] || !IsDigit(rest[0])
    ensures Atoi(ws + sign + ds + rest) == Int32Of(ClampLong(SignedValue(sign, ds)))
    ensures -0x8000_0000 <= SignedValue(sign, ds) < 0x8000_0000 ==> Atoi(ws + sign + ds + rest) == SignedValue(sign, ds)
  {
    StrToLOfNumber(ws, sign, ds, rest);
  }

  /** atoi of a string with no number at its start is 0. */
  lemma AtoiOfNoNumber(ws: string, sign: string, rest: string)
    requires forall i | 0 <= i < |ws| :: IsSpace(ws[i])
    requires IsSign(sign)
    requires rest == [] || !IsDigit(rest[0])
    requires sign == "" && rest != [] ==> !IsSpace(rest[0]) && rest[0] != '+' && rest[0] != '-'
    ensures Atoi(ws + sign + rest) == 0
  {
    StrToLOfNoNumber(ws, sign, rest);
  }

  /** The string with every ASCII letter lowered, as pg_strcasecmp compares it. */
  function Lowered(s: string): (r: string)
    ensures |r| == |s| && forall i | 0 <= i < |s| :: r[i] == ToLower(s[i])
  {
    seq(|s|, i requires 0 <= i < |s| => ToLower(s[i]))
  }

  /**
   * pg_strcasecmp(a, b) == 0 exactly when the lowered strings are equal; so
   * it is reflexive, symmetric and transitive.
   */
  lemma CaseEqLowered(a: string, b: string, c: string)
    ensures CaseEq(a, b) <==> Lowered(a) == Lowered(b)
    ensures CaseEq(a, a)
    ensures CaseEq(a, b) ==> CaseEq(b, a)
    ensures CaseEq(a, b) && CaseEq(b, c) ==> CaseEq(a, c)
  {
    if Lowered(a) == Lowered(b) {
      assert |a| == |Lowered(a)|;
      forall i | 0 <= i < |a|
        ensures ToLower(a[i]) == ToLower(b[i])
      {
        assert Lowered(a)[i] == Lowered(b)[i];
      }
    }
  }

  /** strcasestr finds a needle that occurs, up to case, anywhere in the haystack. */
  lemma ContainsInfix(pre: string, mid: string, post: string, needle: string)
    requires CaseEq(mid, needle)
    ensures ContainsCaseInsensitive(pre + mid + post, needle)
  {
    var h := pre + mid + post;
    assert h[|pre|..|pre| + |needle|] == mid;
    assert OccursAt(h, needle, |pre|);
  }

  /** strcasestr finds nothing in a haystack shorter than the needle. */
  lemma ContainsShorter(haystack: string, needle: string)
    requires |haystack| < |needle|
    ensures !ContainsCaseInsensitive(haystack, needle)
  {
  }

  /** "text:multi" and "TEXT" contain "text" up to case; "csv" does not. */
  lemma ContainsExamples()
    ensures ContainsCaseInsensitive("text:multi", "text")
    ensures ContainsCaseInsensitive("TEXT", "text")
    ensures !ContainsCaseInsensitive("csv", "text")
  {
    ContainsInfix("", "text", ":multi", "text");
    assert "" + "text" + ":multi" == "text:multi";
    ContainsInfix("", "TEXT", "", "text");
    assert "" + "TEXT" + "" == "TEXT";
    ContainsShorter("csv", "text");
  }
}
