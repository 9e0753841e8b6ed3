/**
 * The two JavaScript string operations the handlers rely on:
 * `String.prototype.split` with a one-character separator (used on the
 * `Authorization` header) and the global `parseInt` (used on the booking id
 * taken from the request path), together with the decimal rendering of an
 * integer that a client puts into that path.
 */
module JsText {
  import opened Wrappers

  // ---------------------------------------------------------------------
  // split / join

  /** Joins `fields` with `sep` between consecutive fields (`fields.join(sep)`). */
  function Join(fields: seq<string>, sep: char): (s: string)
    requires |fields| >= 1
  {
    if |fields| == 1 then fields[0] else fields[0] + [sep] + Join(fields[1..], sep)
  }

  /**
   * `s.split(sep)`: the maximal pieces of `s` between occurrences of `sep`.
   * There is always at least one field, no field contains the separator, and
   * joining the fields back gives `s`.
   */
  function Split(s: string, sep: char): (fields: seq<string>)
    ensures |fields| >= 1
    ensures forall i :: 0 <= i < |fields| ==> sep !in fields[i]
    ensures Join(fields, sep) == s
  {
    if s == [] then [""]
    else
      var rest := Split(s[1..], sep);
      if s[0] == sep then
        assert ([""] + rest)[1..] == rest;
        [""] + rest
      else
        var fields := [[s[0]] + rest[0]] + rest[1..];
        assert fields[1..] == rest[1..];
        assert |rest| > 1 ==> Join(rest, sep) == rest[0] + [sep] + Join(rest[1..], sep);
        fields
  }

  /** Split is the inverse of Join on fields that do not contain the separator. */
  lemma {:induction false} SplitJoin(fields: seq<string>, sep: char)
    requires |fields| >= 1
    requires forall i :: 0 <= i < |fields| ==> sep !in fields[i]
    ensures Split(Join(fields, sep), sep) == fields
  {
    if |fields| == 1 {
      SplitNoSeparator(fields[0], sep);
    } else {
      SplitJoin(fields[1..], sep);
      SplitAfterField(fields[0], Join(fields[1..], sep), sep);
      assert fields == [fields[0]] + fields[1..];
    }
  }

  /** A string without the separator splits into itself alone. */
  lemma {:induction false} SplitNoSeparator(s: string, sep: char)
    requires sep !in s
    ensures Split(s, sep) == [s]
  {
    if s != [] {
      SplitNoSeparator(s[1..], sep);
      assert [s[0]] + s[1..] == s;
    }
  }

  /** Splitting `f + [sep] + t`, where `f` has no separator, yields `f` then the fields of `t`. */
  lemma {:induction false} SplitAfterField(f: string, t: string, sep: char)
    requires sep !in f
    ensures Split(f + [sep] + t, sep) == [f] + Split(t, sep)
  {
    if f != [] {
      assert (f + [sep] + t)[1..] == f[1..] + [sep] + t;
      SplitAfterField(f[1..], t, sep);
      assert [f[0]] + f[1..] == f;
    } else {
      assert (f + [sep] + t)[1..] == t;
    }
  }

  // ---------------------------------------------------------------------
  // parseInt

  /**
   * The characters that `parseInt` strips from the front of its argument:
   * ECMAScript's WhiteSpace (TAB, VT, FF, SP, NBSP, ZWNBSP and the Unicode
   * space separators) and LineTerminator (LF, CR, LS, PS).
   */
  predicate IsStrWhiteSpace(c: char)
  {
    c == '\t' || c == '\n' || c == '\U{B}' || c == '\U{C}' || c == '\r' || c == ' '
    || c == '\U{A0}' || c == '\U{1680}' || ('\U{2000}' <= c <= '\U{200A}')
    || c == '\U{2028}' || c == '\U{2029}' || c == '\U{202F}' || c == '\U{205F}'
    || c == '\U{3000}' || c == '\U{FEFF}'
  }

  /** `s` without its leading white space. */
  function TrimStart(s: string): (t: string)
    ensures |t| <= |s| && t == s[|s| - |t|..]
    ensures forall i :: 0 <= i < |s| - |t| ==> IsStrWhiteSpace(s[i])
    ensures t == [] || !IsStrWhiteSpace(t[0])
  {
    if s != [] && IsStrWhiteSpace(s[0]) then TrimStart(s[1..]) else s
  }

  /** The value of `c` as a digit in any radix up to 36, or 36 when it is not one. */
  function DigitValue(c: char): (d: nat)
    ensures d <= 36
  {
    if '0' <= c <= '9' then c as nat - '0' as nat
    else if 'a' <= c <= 'z' then c as nat - 'a' as nat + 10
    else if 'A' <= c <= 'Z' then c as nat - 'A' as nat + 10
    else 36
  }

  /** The longest prefix of `s` made of digits valid in `radix`. */
  function DigitPrefix(s: string, radix: nat): (ds: string)
    ensures |ds| <= |s| && ds == s[..|ds|]
    ensures forall i :: 0 <= i < |ds| ==> DigitValue(ds[i]) < radix
    ensures |ds| == |s| || DigitValue(s[|ds|]) >= radix
  {
    if s != [] && DigitValue(s[0]) < radix then [s[0]] + DigitPrefix(s[1..], radix) else []
  }

  /** The number a digit string denotes in `radix`, most significant digit first. */
  function DigitsValue(ds: string, radix: nat): (v: nat)
  {
    if ds == [] then 0
    else DigitsValue(ds[..|ds| - 1], radix) * radix + DigitValue(ds[|ds| - 1])
  }

  /**
   * `parseInt(s)` with no radix argument; `None` stands for `NaN`.
   * Leading white space is skipped, then one optional sign, then a `0x` or
   * `0X` prefix selects radix 16 (radix 10 otherwise); the value is that of
   * the longest run of valid digits that follows, and anything after it is
   * ignored. Without a single digit the result is `NaN`.
   */
  function ParseInt(s: string): (n: Option<int>)
    ensures var t := TrimStart(s);
            var u := if t != [] && (t[0] == '-' || t[0] == '+') then t[1..] else t;
            var hex := |u| >= 2 && u[0] == '0' && (u[1] == 'x' || u[1] == 'X');
            n.None? <==> if hex then |u| == 2 || DigitValue(u[2]) >= 16 else u == [] || DigitValue(u[0]) >= 10
    ensures n.Some? && n.value < 0 ==> TrimStart(s) != [] && TrimStart(s)[0] == '-'
  {
    ParseSigned(TrimStart(s))
  }

  /** `parseInt` after white space: one optional sign, then the unsigned part. */
  function ParseSigned(t: string): (n: Option<int>)
  {
    if t != [] && t[0] == '-' then
      match ParseMagnitude(t[1..])
      case None => None
      case Some(m) => Some(-(m as int))
    else
      match ParseMagnitude(if t != [] && t[0] == '+' then t[1..] else t)
      case None => None
      case Some(m) => Some(m as int)
  }

  /** The unsigned part of `parseInt`: radix prefix, then the longest digit run. */
  function ParseMagnitude(u: string): (m: Option<nat>)
  {
    var hex := |u| >= 2 && u[0] == '0' && (u[1] == 'x' || u[1] == 'X');
    var radix := if hex then 16 else 10;
    var digits := DigitPrefix(if hex then u[2..] else u, radix);
    if digits == [] then None else Some(DigitsValue(digits, radix))
  }

  // ---------------------------------------------------------------------
  // decimal rendering

  function DigitChar(d: nat): (c: char)
    requires d < 10
    ensures DigitValue(c) == d
  {
    ('0' as nat + d) as char
  }

  /** The decimal digits of `n`, without leading zeros. */
  function NatToDecimal(n: nat): (s: string)
    ensures |s| >= 1
    ensures forall i :: 0 <= i < |s| ==> DigitValue(s[i]) < 10
    ensures DigitsValue(s, 10) == n
  {
    if n < 10 then
      assert [DigitChar(n)][..0] == [];
      [DigitChar(n)]
    else
      var s := NatToDecimal(n / 10) + [DigitChar(n % 10)];
      assert s[..|s| - 1] == NatToDecimal(n / 10);
      s
  }

  /** `String(n)` for an integer `n`: a minus sign for negatives, then the digits. */
  function IntToDecimal(n: int): (s: string)
  {
    if n < 0 then "-" + NatToDecimal(-n) else NatToDecimal(n)
  }

  /** `parseInt` reads back exactly the digits it is given. */
  lemma {:induction false} DigitPrefixOfDigits(ds: string, rest: string, radix: nat)
    requires forall i :: 0 <= i < |ds| ==> DigitValue(ds[i]) < radix
    requires rest == [] || DigitValue(rest[0]) >= radix
    ensures DigitPrefix(ds + rest, radix) == ds
  {
    if ds != [] {
      assert (ds + rest)[1..] == ds[1..] + rest;
      DigitPrefixOfDigits(ds[1..], rest, radix);
      assert [ds[0]] + ds[1..] == ds;
    }
  }

  /** The digits of `m`, followed by something that is not a digit, read back as `m`. */
  lemma MagnitudeDecimal(m: nat, rest: string)
    requires rest == [] || DigitValue(rest[0]) >= 10
    requires m == 0 && rest != [] ==> rest[0] != 'x' && rest[0] != 'X'
    ensures ParseMagnitude(NatToDecimal(m) + rest) == Some(m)
  {
    var d := NatToDecimal(m);
    var u := d + rest;
    if |u| >= 2 && u[0] == '0' {
      if |d| >= 2 {
        assert u[1] == d[1];
      } else {
        assert m == 0;
        assert u[1] == rest[0];
      }
    }
    DigitPrefixOfDigits(d, rest, 10);
  }

  /**
   * `parseInt(String(n) + rest)` is `n` whenever `rest` cannot extend the
   * number: it does not start with a decimal digit, nor with `x`/`X` right
   * after a lone `0` (which would turn it into a hexadecimal literal).
   */
  lemma ParseIntDecimal(n: int, rest: string)
    requires rest == [] || DigitValue(rest[0]) >= 10
    requires n == 0 && rest != [] ==> rest[0] != 'x' && rest[0] != 'X'
    ensures ParseInt(IntToDecimal(n) + rest) == Some(n)
  {
    if n < 0 {
      ParseIntNegativeDecimal(n, rest);
    } else {
      ParseIntNonNegativeDecimal(n, rest);
    }
  }

  lemma ParseIntNegativeDecimal(n: int, rest: string)
    requires n < 0
    requires rest == [] || DigitValue(rest[0]) >= 10
    ensures ParseInt(IntToDecimal(n) + rest) == Some(n)
  {
    var m: nat := -n;
    MagnitudeDecimal(m, rest);
    DecimalShape(n, rest);
    ParseIntSigned(IntToDecimal(n) + rest, NatToDecimal(m) + rest);
  }

  lemma ParseIntNonNegativeDecimal(n: int, rest: string)
    requires n >= 0
    requires rest == [] || DigitValue(rest[0]) >= 10
    requires n == 0 && rest != [] ==> rest[0] != 'x' && rest[0] != 'X'
    ensures ParseInt(IntToDecimal(n) + rest) == Some(n)
  {
    MagnitudeDecimal(n, rest);
    DecimalShape(n, rest);
    ParseIntUnsigned(NatToDecimal(n) + rest);
  }

  /** `String(n) + rest` is a sign (for negatives) followed by the digits and `rest`. */
  lemma DecimalShape(n: int, rest: string)
    ensures n < 0 ==> IntToDecimal(n) + rest == "-" + (NatToDecimal(-n) + rest)
    ensures n >= 0 ==> IntToDecimal(n) + rest == NatToDecimal(n) + rest
  {
  }

  /** Without leading white space or sign, `parseInt` is its unsigned part. */
  lemma ParseIntUnsigned(u: string)
    requires u != [] && DigitValue(u[0]) < 10
    ensures ParseMagnitude(u).None? ==> ParseInt(u).None?
    ensures ParseMagnitude(u).Some? ==> ParseInt(u) == Some(ParseMagnitude(u).value as int)
  {
    TrimStartNoSpace(u);
  }

  /** A leading minus sign negates the unsigned part. */
  lemma ParseIntSigned(s: string, u: string)
    requires s == "-" + u
    ensures ParseMagnitude(u).None? ==> ParseInt(s).None?
    ensures ParseMagnitude(u).Some? ==> ParseInt(s) == Some(-(ParseMagnitude(u).value as int))
  {
    assert s[0] == '-' && s[1..] == u;
    TrimStartNoSpace(s);
  }

  /** A string that starts with a visible character is left alone by TrimStart. */
  lemma TrimStartNoSpace(s: string)
    requires s != [] && !IsStrWhiteSpace(s[0])
    ensures TrimStart(s) == s
  {
  }
}
