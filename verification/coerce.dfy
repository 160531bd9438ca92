/**
  The coercions the typed getters of `Util` apply to a resolved value, and
  the `strconv` parsers they rely on. The rules are deliberately asymmetric:
  only byte slices are parsed, while native values are accepted only when
  they already have the exact Go type asked for.
 */
module Coerce {
  import opened Wrappers
  import opened Text
  import opened Values

  const Int64Min: int := -0x8000_0000_0000_0000
  const Int64Max: int := 0x7FFF_FFFF_FFFF_FFFF

  predicate InInt64(n: int) { Int64Min <= n <= Int64Max }

  /** `strconv.ParseFloat(s, 64)` is not modelled; it is a parameter. */
  type FloatParser = string -> Option<real>

  // ---------------------------------------------------------------- ParseBool

  /** `strconv.ParseBool`. */
  function ParseBool(s: string): (r: Option<bool>)
    ensures r == Some(true) <==> s in {"1", "t", "T", "TRUE", "true", "True"}
    ensures r == Some(false) <==> s in {"0", "f", "F", "FALSE", "false", "False"}
  {
    if s in {"1", "t", "T", "TRUE", "true", "True"} then Some(true)
    else if s in {"0", "f", "F", "FALSE", "false", "False"} then Some(false)
    else None
  }

  /** `strconv.FormatBool`. */
  function FormatBool(b: bool): string {
    if b then "true" else "false"
  }

  lemma ParseFormatBool(b: bool)
    ensures ParseBool(FormatBool(b)) == Some(b)
  {
  }

  // ---------------------------------------------------------------- Atoi / Itoa

  predicate AllDigits(s: string) {
    forall i :: 0 <= i < |s| ==> IsAsciiDigit(s[i])
  }

  function DigitValue(c: char): nat
    requires IsAsciiDigit(c)
  {
    c as int - '0' as int
  }

  /** The number a non-empty run of decimal digits denotes. */
  function DigitsValue(s: string): nat
    requires AllDigits(s)
    decreases |s|
  {
    if |s| == 0 then 0 else DigitsValue(s[..|s| - 1]) * 10 + DigitValue(s[|s| - 1])
  }

  /** The optional sign of a numeral and the digits after it. */
  function Unsigned(s: string): string
    requires |s| > 0
  {
    if s[0] == '-' || s[0] == '+' then s[1..] else s
  }

  /** `strconv.Atoi` for a 64-bit `int`: an optional `+` or `-`, at least
      one decimal digit and nothing else, and a value that fits in int64. */
  function Atoi(s: string): (r: Option<int>)
    ensures r.Some? <==>
      |s| > 0 && |Unsigned(s)| > 0 && AllDigits(Unsigned(s))
      && InInt64(if s[0] == '-' then -(DigitsValue(Unsigned(s)) as int) else DigitsValue(Unsigned(s)))
    ensures r.Some? ==> InInt64(r.value)
    ensures r.Some? && s[0] != '-' ==> r.value >= 0
  {
    if |s| == 0 then None
    else
      var body := Unsigned(s);
      if |body| == 0 || !AllDigits(body) then None
      else
        var n := if s[0] == '-' then -(DigitsValue(body) as int) else DigitsValue(body);
        if InInt64(n) then Some(n) else None
  }

  function DigitChar(d: nat): (c: char)
    requires d < 10
    ensures IsAsciiDigit(c) && DigitValue(c) == d
  {
    ('0' as int + d) as char
  }

  /** The decimal digits of a natural number, most significant first. */
  function NatDigits(n: nat): (s: string)
    ensures |s| >= 1 && AllDigits(s)
    decreases n
  {
    if n < 10 then [DigitChar(n)] else NatDigits(n / 10) + [DigitChar(n % 10)]
  }

  /** `strconv.Itoa`. */
  function Itoa(n: int): string {
    if n < 0 then "-" + NatDigits(-n) else NatDigits(n)
  }

  lemma {:induction false} DigitsValueOfNatDigits(n: nat)
    ensures DigitsValue(NatDigits(n)) == n
    decreases n
  {
    if n >= 10 {
      DigitsValueOfNatDigits(n / 10);
      var s := NatDigits(n);
      assert s[..|s| - 1] == NatDigits(n / 10);
    }
  }

  /** `Atoi` reads back every int64 that `Itoa` writes. */
  lemma AtoiItoa(n: int)
    requires InInt64(n)
    ensures Atoi(Itoa(n)) == Some(n)
  {
    var m: nat := if n < 0 then -n else n;
    DigitsValueOfNatDigits(m);
    var s := Itoa(n);
    if n < 0 {
      assert s[1..] == NatDigits(m);
    }
  }

  /** A leading `+` and leading zeros are accepted; a lone sign, an empty
      string and a decimal point are not. */
  lemma AtoiExamples()
    ensures Atoi("+007") == Some(7)
    ensures Atoi("-4") == Some(-4)
    ensures Atoi("") == None && Atoi("-") == None
    ensures Atoi("11.65425") == None && Atoi("1_000") == None
  {
    assert Unsigned("+007") == "007";
    assert DigitsValue("007") == 7 by {
      assert "007"[..2] == "00";
      assert "00"[..1] == "0";
      assert "0"[..0] == "";
    }
    assert Unsigned("-4") == "4";
    assert DigitsValue("4") == 4 by { assert "4"[..0] == ""; }
    assert !IsAsciiDigit("11.65425"[2]);
    assert !IsAsciiDigit("1_000"[1]);
  }

  // ---------------------------------------------------------------- coercions

  /** The `GetBool` rules: a byte slice that `ParseBool` accepts, otherwise a
      native bool; `(false, false)` for everything else. */
  function CoerceBool(v: Raw): (r: (bool, bool))
    ensures r.1 <==> (v.Bytes? && ParseBool(v.data).Some?) || v.Bool?
    ensures v.Bytes? && r.1 ==> r.0 == ParseBool(v.data).value
    ensures v.Bool? ==> r.0 == v.b
    ensures !r.1 ==> !r.0
  {
    if v.Bytes? && ParseBool(v.data).Some? then (ParseBool(v.data).value, true)
    else if v.Bool? then (v.b, true)
    else (false, false)
  }

  /** The `GetInt` rules: a byte slice that `Atoi` accepts, otherwise a
      native Go `int`; `(0, false)` for everything else, other integer
      kinds and floats included. */
  function CoerceInt(v: Raw): (r: (int, bool))
    ensures r.1 <==> (v.Bytes? && Atoi(v.data).Some?) || (v.Int? && v.ikind == KInt)
    ensures v.Bytes? && r.1 ==> r.0 == Atoi(v.data).value
    ensures v.Int? && r.1 ==> r.0 == v.i
    ensures !r.1 ==> r.0 == 0
  {
    if v.Bytes? && Atoi(v.data).Some? then (Atoi(v.data).value, true)
    else if v.Int? && v.ikind == KInt then (v.i, true)
    else (0, false)
  }

  /** The `GetFloat` rules: a byte slice that `ParseFloat` accepts,
      otherwise a native float64; `(0, false)` for everything else. */
  function CoerceFloat(v: Raw, parseFloat: FloatParser): (r: (real, bool))
    ensures r.1 <==> (v.Bytes? && parseFloat(v.data).Some?) || (v.Float? && v.fkind == KFloat64)
    ensures v.Bytes? && r.1 ==> r.0 == parseFloat(v.data).value
    ensures v.Float? && r.1 ==> r.0 == v.f
    ensures !r.1 ==> r.0 == 0.0
  {
    if v.Bytes? && parseFloat(v.data).Some? then (parseFloat(v.data).value, true)
    else if v.Float? && v.fkind == KFloat64 then (v.f, true)
    else (0.0, false)
  }

  /** The `GetString` rules: a native string, otherwise a byte slice's
      text; `("", false)` for everything else. */
  function CoerceString(v: Raw): (r: (string, bool))
    ensures r.1 <==> v.Str? || v.Bytes?
    ensures v.Str? ==> r.0 == v.s
    ensures v.Bytes? ==> r.0 == v.data
    ensures !r.1 ==> r.0 == ""
  {
    match v
    case Str(s) => (s, true)
    case Bytes(b) => (b, true)
    case _ => ("", false)
  }

  // ---------------------------------------------------------------- properties

  /** Numbers and bools never turn into strings, and nothing turns into a
      string other than its own text. */
  lemma NoStringification(v: Raw)
    ensures IsNumber(v) || v.Bool? || v.Nil? || v.Map? || v.List? ==> CoerceString(v) == ("", false)
    ensures CoerceString(v).1 ==> CoerceString(v).0 == (if v.Str? then v.s else v.data)
  {
  }

  /** A numeral in a byte slice (as a remote store returns it) is read as a
      number, while the same numeral as a native string (a quoted YAML
      scalar, an environment variable) is not. */
  lemma QuotedNumeralAsymmetry(n: int, parseFloat: FloatParser)
    requires InInt64(n)
    ensures CoerceInt(Bytes(Itoa(n))) == (n, true)
    ensures CoerceInt(Str(Itoa(n))) == (0, false)
    ensures CoerceFloat(Str(Itoa(n)), parseFloat) == (0.0, false)
    ensures CoerceString(Str(Itoa(n))) == CoerceString(Bytes(Itoa(n))) == (Itoa(n), true)
  {
    AtoiItoa(n);
  }

  /** The same asymmetry for bools: `"true"` in a byte slice is true, the
      native string `"true"` or the number 1 is not a bool. */
  lemma BoolTextAsymmetry(b: bool, k: IntKind)
    ensures CoerceBool(Bytes(FormatBool(b))) == (b, true)
    ensures CoerceBool(Str(FormatBool(b))) == (false, false)
    ensures CoerceBool(Int(k, 1)) == (false, false)
  {
    ParseFormatBool(b);
  }

  /** A native number is read only as its exact Go type: float64 is not an
      `int`, and `int` is not a float64. */
  lemma NumericKindsAreExact(f: real, i: int, parseFloat: FloatParser)
    ensures CoerceInt(Float(KFloat64, f)) == (0, false)
    ensures CoerceFloat(Int(KInt, i), parseFloat) == (0.0, false)
    ensures CoerceInt(Int(KInt64, i)) == (0, false)
    ensures CoerceFloat(Float(KFloat32, f), parseFloat) == (0.0, false)
    ensures CoerceFloat(Float(KFloat64, f), parseFloat) == (f, true)
  {
  }
}
