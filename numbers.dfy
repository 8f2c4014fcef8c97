/**
 * The two number formats the environment encoder prints: `%d` for a list
 * index and `%f` for a configuration number.
 *
 * A configuration number is kept as an integer count of millionths, so that
 * `%f`, which prints six fractional digits, is exact on it.
 */
module Numbers {
  import opened Results
  import opened Strings

  /** `%f` prints this many fractional digits. */
  const FractionDigits: nat := 6

  /** One unit in millionths. */
  const Scale: nat := 1000000

  function DigitChar(d: nat): (c: char)
    requires d < 10
    ensures IsDigit(c)
  {
    ('0' as int + d) as char
  }

  function DigitValue(c: char): nat
    requires IsDigit(c)
  {
    c as int - '0' as int
  }

  predicate AllDigits(s: string) {
    forall i :: 0 <= i < |s| ==> IsDigit(s[i])
  }

  /** The value of a string of decimal digits. */
  function ParseNat(s: string): nat
    requires AllDigits(s)
  {
    if s == [] then 0 else 10 * ParseNat(s[..|s| - 1]) + DigitValue(s[|s| - 1])
  }

  /** `%d` of a non-negative integer: its decimal digits, without leading zeros. */
  function NatToString(n: nat): (s: string)
    ensures |s| >= 1 && AllDigits(s)
    ensures |s| > 1 ==> s[0] != '0'
    decreases n
  {
    if n < 10 then [DigitChar(n)] else NatToString(n / 10) + [DigitChar(n % 10)]
  }

  /** Reading the digits back gives the number. */
  lemma {:induction false} ParseNatToString(n: nat)
    ensures ParseNat(NatToString(n)) == n
    decreases n
  {
    var s := NatToString(n);
    if n >= 10 {
      ParseNatToString(n / 10);
      assert s[..|s| - 1] == NatToString(n / 10);
    }
  }

  /** Printing is one-to-one. */
  lemma NatToStringInjective(m: nat, n: nat)
    requires NatToString(m) == NatToString(n)
    ensures m == n
  {
    ParseNatToString(m);
    ParseNatToString(n);
  }

  function Pow10(k: nat): nat {
    if k == 0 then 1 else 10 * Pow10(k - 1)
  }

  /** The `w` low decimal digits of `f`, zero-padded on the left. */
  function PaddedDigits(f: nat, w: nat): (s: string)
    ensures |s| == w && AllDigits(s)
  {
    if w == 0 then [] else PaddedDigits(f / 10, w - 1) + [DigitChar(f % 10)]
  }

  lemma {:induction false} ParsePaddedDigits(f: nat, w: nat)
    requires f < Pow10(w)
    ensures ParseNat(PaddedDigits(f, w)) == f
  {
    if w > 0 {
      var s := PaddedDigits(f, w);
      ParsePaddedDigits(f / 10, w - 1);
      assert s[..|s| - 1] == PaddedDigits(f / 10, w - 1);
    }
  }

  /**
   * `%f` of the number `m / 10^6`: a sign for negative numbers, the whole
   * part, a point, and exactly six fractional digits.
   */
  function FormatNum(m: int): (r: string)
    ensures |r| >= FractionDigits + 2
    ensures r[0] == '-' <==> m < 0
    ensures r[|r| - FractionDigits - 1] == '.' && AllDigits(r[|r| - FractionDigits..])
  {
    if m < 0 then "-" + FormatUnsigned(-m) else FormatUnsigned(m)
  }

  /** Reads the form FormatNum prints; None for anything else. */
  function ParseNum(s: string): Option<int>
  {
    if s != [] && s[0] == '-' then
      match ParseUnsigned(s[1..])
      case None => None
      case Some(v) => Some(-(v as int))
    else ParseUnsigned(s)
  }

  /** Reads `digits.dddddd`: at least one digit, a point, and exactly six digits. */
  function ParseUnsigned(s: string): Option<nat>
  {
    var p := |s| - FractionDigits - 1;
    if p >= 1 && s[p] == '.' && AllDigits(s[..p]) && AllDigits(s[p + 1..]) then
      Some(ParseNat(s[..p]) * Scale + ParseNat(s[p + 1..]))
    else None
  }

  /** The text FormatNum prints after the sign. */
  function FormatUnsigned(a: nat): (s: string)
    ensures |s| >= FractionDigits + 2 && IsDigit(s[0])
    ensures s[|s| - FractionDigits - 1] == '.' && s[|s| - FractionDigits..] == PaddedDigits(a % Scale, FractionDigits)
  {
    var whole, fraction := NatToString(a / Scale), PaddedDigits(a % Scale, FractionDigits);
    assert (whole + "." + fraction)[|whole| + 1..] == fraction;
    whole + "." + fraction
  }

  lemma ParseFormatUnsigned(a: nat)
    ensures ParseUnsigned(FormatUnsigned(a)) == Some(a)
    ensures FormatUnsigned(a)[0] != '-'
  {
    var whole := NatToString(a / Scale);
    var fraction := PaddedDigits(a % Scale, FractionDigits);
    var s := whole + "." + fraction;
    var p := |whole|;
    assert s[..p] == whole && s[p] == '.' && s[p + 1..] == fraction;
    ParseNatToString(a / Scale);
    assert Pow10(FractionDigits) == Scale;
    ParsePaddedDigits(a % Scale, FractionDigits);
    assert (a / Scale) * Scale + a % Scale == a;
    assert s[0] == whole[0] && IsDigit(whole[0]);
  }

  /** The printed form reads back as the same number, so `%f` is one-to-one on the model's numbers. */
  lemma FormatNumRoundTrip(m: int)
    ensures ParseNum(FormatNum(m)) == Some(m)
  {
    if m < 0 {
      ParseNegative(m);
    } else {
      ParseNonNegative(m);
    }
  }

  lemma ParseNegative(m: int)
    requires m < 0
    ensures ParseNum(FormatNum(m)) == Some(m)
  {
    assert FormatNum(m) == "-" + FormatUnsigned(-m);
    ParseSignedFormat(-m);
  }

  lemma ParseSignedFormat(a: nat)
    ensures ParseNum("-" + FormatUnsigned(a)) == Some(-(a as int))
  {
    ParseFormatUnsigned(a);
    ParseSigned(FormatUnsigned(a), a);
  }

  /** A leading `-` negates what follows. */
  lemma ParseSigned(t: string, a: nat)
    requires ParseUnsigned(t) == Some(a)
    ensures ParseNum("-" + t) == Some(-(a as int))
  {
    assert ("-" + t)[1..] == t;
  }

  lemma ParseNonNegative(m: int)
    requires m >= 0
    ensures ParseNum(FormatNum(m)) == Some(m)
  {
    ParseFormatUnsigned(m);
  }

  /** Integers print with six zero fractional digits, as `%f` does: 3 prints as `3.000000`. */
  lemma FormatWholeNumber(n: nat)
    ensures FormatNum(n * Scale) == NatToString(n) + ".000000"
  {
    WholeParts(n);
    ZeroDigits();
    assert FormatNum(n * Scale) == FormatUnsigned(n * Scale);
  }

  lemma WholeParts(n: nat)
    ensures (n * Scale) / Scale == n && (n * Scale) % Scale == 0
  {
  }

  lemma ZeroDigits()
    ensures PaddedDigits(0, FractionDigits) == "000000"
  {
    assert PaddedDigits(0, 1) == "0";
    assert PaddedDigits(0, 2) == "00";
    assert PaddedDigits(0, 3) == "000";
    assert PaddedDigits(0, 4) == "0000";
    assert PaddedDigits(0, 5) == "00000";
  }
}
