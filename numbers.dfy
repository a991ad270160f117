/** Python's `int(text)` and `str(n)` for decimal integers. */
module Numbers {

  datatype Option<+T> = None | Some(value: T)

  predicate IsDigit(c: char)
  {
    '0' <= c <= '9'
  }

  predicate IsDigits(s: string)
  {
    forall i :: 0 <= i < |s| ==> IsDigit(s[i])
  }

  function DigitValue(c: char): (d: nat)
    requires IsDigit(c)
    ensures d < 10
  {
    c as int - '0' as int
  }

  function DigitChar(d: nat): (c: char)
    requires d < 10
    ensures IsDigit(c) && DigitValue(c) == d
  {
    ('0' as int + d) as char
  }

  /** The value of a numeral written most significant digit first. */
  function NumeralValue(s: string): nat
    requires IsDigits(s)
  {
    if s == [] then 0 else 10 * NumeralValue(s[..|s| - 1]) + DigitValue(s[|s| - 1])
  }

  /** The texts `int()` accepts once surrounding whitespace is gone: an
      optional `+` or `-` sign followed by at least one ASCII digit. */
  predicate IsIntegerText(s: string)
  {
    s != [] && (IsDigits(s) || ((s[0] == '+' || s[0] == '-') && |s| > 1 && IsDigits(s[1..])))
  }

  /** `int(text)` for text already stripped of surrounding whitespace: an
      optional `+` or `-` followed by at least one ASCII digit; anything
      else is a `ValueError`, here `None`. */
  function ParseInt(s: string): (r: Option<int>)
    ensures r.Some? <==> IsIntegerText(s)
    ensures r.Some? ==> forall i :: 0 < i < |s| ==> IsDigit(s[i])
    ensures r.Some? ==> (s[0] == '-' <==> r.value < 0) || r.value == 0
    ensures r.Some? ==> exists d :: d in s && IsDigit(d)
  {
    if s == [] then None
    else if s[0] == '+' || s[0] == '-' then
      var digits := s[1..];
      if digits != [] && IsDigits(digits) then
        assert digits[0] in s;
        var v: int := NumeralValue(digits);
        Some(if s[0] == '-' then -v else v)
      else
        None
    else if IsDigits(s) then
      assert s[0] in s;
      Some(NumeralValue(s))
    else
      None
  }

  /** `str(n)` for a natural number: its decimal numeral, no leading zero. */
  function NatToString(n: nat): (s: string)
    ensures s != [] && IsDigits(s)
    ensures s[0] == '0' ==> n == 0
    decreases n
  {
    if n < 10 then [DigitChar(n)] else NatToString(n / 10) + [DigitChar(n % 10)]
  }

  /** `str(n)` */
  function IntToString(n: int): (s: string)
    ensures s != []
    ensures n < 0 <==> s[0] == '-'
    ensures n < 0 ==> IsDigits(s[1..])
    ensures n >= 0 ==> IsDigits(s)
  {
    if n < 0 then "-" + NatToString(-n) else NatToString(n)
  }

  lemma {:induction false} NumeralOfNatToString(n: nat)
    ensures NumeralValue(NatToString(n)) == n
    decreases n
  {
    var s := NatToString(n);
    if n >= 10 {
      NumeralOfNatToString(n / 10);
      assert s[..|s| - 1] == NatToString(n / 10);
    }
  }

  lemma ParseNatToString(n: nat)
    ensures ParseInt(NatToString(n)) == Some(n)
  {
    NumeralOfNatToString(n);
    var s := NatToString(n);
    assert IsDigit(s[0]);
  }

  lemma ParseUnsigned(d: string)
    requires d != [] && IsDigits(d)
    ensures ParseInt(d) == Some(NumeralValue(d))
  {
    assert IsDigit(d[0]);
  }

  lemma ParsePositive(d: string)
    requires d != [] && IsDigits(d)
    ensures ParseInt("+" + d) == Some(NumeralValue(d))
  {
    assert ("+" + d)[0] == '+' && ("+" + d)[1..] == d;
  }

  lemma ParseNegative(d: string)
    requires d != [] && IsDigits(d)
    ensures ParseInt("-" + d) == Some(-(NumeralValue(d) as int))
  {
    assert ("-" + d)[0] == '-' && ("-" + d)[1..] == d;
  }

  lemma ParseMinusNatToString(m: nat)
    ensures ParseInt("-" + NatToString(m)) == Some(-(m as int))
  {
    NumeralOfNatToString(m);
    ParseNegative(NatToString(m));
  }

  lemma ParseNegativeToString(n: int)
    requires n < 0
    ensures ParseInt(IntToString(n)) == Some(n)
  {
    ParseMinusNatToString(-n);
  }

  /** Leading zeros do not change a numeral's value. */
  lemma {:induction false} LeadingZeros(z: string, d: string)
    requires forall i :: 0 <= i < |z| ==> z[i] == '0'
    requires IsDigits(d)
    ensures IsDigits(z + d) && NumeralValue(z + d) == NumeralValue(d)
    decreases |z| + |d|
  {
    var s := z + d;
    if d == [] {
      assert s == z;
      if z != [] {
        LeadingZeros(z[..|z| - 1], []);
        assert z[..|z| - 1] + [] == z[..|z| - 1];
      }
    } else {
      LeadingZeros(z, d[..|d| - 1]);
      assert s[..|s| - 1] == z + d[..|d| - 1];
    }
  }

  /** `int()` of any text it accepts: an optional sign, any run of leading
      zeros, then the decimal numeral of `n`, gives `n` with the written sign
      (`"007"` is 7, `"+5"` is 5, `"-0"` is 0). */
  lemma ParseIntValue(sign: string, z: string, n: nat)
    requires sign == [] || sign == ['+'] || sign == ['-']
    requires forall i :: 0 <= i < |z| ==> z[i] == '0'
    ensures ParseInt(sign + z + NatToString(n)) == Some(if sign == ['-'] then -(n as int) else n)
  {
    var d := z + NatToString(n);
    LeadingZeros(z, NatToString(n));
    NumeralOfNatToString(n);
    assert sign + z + NatToString(n) == sign + d;
    if sign == [] {
      assert d[|z|] == NatToString(n)[0];
      ParseUnsigned(d);
      assert sign + d == d;
    } else if sign == ['+'] {
      ParsePositive(d);
    } else {
      ParseNegative(d);
    }
  }

  /** `int(str(n)) == n` */
  lemma ParseIntToString(n: int)
    ensures ParseInt(IntToString(n)) == Some(n)
  {
    if n < 0 {
      ParseNegativeToString(n);
    } else {
      ParseNatToString(n);
    }
  }
}
