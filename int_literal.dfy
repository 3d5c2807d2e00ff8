/**
 * Python's `int(text)` in base 10, restricted to the literals the gateway's
 * query parameters carry: an optional `+` or `-` followed by one or more ASCII
 * digits. Surrounding whitespace, `_` separators and non-ASCII digits, which
 * Python also accepts, are not part of this model and parse as errors here.
 * CPython's default limit on integer string conversion is modelled: `int()`
 * rejects a literal of more than 4300 digits, and `str(n)` refuses to spell
 * such a number.
 */
module IntLiteral {
  import opened Wrappers

  predicate IsDigit(c: char) {
    '0' <= c <= '9'
  }

  predicate AllDigits(s: string) {
    forall i :: 0 <= i < |s| ==> IsDigit(s[i])
  }

  /** The value of a run of decimal digits, most significant first. */
  function DigitsValue(s: string): nat
    requires AllDigits(s)
    decreases |s|
  {
    if s == [] then 0 else DigitsValue(s[..|s| - 1]) * 10 + (s[|s| - 1] as int - '0' as int)
  }

  /** CPython's default `sys.get_int_max_str_digits()`. */
  const MaxStrDigits := 4300

  /** One to `MaxStrDigits` ASCII digits. */
  predicate IsDigitRun(t: string) {
    1 <= |t| <= MaxStrDigits && AllDigits(t)
  }

  /**
   * `int(s)`, or `None` where Python raises `ValueError`. It accepts exactly a
   * run of digits within the length limit, optionally preceded by one sign, and
   * only a leading `-` gives a negative number.
   */
  function ParseInt(s: string): (r: Option<int>)
    ensures r.Some? <==> IsDigitRun(s) || (|s| >= 1 && (s[0] == '-' || s[0] == '+') && IsDigitRun(s[1..]))
    ensures r.Some? && r.value < 0 ==> s[0] == '-'
  {
    if |s| >= 1 && s[0] == '-' && IsDigitRun(s[1..]) then Some(-(DigitsValue(s[1..]) as int))
    else if |s| >= 1 && s[0] == '+' && IsDigitRun(s[1..]) then Some(DigitsValue(s[1..]))
    else if IsDigitRun(s) then Some(DigitsValue(s))
    else None
  }

  function DigitChar(d: nat): (c: char)
    requires d < 10
    ensures IsDigit(c) && c as int - '0' as int == d
  {
    ('0' as int + d) as char
  }

  /** `str(n)` for a natural number: its shortest decimal spelling. */
  function FormatNat(n: nat): (s: string)
    ensures |s| >= 1 && AllDigits(s)
    ensures DigitsValue(s) == n
    decreases n
  {
    if n < 10 then [DigitChar(n)]
    else
      var s := FormatNat(n / 10) + [DigitChar(n % 10)];
      assert s[..|s| - 1] == FormatNat(n / 10);
      s
  }

  function Abs(n: int): nat {
    if n < 0 then -n else n
  }

  /** `str(n)` for any integer. */
  function FormatInt(n: int): string
  {
    if n < 0 then "-" + FormatNat(-n) else FormatNat(n)
  }

  /** `int(str(n)) == n` for every integer whose spelling `str` accepts. */
  lemma ParseFormatInt(n: int)
    requires |FormatNat(Abs(n))| <= MaxStrDigits
    ensures ParseInt(FormatInt(n)) == Some(n)
  {
    var f := FormatNat(Abs(n));
    assert IsDigitRun(f);
    if n < 0 {
      var s := FormatInt(n);
      assert s[0] == '-' && s[1..] == f;
    } else {
      assert IsDigit(f[0]);
    }
  }

  /** A digit run without a leading zero (other than `0` itself). */
  predicate IsCanonicalDigits(t: string) {
    |t| >= 1 && AllDigits(t) && (t[0] != '0' || |t| == 1)
  }

  lemma {:induction false} LeadingNonZeroPositive(t: string)
    requires |t| >= 1 && AllDigits(t) && t[0] != '0'
    ensures DigitsValue(t) >= 1
    decreases |t|
  {
    if |t| > 1 {
      LeadingNonZeroPositive(t[..|t| - 1]);
    }
  }

  /** A canonical digit run is the spelling of its own value. */
  lemma {:induction false} FormatDigitsValue(t: string)
    requires IsCanonicalDigits(t)
    ensures FormatNat(DigitsValue(t)) == t
    decreases |t|
  {
    var d := t[|t| - 1] as int - '0' as int;
    if |t| == 1 {
      assert DigitsValue(t) == d;
    } else {
      var front := t[..|t| - 1];
      LeadingNonZeroPositive(front);
      FormatDigitsValue(front);
      var v := DigitsValue(t);
      assert v == DigitsValue(front) * 10 + d;
      assert v / 10 == DigitsValue(front) && v % 10 == d;
      assert t == front + [t[|t| - 1]];
    }
  }

  /** `str(int(s)) == s` for a canonical literal: no `+`, no leading zero, no `-0`. */
  lemma FormatParseInt(s: string)
    requires (IsDigitRun(s) && IsCanonicalDigits(s))
          || (|s| >= 2 && s[0] == '-' && IsDigitRun(s[1..]) && IsCanonicalDigits(s[1..]) && s[1] != '0')
    ensures ParseInt(s).Some? && FormatInt(ParseInt(s).value) == s
  {
    if s[0] == '-' {
      LeadingNonZeroPositive(s[1..]);
      FormatDigitsValue(s[1..]);
      assert s == "-" + s[1..];
    } else {
      FormatDigitsValue(s);
    }
  }

  /**
   * The value of the remaining literals, which `FormatParseInt` does not
   * reach: a `+` sign, a leading zero and a `-` sign. With `FormatParseInt`
   * these fix `int(s)` for every literal `ParseInt` accepts.
   */
  lemma ParsePlus(t: string)
    requires IsDigitRun(t)
    ensures ParseInt("+" + t) == ParseInt(t)
  {
    assert ("+" + t)[1..] == t;
  }

  lemma ParseMinus(t: string)
    requires IsDigitRun(t)
    ensures ParseInt("-" + t).Some? && ParseInt(t).Some?
    ensures ParseInt("-" + t).value == -ParseInt(t).value
  {
    assert ("-" + t)[1..] == t;
  }

  /** A leading `0` adds nothing to the value of a digit run. */
  lemma {:induction false} DigitsLeadingZero(t: string)
    requires AllDigits(t)
    ensures AllDigits("0" + t) && DigitsValue("0" + t) == DigitsValue(t)
    decreases |t|
  {
    var z := "0" + t;
    assert AllDigits(z) by {
      forall i | 0 <= i < |z| ensures IsDigit(z[i]) {
        if i > 0 { assert z[i] == t[i - 1]; }
      }
    }
    if t != [] {
      var front := t[..|t| - 1];
      assert AllDigits(front) by {
        forall i | 0 <= i < |front| ensures IsDigit(front[i]) {
          assert front[i] == t[i];
        }
      }
      DigitsLeadingZero(front);
      assert z[..|z| - 1] == "0" + front;
      assert z[|z| - 1] == t[|t| - 1];
    }
  }

  lemma ParseLeadingZero(t: string)
    requires IsDigitRun(t) && |t| < MaxStrDigits
    ensures ParseInt("0" + t) == ParseInt(t)
  {
    DigitsLeadingZero(t);
    var z := "0" + t;
    assert IsDigitRun(z) && z[0] == '0';
  }
}
