/** Decimal text of integers: `operator<<` / `std::to_string` on the way out,
    `std::stoi` / `std::stoll` on the way back. */
module NumText {
  import opened Base
  import opened Errors

  predicate IsDigit(c: Char8)
  {
    '0' <= c <= '9'
  }

  function DigitChar(d: nat): (c: Char8)
    requires d < 10
    ensures IsDigit(c)
  {
    ('0' as int + d) as char
  }

  function DigitValue(c: Char8): (d: nat)
    requires IsDigit(c)
    ensures d < 10 && DigitChar(d) == c
  {
    c as int - '0' as int
  }

  /** The decimal digits of `n`, most significant first, without leading zeros. */
  function NatToDigits(n: nat): (s: CStr)
    ensures |s| > 0
    ensures forall i :: 0 <= i < |s| ==> IsDigit(s[i])
    decreases n
  {
    if n < 10 then [DigitChar(n)] else NatToDigits(n / 10) + [DigitChar(n % 10)]
  }

  /** The number a string of digits denotes. */
  function DigitsValue(s: CStr): nat
    requires forall i :: 0 <= i < |s| ==> IsDigit(s[i])
  {
    if |s| == 0 then 0 else 10 * DigitsValue(s[..|s| - 1]) + DigitValue(s[|s| - 1])
  }

  /** The text `os << x` writes: a minus sign for negative values, then the digits. */
  function IntToString(x: int): (s: CStr)
    ensures |s| > 0 && IsDigit(s[|s| - 1])
    ensures '|' !in s
  {
    if x < 0 then "-" + NatToDigits(-x) else NatToDigits(x)
  }

  lemma {:induction false} DigitsValueOfNatToDigits(n: nat)
    ensures DigitsValue(NatToDigits(n)) == n
    decreases n
  {
    var s := NatToDigits(n);
    if n >= 10 {
      DigitsValueOfNatToDigits(n / 10);
      assert s[..|s| - 1] == NatToDigits(n / 10);
    }
  }

  /** Characters `isspace` accepts in the "C" locale. */
  predicate IsSpace(c: Char8)
  {
    c == ' ' || c == '\t' || c == '\n' || c == '\U{B}' || c == '\U{C}' || c == '\r'
  }

  /** The input after its leading white space. */
  function SkipSpace(s: CStr): (t: CStr)
    ensures |t| <= |s|
    ensures t == s[|s| - |t|..]
    ensures |t| > 0 ==> !IsSpace(t[0])
  {
    if |s| > 0 && IsSpace(s[0]) then SkipSpace(s[1..]) else s
  }

  /** Length of the longest prefix made of digits. */
  function DigitPrefix(s: CStr): (n: nat)
    ensures n <= |s|
    ensures forall i :: 0 <= i < n ==> IsDigit(s[i])
    ensures n < |s| ==> !IsDigit(s[n])
  {
    if |s| > 0 && IsDigit(s[0]) then 1 + DigitPrefix(s[1..]) else 0
  }

  /** `std::stoi` (with `lo`, `hi` the `int` range and `name` "stoi") or
      `std::stoll` (the `long long` range, "stoll"): skip white space, read an
      optional sign and the longest run of digits, ignore what follows. No digit
      raises `invalid_argument`; a value outside `[lo, hi]` raises `out_of_range`. */
  function ParseInt(s: CStr, lo: int, hi: int, name: string): (r: Result<int>)
    ensures r.Ok? ==> lo <= r.value <= hi
    ensures r.Err? ==> r.error == InvalidArgument(name) || r.error == OutOfRange(name)
  {
    var t := SkipSpace(s);
    var negative := |t| > 0 && t[0] == '-';
    var u := if |t| > 0 && (t[0] == '-' || t[0] == '+') then t[1..] else t;
    var n := DigitPrefix(u);
    if n == 0 then Err(InvalidArgument(name))
    else
      var m: int := DigitsValue(u[..n]);
      var v: int := if negative then -m else m;
      if lo <= v <= hi then Ok(v) else Err(OutOfRange(name))
  }

  /** Text that holds no digit where the number should start is rejected as `invalid_argument`. */
  lemma {:induction false} ParseIntNoDigits(s: CStr, lo: int, hi: int, name: string)
    requires |s| > 0 && !IsDigit(s[0]) && !IsSpace(s[0]) && s[0] != '-' && s[0] != '+'
    ensures ParseInt(s, lo, hi, name) == Err(InvalidArgument(name))
  {
  }

  /** Parsing the text `<<` wrote gives the number back when it is in range. */
  lemma {:induction false} ParseIntToString(x: int, lo: int, hi: int, name: string)
    requires lo <= x <= hi
    ensures ParseInt(IntToString(x), lo, hi, name) == Ok(x)
  {
    if x < 0 {
      ParseNegativeText(x, lo, hi, name);
    } else {
      ParseNonNegativeText(x, lo, hi, name);
    }
  }

  lemma {:induction false} ParseNegativeText(x: int, lo: int, hi: int, name: string)
    requires lo <= x <= hi && x < 0
    ensures ParseInt(IntToString(x), lo, hi, name) == Ok(x)
  {
    DigitsValueOfNatToDigits(-x);
    ParseNegativeDigits(IntToString(x), NatToDigits(-x), x, lo, hi, name);
  }

  lemma {:induction false} ParseNonNegativeText(x: int, lo: int, hi: int, name: string)
    requires lo <= x <= hi && x >= 0
    ensures ParseInt(IntToString(x), lo, hi, name) == Ok(x)
  {
    DigitsValueOfNatToDigits(x);
    ParseDigits(NatToDigits(x), lo, hi, name);
  }

  /** Digits only parse as their value. */
  lemma {:induction false} ParseDigits(d: CStr, lo: int, hi: int, name: string)
    requires |d| > 0 && forall i :: 0 <= i < |d| ==> IsDigit(d[i])
    requires lo <= DigitsValue(d) <= hi
    ensures ParseInt(d, lo, hi, name) == Ok(DigitsValue(d))
  {
    NoLeadingSpace(d);
    AllDigitsPrefix(d);
    assert d[0] != '-' && d[0] != '+';
    assert d[..|d|] == d;
  }

  /** A minus sign and digits parse as the negated value of the digits. */
  lemma {:induction false} ParseNegativeDigits(s: CStr, d: CStr, v: int, lo: int, hi: int, name: string)
    requires |d| > 0 && forall i :: 0 <= i < |d| ==> IsDigit(d[i])
    requires s == "-" + d && v == -(DigitsValue(d) as int) && lo <= v <= hi
    ensures ParseInt(s, lo, hi, name) == Ok(v)
  {
    NoLeadingSpace(s);
    assert s[0] == '-' && s[1..] == d;
    AllDigitsPrefix(d);
    assert d[..|d|] == d;
  }

  lemma {:induction false} NoLeadingSpace(s: CStr)
    requires |s| > 0 && !IsSpace(s[0])
    ensures SkipSpace(s) == s
  {
  }

  lemma {:induction false} AllDigitsPrefix(s: CStr)
    requires forall i :: 0 <= i < |s| ==> IsDigit(s[i])
    ensures DigitPrefix(s) == |s|
  {
    if |s| > 0 {
      AllDigitsPrefix(s[1..]);
    }
  }
}
