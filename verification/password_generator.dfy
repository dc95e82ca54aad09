/** `PasswordGenerator`: character sets, random generation (as a
    nondeterministic choice), strength scoring and its description. */
module PasswordGenerator {
  import opened Base
  import opened Errors

  const LOWERCASE: CStr := "abcdefghijklmnopqrstuvwxyz"
  const UPPERCASE: CStr := "ABCDEFGHIJKLMNOPQRSTUVWXYZ"
  const DIGITS: CStr := "0123456789"
  const SYMBOLS: CStr := "!@#$%^&*()_+-=[]{}|;:,.<>?"

  /** `getCharacterSet`: the enabled sets concatenated in the fixed order
      lower, upper, digits, symbols. */
  function GetCharacterSet(useLower: bool, useUpper: bool, useDigits: bool, useSymbols: bool): (cs: CStr)
    ensures |cs| == (if useLower then 26 else 0) + (if useUpper then 26 else 0)
                    + (if useDigits then 10 else 0) + (if useSymbols then 26 else 0)
    ensures cs == [] <==> !useLower && !useUpper && !useDigits && !useSymbols
    ensures forall c :: c in cs <==> (useLower && c in LOWERCASE) || (useUpper && c in UPPERCASE)
                                     || (useDigits && c in DIGITS) || (useSymbols && c in SYMBOLS)
  {
    (if useLower then LOWERCASE else [])
    + (if useUpper then UPPERCASE else [])
    + (if useDigits then DIGITS else [])
    + (if useSymbols then SYMBOLS else [])
  }

  const EMPTY_SET_ERROR: Error := InvalidArgument("At least one character set must be enabled to generate a password")
  const SHORT_ERROR: Error := InvalidArgument("Length of password must be at least 4 characters")

  /** A password `generate` may return: the requested length, every
      character drawn from the character set. */
  predicate Generable(pw: CStr, length: int, cs: CStr)
  {
    |pw| == length && forall i :: 0 <= i < |pw| ==> pw[i] in cs
  }

  /** `generate`: an empty character set is rejected first, then a length
      below 4; otherwise each of the `length` characters is an arbitrary
      member of the set (the random draw is left as a free choice). */
  method Generate(length: int, useLower: bool, useUpper: bool, useDigits: bool, useSymbols: bool)
    returns (r: Result<CStr>)
    ensures var cs := GetCharacterSet(useLower, useUpper, useDigits, useSymbols);
            && (cs == [] ==> r == Err(EMPTY_SET_ERROR))
            && (cs != [] && length < 4 ==> r == Err(SHORT_ERROR))
            && (r.Ok? <==> cs != [] && length >= 4)
            && (r.Ok? ==> Generable(r.value, length, cs))
  {
    var cs := GetCharacterSet(useLower, useUpper, useDigits, useSymbols);
    if |cs| == 0 {
      return Err(EMPTY_SET_ERROR);
    }
    if length < 4 {
      return Err(SHORT_ERROR);
    }
    assert cs[0] in cs;
    var pw: CStr := [];
    var i := 0;
    while i < length
      invariant 0 <= i <= length
      invariant Generable(pw, i, cs)
    {
      var c :| c in cs;
      pw := pw + [c];
      i := i + 1;
    }
    return Ok(pw);
  }

  /** The one-argument overload: every character set enabled. */
  method GenerateDefault(length: int) returns (r: Result<CStr>)
    ensures r.Ok? <==> length >= 4
    ensures length < 4 ==> r == Err(SHORT_ERROR)
    ensures r.Ok? ==> Generable(r.value, length, GetCharacterSet(true, true, true, true))
  {
    r := Generate(length, true, true, true, true);
  }

  /** The length the one-argument overload defaults to. */
  const DEFAULT_LENGTH: int := 16

  /** `generate()` with no argument: sixteen characters from all four sets,
      which never fails. */
  method GenerateWithDefaults() returns (pw: CStr)
    ensures Generable(pw, DEFAULT_LENGTH, GetCharacterSet(true, true, true, true))
  {
    var r := GenerateDefault(DEFAULT_LENGTH);
    pw := r.value;
  }

  /** The class the `islower` / `isupper` / `isdigit` chain assigns in the
      "C" locale; everything else counts as a symbol. */
  datatype CharClass = Lower | Upper | Digit | Symbol

  function ClassOf(c: Char8): CharClass
  {
    if 'a' <= c <= 'z' then Lower
    else if 'A' <= c <= 'Z' then Upper
    else if '0' <= c <= '9' then Digit
    else Symbol
  }

  /** The four flags of the scoring loop. */
  datatype Seen = Seen(lower: bool, upper: bool, digit: bool, symbol: bool)
  {
    predicate All()
    {
      lower && upper && digit && symbol
    }

    function Mark(k: CharClass): Seen
    {
      match k
      case Lower => this.(lower := true)
      case Upper => this.(upper := true)
      case Digit => this.(digit := true)
      case Symbol => this.(symbol := true)
    }

    function Count(): nat
    {
      (if lower then 1 else 0) + (if upper then 1 else 0) + (if digit then 1 else 0) + (if symbol then 1 else 0)
    }
  }

  /** The scoring loop from position `i`: mark each character's class, and
      `break` as soon as all four flags are set. */
  function Scan(pw: CStr, i: nat, seen: Seen): Seen
    requires i <= |pw|
    decreases |pw| - i
  {
    if i == |pw| then seen
    else if seen.All() then seen
    else Scan(pw, i + 1, seen.Mark(ClassOf(pw[i])))
  }

  /** An independent reference: the classes that occur anywhere in `pw[i..]`, added to `seen`. */
  function Present(pw: CStr, i: nat, seen: Seen): Seen
    requires i <= |pw|
  {
    Seen(seen.lower || exists j :: i <= j < |pw| && ClassOf(pw[j]) == Lower,
         seen.upper || exists j :: i <= j < |pw| && ClassOf(pw[j]) == Upper,
         seen.digit || exists j :: i <= j < |pw| && ClassOf(pw[j]) == Digit,
         seen.symbol || exists j :: i <= j < |pw| && ClassOf(pw[j]) == Symbol)
  }

  /** The early `break` changes nothing: the loop finds exactly the classes present. */
  lemma {:induction false} ScanFindsPresentClasses(pw: CStr, i: nat, seen: Seen)
    requires i <= |pw|
    ensures Scan(pw, i, seen) == Present(pw, i, seen)
    decreases |pw| - i
  {
    if i < |pw| && !seen.All() {
      ScanFindsPresentClasses(pw, i + 1, seen.Mark(ClassOf(pw[i])));
      var a := Present(pw, i + 1, seen.Mark(ClassOf(pw[i])));
      var b := Present(pw, i, seen);
      assert a.lower == b.lower by {
        if b.lower && !seen.lower && ClassOf(pw[i]) != Lower {
          var j :| i <= j < |pw| && ClassOf(pw[j]) == Lower;
          assert j != i;
        }
      }
      assert a.upper == b.upper by {
        if b.upper && !seen.upper && ClassOf(pw[i]) != Upper {
          var j :| i <= j < |pw| && ClassOf(pw[j]) == Upper;
          assert j != i;
        }
      }
      assert a.digit == b.digit by {
        if b.digit && !seen.digit && ClassOf(pw[i]) != Digit {
          var j :| i <= j < |pw| && ClassOf(pw[j]) == Digit;
          assert j != i;
        }
      }
      assert a.symbol == b.symbol by {
        if b.symbol && !seen.symbol && ClassOf(pw[i]) != Symbol {
          var j :| i <= j < |pw| && ClassOf(pw[j]) == Symbol;
          assert j != i;
        }
      }
    }
  }

  /** Length component: 40, 30, 20 or 10 for at least 16, 12, 8 characters, or fewer. */
  function LengthScore(n: int): (s: int)
    ensures s in {10, 20, 30, 40}
  {
    if n >= 16 then 40 else if n >= 12 then 30 else if n >= 8 then 20 else 10
  }

  /** A longer password never scores less on length. */
  lemma {:induction false} LengthScoreMonotone(m: int, n: int)
    requires m <= n
    ensures LengthScore(m) <= LengthScore(n)
  {
  }

  /** Variety component: ten points per character class found by the loop. */
  function VarietyScore(pw: CStr): int
  {
    10 * Scan(pw, 0, Seen(false, false, false, false)).Count()
  }

  /** A non-empty password shows between one and four classes. */
  lemma {:induction false} VarietyScoreBounds(pw: CStr)
    requires |pw| > 0
    ensures 10 <= VarietyScore(pw) <= 40
    ensures VarietyScore(pw) == 10 * Present(pw, 0, Seen(false, false, false, false)).Count()
  {
    ScanFindsPresentClasses(pw, 0, Seen(false, false, false, false));
    var p := Present(pw, 0, Seen(false, false, false, false));
    match ClassOf(pw[0])
    case Lower => assert p.lower;
    case Upper => assert p.upper;
    case Digit => assert p.digit;
    case Symbol => assert p.symbol;
  }

  /** The number of distinct characters: what `sort` then `unique` leave. */
  function DistinctCount(pw: CStr): nat
  {
    |set c | c in pw|
  }

  lemma {:induction false} DistinctCountBounds(pw: CStr)
    ensures DistinctCount(pw) <= |pw|
    ensures |pw| > 0 ==> DistinctCount(pw) >= 1
  {
    if |pw| > 0 {
      DistinctCountBounds(pw[1..]);
      var rest := set c | c in pw[1..];
      var all := set c | c in pw;
      assert all == rest + {pw[0]};
      assert pw[0] in all;
    }
  }

  /** `int length = password.length()`: the size converted to `int`, which
      wraps for passwords longer than `INT_MAX`. */
  function Length(pw: CStr): Int32
  {
    Wrap32(|pw|)
  }

  /** Uniqueness component: `min(20, uniqueChars * 20 / length)` with the
      C++ division. With a positive length it lies in 0..20; a length that
      wrapped negative turns it non-positive. A length of zero (the empty
      password, or one of a multiple of 2^32 characters) is a division by
      zero, outside the source's domain. */
  function UniquenessScore(pw: CStr): (s: int)
    requires Length(pw) != 0
    ensures s <= 20
    ensures Length(pw) > 0 ==> 0 <= s
    ensures Length(pw) < 0 ==> s <= 0
  {
    var u := Quot(DistinctCount(pw) * 20, Length(pw));
    if u < 20 then u else 20
  }

  /** `calculateStrength`. Defined wherever the source's division is, that
      is, wherever the converted length is not zero. */
  function CalculateStrength(pw: CStr): (s: int)
    requires Length(pw) != 0
    ensures s <= 100
    ensures Length(pw) > 0 ==> 20 <= s
  {
    VarietyScoreBounds(pw);
    var total := LengthScore(Length(pw)) + VarietyScore(pw) + UniquenessScore(pw);
    if total < 100 then total else 100
  }

  /** The score is exactly the sum of its three components: the cap at 100 never bites. */
  lemma {:induction false} StrengthIsSumOfComponents(pw: CStr)
    requires Length(pw) != 0
    ensures CalculateStrength(pw) == LengthScore(Length(pw)) + VarietyScore(pw) + UniquenessScore(pw)
  {
    VarietyScoreBounds(pw);
  }

  /** Past `INT_MAX` characters the converted length is negative: the length
      component drops to 10 and the uniqueness component turns non-positive,
      so a password of one repeated letter, whose `20 / length` is negative,
      is called "Very Weak". */
  lemma {:induction false} WrappedLengthScoresLow(pw: CStr)
    requires Length(pw) < 0
    ensures CalculateStrength(pw) == 10 + VarietyScore(pw) + UniquenessScore(pw)
    ensures UniquenessScore(pw) <= 0
    ensures VarietyScore(pw) == 10 && DistinctCount(pw) * 20 >= -(Length(pw) as int) ==>
              GetStrengthDescription(CalculateStrength(pw)) == "Very Weak"
  {
  }

  /** `getStrengthDescription`: a ladder of thresholds 80, 60, 40, 20. */
  function GetStrengthDescription(strength: int): string
  {
    if strength >= 80 then "Very Strong"
    else if strength >= 60 then "Strong"
    else if strength >= 40 then "Average"
    else if strength >= 20 then "Weak"
    else "Very Weak"
  }

  /** Position of a description on the ladder, 0 for "Very Weak" up to 4. */
  function Rank(d: string): int
  {
    if d == "Very Strong" then 4
    else if d == "Strong" then 3
    else if d == "Average" then 2
    else if d == "Weak" then 1
    else 0
  }

  /** Each band of scores gets its label, and a higher score never gets a
      lower label. */
  lemma {:induction false} DescriptionLadder(s: int, t: int)
    ensures Rank(GetStrengthDescription(s)) == (if s >= 80 then 4 else if s >= 60 then 3 else if s >= 40 then 2 else if s >= 20 then 1 else 0)
    ensures s <= t ==> Rank(GetStrengthDescription(s)) <= Rank(GetStrengthDescription(t))
  {
  }

  /** A password whose length fits in an `int` is never described as "Very Weak". */
  lemma {:induction false} ScoredPasswordNeverVeryWeak(pw: CStr)
    requires Length(pw) > 0
    ensures GetStrengthDescription(CalculateStrength(pw)) != "Very Weak"
  {
  }
}
