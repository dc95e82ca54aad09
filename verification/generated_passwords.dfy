/** Where the generator meets the record codec: the symbol set contains the
    delimiter `serialize` writes unescaped, so a generated password can make
    its own record unreadable. */
module GeneratedPasswords {
  import opened Base
  import opened Errors
  import opened Getline
  import opened PasswordEntry
  import opened PasswordGenerator

  /** With symbols enabled, the character set holds `|`, so a password made
      only of `|` is one `generate` may return. */
  lemma {:induction false} SymbolsAllowDelimiter(length: int, useLower: bool, useUpper: bool, useDigits: bool)
    requires length >= 4
    ensures DELIM in GetCharacterSet(useLower, useUpper, useDigits, true)
    ensures Generable(seq(length, _ => DELIM), length, GetCharacterSet(useLower, useUpper, useDigits, true))
  {
    assert SYMBOLS[18] == DELIM;
  }

  /** Any password holding `|`, stored with `setPassword`, makes reading the
      record back fail with the format error, whatever the other fields hold. */
  lemma {:induction false} DelimiterBreaksRecord(e: Entry, pw: CStr, now: Int64)
    requires DELIM in pw
    ensures Deserialize(Serialize(SetPassword(e, pw, now))) == Err(FORMAT_ERROR)
  {
    var r := SetPassword(e, pw, now);
    assert TextFields(r)[2] == pw;
    SerializeRoundTrip(r);
  }

  /** Without symbols the generator never emits `|`, so a generated password
      keeps a record that was readable readable. */
  lemma {:induction false} NoSymbolsKeepRecord(e: Entry, pw: CStr, length: int, useLower: bool, useUpper: bool, useDigits: bool, now: Int64)
    requires Generable(pw, length, GetCharacterSet(useLower, useUpper, useDigits, false))
    requires PipeFree(e)
    ensures DELIM !in pw
    ensures Deserialize(Serialize(SetPassword(e, pw, now))) == Ok(SetPassword(e, pw, now))
  {
    var cs := GetCharacterSet(useLower, useUpper, useDigits, false);
    NoDelimiterWithoutSymbols(useLower, useUpper, useDigits);
    forall i | 0 <= i < |pw|
      ensures pw[i] != DELIM
    {
      assert pw[i] in cs;
    }
    SetPasswordKeepsPipeFree(e, pw, now);
    SerializeRoundTrip(SetPassword(e, pw, now));
  }

  lemma {:induction false} NoDelimiterWithoutSymbols(useLower: bool, useUpper: bool, useDigits: bool)
    ensures DELIM !in GetCharacterSet(useLower, useUpper, useDigits, false)
  {
    assert DELIM !in LOWERCASE && DELIM !in UPPERCASE && DELIM !in DIGITS;
  }

  lemma {:induction false} SetPasswordKeepsPipeFree(e: Entry, pw: CStr, now: Int64)
    requires PipeFree(e) && DELIM !in pw
    ensures PipeFree(SetPassword(e, pw, now))
  {
    var r := SetPassword(e, pw, now);
    forall k | 0 <= k < |TextFields(r)|
      ensures DELIM !in TextFields(r)[k]
    {
      if k != 2 {
        assert TextFields(r)[k] == TextFields(e)[k];
      }
    }
  }
}
