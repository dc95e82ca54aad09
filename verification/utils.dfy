/** The byte/string helpers of namespace `Utils`. */
module Utils {
  import opened Base

  /** `stringToBytes`: every `char` becomes the byte with the same value, in order. */
  function StringToBytes(s: CStr): (b: seq<Byte>)
    ensures |b| == |s|
    ensures forall i :: 0 <= i < |s| ==> b[i] == s[i] as int
  {
    seq(|s|, i requires 0 <= i < |s| => s[i] as int)
  }

  /** `bytesToString`: every byte becomes the `char` with the same value, in order. */
  function BytesToString(b: seq<Byte>): (s: CStr)
    ensures |s| == |b|
    ensures forall i :: 0 <= i < |b| ==> s[i] as int == b[i]
  {
    seq(|b|, i requires 0 <= i < |b| => b[i] as char)
  }

  /** The two conversions are mutual inverses. */
  lemma {:induction false} BytesStringRoundTrip(s: CStr, b: seq<Byte>)
    ensures BytesToString(StringToBytes(s)) == s
    ensures StringToBytes(BytesToString(b)) == b
  {
    var s' := BytesToString(StringToBytes(s));
    assert forall i :: 0 <= i < |s| ==> s'[i] == s[i] by {
      forall i | 0 <= i < |s|
        ensures s'[i] == s[i]
      {
        assert s'[i] as int == s[i] as int;
      }
    }
  }

  /** Distinct strings give distinct byte vectors. */
  lemma {:induction false} StringToBytesInjective(s: CStr, t: CStr)
    requires StringToBytes(s) == StringToBytes(t)
    ensures s == t
  {
    BytesStringRoundTrip(s, []);
    BytesStringRoundTrip(t, []);
  }

  const HEX_DIGITS: CStr := "0123456789abcdef"

  /** A lowercase hexadecimal digit: `std::hex` output. */
  predicate IsHexDigit(c: Char8)
  {
    '0' <= c <= '9' || 'a' <= c <= 'f'
  }

  /** `setw(2) << setfill('0') << hex` of one byte: high nibble, then low nibble. */
  function ByteToHex(b: Byte): (h: CStr)
    ensures |h| == 2
  {
    [HEX_DIGITS[b / 16], HEX_DIGITS[b % 16]]
  }

  /** `bytesToHex`: each byte rendered as two lowercase, zero-padded hex digits. */
  function BytesToHex(b: seq<Byte>): (h: CStr)
    ensures |h| == 2 * |b|
    ensures forall j :: 0 <= j < |h| ==> IsHexDigit(h[j])
  {
    if |b| == 0 then [] else ByteToHex(b[0]) + BytesToHex(b[1..])
  }

  /** Byte `i` of the input becomes characters `2i` and `2i + 1` of the output. */
  lemma {:induction false} BytesToHexLayout(b: seq<Byte>)
    ensures forall i :: 0 <= i < |b| ==> BytesToHex(b)[2 * i..2 * i + 2] == ByteToHex(b[i])
  {
    if |b| > 0 {
      BytesToHexLayout(b[1..]);
      var h := BytesToHex(b);
      var rest := BytesToHex(b[1..]);
      assert h == ByteToHex(b[0]) + rest;
      forall i | 0 <= i < |b|
        ensures h[2 * i..2 * i + 2] == ByteToHex(b[i])
      {
        if i > 0 {
          assert h[2 * i..2 * i + 2] == rest[2 * (i - 1)..2 * (i - 1) + 2];
          assert b[1..][i - 1] == b[i];
        }
      }
    }
  }

  /** The value of a hex digit; the inverse of indexing `HEX_DIGITS`. */
  function HexValue(c: Char8): (v: nat)
    requires IsHexDigit(c)
    ensures v < 16 && HEX_DIGITS[v] == c
  {
    if '0' <= c <= '9' then c as int - '0' as int else c as int - 'a' as int + 10
  }

  /** Reads a hex rendering back into bytes: an independent decoder for `BytesToHex`. */
  function HexToBytes(h: CStr): (b: seq<Byte>)
    requires |h| % 2 == 0
    requires forall j :: 0 <= j < |h| ==> IsHexDigit(h[j])
    ensures |b| == |h| / 2
  {
    if |h| == 0 then []
    else [16 * HexValue(h[0]) + HexValue(h[1])] + HexToBytes(h[2..])
  }

  /** The hex rendering loses nothing: decoding it gives the original bytes. */
  lemma {:induction false} HexRoundTrip(b: seq<Byte>)
    ensures HexToBytes(BytesToHex(b)) == b
  {
    if |b| > 0 {
      var rest := BytesToHex(b[1..]);
      HexStep(BytesToHex(b), b[0], rest);
      HexRoundTrip(b[1..]);
      assert b == [b[0]] + b[1..];
    }
  }

  /** Decoding two digits rendered from a byte, then more digits, gives that
      byte, then the decoding of the rest. */
  lemma {:induction false} HexStep(h: CStr, x: Byte, rest: CStr)
    requires |rest| % 2 == 0 && forall j :: 0 <= j < |rest| ==> IsHexDigit(rest[j])
    requires h == ByteToHex(x) + rest
    ensures |h| % 2 == 0 && forall j :: 0 <= j < |h| ==> IsHexDigit(h[j])
    ensures HexToBytes(h) == [x] + HexToBytes(rest)
  {
    HexDigitValue(x / 16);
    HexDigitValue(x % 16);
    assert h[2..] == rest;
  }

  /** Reading a digit back gives the nibble it was rendered from. */
  lemma {:induction false} HexDigitValue(n: nat)
    requires n < 16
    ensures IsHexDigit(HEX_DIGITS[n]) && HexValue(HEX_DIGITS[n]) == n
  {
    var c := HEX_DIGITS[n];
    if n < 10 {
      assert c as int == '0' as int + n;
    } else {
      assert c as int == 'a' as int + n - 10;
    }
  }
}
