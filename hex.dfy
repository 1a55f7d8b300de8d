/** Lower-case base16 encoding of bytes (section 8 of RFC 4648, alphabet
    "0123456789abcdef"), as `hex.EncodeToString` produces it for the digest
    in `hashFile`, together with its inverse. */
module Hex {
  import opened Wrappers

  /** A byte of file content or of a digest. */
  type byte = x: int | 0 <= x < 256

  predicate IsDigit(c: char) {
    '0' <= c <= '9' || 'a' <= c <= 'f'
  }

  /** A string made of lower-case hexadecimal digits only. */
  predicate IsHex(s: string) {
    forall i :: 0 <= i < |s| ==> IsDigit(s[i])
  }

  /** The numeric value of a hexadecimal digit. */
  function Value(c: char): (n: int)
    requires IsDigit(c)
    ensures 0 <= n < 16
  {
    if c <= '9' then c as int - '0' as int else c as int - 'a' as int + 10
  }

  /** The digit for a 4-bit value: the inverse of Value. */
  function Digit(n: int): (c: char)
    requires 0 <= n < 16
    ensures IsDigit(c) && Value(c) == n
  {
    if n < 10 then ('0' as int + n) as char else ('a' as int + n - 10) as char
  }

  /** Two digits per byte, high nibble first. */
  function Encode(data: seq<byte>): (s: string)
    ensures |s| == 2 * |data|
    ensures IsHex(s)
  {
    if data == [] then []
    else [Digit(data[0] / 16), Digit(data[0] % 16)] + Encode(data[1..])
  }

  /** Reads back an even-length lower-case hexadecimal string. */
  function Decode(s: string): (r: Option<seq<byte>>)
    ensures r.Some? <==> |s| % 2 == 0 && IsHex(s)
    ensures r.Some? ==> |s| == 2 * |r.value|
    decreases |s|
  {
    if s == [] then Some([])
    else if |s| < 2 || !IsDigit(s[0]) || !IsDigit(s[1]) then None
    else
      match Decode(s[2..])
      case None => None
      case Some(rest) => Some([Value(s[0]) * 16 + Value(s[1])] + rest)
  }

  lemma {:induction false} DecodeEncode(data: seq<byte>)
    ensures Decode(Encode(data)) == Some(data)
  {
    if data != [] {
      var s := Encode(data);
      assert s[2..] == Encode(data[1..]);
      DecodeEncode(data[1..]);
      assert s[0] == Digit(data[0] / 16) && s[1] == Digit(data[0] % 16);
      assert Value(s[0]) * 16 + Value(s[1]) == data[0];
      assert [data[0]] + data[1..] == data;
    }
  }

  lemma {:induction false} EncodeDecode(s: string)
    requires Decode(s).Some?
    ensures Encode(Decode(s).value) == s
    decreases |s|
  {
    if s != [] {
      EncodeDecode(s[2..]);
      var b := Value(s[0]) * 16 + Value(s[1]);
      assert b / 16 == Value(s[0]) && b % 16 == Value(s[1]);
      DigitOfValue(s[0]);
      DigitOfValue(s[1]);
      assert s == [s[0], s[1]] + s[2..];
    }
  }

  lemma DigitOfValue(c: char)
    requires IsDigit(c)
    ensures Digit(Value(c)) == c
  {
  }

  /** Distinct byte strings have distinct encodings. */
  lemma EncodeInjective(a: seq<byte>, b: seq<byte>)
    requires Encode(a) == Encode(b)
    ensures a == b
  {
    DecodeEncode(a);
    DecodeEncode(b);
  }
}
