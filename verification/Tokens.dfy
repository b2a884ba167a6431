/** The random tokens of local authentication (RandBytesToHexASCII of src/Executor/Random.c). */
module Tokens {
  import opened Wrappers
  import opened CStrings

  type Byte = b: int | 0 <= b < 256

  const HEX_DIGITS: seq<char> := ['0', '1', '2', '3', '4', '5', '6', '7', '8', '9', 'A', 'B', 'C', 'D', 'E', 'F']

  // TOKEN_LENGTH of src/Executor/LocalAuth.c.
  const TOKEN_LENGTH := 40

  /** The random bytes of one token. */
  type Seed = data: seq<Byte> | |data| == TOKEN_LENGTH / 2 witness seq(TOKEN_LENGTH / 2, _ => 0)

  function HexDigit(d: nat): char
    requires d < 16
  {
    if d < 10 then '0' + d as char else 'A' + (d - 10) as char
  }

  lemma TableOfDigits(d: nat)
    requires d < 16
    ensures HEX_DIGITS[d] == HexDigit(d)
  {}

  /** The two digits of a byte. */
  function Pair(b: Byte): (s: CString)
    ensures |s| == 2
  {
    [HexDigit(b / 16), HexDigit(b % 16)]
  }

  /** The two digits of each byte, the high one first. */
  function HexText(data: seq<Byte>): (s: CString)
    ensures |s| == 2 * |data|
  {
    if data == [] then ""
    else HexText(data[..|data| - 1]) + Pair(data[|data| - 1])
  }

  lemma HexTextGrows(data: seq<Byte>, i: nat)
    requires i < |data|
    ensures HexText(data[..i + 1]) == HexText(data[..i]) + Pair(data[i])
  {
    assert data[..i + 1][..i] == data[..i];
  }

  method RandBytesToHexASCII(data: array<Byte>, size: nat, ascii: array<char>)
    requires size <= data.Length && 2 * size + 1 <= ascii.Length
    modifies ascii
    ensures ascii[..2 * size] == HexText(data[..size]) && ascii[2 * size] == NUL
    ensures forall k | 2 * size < k < ascii.Length :: ascii[k] == old(ascii[k])
  {
    var i, j := 0, 0;
    while i < size
      invariant 0 <= i <= size && j == 2 * i
      invariant ascii[..j] == HexText(data[..i])
      invariant forall k | j <= k < ascii.Length :: ascii[k] == old(ascii[k])
    {
      var hi, lo := data[i] / 16, data[i] % 16;
      TableOfDigits(hi);
      TableOfDigits(lo);
      HexTextGrows(data[..], i);
      assert data[..][..i] == data[..i] && data[..][..i + 1] == data[..i + 1];
      ascii[j], j := HEX_DIGITS[hi], j + 1;
      ascii[j], j := HEX_DIGITS[lo], j + 1;
      assert ascii[..j] == ascii[..j - 2] + [ascii[j - 2], ascii[j - 1]];
      i := i + 1;
    }
    ascii[j] := NUL;
    assert ascii[..j] == HexText(data[..size]);
  }

  function HexDigitValue(c: char): Option<nat> {
    if '0' <= c <= '9' then Some(c as int - '0' as int)
    else if 'A' <= c <= 'F' then Some(c as int - 'A' as int + 10)
    else None
  }

  function PairValue(hi: char, lo: char): Option<Byte> {
    if HexDigitValue(hi).Some? && HexDigitValue(lo).Some?
       && 16 * HexDigitValue(hi).value + HexDigitValue(lo).value < 256
    then Some(16 * HexDigitValue(hi).value + HexDigitValue(lo).value)
    else None
  }

  function AppendByte(data: Option<seq<Byte>>, b: Option<Byte>): Option<seq<Byte>> {
    if data.Some? && b.Some? then Some(data.value + [b.value]) else None
  }

  /** The bytes written by pairs of digits. */
  function HexBytes(s: string): Option<seq<Byte>> {
    if s == "" then Some([])
    else if |s| == 1 then None
    else AppendByte(HexBytes(s[..|s| - 2]), PairValue(s[|s| - 2], s[|s| - 1]))
  }

  lemma PairRoundTrip(b: Byte)
    ensures PairValue(Pair(b)[0], Pair(b)[1]) == Some(b)
  {}

  lemma LastByte(s: string, data: seq<Byte>, b: Byte)
    requires HexBytes(s) == Some(data)
    ensures HexBytes(s + Pair(b)) == Some(data + [b])
  {
    var t := s + Pair(b);
    assert t[..|t| - 2] == s;
    PairRoundTrip(b);
  }

  /** A token decodes back to the random bytes it was made of. */
  lemma {:induction false} HexRoundTrip(data: seq<Byte>)
    ensures HexBytes(HexText(data)) == Some(data)
  {
    if data != [] {
      var front, last := data[..|data| - 1], data[|data| - 1];
      HexRoundTrip(front);
      HexTextGrows(data, |data| - 1);
      assert data[..|data|] == data == front + [last];
      LastByte(HexText(front), front, last);
    }
  }
}
