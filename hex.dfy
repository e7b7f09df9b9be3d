/** Bytes and their lower-case hexadecimal text, as `hashlib`'s `hexdigest()` writes it. */
module Hex {

  newtype Byte = b: int | 0 <= b < 256

  /** A SHA-256 digest: 32 bytes. */
  type Sha256Digest = d: seq<Byte> | |d| == 32 witness seq(32, k => 0)

  predicate IsHexDigit(c: char)
  {
    '0' <= c <= '9' || 'a' <= c <= 'f'
  }

  function HexValue(c: char): (d: nat)
    requires IsHexDigit(c)
    ensures d < 16
  {
    if c <= '9' then c as int - '0' as int else c as int - 'a' as int + 10
  }

  function HexChar(d: nat): (c: char)
    requires d < 16
    ensures IsHexDigit(c) && HexValue(c) == d
  {
    if d < 10 then ('0' as int + d) as char else ('a' as int + d - 10) as char
  }

  /** Two hexadecimal digits per byte, high nibble first. */
  function HexDigest(bytes: seq<Byte>): (r: string)
    ensures |r| == 2 * |bytes|
    ensures forall k :: 0 <= k < |r| ==> IsHexDigit(r[k])
  {
    if |bytes| == 0 then ""
    else [HexChar(bytes[0] as int / 16), HexChar(bytes[0] as int % 16)] + HexDigest(bytes[1..])
  }

  /** Reads hexadecimal text back into bytes. */
  function ParseHex(s: string): seq<Byte>
    requires |s| % 2 == 0 && forall k :: 0 <= k < |s| ==> IsHexDigit(s[k])
  {
    if |s| == 0 then [] else [(HexValue(s[0]) * 16 + HexValue(s[1])) as Byte] + ParseHex(s[2..])
  }

  lemma {:induction false} HexRoundTrip(bytes: seq<Byte>)
    ensures ParseHex(HexDigest(bytes)) == bytes
  {
    if |bytes| > 0 {
      var r := HexDigest(bytes);
      assert r[2..] == HexDigest(bytes[1..]);
      HexRoundTrip(bytes[1..]);
    }
  }

  /** Distinct byte strings have distinct hexadecimal texts. */
  lemma HexInjective(a: seq<Byte>, b: seq<Byte>)
    requires HexDigest(a) == HexDigest(b)
    ensures a == b
  {
    HexRoundTrip(a);
    HexRoundTrip(b);
  }
}
