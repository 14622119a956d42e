/**
 Short codes of tracked QR codes (server.js:40-42): four random bytes written
 as lower-case hexadecimal, two characters per byte, high nibble first, as
 Node's `Buffer.toString('hex')` does. The random source is a parameter.
 */
module Hex {
  import opened Wrappers

  newtype byte = x: int | 0 <= x < 256

  /** The number of random bytes behind one short code. */
  const CodeBytes: nat := 4

  predicate IsHexDigit(c: char) {
    '0' <= c <= '9' || 'a' <= c <= 'f'
  }

  /** A well-formed short code: exactly eight lower-case hexadecimal characters. */
  predicate IsShortCode(s: string) {
    |s| == 2 * CodeBytes && forall i :: 0 <= i < |s| ==> IsHexDigit(s[i])
  }

  function NibbleChar(d: nat): (c: char)
    requires d < 16
    ensures IsHexDigit(c)
  {
    if d < 10 then ('0' as int + d) as char else ('a' as int + d - 10) as char
  }

  function NibbleValue(c: char): (d: nat)
    requires IsHexDigit(c)
    ensures d < 16
  {
    if c <= '9' then (c - '0') as nat else (c - 'a') as nat + 10
  }

  lemma NibbleRoundTrip(d: nat)
    requires d < 16
    ensures NibbleValue(NibbleChar(d)) == d
  {
  }

  lemma NibbleCharValue(c: char)
    requires IsHexDigit(c)
    ensures NibbleChar(NibbleValue(c)) == c
  {
  }

  /** `bytes.toString('hex')`. */
  function Encode(bytes: seq<byte>): (s: string)
    ensures |s| == 2 * |bytes|
    ensures forall i :: 0 <= i < |s| ==> IsHexDigit(s[i])
  {
    if bytes == [] then []
    else
      var b := bytes[0] as nat;
      [NibbleChar(b / 16), NibbleChar(b % 16)] + Encode(bytes[1..])
  }

  /** Reads lower-case hexadecimal back into bytes; None on odd length or a non-hex character. */
  function Decode(s: string): (r: Option<seq<byte>>)
    ensures r.Some? ==> 2 * |r.value| == |s|
    decreases |s|
  {
    if s == [] then Some([])
    else if |s| == 1 || !IsHexDigit(s[0]) || !IsHexDigit(s[1]) then None
    else
      match Decode(s[2..])
      case None => None
      case Some(rest) => Some([(16 * NibbleValue(s[0]) + NibbleValue(s[1])) as byte] + rest)
  }

  /** Decoding inverts encoding. */
  lemma {:induction false} DecodeEncode(bytes: seq<byte>)
    ensures Decode(Encode(bytes)) == Some(bytes)
  {
    if bytes != [] {
      var b := bytes[0] as nat;
      var s := Encode(bytes);
      assert s[2..] == Encode(bytes[1..]);
      DecodeEncode(bytes[1..]);
      NibbleRoundTrip(b / 16);
      NibbleRoundTrip(b % 16);
      assert [bytes[0]] + bytes[1..] == bytes;
    }
  }

  /** Encoding inverts decoding: a string decodes exactly when it is the encoding of the result. */
  lemma {:induction false} EncodeDecode(s: string)
    requires Decode(s).Some?
    ensures Encode(Decode(s).value) == s
    decreases |s|
  {
    if s != [] {
      EncodeDecode(s[2..]);
      var rest := Decode(s[2..]).value;
      var hi, lo := NibbleValue(s[0]), NibbleValue(s[1]);
      var b := (16 * hi + lo) as byte;
      assert Decode(s).value == [b] + rest;
      assert (b as nat) / 16 == hi && (b as nat) % 16 == lo;
      NibbleCharValue(s[0]);
      NibbleCharValue(s[1]);
      assert Encode([b] + rest) == [s[0], s[1]] + Encode(rest);
      assert s == [s[0], s[1]] + s[2..];
    }
  }

  /** `generateShortCode()` with the four bytes `crypto.randomBytes(4)` would return. */
  function GenerateShortCode(random: seq<byte>): (code: string)
    requires |random| == CodeBytes
    ensures IsShortCode(code)
    ensures Decode(code) == Some(random)
  {
    DecodeEncode(random);
    Encode(random)
  }

  /** Different random draws give different short codes. */
  lemma GenerateShortCodeInjective(a: seq<byte>, b: seq<byte>)
    requires |a| == CodeBytes && |b| == CodeBytes
    ensures GenerateShortCode(a) == GenerateShortCode(b) <==> a == b
  {
  }

  /** Every well-formed short code is generated by exactly one draw. */
  lemma ShortCodeHasDraw(code: string)
    requires IsShortCode(code)
    ensures Decode(code).Some?
    ensures |Decode(code).value| == CodeBytes
    ensures GenerateShortCode(Decode(code).value) == code
  {
    DecodeAllHex(code);
    EncodeDecode(code);
  }

  lemma {:induction false} DecodeAllHex(s: string)
    requires |s| % 2 == 0
    requires forall i :: 0 <= i < |s| ==> IsHexDigit(s[i])
    ensures Decode(s).Some?
    decreases |s|
  {
    if s != [] {
      DecodeAllHex(s[2..]);
    }
  }
}
