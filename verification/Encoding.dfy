/** Bytes, hexadecimal digests and the base64url encoding of section 5 of RFC 4648. */
module Encoding {
  import opened Text

  type Byte = b: int | 0 <= b < 256

  type Bytes = seq<Byte>

  /** A SHA-256 digest. */
  type Digest = d: Bytes | |d| == 32 witness seq(32, _ => 0)

  // ----- hexadecimal -----

  function HexDigit(n: nat): (c: char)
    requires n < 16
    ensures IsHex(c)
  {
    if n < 10 then (('0' as int) + n) as char else (('a' as int) + n - 10) as char
  }

  function HexValue(c: char): nat
    requires IsHex(c)
  {
    if IsDigit(c) then (c as int) - ('0' as int) else (c as int) - ('a' as int) + 10
  }

  /** `digest.hexdigest()`. */
  function Hex(bytes: Bytes): (s: string)
    ensures |s| == 2 * |bytes| && AllHex(s)
  {
    if bytes == [] then "" else [HexDigit(bytes[0] / 16), HexDigit(bytes[0] % 16)] + Hex(bytes[1..])
  }

  lemma HexDigitValue(n: nat)
    requires n < 16
    ensures HexValue(HexDigit(n)) == n
  {}

  lemma {:induction false} HexInjective(a: Bytes, b: Bytes)
    requires Hex(a) == Hex(b)
    ensures a == b
  {
    if a != [] {
      var s := Hex(a);
      HexDigitValue(a[0] / 16);
      HexDigitValue(a[0] % 16);
      HexDigitValue(b[0] / 16);
      HexDigitValue(b[0] % 16);
      assert s[0] == HexDigit(a[0] / 16) == HexDigit(b[0] / 16);
      assert s[1] == HexDigit(a[0] % 16) == HexDigit(b[0] % 16);
      assert s[2..] == Hex(a[1..]) && s[2..] == Hex(b[1..]);
      HexInjective(a[1..], b[1..]);
    }
  }

  // ----- base64url -----

  function Symbol(n: nat): (c: char)
    requires n < 64
    ensures c != '='
  {
    if n < 26 then (('A' as int) + n) as char
    else if n < 52 then (('a' as int) + n - 26) as char
    else if n < 62 then (('0' as int) + n - 52) as char
    else if n == 62 then '-' else '_'
  }

  function SymbolValue(c: char): (n: nat)
    ensures n < 64
  {
    if 'A' <= c <= 'Z' then (c as int) - ('A' as int)
    else if 'a' <= c <= 'z' then (c as int) - ('a' as int) + 26
    else if '0' <= c <= '9' then (c as int) - ('0' as int) + 52
    else if c == '-' then 62 else 63
  }

  /** The four symbols of a block of three bytes. */
  function Quad(x: Byte, y: Byte, z: Byte): (s: string)
    ensures |s| == 4 && forall i :: 0 <= i < 4 ==> s[i] != '='
  {
    [Symbol(x / 4), Symbol(x % 4 * 16 + y / 16), Symbol(y % 16 * 4 + z / 64), Symbol(z % 64)]
  }

  /** `base64.urlsafe_b64encode`: a last block of one or two bytes is padded. */
  function Padded(bytes: Bytes): string {
    if |bytes| == 0 then ""
    else if |bytes| == 1 then Quad(bytes[0], 0, 0)[..2] + "=="
    else if |bytes| == 2 then Quad(bytes[0], bytes[1], 0)[..3] + "="
    else Quad(bytes[0], bytes[1], bytes[2]) + Padded(bytes[3..])
  }

  /** `encoded.rstrip(b"=")`. */
  function WithoutPadding(s: string): string {
    if s != "" && s[|s| - 1] == '=' then WithoutPadding(s[..|s| - 1]) else s
  }

  function Base64Url(bytes: Bytes): string { WithoutPadding(Padded(bytes)) }

  /** The same encoding, written without padding in the first place. */
  function Unpadded(bytes: Bytes): (s: string)
    ensures '=' !in s
  {
    if |bytes| == 0 then ""
    else if |bytes| == 1 then Quad(bytes[0], 0, 0)[..2]
    else if |bytes| == 2 then Quad(bytes[0], bytes[1], 0)[..3]
    else Quad(bytes[0], bytes[1], bytes[2]) + Unpadded(bytes[3..])
  }

  lemma {:induction false} PaddedIsUnpaddedThenPadding(bytes: Bytes) returns (pad: string)
    ensures Padded(bytes) == Unpadded(bytes) + pad && forall i :: 0 <= i < |pad| ==> pad[i] == '='
  {
    if |bytes| == 0 {
      pad := "";
    } else if |bytes| == 1 {
      pad := "==";
    } else if |bytes| == 2 {
      pad := "=";
    } else {
      pad := PaddedIsUnpaddedThenPadding(bytes[3..]);
    }
  }

  lemma {:induction false} PaddingTaken(s: string, pad: string)
    requires '=' !in s && forall i :: 0 <= i < |pad| ==> pad[i] == '='
    ensures WithoutPadding(s + pad) == s
  {
    if pad == "" {
      assert s + pad == s;
    } else {
      assert (s + pad)[..|s + pad| - 1] == s + pad[..|pad| - 1];
      PaddingTaken(s, pad[..|pad| - 1]);
    }
  }

  lemma {:induction false} Base64UrlIsUnpadded(bytes: Bytes)
    ensures Base64Url(bytes) == Unpadded(bytes)
  {
    var pad := PaddedIsUnpaddedThenPadding(bytes);
    PaddingTaken(Unpadded(bytes), pad);
  }

  function FirstByte(a: nat, b: nat): Byte
    requires a < 64 && b < 64
  {
    a * 4 + b / 16
  }

  function SecondByte(b: nat, c: nat): Byte
    requires b < 64 && c < 64
  {
    b % 16 * 16 + c / 4
  }

  function ThirdByte(c: nat, d: nat): Byte
    requires c < 64 && d < 64
  {
    c % 4 * 64 + d
  }

  function Decode(s: string): Bytes {
    if |s| < 2 then []
    else
      var a, b := SymbolValue(s[0]), SymbolValue(s[1]);
      if |s| == 2 then [FirstByte(a, b)]
      else if |s| == 3 then [FirstByte(a, b), SecondByte(b, SymbolValue(s[2]))]
      else [FirstByte(a, b), SecondByte(b, SymbolValue(s[2])), ThirdByte(SymbolValue(s[2]), SymbolValue(s[3]))] + Decode(s[4..])
  }

  lemma SymbolRoundTrip(n: nat)
    requires n < 64
    ensures SymbolValue(Symbol(n)) == n
  {}

  lemma QuadRoundTrip(x: Byte, y: Byte, z: Byte)
    ensures var s := Quad(x, y, z);
            && FirstByte(SymbolValue(s[0]), SymbolValue(s[1])) == x
            && SecondByte(SymbolValue(s[1]), SymbolValue(s[2])) == y
            && ThirdByte(SymbolValue(s[2]), SymbolValue(s[3])) == z
  {
    SymbolRoundTrip(x / 4);
    SymbolRoundTrip(x % 4 * 16 + y / 16);
    SymbolRoundTrip(y % 16 * 4 + z / 64);
    SymbolRoundTrip(z % 64);
  }

  /** The three bytes of four symbols. */
  function Triple(q: string): Bytes
    requires |q| == 4
  {
    [FirstByte(SymbolValue(q[0]), SymbolValue(q[1])), SecondByte(SymbolValue(q[1]), SymbolValue(q[2])),
     ThirdByte(SymbolValue(q[2]), SymbolValue(q[3]))]
  }

  lemma {:induction false} DecodeStep(q: string, rest: string)
    requires |q| == 4
    ensures Decode(q + rest) == Triple(q) + Decode(rest)
  {
    assert (q + rest)[4..] == rest;
  }

  lemma TripleOfQuad(x: Byte, y: Byte, z: Byte)
    ensures Triple(Quad(x, y, z)) == [x, y, z]
  {
    QuadRoundTrip(x, y, z);
  }

  lemma {:induction false} ShortRoundTrip(bytes: Bytes)
    requires |bytes| <= 2
    ensures Decode(Unpadded(bytes)) == bytes
  {
    if |bytes| == 1 {
      QuadRoundTrip(bytes[0], 0, 0);
    } else if |bytes| == 2 {
      QuadRoundTrip(bytes[0], bytes[1], 0);
    }
  }

  /** Decoding an encoding gives the bytes back. */
  lemma {:induction false} Base64RoundTrip(bytes: Bytes)
    ensures Decode(Unpadded(bytes)) == bytes
  {
    if |bytes| <= 2 {
      ShortRoundTrip(bytes);
    } else {
      var rest := bytes[3..];
      Base64RoundTrip(rest);
      DecodeStep(Quad(bytes[0], bytes[1], bytes[2]), Unpadded(rest));
      TripleOfQuad(bytes[0], bytes[1], bytes[2]);
      assert bytes == [bytes[0], bytes[1], bytes[2]] + rest;
    }
  }

  /** Different byte strings have different encodings. */
  lemma Base64UrlInjective(a: Bytes, b: Bytes)
    requires Base64Url(a) == Base64Url(b)
    ensures a == b
  {
    Base64UrlIsUnpadded(a);
    Base64UrlIsUnpadded(b);
    Base64RoundTrip(a);
    Base64RoundTrip(b);
  }
}
