/**
 * UTF-8 (RFC 3629, section 3). A Rust `String` is a sequence of Unicode scalar
 * values held as UTF-8; here it is a Dafny `string`, whose `char`s are exactly
 * the Unicode scalar values. `Encode` is `as_bytes`, `Decode` is
 * `String::from_utf8`.
 */
module Utf8 {
  import opened Wrappers

  function EncodeChar(c: char): (bytes: seq<Byte>)
    ensures 1 <= |bytes| <= 4
  {
    var n := c as int;
    if n < 0x80 then
      [n]
    else if n < 0x800 then
      [0xC0 + n / 64, 0x80 + n % 64]
    else if n < 0x1_0000 then
      [0xE0 + n / 4096, 0x80 + n / 64 % 64, 0x80 + n % 64]
    else
      [0xF0 + n / 262144, 0x80 + n / 4096 % 64, 0x80 + n / 64 % 64, 0x80 + n % 64]
  }

  function Encode(text: string): seq<Byte> {
    if text == "" then [] else EncodeChar(text[0]) + Encode(text[1..])
  }

  predicate Continuation(b: Byte) {
    0x80 <= b < 0xC0
  }

  /** The six payload bits of a continuation byte. */
  function Bits(b: Byte): int {
    b as int - 0x80
  }

  /** The scalar value at the front of `bytes` and the number of bytes it takes. */
  function DecodeChar(bytes: seq<Byte>): Option<(char, nat)>
    requires bytes != []
  {
    var b0: int := bytes[0];
    if b0 < 0x80 then
      Some((b0 as char, 1))
    else if 0xC2 <= b0 < 0xE0 && |bytes| >= 2 && Continuation(bytes[1]) then
      Some((((b0 - 0xC0) * 64 + Bits(bytes[1])) as char, 2))
    else if 0xE0 <= b0 < 0xF0 && |bytes| >= 3 && Continuation(bytes[1]) && Continuation(bytes[2]) then
      var n := (b0 - 0xE0) * 4096 + Bits(bytes[1]) * 64 + Bits(bytes[2]);
      // overlong forms and surrogates are malformed
      if n < 0x800 || 0xD800 <= n < 0xE000 then None else Some((n as char, 3))
    else if 0xF0 <= b0 < 0xF5 && |bytes| >= 4
            && Continuation(bytes[1]) && Continuation(bytes[2]) && Continuation(bytes[3]) then
      var n := (b0 - 0xF0) * 262144 + Bits(bytes[1]) * 4096 + Bits(bytes[2]) * 64 + Bits(bytes[3]);
      if n < 0x1_0000 || 0x11_0000 <= n then None else Some((n as char, 4))
    else
      None
  }

  function Decode(bytes: seq<Byte>): Option<string> {
    if bytes == [] then
      Some("")
    else
      match DecodeChar(bytes)
      case None => None
      case Some((c, n)) =>
        match Decode(bytes[n..])
        case None => None
        case Some(rest) => Some([c] + rest)
  }

  lemma SplitDigits(a: nat, b: nat, c: nat, d: nat)
    requires b < 64 && c < 64 && d < 64
    ensures var n := a * 262144 + b * 4096 + c * 64 + d;
            && n / 262144 == a && n / 4096 % 64 == b && n / 64 % 64 == c && n % 64 == d
            && n / 64 == a * 4096 + b * 64 + c && n / 4096 == a * 64 + b
  {
    var n := a * 262144 + b * 4096 + c * 64 + d;
    assert n / 64 == a * 4096 + b * 64 + c;
    assert n / 4096 == a * 64 + b;
  }

  /** A scalar value is put together again from its six-bit groups. */
  lemma JoinDigits(n: nat)
    ensures n == n / 262144 * 262144 + n / 4096 % 64 * 4096 + n / 64 % 64 * 64 + n % 64
    ensures n / 4096 == n / 262144 * 64 + n / 4096 % 64 && n / 64 == n / 4096 * 64 + n / 64 % 64
  {
    var q1 := n / 64;
    var q2 := q1 / 64;
    SplitDigits(q2 / 64, q2 % 64, q1 % 64, n % 64);
  }

  lemma DecodeEncodeChar(c: char, rest: seq<Byte>)
    ensures DecodeChar(EncodeChar(c) + rest) == Some((c, |EncodeChar(c)|))
  {
    var n := c as int;
    assert n as char == c;
    var head := EncodeChar(c);
    var bytes := head + rest;
    assert forall i | 0 <= i < |head| :: bytes[i] == head[i];
    JoinDigits(n);
  }

  lemma EncodeDecodeChar(bytes: seq<Byte>)
    requires bytes != [] && DecodeChar(bytes).Some?
    ensures var (c, n) := DecodeChar(bytes).value;
            n <= |bytes| && EncodeChar(c) == bytes[..n]
  {
    var (c, n) := DecodeChar(bytes).value;
    var b0: int := bytes[0];
    if n == 2 {
      SplitDigits(0, 0, b0 - 0xC0, Bits(bytes[1]));
    } else if n == 3 {
      SplitDigits(0, b0 - 0xE0, Bits(bytes[1]), Bits(bytes[2]));
    } else if n == 4 {
      EncodeDecodeFour(bytes);
    }
  }

  lemma EncodeDecodeFour(bytes: seq<Byte>)
    requires bytes != [] && DecodeChar(bytes).Some? && DecodeChar(bytes).value.1 == 4
    ensures |bytes| >= 4 && EncodeChar(DecodeChar(bytes).value.0) == bytes[..4]
  {
    SplitDigits(bytes[0] - 0xF0, Bits(bytes[1]), Bits(bytes[2]), Bits(bytes[3]));
  }

  /** Every text survives encoding. */
  lemma {:induction false} DecodeEncode(text: string)
    ensures Decode(Encode(text)) == Some(text)
  {
    if text != "" {
      DecodeEncode(text[1..]);
      DecodeCons(text[0], Encode(text[1..]));
      assert text == [text[0]] + text[1..];
    }
  }

  lemma DecodeFirst(bytes: seq<Byte>, c: char, k: nat)
    requires bytes != [] && DecodeChar(bytes) == Some((c, k)) && k <= |bytes|
    ensures Decode(bytes) == match Decode(bytes[k..]) case None => None case Some(rest) => Some([c] + rest)
  {
  }

  lemma DecodeCons(c: char, rest: seq<Byte>)
    ensures Decode(EncodeChar(c) + rest) == match Decode(rest) case None => None case Some(text) => Some([c] + text)
  {
    DecodeEncodeChar(c, rest);
    DecodeFirst(EncodeChar(c) + rest, c, |EncodeChar(c)|);
    assert (EncodeChar(c) + rest)[|EncodeChar(c)|..] == rest;
  }

  lemma EncodeCons(c: char, rest: string)
    ensures Encode([c] + rest) == EncodeChar(c) + Encode(rest)
  {
    assert ([c] + rest)[1..] == rest;
  }

  /** Every byte string that decodes is the encoding of what it decodes to. */
  lemma {:induction false} EncodeDecode(bytes: seq<Byte>)
    requires Decode(bytes).Some?
    ensures Encode(Decode(bytes).value) == bytes
  {
    if bytes != [] {
      var (c, n) := DecodeChar(bytes).value;
      EncodeDecodeChar(bytes);
      DecodeFirst(bytes, c, n);
      EncodeDecode(bytes[n..]);
      EncodeFirst(bytes, c, n, Decode(bytes[n..]).value);
    }
  }

  lemma EncodeFirst(bytes: seq<Byte>, c: char, n: nat, rest: string)
    requires n <= |bytes| && EncodeChar(c) == bytes[..n] && Encode(rest) == bytes[n..]
    ensures Encode([c] + rest) == bytes
  {
    EncodeCons(c, rest);
  }

  /** Bytes read as a text exactly if they are its encoding. */
  lemma DecodeIff(bytes: seq<Byte>, text: string)
    ensures Decode(bytes) == Some(text) <==> bytes == Encode(text)
  {
    DecodeEncode(text);
    if Decode(bytes).Some? { EncodeDecode(bytes); }
  }

  // ----- lossy decoding -----

  /** Whether `b1` can follow the lead byte `b0` of three or four. */
  predicate SecondByte(b0: Byte, b1: Byte) {
    if b0 == 0xE0 then 0xA0 <= b1 < 0xC0
    else if b0 == 0xED then 0x80 <= b1 < 0xA0
    else if b0 == 0xF0 then 0x90 <= b1 < 0xC0
    else if b0 == 0xF4 then 0x80 <= b1 < 0x90
    else Continuation(b1)
  }

  /** The number of bytes one replacement character stands for: as many as could still begin a character. */
  function Malformed(bytes: seq<Byte>): (n: nat)
    requires bytes != []
    ensures 1 <= n <= |bytes|
  {
    if 0xE0 <= bytes[0] < 0xF5 && |bytes| >= 2 && SecondByte(bytes[0], bytes[1]) then
      if bytes[0] >= 0xF0 && |bytes| >= 3 && Continuation(bytes[2]) then 3 else 2
    else 1
  }

  /** `String::from_utf8_lossy` */
  function DecodeLossy(bytes: seq<Byte>): string {
    if bytes == [] then ""
    else
      match DecodeChar(bytes)
      case Some((c, n)) => [c] + DecodeLossy(bytes[n..])
      case None => ['\U{FFFD}'] + DecodeLossy(bytes[Malformed(bytes)..])
  }

  /** On well-formed bytes nothing is lost. */
  lemma {:induction false} LossyDecode(bytes: seq<Byte>)
    requires Decode(bytes).Some?
    ensures DecodeLossy(bytes) == Decode(bytes).value
  {
    if bytes != [] {
      var (c, n) := DecodeChar(bytes).value;
      LossyDecode(bytes[n..]);
    }
  }
}
