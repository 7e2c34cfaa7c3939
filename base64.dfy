/** The standard base64 alphabet with '=' padding (section 4 of RFC 4648), as
    Go's `base64.StdEncoding` encodes and decodes it: encoding always pads;
    decoding skips '\r' and '\n' wherever they occur, demands correct padding
    and the alphabet everywhere else, and ignores the unused low bits of a
    padded final group (the encoding is not in strict mode). */
module Base64 {
  import opened Wrappers

  newtype byte = x: int | 0 <= x < 256

  type Bytes = seq<byte>

  const PadChar: char := '='

  /** The character of a 6-bit value: A-Z, a-z, 0-9, '+', '/'. */
  function CharOf(v: int): (c: char)
    requires 0 <= v < 64
    ensures c != PadChar && c != '\r' && c != '\n'
  {
    if v < 26 then ('A' as int + v) as char
    else if v < 52 then ('a' as int + (v - 26)) as char
    else if v < 62 then ('0' as int + (v - 52)) as char
    else if v == 62 then '+'
    else '/'
  }

  /** The 6-bit value of an alphabet character, or None for any other
      character (padding and line breaks included). */
  function ValueOf(c: char): (r: Option<int>)
    ensures r.Some? ==> 0 <= r.value < 64 && CharOf(r.value) == c
  {
    if 'A' <= c <= 'Z' then Some(c as int - 'A' as int)
    else if 'a' <= c <= 'z' then Some(c as int - 'a' as int + 26)
    else if '0' <= c <= '9' then Some(c as int - '0' as int + 52)
    else if c == '+' then Some(62)
    else if c == '/' then Some(63)
    else None
  }

  lemma ValueOfCharOf(v: int)
    requires 0 <= v < 64
    ensures ValueOf(CharOf(v)) == Some(v)
  {
  }

  /** Four characters for three bytes. */
  function EncodeTriple(b0: byte, b1: byte, b2: byte): string {
    [CharOf(b0 as int / 4),
     CharOf((b0 as int % 4) * 16 + b1 as int / 16),
     CharOf((b1 as int % 16) * 4 + b2 as int / 64),
     CharOf(b2 as int % 64)]
  }

  /** The padded group of two bytes. */
  function EncodePair(b0: byte, b1: byte): string {
    [CharOf(b0 as int / 4), CharOf((b0 as int % 4) * 16 + b1 as int / 16), CharOf((b1 as int % 16) * 4), PadChar]
  }

  /** The padded group of one byte. */
  function EncodeSingle(b0: byte): string {
    [CharOf(b0 as int / 4), CharOf((b0 as int % 4) * 16), PadChar, PadChar]
  }

  /** `EncodeToString`: every three bytes become four characters, and a final
      group of one or two bytes is padded with '=' to four characters. */
  function Encode(b: Bytes): (s: string)
    ensures |s| == 4 * ((|b| + 2) / 3)
    decreases |b|
  {
    if |b| == 0 then ""
    else if |b| == 1 then EncodeSingle(b[0])
    else if |b| == 2 then EncodePair(b[0], b[1])
    else EncodeTriple(b[0], b[1], b[2]) + Encode(b[3..])
  }

  predicate IsLineBreak(c: char) {
    c == '\r' || c == '\n'
  }

  /** The input with every '\r' and '\n' removed. */
  function StripLineBreaks(s: string): (r: string)
    ensures |r| <= |s|
    ensures forall i :: 0 <= i < |r| ==> !IsLineBreak(r[i])
  {
    if s == [] then []
    else if IsLineBreak(s[0]) then StripLineBreaks(s[1..])
    else [s[0]] + StripLineBreaks(s[1..])
  }

  /** The bytes carried by consecutive six-bit values of a group: the first
      byte takes all of v0 and the top two bits of v1, the second the rest of
      v1 and the top four bits of v2, the third the rest of v2 and all of v3. */
  function FirstByte(v0: int, v1: int): byte
    requires 0 <= v0 < 64 && 0 <= v1 < 64
  {
    (v0 * 4 + v1 / 16) as byte
  }

  function SecondByte(v1: int, v2: int): byte
    requires 0 <= v1 < 64 && 0 <= v2 < 64
  {
    ((v1 % 16) * 16 + v2 / 4) as byte
  }

  function ThirdByte(v2: int, v3: int): byte
    requires 0 <= v2 < 64 && 0 <= v3 < 64
  {
    ((v2 % 4) * 64 + v3) as byte
  }

  /** One group of four characters. A group that is not the last one must
      hold four alphabet characters; the last may end in "==" (one byte) or
      "=" (two bytes). The bits of the last alphabet character that do not
      reach a whole byte are dropped whatever their value. */
  function DecodeGroup(g: string, last: bool): (r: Option<Bytes>)
    requires |g| == 4
    ensures r.Some? ==> 1 <= |r.value| <= 3
    ensures r.Some? && |r.value| < 3 ==> last
  {
    var v0, v1, v2, v3 := ValueOf(g[0]), ValueOf(g[1]), ValueOf(g[2]), ValueOf(g[3]);
    if v0.None? || v1.None? then None
    else if v2.Some? && v3.Some? then
      Some([FirstByte(v0.value, v1.value), SecondByte(v1.value, v2.value), ThirdByte(v2.value, v3.value)])
    else if last && v2.Some? && g[3] == PadChar then
      Some([FirstByte(v0.value, v1.value), SecondByte(v1.value, v2.value)])
    else if last && g[2] == PadChar && g[3] == PadChar then
      Some([FirstByte(v0.value, v1.value)])
    else None
  }

  /** Consecutive groups of four characters, none of them a line break.
      Only whole groups decode, to at most three bytes each. */
  function DecodeGroups(s: string): (r: Option<Bytes>)
    ensures r.Some? ==> |s| % 4 == 0 && 4 * |r.value| <= 3 * |s|
    decreases |s|
  {
    if |s| == 0 then Some([])
    else if |s| < 4 then None
    else
      match DecodeGroup(s[..4], |s| == 4)
      case None => None
      case Some(head) =>
        match DecodeGroups(s[4..])
        case None => None
        case Some(tail) =>
          GroupMultiple(|s| - 4);
          Some(head + tail)
  }

  /** One more group keeps a length a multiple of four. */
  lemma GroupMultiple(n: nat)
    requires n % 4 == 0
    ensures (n + 4) % 4 == 0
  {
  }

  /** `DecodeString`: None when Go reports a corrupt-input error. */
  function Decode(s: string): (r: Option<Bytes>) {
    DecodeGroups(StripLineBreaks(s))
  }

  // ---------------------------------------------------------------------
  // Round trip

  lemma {:induction false} EncodeHasNoLineBreak(b: Bytes)
    ensures forall i :: 0 <= i < |Encode(b)| ==> !IsLineBreak(Encode(b)[i])
    decreases |b|
  {
    if |b| >= 3 {
      EncodeHasNoLineBreak(b[3..]);
      assert Encode(b) == EncodeTriple(b[0], b[1], b[2]) + Encode(b[3..]);
    }
  }

  lemma {:induction false} StripWithoutLineBreaks(s: string)
    requires forall i :: 0 <= i < |s| ==> !IsLineBreak(s[i])
    ensures StripLineBreaks(s) == s
  {
    if s != [] {
      StripWithoutLineBreaks(s[1..]);
    }
  }

  lemma DivMod4(a: int, c: int)
    requires 0 <= c < 4
    ensures (a * 4 + c) / 4 == a && (a * 4 + c) % 4 == c
  {
  }

  lemma DivMod16(a: int, c: int)
    requires 0 <= c < 16
    ensures (a * 16 + c) / 16 == a && (a * 16 + c) % 16 == c
  {
  }

  lemma DivMod64(a: int, c: int)
    requires 0 <= c < 64
    ensures (a * 64 + c) / 64 == a && (a * 64 + c) % 64 == c
  {
  }

  /** The six-bit groups of three bytes give the three bytes back. */
  lemma TripleBits(x: byte, y: byte, z: byte)
    ensures var s0, s1, s2, s3 := x as int / 4, (x as int % 4) * 16 + y as int / 16,
                                  (y as int % 16) * 4 + z as int / 64, z as int % 64;
            0 <= s1 < 64 && 0 <= s2 < 64 &&
            FirstByte(s0, s1) == x && SecondByte(s1, s2) == y && ThirdByte(s2, s3) == z
  {
    DivMod16(x as int % 4, y as int / 16);
    DivMod4(y as int % 16, z as int / 64);
  }

  lemma DecodeEncodedTriple(b0: byte, b1: byte, b2: byte, last: bool)
    ensures DecodeGroup(EncodeTriple(b0, b1, b2), last) == Some([b0, b1, b2])
  {
    var x, y, z := b0 as int, b1 as int, b2 as int;
    ValueOfCharOf(x / 4);
    ValueOfCharOf((x % 4) * 16 + y / 16);
    ValueOfCharOf((y % 16) * 4 + z / 64);
    ValueOfCharOf(z % 64);
    TripleBits(b0, b1, b2);
  }

  lemma DecodeEncodedPair(b0: byte, b1: byte)
    ensures DecodeGroup(EncodePair(b0, b1), true) == Some([b0, b1])
  {
    var x, y := b0 as int, b1 as int;
    ValueOfCharOf(x / 4);
    ValueOfCharOf((x % 4) * 16 + y / 16);
    ValueOfCharOf((y % 16) * 4);
    TripleBits(b0, b1, 0);
  }

  lemma DecodeEncodedSingle(b0: byte)
    ensures DecodeGroup(EncodeSingle(b0), true) == Some([b0])
  {
    var x := b0 as int;
    ValueOfCharOf(x / 4);
    ValueOfCharOf((x % 4) * 16);
    TripleBits(b0, 0, 0);
  }

  /** Decoding a group followed by more groups. */
  lemma DecodeGroupsCons(g: string, t: string, head: Bytes, tail: Bytes)
    requires |g| == 4
    requires DecodeGroup(g, |t| == 0) == Some(head)
    requires DecodeGroups(t) == Some(tail)
    ensures DecodeGroups(g + t) == Some(head + tail)
  {
    var s := g + t;
    assert s[..4] == g && s[4..] == t;
  }

  lemma DecodeTripleThen(b0: byte, b1: byte, b2: byte, t: string, tail: Bytes)
    requires DecodeGroups(t) == Some(tail)
    ensures DecodeGroups(EncodeTriple(b0, b1, b2) + t) == Some([b0, b1, b2] + tail)
  {
    DecodeEncodedTriple(b0, b1, b2, |t| == 0);
    DecodeGroupsCons(EncodeTriple(b0, b1, b2), t, [b0, b1, b2], tail);
  }

  /** A final group of one or two bytes decodes on its own. */
  lemma DecodeGroupsEncodeTail(b: Bytes)
    requires 1 <= |b| <= 2
    ensures DecodeGroups(Encode(b)) == Some(b)
  {
    if |b| == 1 {
      assert Encode(b) == EncodeSingle(b[0]);
      DecodeEncodedSingle(b[0]);
      assert b == [b[0]];
    } else {
      assert Encode(b) == EncodePair(b[0], b[1]);
      DecodeEncodedPair(b[0], b[1]);
      assert b == [b[0], b[1]];
    }
    DecodeGroupsCons(Encode(b), "", b, []);
    assert Encode(b) + "" == Encode(b) && b + [] == b;
  }

  lemma {:induction false} DecodeGroupsEncode(b: Bytes)
    ensures DecodeGroups(Encode(b)) == Some(b)
    decreases |b|
  {
    if 1 <= |b| <= 2 {
      DecodeGroupsEncodeTail(b);
    } else if |b| >= 3 {
      DecodeGroupsEncode(b[3..]);
      DecodeTripleThen(b[0], b[1], b[2], Encode(b[3..]), b[3..]);
      assert [b[0], b[1], b[2]] + b[3..] == b;
    }
  }

  /** Section 4 of RFC 4648: decoding what was encoded gives back the bytes. */
  lemma RoundTrip(b: Bytes)
    ensures Decode(Encode(b)) == Some(b)
  {
    EncodeHasNoLineBreak(b);
    StripWithoutLineBreaks(Encode(b));
    DecodeGroupsEncode(b);
  }

  // ---------------------------------------------------------------------
  // What Go's decoder accepts besides canonical text

  lemma {:induction false} StripConcat(a: string, b: string)
    ensures StripLineBreaks(a + b) == StripLineBreaks(a) + StripLineBreaks(b)
    decreases |a|
  {
    if a == [] {
      assert a + b == b;
    } else {
      assert (a + b)[0] == a[0] && (a + b)[1..] == a[1..] + b;
      StripConcat(a[1..], b);
    }
  }

  /** Line breaks anywhere in the text change nothing. */
  lemma LineBreakIgnored(a: string, b: string, lineBreak: char)
    requires IsLineBreak(lineBreak)
    ensures Decode(a + [lineBreak] + b) == Decode(a + b)
  {
    StripConcat(a + [lineBreak], b);
    StripConcat(a, [lineBreak]);
    StripConcat(a, b);
    assert [lineBreak][1..] == [];
    assert StripLineBreaks([lineBreak]) == [];
    assert StripLineBreaks(a + [lineBreak] + b) == StripLineBreaks(a + b);
  }

  /** The unused bits of a padded group are not checked: "QR==" decodes like
      the canonical "QQ==", to the single byte 'A'. */
  lemma PadBitsIgnored()
    ensures Decode("QQ==") == Some([65]) && Decode("QR==") == Some([65])
  {
    assert ValueOf('Q') == Some(16) && ValueOf('R') == Some(17) && ValueOf(PadChar).None?;
    assert FirstByte(16, 16) == 65 && FirstByte(16, 17) == 65;
    DecodeSingleGroup("QQ==", [65]);
    DecodeSingleGroup("QR==", [65]);
  }

  lemma DecodeSingleGroup(g: string, b: Bytes)
    requires |g| == 4 && forall i :: 0 <= i < 4 ==> !IsLineBreak(g[i])
    requires DecodeGroup(g, true) == Some(b)
    ensures Decode(g) == Some(b)
  {
    StripWithoutLineBreaks(g);
    DecodeGroupsCons(g, "", b, []);
    assert g + "" == g && b + [] == b;
  }

  /** The test vectors of section 10 of RFC 4648. */
  lemma Rfc4648Vectors()
    ensures Encode([]) == ""
    ensures Encode([102]) == "Zg=="
    ensures Encode([102, 111]) == "Zm8="
    ensures Encode([102, 111, 111]) == "Zm9v"
    ensures Encode([102, 111, 111, 98]) == "Zm9vYg=="
    ensures Encode([102, 111, 111, 98, 97]) == "Zm9vYmE="
    ensures Encode([102, 111, 111, 98, 97, 114]) == "Zm9vYmFy"
  {
  }
}
