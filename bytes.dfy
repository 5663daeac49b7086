/** Bytes and Go's `encoding/binary` little-endian helpers. */
module Bytes {

  type byte = x: int | 0 <= x < 0x100

  const UINT16_LIMIT: int := 0x1_0000
  const UINT32_LIMIT: int := 0x1_0000_0000

  /** `binary.LittleEndian.Uint16(s[0:2])` */
  function LE16(s: seq<byte>): (v: nat)
    requires |s| >= 2
    ensures v < UINT16_LIMIT
  {
    s[0] as int + 0x100 * (s[1] as int)
  }

  /** `binary.LittleEndian.Uint32(s[0:4])` */
  function LE32(s: seq<byte>): (v: nat)
    requires |s| >= 4
    ensures v < UINT32_LIMIT
  {
    s[0] as int + 0x100 * (s[1] as int + 0x100 * (s[2] as int + 0x100 * (s[3] as int)))
  }

  /** `binary.LittleEndian.PutUint16` / `binary.Write(..., LittleEndian, uint16)` */
  function EncodeLE16(v: nat): (s: seq<byte>)
    requires v < UINT16_LIMIT
    ensures |s| == 2 && LE16(s) == v
  {
    [v % 0x100, v / 0x100]
  }

  /** Decoding two bytes and encoding the value again gives the same two bytes. */
  lemma EncodeLE16OfLE16(s: seq<byte>)
    requires |s| == 2
    ensures EncodeLE16(LE16(s)) == s
  {
  }

  /** `binary.LittleEndian.PutUint32` */
  function EncodeLE32(v: nat): (s: seq<byte>)
    requires v < UINT32_LIMIT
    ensures |s| == 4 && LE32(s) == v
  {
    var q0 := v / 0x100;
    var q1 := q0 / 0x100;
    [v % 0x100, q0 % 0x100, q1 % 0x100, q1 / 0x100]
  }

  /** Decoding four bytes and encoding the value again gives the same four bytes. */
  lemma EncodeLE32OfLE32(s: seq<byte>)
    requires |s| == 4
    ensures EncodeLE32(LE32(s)) == s
  {
    var q1 := s[2] as int + 0x100 * (s[3] as int);
    var q0 := s[1] as int + 0x100 * q1;
    var v := s[0] as int + 0x100 * q0;
    assert v == LE32(s);
    assert v / 0x100 == q0 && v % 0x100 == s[0];
    assert q0 / 0x100 == q1 && q0 % 0x100 == s[1];
    assert q1 / 0x100 == s[3] && q1 % 0x100 == s[2];
  }

  /** Go's `string(b)`: the model gives every byte of a Go string one char of the same code. */
  function Latin1(b: seq<byte>): (s: string)
    ensures |s| == |b| && forall i :: 0 <= i < |b| ==> s[i] as int == b[i]
  {
    seq(|b|, i requires 0 <= i < |b| => b[i] as char)
  }

  /** `[]byte(s)` for a string every char of which is one byte. */
  predicate IsByteString(s: string) {
    forall i :: 0 <= i < |s| ==> s[i] as int < 0x100
  }

  function ToBytes(s: string): (b: seq<byte>)
    requires IsByteString(s)
    ensures |b| == |s| && forall i :: 0 <= i < |s| ==> b[i] == s[i] as int
  {
    seq(|s|, i requires 0 <= i < |s| => s[i] as int)
  }

  /** The two conversions are inverse to each other. */
  lemma ToBytesLatin1(b: seq<byte>)
    ensures IsByteString(Latin1(b)) && ToBytes(Latin1(b)) == b
  {
  }

  /** An ASCII literal as the bytes Go stores for it. */
  function Ascii(s: string): (b: seq<byte>)
    requires forall i :: 0 <= i < |s| ==> s[i] as int < 0x80
    ensures |b| == |s| && forall i :: 0 <= i < |s| ==> b[i] == s[i] as int
  {
    seq(|s|, i requires 0 <= i < |s| => s[i] as int)
  }
  /** The UTF-8 encoding of one code point, as Go's `[]byte(s)` stores it. */
  function Utf8Char(c: char): (b: seq<byte>)
    ensures 1 <= |b| <= 4 && (|b| == 1 <==> c as int < 0x80)
  {
    var n := c as int;
    if n < 0x80 then [n]
    else if n < 0x800 then [0xC0 + n / 0x40, 0x80 + n % 0x40]
    else if n < 0x1_0000 then [0xE0 + n / 0x1000, 0x80 + (n / 0x40) % 0x40, 0x80 + n % 0x40]
    else [0xF0 + n / 0x4_0000, 0x80 + (n / 0x1000) % 0x40, 0x80 + (n / 0x40) % 0x40, 0x80 + n % 0x40]
  }

  /** Go's `[]byte(s)` for text: the UTF-8 encodings of its code points, one after another. */
  function Utf8(s: string): (b: seq<byte>)
    ensures |b| >= |s|
  {
    if s == [] then [] else Utf8(s[..|s| - 1]) + Utf8Char(s[|s| - 1])
  }

  /** ASCII text is stored one byte per character. */
  lemma {:induction false} Utf8OfAscii(s: string)
    requires forall i :: 0 <= i < |s| ==> s[i] as int < 0x80
    ensures Utf8(s) == Ascii(s)
  {
    if s != [] {
      var init := s[..|s| - 1];
      Utf8OfAscii(init);
      assert Utf8Char(s[|s| - 1]) == [s[|s| - 1] as int];
      assert Ascii(s) == Ascii(init) + [s[|s| - 1] as int];
    }
  }
}
