/**
 What the bytes of numbers and text mean, apart from the readers and writers: big-endian integers, the four forms of a
 variable byte integer, and UTF-8 as the code points it stands for (sections 1.5.2 to 1.5.5 of MQTT 5.0, RFC 3629).
 */
module Numerals {
  import opened Wire
  import opened VarInt

  // ----- Integers -----

  function BigEndian(s: Bytes): nat
    decreases |s|
  {
    if s == [] then 0 else BigEndian(s[..|s| - 1]) * 256 + s[|s| - 1]
  }

  lemma TwoDigits(s: Bytes)
    requires |s| == 2
    ensures BigEndian(s) == s[0] as int * 256 + s[1]
  {
    assert BigEndian(s[..1]) == BigEndian(s[..0]) * 256 + s[0];
  }

  lemma FourDigits(s: Bytes)
    requires |s| == 4
    ensures BigEndian(s) == ((s[0] as int * 256 + s[1]) * 256 + s[2]) * 256 + s[3]
  {
    TwoDigits(s[..2]);
    assert s[..3][..2] == s[..2];
    assert BigEndian(s[..3]) == BigEndian(s[..2]) * 256 + s[2];
  }

  lemma U16IsBigEndian(s: Bytes, n: u16, rest: Bytes)
    ensures ReadU16(s) == Ok((n, rest)) <==> |s| >= 2 && BigEndian(s[..2]) == n && rest == s[2..]
  {
    if |s| >= 2 {
      TwoDigits(s[..2]);
    }
  }

  lemma U32IsBigEndian(s: Bytes, n: u32, rest: Bytes)
    ensures ReadU32(s) == Ok((n, rest)) <==> |s| >= 4 && BigEndian(s[..4]) == n && rest == s[4..]
  {
    if |s| >= 4 {
      FourDigits(s[..4]);
    }
  }

  /** The writers are the inverse: as many bytes as the width, and they denote the number. */
  lemma WritesBigEndian(n: u16, m: u32)
    ensures |EncodeU16(n)| == 2 && BigEndian(EncodeU16(n)) == n
    ensures |EncodeU32(m)| == 4 && BigEndian(EncodeU32(m)) == m
  {
    U16IsBigEndian(EncodeU16(n) + [], n, []);
    ReadU16Exact(EncodeU16(n) + [], n, []);
    assert (EncodeU16(n) + [])[..2] == EncodeU16(n);
    U32IsBigEndian(EncodeU32(m) + [], m, []);
    ReadU32Exact(EncodeU32(m) + [], m, []);
    assert (EncodeU32(m) + [])[..4] == EncodeU32(m);
  }

  /** A field is a two-byte length and that many bytes. */
  lemma FieldMeans(s: Bytes, field: Bytes, rest: Bytes)
    ensures ReadField(s) == Ok((field, rest))
            <==> |s| >= 2 && BigEndian(s[..2]) == |field| && s == s[..2] + field + rest
  {
    if |s| >= 2 {
      TwoDigits(s[..2]);
      if s == s[..2] + field + rest {
        assert s[2..] == field + rest;
        assert s[2..][..|field|] == field && s[2..][|field|..] == rest;
      }
      if ReadField(s) == Ok((field, rest)) {
        assert s[2..] == field + rest;
        assert s == s[..2] + s[2..];
      }
    }
  }

  // ----- Variable byte integers -----

  /** One to four bytes, all but the last with the high bit; the low bits count from the least significant up. */
  predicate IsVarInt(s: Bytes, n: nat) {
    match |s|
    case 1 => s[0] < 128 && n == s[0]
    case 2 => s[0] >= 128 && s[1] < 128 && n == (s[0] - 128) + s[1] as int * 128
    case 3 =>
      s[0] >= 128 && s[1] >= 128 && s[2] < 128
      && n == (s[0] - 128) + (s[1] - 128) as int * 128 + s[2] as int * 16_384
    case 4 =>
      s[0] >= 128 && s[1] >= 128 && s[2] >= 128 && s[3] < 128
      && n == (s[0] - 128) + (s[1] - 128) as int * 128 + (s[2] - 128) as int * 16_384 + s[3] as int * 2_097_152
    case _ => false
  }

  /** Four bytes that all have the high bit. */
  predicate IsEndless(s: Bytes) {
    |s| >= 4 && s[0] >= 128 && s[1] >= 128 && s[2] >= 128 && s[3] >= 128
  }

  lemma DecodeMeans(s: Bytes)
    ensures forall k: nat, n: nat :: Decode(s) == Value(k, n) <==> k <= |s| && IsVarInt(s[..k], n)
    ensures Decode(s) == Malformed <==> IsEndless(s)
    ensures Decode(s).Insufficient? <==> |s| < 4 && forall i :: 0 <= i < |s| ==> s[i] >= 128
  {
    DecodeCases(s);
    hide Decode;
    forall k: nat, n: nat ensures Decode(s) == Value(k, n) <==> k <= |s| && IsVarInt(s[..k], n) {
    }
  }

  /** One step of the decoder. */
  lemma DecodeStep(s: Bytes, k: nat)
    requires k < 4
    ensures DecodeFrom(s, k)
            == if s == [] then Insufficient(1)
               else if s[0] < 128 then Value(1, s[0])
               else if k == 3 then Malformed
               else if DecodeFrom(s[1..], k + 1).Value? then
                 Value(DecodeFrom(s[1..], k + 1).count + 1, (s[0] - 128) + 128 * DecodeFrom(s[1..], k + 1).value)
               else DecodeFrom(s[1..], k + 1)
  {
  }

  /** The decoder, unrolled. */
  lemma DecodeCases(s: Bytes)
    ensures Decode(s)
            == if s == [] then Insufficient(1)
               else if s[0] < 128 then Value(1, s[0])
               else if |s| == 1 then Insufficient(1)
               else if s[1] < 128 then Value(2, (s[0] - 128) + s[1] as int * 128)
               else if |s| == 2 then Insufficient(1)
               else if s[2] < 128 then Value(3, (s[0] - 128) + (s[1] - 128) as int * 128 + s[2] as int * 16_384)
               else if |s| == 3 then Insufficient(1)
               else if s[3] < 128 then
                 Value(4, (s[0] - 128) + (s[1] - 128) as int * 128 + (s[2] - 128) as int * 16_384
                          + s[3] as int * 2_097_152)
               else Malformed
  {
    assert Decode(s) == DecodeFrom(s, 0);
    hide Decode, DecodeFrom;
    DecodeStep(s, 0);
    if |s| > 0 {
      DecodeStep(s[1..], 1);
      if |s| > 1 {
        assert s[1..][1..] == s[2..];
        DecodeStep(s[2..], 2);
        if |s| > 2 {
          assert s[2..][1..] == s[3..];
          DecodeStep(s[3..], 3);
        }
      }
    }
  }

  // ----- Text -----

  /** A Unicode scalar value: a code point that is no surrogate. */
  predicate IsScalar(c: nat) {
    c < 0xD800 || 0xE000 <= c < 0x11_0000
  }

  function Utf8Of(c: nat): Bytes
    requires IsScalar(c)
  {
    if c < 0x80 then [c]
    else if c < 0x800 then [0xC0 + c / 64, 0x80 + c % 64]
    else if c < 0x1_0000 then [0xE0 + c / 4096, 0x80 + c / 64 % 64, 0x80 + c % 64]
    else [0xF0 + c / 262144, 0x80 + c / 4096 % 64, 0x80 + c / 64 % 64, 0x80 + c % 64]
  }

  ghost predicate AllScalars(text: seq<nat>) {
    forall i :: 0 <= i < |text| ==> IsScalar(text[i])
  }

  function Utf8(text: seq<nat>): Bytes
    requires AllScalars(text)
  {
    if text == [] then [] else Utf8Of(text[0]) + Utf8(text[1..])
  }

  lemma ScalarWidthOf(c: nat, rest: Bytes)
    requires IsScalar(c)
    ensures ScalarWidth(Utf8Of(c) + rest) == |Utf8Of(c)|
  {
    if c < 0x800 {
    } else if c < 0x1_0000 {
      ThreeBytesOf(c, rest);
    } else {
      FourBytesOf(c, rest);
    }
  }

  lemma ThreeBytesOf(c: nat, rest: Bytes)
    requires IsScalar(c) && 0x800 <= c < 0x1_0000
    ensures ScalarWidth(Utf8Of(c) + rest) == 3
  {
  }

  lemma FourBytesOf(c: nat, rest: Bytes)
    requires 0x1_0000 <= c < 0x11_0000
    ensures ScalarWidth(Utf8Of(c) + rest) == 4
  {
  }

  /** The code point at the head of well-formed text. */
  function ScalarAt(s: Bytes): (c: nat)
    requires ScalarWidth(s) > 0
  {
    match ScalarWidth(s)
    case 1 => s[0]
    case 2 => (s[0] - 0xC0) as int * 64 + (s[1] - 0x80)
    case 3 => (s[0] - 0xE0) as int * 4096 + (s[1] - 0x80) as int * 64 + (s[2] - 0x80)
    case _ =>
      (s[0] - 0xF0) as int * 262144 + (s[1] - 0x80) as int * 4096 + (s[2] - 0x80) as int * 64 + (s[3] - 0x80)
  }

  lemma Base64(high: nat, low: nat)
    requires low < 64
    ensures (high * 64 + low) / 64 == high && (high * 64 + low) % 64 == low
  {
  }

  lemma TwoByteScalar(s: Bytes)
    requires ScalarWidth(s) == 2
    ensures IsScalar(ScalarAt(s)) && Utf8Of(ScalarAt(s)) == s[..2]
  {
    Base64(s[0] - 0xC0, s[1] - 0x80);
  }

  lemma ThreeByteScalar(s: Bytes)
    requires ScalarWidth(s) == 3
    ensures IsScalar(ScalarAt(s)) && Utf8Of(ScalarAt(s)) == s[..3]
  {
    var high: nat, mid: nat, low: nat := s[0] - 0xE0, s[1] - 0x80, s[2] - 0x80;
    var c := ScalarAt(s);
    assert c == (high * 64 + mid) * 64 + low;
    Base64(high * 64 + mid, low);
    Base64(high, mid);
    assert c / 4096 == c / 64 / 64;
  }

  lemma FourByteScalar(s: Bytes)
    requires ScalarWidth(s) == 4
    ensures IsScalar(ScalarAt(s)) && Utf8Of(ScalarAt(s)) == s[..4]
  {
    var a: nat, b: nat, c: nat, d: nat := s[0] - 0xF0, s[1] - 0x80, s[2] - 0x80, s[3] - 0x80;
    var n := ScalarAt(s);
    assert n == ((a * 64 + b) * 64 + c) * 64 + d;
    Base64((a * 64 + b) * 64 + c, d);
    Base64(a * 64 + b, c);
    Base64(a, b);
    assert n / 4096 == n / 64 / 64 && n / 262144 == n / 64 / 64 / 64;
  }

  lemma ScalarIsThere(s: Bytes)
    requires ScalarWidth(s) > 0
    ensures IsScalar(ScalarAt(s)) && Utf8Of(ScalarAt(s)) == s[..ScalarWidth(s)]
  {
    match ScalarWidth(s)
    case 1 =>
    case 2 => TwoByteScalar(s);
    case 3 => ThreeByteScalar(s);
    case _ => FourByteScalar(s);
  }

  /** Exactly the encodings of sequences of scalar values are taken for text. */
  lemma TextIsUtf8(s: Bytes)
    ensures ValidUtf8(s) <==> exists text :: AllScalars(text) && s == Utf8(text)
  {
    hide ValidUtf8, Utf8, AllScalars;
    if text :| AllScalars(text) && s == Utf8(text) {
      Utf8IsValid(text);
    }
    if ValidUtf8(s) {
      var text := TextOfBytes(s);
    }
  }

  lemma {:induction false} TextOfBytes(s: Bytes) returns (text: seq<nat>)
    requires ValidUtf8(s)
    ensures AllScalars(text) && s == Utf8(text)
    decreases |s|
  {
    hide ScalarAt, Utf8Of, IsScalar, ScalarWidth, Utf8, AllScalars;
    if s == [] {
      text := [];
      NoText();
    } else {
      var w := ScalarWidth(s);
      var tail := TextOfBytes(s[w..]);
      ScalarIsThere(s);
      text := [ScalarAt(s)] + tail;
      TextCons(ScalarAt(s), tail);
      assert s == s[..w] + s[w..];
    }
  }

  lemma NoText()
    ensures AllScalars([]) && Utf8([]) == []
  {
  }

  lemma TextCons(c: nat, text: seq<nat>)
    requires IsScalar(c) && AllScalars(text)
    ensures AllScalars([c] + text) && Utf8([c] + text) == Utf8Of(c) + Utf8(text)
  {
    hide Utf8Of, IsScalar;
    assert ([c] + text)[1..] == text;
  }

  lemma {:induction false} Utf8IsValid(text: seq<nat>)
    requires AllScalars(text)
    ensures ValidUtf8(Utf8(text))
    decreases |text|
  {
    if text != [] {
      Utf8IsValid(text[1..]);
      ScalarWidthOf(text[0], Utf8(text[1..]));
      assert Utf8(text)[|Utf8Of(text[0])|..] == Utf8(text[1..]);
    }
  }
}
