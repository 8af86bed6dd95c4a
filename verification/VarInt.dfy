/** The variable byte integer of section 1.5.5 of MQTT 5.0 (remaining length in section 2.2.3 of MQTT 3.1.1). */
module VarInt {
  import opened Wire

  const MAX_VAR_INT: nat := 268_435_455

  /** The value read and the number of bytes it took, or one of the two header errors. */
  datatype Header = Value(count: nat, value: nat) | Insufficient(missing: nat) | Malformed

  // ----- Specification -----

  function Encode(n: nat): (s: Bytes)
    ensures |s| > 0
  {
    if n < 128 then [n] else [n % 128 + 128] + Encode(n / 128)
  }

  /** Reads an integer of which k bytes are already behind. */
  function DecodeFrom(s: Bytes, k: nat): (h: Header)
    requires k < 4
    ensures h.Value? ==> 0 < h.count <= |s| && h.count + k <= 4
    decreases 4 - k
  {
    if s == [] then Insufficient(1)
    else if s[0] < 128 then Value(1, s[0])
    else if k == 3 then Malformed
    else match DecodeFrom(s[1..], k + 1)
      case Value(count, value) => Value(count + 1, s[0] % 128 + 128 * value)
      case other => other
  }

  function Decode(s: Bytes): (h: Header) {
    DecodeFrom(s, 0)
  }

  /** `length(...)?` with the header error turned into a packet error. */
  function ReadVarInt(s: Bytes): (r: Parsed<nat>)
    ensures r.Ok? ==> |r.value.1| < |s|
  {
    match Decode(s)
    case Value(count, value) => Ok((value, s[count..]))
    case Insufficient(missing) => Err(InsufficientBytes(missing))
    case Malformed => Err(MalformedRemainingLength)
  }

  /** `len_len`: the precomputed width, which caps at four bytes. */
  function LenLen(n: nat): nat {
    if n >= 2_097_152 then 4 else if n >= 16_384 then 3 else if n >= 128 then 2 else 1
  }

  // ----- The loops of the source -----

  /** The value of k continued bytes already read, whose sum is len, followed by h. */
  ghost function Resume(k: nat, len: nat, h: Header): Header {
    match h
    case Value(count, value) => Value(k + count, len + Pow128(k) * value)
    case other => other
  }

  function Pow128(k: nat): (p: nat)
    ensures p > 0
  {
    if k == 0 then 1 else 128 * Pow128(k - 1)
  }

  method Length(stream: Bytes) returns (h: Header)
    ensures h == Decode(stream)
  {
    var len: nat, lenLen: nat, scale: nat, done := 0, 0, 1, false;
    while lenLen < |stream| && !done
      invariant lenLen <= |stream|
      invariant !done ==> lenLen < 4 && scale == Pow128(lenLen)
      invariant !done ==> Decode(stream) == Resume(lenLen, len, DecodeFrom(stream[lenLen..], lenLen))
      invariant done ==> Decode(stream) == Value(lenLen, len)
      decreases |stream| - lenLen, !done
    {
      var b: int := stream[lenLen];
      assert stream[lenLen..][1..] == stream[lenLen + 1..];
      ResumeStep(stream[lenLen..], lenLen, len);
      lenLen := lenLen + 1;
      len := len + b % 128 * scale;
      done := b < 128;
      if !done {
        scale := scale * 128;
        if lenLen > 3 {
          return Malformed;
        }
      }
    }
    if !done {
      return Insufficient(1);
    }
    return Value(lenLen, len);
  }

  lemma ResumeStep(tail: Bytes, k: nat, len: nat)
    requires tail != [] && k < 4
    ensures tail[0] < 128 ==>
              Resume(k, len, DecodeFrom(tail, k)) == Value(k + 1, len + tail[0] % 128 * Pow128(k))
    ensures tail[0] >= 128 && k == 3 ==> Resume(k, len, DecodeFrom(tail, k)) == Malformed
    ensures tail[0] >= 128 && k < 3 ==>
              Resume(k, len, DecodeFrom(tail, k))
              == Resume(k + 1, len + tail[0] % 128 * Pow128(k), DecodeFrom(tail[1..], k + 1))
  {
    var p := Pow128(k);
    if tail[0] >= 128 && k < 3 {
      match DecodeFrom(tail[1..], k + 1)
      case Value(count, value) =>
        assert p * (tail[0] % 128 + 128 * value) == tail[0] % 128 * p + 128 * p * value;
      case other =>
    }
  }

  /** Appends n to the buffer and returns the number of bytes written. */
  method WriteRemainingLength(buffer: BytesMut, n: nat) returns (count: nat)
    modifies buffer
    ensures buffer.data == old(buffer.data) + Encode(n)
    ensures count == |Encode(n)|
  {
    var done, x := false, n;
    count := 0;
    while !done
      invariant done ==> buffer.data == old(buffer.data) + Encode(n) && count == |Encode(n)|
      invariant !done ==> buffer.data + Encode(x) == old(buffer.data) + Encode(n)
      invariant !done ==> count + |Encode(x)| == |Encode(n)|
      decreases !done, x
    {
      var b := x % 128;
      ghost var before, head := buffer.data, x;
      x := x / 128;
      if x > 0 {
        b := b + 128;
      }
      buffer.PutU8(b);
      count := count + 1;
      done := x == 0;
      if done {
        assert Encode(head) == [b];
      } else {
        assert before + ([b] + Encode(x)) == before + [b] + Encode(x);
      }
    }
  }

  // ----- Round trip, minimality, stability -----

  /** Every integer that four bytes can hold reads back; any larger one is rejected as malformed. */
  lemma DecodeEncode(n: nat, rest: Bytes)
    ensures n <= MAX_VAR_INT ==> Decode(Encode(n) + rest) == Value(|Encode(n)|, n)
    ensures n > MAX_VAR_INT ==> Decode(Encode(n) + rest) == Malformed
  {
    DecodeEncodeFrom(n, rest, 0);
  }

  function Capacity(k: nat): nat {
    match k
    case 0 => 268_435_456
    case 1 => 2_097_152
    case 2 => 16_384
    case _ => 128
  }

  lemma {:induction false} DecodeEncodeFrom(n: nat, rest: Bytes, k: nat)
    requires k < 4
    ensures DecodeFrom(Encode(n) + rest, k) == if n < Capacity(k) then Value(|Encode(n)|, n) else Malformed
    decreases 4 - k
  {
    if n >= 128 && k < 3 {
      DecodeEncodeFrom(n / 128, rest, k + 1);
      assert (Encode(n) + rest)[1..] == Encode(n / 128) + rest;
    }
  }

  /** The precomputed width is the width written, for every encodable integer and for no other. */
  lemma WidthIsLenLen(n: nat)
    ensures |Encode(n)| == LenLen(n) <==> n <= MAX_VAR_INT
    ensures n > MAX_VAR_INT ==> |Encode(n)| > 4
  {
    if n >= 128 {
      assert |Encode(n)| == 1 + |Encode(n / 128)|;
      if n / 128 >= 128 {
        assert |Encode(n / 128)| == 1 + |Encode(n / 128 / 128)|;
        if n / 128 / 128 >= 128 {
          assert |Encode(n / 128 / 128)| == 1 + |Encode(n / 128 / 128 / 128)|;
        }
      }
    }
  }

  /** No byte string shorter than the one written denotes the same integer. */
  lemma {:induction false} EncodeMinimal(s: Bytes, k: nat)
    requires k < 4 && DecodeFrom(s, k).Value?
    ensures DecodeFrom(s, k).count >= |Encode(DecodeFrom(s, k).value)|
    ensures DecodeFrom(s, k).value < Capacity(k)
    decreases 4 - k
  {
    if s[0] >= 128 {
      EncodeMinimal(s[1..], k + 1);
      WidthOfDigits(s[0] % 128, DecodeFrom(s[1..], k + 1).value);
      assert DecodeFrom(s, k).value == s[0] % 128 + 128 * DecodeFrom(s[1..], k + 1).value;
      hide Encode;
    }
  }

  lemma WidthOfDigits(low: nat, high: nat)
    requires low < 128
    ensures |Encode(low + 128 * high)| <= 1 + |Encode(high)|
  {
    assert (low + 128 * high) / 128 == high;
  }

  /** A verdict other than "more bytes needed" never changes when bytes follow. */
  lemma {:induction false} DecodeStable(s: Bytes, t: Bytes, k: nat)
    requires k < 4 && !DecodeFrom(s, k).Insufficient?
    ensures DecodeFrom(s + t, k) == DecodeFrom(s, k)
    decreases 4 - k
  {
    if s[0] >= 128 && k < 3 {
      DecodeStable(s[1..], t, k + 1);
      assert (s + t)[1..] == s[1..] + t;
    }
  }
}
