/** Bytes, fixed-width integers and length-prefixed strings: what every packet reader and writer shares. */
module Wire {
  type byte = b: int | 0 <= b < 0x100
  type u16 = n: int | 0 <= n < 0x1_0000
  type u32 = n: int | 0 <= n < 0x1_0000_0000

  /** A Rust `Bytes`, `Vec<u8>` or `String`: a `String` is one for which ValidUtf8 holds. */
  type Bytes = seq<byte>

  datatype Protocol = V4 | V5

  datatype Option<+T> = None | Some(value: T)

  datatype ParseError =
    | IncorrectPacketFormat
    | InvalidConnectReturnCode(code: byte)
    | InvalidPacketType(packetType: byte)
    | InvalidPropertyType(prop: byte)
    | InvalidQoS(qos: byte)
    | InvalidSubscribeReasonCode(code: byte)
    | TopicNotUtf8
    | BoundaryCrossed(promised: nat)
    | MalformedPacket
    | InsufficientBytes(missing: nat)
    | MalformedRemainingLength

  datatype Result<+T> = Ok(value: T) | Err(error: ParseError) {
    predicate IsFailure() {
      Err?
    }

    function PropagateFailure<U>(): Result<U>
      requires Err?
    {
      Err(error)
    }

    function Extract(): T
      requires Ok?
    {
      value
    }
  }

  /** What a reader returns: the value and the bytes it has not consumed. */
  type Parsed<+T> = Result<(T, Bytes)>

  // ----- UTF-8 (the check behind `String::from_utf8`) -----

  predicate Continuation(b: byte) {
    0x80 <= b < 0xC0
  }

  /** Width of the well-formed scalar at the head of s, 0 when there is none. */
  function ScalarWidth(s: Bytes): (w: nat)
    ensures w <= |s|
  {
    if s == [] then 0
    else if s[0] < 0x80 then 1
    else if 0xC2 <= s[0] < 0xE0 && |s| >= 2 && Continuation(s[1]) then 2
    else if 0xE0 <= s[0] < 0xF0 && |s| >= 3 && Continuation(s[1]) && Continuation(s[2])
            && (s[0] == 0xE0 ==> s[1] >= 0xA0) && (s[0] == 0xED ==> s[1] < 0xA0) then 3
    else if 0xF0 <= s[0] < 0xF5 && |s| >= 4 && Continuation(s[1]) && Continuation(s[2]) && Continuation(s[3])
            && (s[0] == 0xF0 ==> s[1] >= 0x90) && (s[0] == 0xF4 ==> s[1] < 0x90) then 4
    else 0
  }

  predicate ValidUtf8(s: Bytes)
    decreases |s|
  {
    s == [] || (ScalarWidth(s) > 0 && ValidUtf8(s[ScalarWidth(s)..]))
  }

  /** Chunks of bytes, put together. */
  function Flatten(chunks: seq<Bytes>): Bytes {
    if chunks == [] then [] else chunks[0] + Flatten(chunks[1..])
  }

  // ----- Writers -----

  function EncodeU16(n: u16): Bytes {
    [n / 0x100, n % 0x100]
  }

  function EncodeU32(n: u32): Bytes {
    [n / 0x100 / 0x100 / 0x100, n / 0x100 / 0x100 % 0x100, n / 0x100 % 0x100, n % 0x100]
  }

  /** A length-prefixed field. The length is cast to 16 bits, as the writer does. */
  function EncodeField(s: Bytes): Bytes {
    EncodeU16(|s| % 0x1_0000) + s
  }

  // ----- Readers -----

  function ReadU8(s: Bytes): Parsed<byte> {
    if s == [] then Err(MalformedPacket) else Ok((s[0], s[1..]))
  }

  function ReadU16(s: Bytes): Parsed<u16> {
    if |s| < 2 then Err(MalformedPacket) else Ok((s[0] as int * 0x100 + s[1], s[2..]))
  }

  function ReadU32(s: Bytes): Parsed<u32> {
    if |s| < 4 then Err(MalformedPacket)
    else Ok((((s[0] as int * 0x100 + s[1]) * 0x100 + s[2]) * 0x100 + s[3], s[4..]))
  }

  function ReadField(s: Bytes): Parsed<Bytes> {
    var (n, rest) :- ReadU16(s);
    if n > |rest| then Err(BoundaryCrossed(n)) else Ok((rest[..n], rest[n..]))
  }

  function ReadText(s: Bytes): Parsed<Bytes> {
    var (text, rest) :- ReadField(s);
    if ValidUtf8(text) then Ok((text, rest)) else Err(TopicNotUtf8)
  }

  /** The growable buffer that packet writers append to. */
  class BytesMut {
    var data: Bytes

    constructor ()
      ensures data == []
    {
      data := [];
    }

    method PutU8(b: byte)
      modifies this
      ensures data == old(data) + [b]
    {
      data := data + [b];
    }

    method PutU16(n: u16)
      modifies this
      ensures data == old(data) + EncodeU16(n)
    {
      data := data + [n / 0x100, n % 0x100];
    }

    method PutU32(n: u32)
      modifies this
      ensures data == old(data) + EncodeU32(n)
    {
      data := data + [n / 0x100 / 0x100 / 0x100, n / 0x100 / 0x100 % 0x100, n / 0x100 % 0x100, n % 0x100];
    }

    method Extend(s: Bytes)
      modifies this
      ensures data == old(data) + s
    {
      data := data + s;
    }

    /** `write_mqtt_bytes` and `write_mqtt_string`. */
    method WriteField(s: Bytes)
      modifies this
      ensures data == old(data) + EncodeField(s)
    {
      PutU16(|s| % 0x1_0000);
      Extend(s);
    }

    /** Removes and returns the first n bytes. */
    method SplitTo(n: nat) returns (head: Bytes)
      requires n <= |data|
      modifies this
      ensures head == old(data)[..n] && data == old(data)[n..]
    {
      head := data[..n];
      data := data[n..];
    }
  }

  // ----- Each reader inverts its writer, and accepts nothing else -----

  predicate FitsField(s: Bytes) {
    |s| < 0x1_0000
  }

  predicate FitsText(s: Bytes) {
    FitsField(s) && ValidUtf8(s)
  }

  lemma ReadU16Exact(s: Bytes, n: u16, rest: Bytes)
    ensures ReadU16(s) == Ok((n, rest)) <==> s == EncodeU16(n) + rest
  {
    if ReadU16(s) == Ok((n, rest)) {
      assert s == [s[0], s[1]] + s[2..];
    }
    if s == EncodeU16(n) + rest {
      assert s[2..] == rest;
    }
  }

  lemma U32Digits(a: byte, b: byte, c: byte, d: byte)
    ensures var n: u32 := ((a as int * 0x100 + b) * 0x100 + c) * 0x100 + d; EncodeU32(n) == [a, b, c, d]
  {
    var n: int := ((a as int * 0x100 + b) * 0x100 + c) * 0x100 + d;
    assert n / 0x100 == (a as int * 0x100 + b) * 0x100 + c && n % 0x100 == d;
    assert n / 0x100 / 0x100 == a as int * 0x100 + b && n / 0x100 % 0x100 == c;
  }

  lemma ReadEncodedU32(n: u32, rest: Bytes)
    ensures ReadU32(EncodeU32(n) + rest) == Ok((n, rest))
  {
    var s := EncodeU32(n) + rest;
    assert s[4..] == rest;
    var h := n / 0x100;
    assert n == h * 0x100 + n % 0x100 && h == h / 0x100 * 0x100 + h % 0x100;
  }

  lemma ReadU32Exact(s: Bytes, n: u32, rest: Bytes)
    ensures ReadU32(s) == Ok((n, rest)) <==> s == EncodeU32(n) + rest
  {
    if ReadU32(s) == Ok((n, rest)) {
      U32Digits(s[0], s[1], s[2], s[3]);
      hide EncodeU32;
      assert s == [s[0], s[1], s[2], s[3]] + s[4..];
    } else if s == EncodeU32(n) + rest {
      ReadEncodedU32(n, rest);
    }
  }

  /** A field survives writing and reading exactly when its length fits the 16-bit prefix. */
  lemma ReadFieldExact(s: Bytes, field: Bytes, rest: Bytes)
    ensures ReadField(s) == Ok((field, rest)) <==> FitsField(field) && s == EncodeField(field) + rest
  {
    if ReadField(s) == Ok((field, rest)) {
      FieldWasWritten(s, field, rest);
    } else if FitsField(field) && s == EncodeField(field) + rest {
      ReadEncodedField(field, rest);
    }
  }

  lemma FieldWasWritten(s: Bytes, field: Bytes, rest: Bytes)
    requires ReadField(s) == Ok((field, rest))
    ensures FitsField(field) && s == EncodeField(field) + rest
  {
    hide EncodeU16;
    var tail := s[2..];
    assert ReadU16(s) == Ok((|field|, tail));
    ReadU16Exact(s, |field|, tail);
    assert tail == field + rest;
    hide ReadU16, ReadField;
    assert EncodeU16(|field|) + (field + rest) == EncodeU16(|field|) + field + rest;
  }

  lemma ReadEncodedField(field: Bytes, rest: Bytes)
    requires FitsField(field)
    ensures ReadField(EncodeField(field) + rest) == Ok((field, rest))
  {
    hide EncodeU16, ReadU16;
    var s, tail := EncodeField(field) + rest, field + rest;
    assert s == EncodeU16(|field|) + tail;
    ReadU16Exact(s, |field|, tail);
    assert tail[..|field|] == field && tail[|field|..] == rest;
  }

  lemma ReadTextExact(s: Bytes, text: Bytes, rest: Bytes)
    ensures ReadText(s) == Ok((text, rest)) <==> FitsText(text) && s == EncodeField(text) + rest
  {
    ReadFieldExact(s, text, rest);
  }
}
