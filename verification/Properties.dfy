/**
 The MQTT 5.0 property block: a length, then (identifier, value) items.
 Every packet's property reader is the same loop over a `cursor`; they differ in the identifiers they accept and
 in the record they fill. The loop is modelled once, over the set of accepted identifiers, and returns the items.
 */
module Properties {
  import opened Wire
  import opened VarInt

  const PAYLOAD_FORMAT_INDICATOR: byte := 1
  const MESSAGE_EXPIRY_INTERVAL: byte := 2
  const CONTENT_TYPE: byte := 3
  const RESPONSE_TOPIC: byte := 8
  const CORRELATION_DATA: byte := 9
  const SUBSCRIPTION_IDENTIFIER: byte := 11
  const SESSION_EXPIRY_INTERVAL: byte := 17
  const WILL_DELAY_INTERVAL: byte := 24
  const SERVER_REFERENCE: byte := 28
  const REASON_STRING: byte := 31
  const TOPIC_ALIAS: byte := 35
  const USER_PROPERTY: byte := 38

  datatype Shape = OneByte | TwoBytes | FourBytes | Text | Binary | TextPair | VariableInt

  datatype Value =
    | ByteValue(b: byte)
    | U16Value(half: u16)
    | U32Value(word: u32)
    | TextValue(text: Bytes)
    | BinaryValue(data: Bytes)
    | PairValue(key: Bytes, val: Bytes)
    | VarIntValue(n: nat)

  datatype Item = Item(prop: byte, value: Value)

  /** `property(num)`, together with the type of value the readers take for it. */
  function ShapeOf(prop: byte): Option<Shape> {
    match prop
    case 1 | 23 | 25 | 36 | 37 | 40 | 41 | 42 => Some(OneByte)
    case 19 | 33 | 34 | 35 => Some(TwoBytes)
    case 2 | 17 | 24 | 39 => Some(FourBytes)
    case 3 | 8 | 18 | 21 | 26 | 28 | 31 => Some(Text)
    case 9 | 22 => Some(Binary)
    case 38 => Some(TextPair)
    case 11 => Some(VariableInt)
    case _ => None
  }

  // ----- Writing -----

  function EncodeValue(v: Value): Bytes {
    match v
    case ByteValue(b) => [b]
    case U16Value(n) => EncodeU16(n)
    case U32Value(n) => EncodeU32(n)
    case TextValue(s) => EncodeField(s)
    case BinaryValue(s) => EncodeField(s)
    case PairValue(key, val) => EncodeField(key) + EncodeField(val)
    case VarIntValue(n) => Encode(n)
  }

  function EncodeItem(it: Item): (s: Bytes)
    ensures |s| >= 2
  {
    [it.prop] + EncodeValue(it.value)
  }

  function EncodeItems(items: seq<Item>): Bytes {
    if items == [] then [] else EncodeItem(items[0]) + EncodeItems(items[1..])
  }

  /** Values a read can produce: UTF-8 text, fields of at most 65535 bytes, integers of at most four bytes. */
  predicate ValidValue(v: Value) {
    match v
    case TextValue(s) => FitsText(s)
    case BinaryValue(s) => FitsField(s)
    case PairValue(key, val) => FitsText(key) && FitsText(val)
    case VarIntValue(n) => n <= MAX_VAR_INT
    case _ => true
  }

  predicate HasShape(v: Value, shape: Shape) {
    match shape
    case OneByte => v.ByteValue?
    case TwoBytes => v.U16Value?
    case FourBytes => v.U32Value?
    case Text => v.TextValue?
    case Binary => v.BinaryValue?
    case TextPair => v.PairValue?
    case VariableInt => v.VarIntValue?
  }

  predicate Readable(accepted: set<byte>, it: Item) {
    it.prop in accepted && ShapeOf(it.prop).Some? && HasShape(it.value, ShapeOf(it.prop).value) && ValidValue(it.value)
  }

  lemma EncodeOne(it: Item)
    ensures EncodeItems([it]) == EncodeItem(it)
  {
    hide EncodeItem;
    assert [it][1..] == [];
    assert EncodeItem(it) + [] == EncodeItem(it);
  }

  /** Appends one property to a buffer that holds the encoding of the items done so far. */
  method WriteNext(it: Item, buffer: BytesMut, ghost start: Bytes, ghost done: seq<Item>)
    returns (ghost more: seq<Item>)
    requires buffer.data == start + EncodeItems(done)
    modifies buffer
    ensures more == done + [it]
    ensures buffer.data == start + EncodeItems(more)
  {
    hide EncodeItems, EncodeItem;
    WriteItem(it, buffer);
    more := done + [it];
    EncodeItemsSplit(done, [it]);
    EncodeOne(it);
  }

  method WriteItem(it: Item, buffer: BytesMut)
    modifies buffer
    ensures buffer.data == old(buffer.data) + EncodeItem(it)
  {
    hide Encode;
    buffer.PutU8(it.prop);
    match it.value {
      case ByteValue(b) => buffer.PutU8(b);
      case U16Value(n) => buffer.PutU16(n);
      case U32Value(n) => buffer.PutU32(n);
      case TextValue(s) => buffer.WriteField(s);
      case BinaryValue(s) => buffer.WriteField(s);
      case PairValue(key, val) =>
        buffer.WriteField(key);
        buffer.WriteField(val);
      case VarIntValue(n) =>
        var _ := WriteRemainingLength(buffer, n);
    }
  }

  // ----- Reading -----

  function ReadValue(shape: Shape, s: Bytes): Parsed<Value> {
    match shape
    case OneByte => var (b, rest) :- ReadU8(s); Ok((ByteValue(b), rest))
    case TwoBytes => var (n, rest) :- ReadU16(s); Ok((U16Value(n), rest))
    case FourBytes => var (n, rest) :- ReadU32(s); Ok((U32Value(n), rest))
    case Text => var (t, rest) :- ReadText(s); Ok((TextValue(t), rest))
    case Binary => var (d, rest) :- ReadField(s); Ok((BinaryValue(d), rest))
    case TextPair =>
      var (key, rest) :- ReadText(s);
      var (val, rest) :- ReadText(rest);
      Ok((PairValue(key, val), rest))
    case VariableInt => var (n, rest) :- ReadVarInt(s); Ok((VarIntValue(n), rest))
  }

  function ReadItem(accepted: set<byte>, s: Bytes): (r: Parsed<Item>)
    ensures r.Ok? ==> |r.value.1| < |s|
  {
    var (prop, rest) :- ReadU8(s);
    if prop !in accepted || ShapeOf(prop).None? then Err(InvalidPropertyType(prop))
    else
      var (v, rest) :- ReadValue(ShapeOf(prop).value, rest);
      Ok((Item(prop, v), rest))
  }

  /** How far the cursor runs ahead of the bytes: the subscription identifier is counted one byte too long. */
  function Drift(it: Item): nat {
    if it.prop == SUBSCRIPTION_IDENTIFIER then 1 else 0
  }

  function ReadItems(accepted: set<byte>, declared: nat, s: Bytes, cursor: nat): (r: Parsed<seq<Item>>)
    decreases |s|
  {
    if cursor >= declared then Ok(([], s))
    else
      var (it, rest) :- ReadItem(accepted, s);
      var (items, end) :- ReadItems(accepted, declared, rest, cursor + (|s| - |rest|) + Drift(it));
      Ok(([it] + items, end))
  }

  /** The whole block: an empty one reads as None. */
  function ReadBlock(accepted: set<byte>, s: Bytes): Parsed<Option<seq<Item>>> {
    var (declared, rest) :- ReadVarInt(s);
    if declared == 0 then Ok((None, rest))
    else
      var (items, rest) :- ReadItems(accepted, declared, rest, 0);
      Ok((Some(items), rest))
  }

  function EncodeBlock(items: seq<Item>): Bytes {
    Encode(|EncodeItems(items)|) + EncodeItems(items)
  }

  // ----- The reader as the loop it is -----

  /** The step result and the bytes left by an in-place read agree with a reader function. */
  ghost predicate Agrees<T>(spec: Parsed<T>, r: Result<T>, rest: Bytes) {
    match spec
    case Ok((value, end)) => r == Ok(value) && rest == end
    case Err(error) => r == Err(error)
  }

  /** A Rust `Bytes` being consumed. What is left after a failed read is never looked at again. */
  class Reader {
    var rest: Bytes

    constructor (s: Bytes)
      ensures rest == s
    {
      rest := s;
    }

    method Advance(n: nat)
      requires n <= |rest|
      modifies this
      ensures rest == old(rest)[n..]
    {
      rest := rest[n..];
    }

    method GetU8() returns (r: Result<byte>)
      modifies this
      ensures Agrees(ReadU8(old(rest)), r, rest)
    {
      if rest == [] {
        return Err(MalformedPacket);
      }
      r := Ok(rest[0]);
      Advance(1);
    }

    method GetU16() returns (r: Result<u16>)
      modifies this
      ensures Agrees(ReadU16(old(rest)), r, rest)
    {
      if |rest| < 2 {
        return Err(MalformedPacket);
      }
      r := Ok(rest[0] as int * 0x100 + rest[1]);
      Advance(2);
    }

    method GetU32() returns (r: Result<u32>)
      modifies this
      ensures Agrees(ReadU32(old(rest)), r, rest)
    {
      if |rest| < 4 {
        return Err(MalformedPacket);
      }
      r := Ok(((rest[0] as int * 0x100 + rest[1]) * 0x100 + rest[2]) * 0x100 + rest[3]);
      Advance(4);
    }

    /** `read_mqtt_bytes` */
    method GetField() returns (r: Result<Bytes>)
      modifies this
      ensures Agrees(ReadField(old(rest)), r, rest)
    {
      var n :- GetU16();
      if n > |rest| {
        return Err(BoundaryCrossed(n));
      }
      r := Ok(rest[..n]);
      Advance(n);
    }

    /** `read_mqtt_string` */
    method GetText() returns (r: Result<Bytes>)
      modifies this
      ensures Agrees(ReadText(old(rest)), r, rest)
    {
      var text :- GetField();
      r := if ValidUtf8(text) then Ok(text) else Err(TopicNotUtf8);
    }

    method GetVarInt() returns (r: Result<nat>, width: nat)
      modifies this
      ensures Agrees(ReadVarInt(old(rest)), r, rest)
      ensures r.Ok? ==> width == |old(rest)| - |rest|
    {
      var h := Length(rest);
      match h {
        case Value(count, value) =>
          Advance(count);
          r, width := Ok(value), count;
        case Insufficient(missing) => r, width := Err(InsufficientBytes(missing)), 0;
        case Malformed => r, width := Err(MalformedRemainingLength), 0;
      }
    }

    /** The value of one property; `advance` is what the source adds to the cursor for it. */
    method GetValue(shape: Shape) returns (r: Result<Value>, advance: nat)
      modifies this
      ensures Agrees(ReadValue(shape, old(rest)), r, rest)
      ensures r.Ok? ==> advance == |old(rest)| - |rest| + if shape.VariableInt? then 1 else 0
    {
      advance := 0;
      match shape {
        case OneByte =>
          var b :- GetU8();
          r, advance := Ok(ByteValue(b)), 1;
        case TwoBytes =>
          var n :- GetU16();
          r, advance := Ok(U16Value(n)), 2;
        case FourBytes =>
          var n :- GetU32();
          r, advance := Ok(U32Value(n)), 4;
        case Text =>
          var t :- GetText();
          r, advance := Ok(TextValue(t)), 2 + |t|;
        case Binary =>
          var d :- GetField();
          r, advance := Ok(BinaryValue(d)), 2 + |d|;
        case TextPair =>
          var key :- GetText();
          var val :- GetText();
          r, advance := Ok(PairValue(key, val)), 2 + |key| + 2 + |val|;
        case VariableInt =>
          var n, width := GetVarInt();
          if n.Err? {
            return Err(n.error), 0;
          }
          r, advance := Ok(VarIntValue(n.value)), 1 + width;
      }
    }

    /** One turn of the property loop; `advance` is what the turn adds to the cursor. */
    method GetItem(accepted: set<byte>) returns (r: Result<Item>, advance: nat)
      modifies this
      ensures Agrees(ReadItem(accepted, old(rest)), r, rest)
      ensures r.Ok? ==> advance == |old(rest)| - |rest| + Drift(r.value)
    {
      hide ReadValue;
      advance := 1;
      var prop :- GetU8();
      var shape := ShapeOf(prop);
      if prop !in accepted || shape.None? {
        return Err(InvalidPropertyType(prop)), 0;
      }
      var v, width := GetValue(shape.value);
      if v.Err? {
        return Err(v.error), 0;
      }
      r, advance := Ok(Item(prop, v.value)), advance + width;
    }

    /** The property readers: `length`, then the cursor loop. */
    method GetBlock(accepted: set<byte>) returns (r: Result<Option<seq<Item>>>)
      modifies this
      ensures Agrees(ReadBlock(accepted, old(rest)), r, rest)
    {
      hide ReadItem;
      var n, _ := GetVarInt();
      var declared :- n;
      if declared == 0 {
        return Ok(None);
      }
      var cursor, items := 0, [];
      ghost var start := rest;
      ghost var all := ReadItems(accepted, declared, rest, 0);
      assert all.Ok? ==> [] + all.value.0 == all.value.0;
      while cursor < declared
        invariant match ReadItems(accepted, declared, rest, cursor)
                  case Ok((tail, end)) => ReadItems(accepted, declared, start, 0) == Ok((items + tail, end))
                  case Err(error) => ReadItems(accepted, declared, start, 0) == Err(error)
        decreases |rest|
      {
        var it, advance := GetItem(accepted);
        if it.Err? {
          return Err(it.error);
        }
        ghost var more := ReadItems(accepted, declared, rest, cursor + advance);
        assert more.Ok? ==> items + ([it.value] + more.value.0) == items + [it.value] + more.value.0;
        cursor, items := cursor + advance, items + [it.value];
      }
      assert items + [] == items;
      r := Ok(Some(items));
    }
  }

  // ----- One item -----

  lemma ReadValueExact(shape: Shape, s: Bytes, v: Value, rest: Bytes)
    requires shape != VariableInt
    ensures ReadValue(shape, s) == Ok((v, rest))
            <==> HasShape(v, shape) && ValidValue(v) && s == EncodeValue(v) + rest
  {
    match shape
    case OneByte =>
      assert s != [] ==> s == [s[0]] + s[1..];
    case TwoBytes =>
      if v.U16Value? { ReadU16Exact(s, v.half, rest); }
    case FourBytes =>
      if v.U32Value? { ReadU32Exact(s, v.word, rest); }
    case Text =>
      if v.TextValue? { ReadTextExact(s, v.text, rest); }
    case Binary =>
      if v.BinaryValue? { ReadFieldExact(s, v.data, rest); }
    case TextPair =>
      if v.PairValue? { ReadPairExact(s, v.key, v.val, rest); }
  }

  lemma ReadPairExact(s: Bytes, key: Bytes, val: Bytes, rest: Bytes)
    ensures ReadValue(TextPair, s) == Ok((PairValue(key, val), rest))
            <==> FitsText(key) && FitsText(val) && s == EncodeField(key) + EncodeField(val) + rest
  {
    var tail := EncodeField(val) + rest;
    assert EncodeField(key) + EncodeField(val) + rest == EncodeField(key) + tail;
    ReadTextExact(s, key, tail);
    ReadTextExact(tail, val, rest);
    if ReadText(s).Ok? {
      var (k, mid) := ReadText(s).value;
      ReadTextExact(s, k, mid);
      ReadTextExact(mid, val, rest);
    }
  }

  lemma ReadItemExact(accepted: set<byte>, s: Bytes, it: Item, rest: Bytes)
    requires it.prop != SUBSCRIPTION_IDENTIFIER
    ensures ReadItem(accepted, s) == Ok((it, rest)) <==> Readable(accepted, it) && s == EncodeItem(it) + rest
  {
    if s != [] {
      assert s == [s[0]] + s[1..];
      assert EncodeItem(it) + rest == [it.prop] + (EncodeValue(it.value) + rest);
      if s[0] == it.prop && ShapeOf(it.prop).Some? {
        ReadValueExact(ShapeOf(it.prop).value, s[1..], it.value, rest);
      }
      if s == EncodeItem(it) + rest {
        assert s[1..] == EncodeValue(it.value) + rest;
      }
    }
  }

  lemma ReadEncodedItem(accepted: set<byte>, it: Item, rest: Bytes)
    requires Readable(accepted, it)
    ensures ReadItem(accepted, EncodeItem(it) + rest) == Ok((it, rest))
  {
    if it.prop == SUBSCRIPTION_IDENTIFIER {
      var s := EncodeItem(it) + rest;
      assert s[1..] == Encode(it.value.n) + rest;
      DecodeEncode(it.value.n, rest);
      assert s[1..][|Encode(it.value.n)|..] == rest;
    } else {
      ReadItemExact(accepted, EncodeItem(it) + rest, it, rest);
    }
  }

  lemma ReadItemReadable(accepted: set<byte>, s: Bytes)
    requires ReadItem(accepted, s).Ok?
    ensures Readable(accepted, ReadItem(accepted, s).value.0)
  {
    var (it, rest) := ReadItem(accepted, s).value;
    if it.prop == SUBSCRIPTION_IDENTIFIER {
      ReadIdentifierReadable(accepted, s);
    } else {
      hide ReadItem, Readable;
      ReadItemExact(accepted, s, it, rest);
    }
  }

  lemma ReadIdentifierReadable(accepted: set<byte>, s: Bytes)
    requires ReadItem(accepted, s).Ok? && ReadItem(accepted, s).value.0.prop == SUBSCRIPTION_IDENTIFIER
    ensures Readable(accepted, ReadItem(accepted, s).value.0)
  {
    hide DecodeFrom, Encode, ReadText, ReadField, ReadU16, ReadU32;
    assert s[0] == SUBSCRIPTION_IDENTIFIER && ReadVarInt(s[1..]).Ok?;
    EncodeMinimal(s[1..], 0);
  }

  // ----- The loop -----

  function Cost(items: seq<Item>): nat {
    if items == [] then 0 else |EncodeItem(items[0])| + Drift(items[0]) + Cost(items[1..])
  }

  /** How many of the items the loop reads before its cursor reaches the declared length. */
  function Taken(items: seq<Item>, declared: nat, cursor: nat): (m: nat)
    ensures m <= |items|
  {
    if cursor >= declared || items == [] then 0
    else 1 + Taken(items[1..], declared, cursor + |EncodeItem(items[0])| + Drift(items[0]))
  }

  lemma Reassociate<T>(x: seq<T>, y: seq<T>, z: seq<T>)
    ensures x + y + z == x + (y + z)
  {
  }

  lemma {:induction false} EncodeItemsSplit(a: seq<Item>, b: seq<Item>)
    ensures EncodeItems(a + b) == EncodeItems(a) + EncodeItems(b)
    ensures Cost(a + b) == Cost(a) + Cost(b)
  {
    hide EncodeItem, EncodeItems, Cost;
    if a == [] {
      EncodeNoItems();
      assert a + b == b;
    } else {
      EncodeItemsSplit(a[1..], b);
      EncodeItemsCons(a[0], a[1..] + b);
      EncodeItemsCons(a[0], a[1..]);
      assert a == [a[0]] + a[1..];
      assert a + b == [a[0]] + (a[1..] + b);
      Reassociate(EncodeItem(a[0]), EncodeItems(a[1..]), EncodeItems(b));
    }
  }

  lemma EncodeNoItems()
    ensures EncodeItems([]) == [] && Cost([]) == 0
  {
  }

  lemma EncodeItemsCons(it: Item, items: seq<Item>)
    ensures EncodeItems([it] + items) == EncodeItem(it) + EncodeItems(items)
    ensures Cost([it] + items) == |EncodeItem(it)| + Drift(it) + Cost(items)
  {
    hide EncodeItem;
    assert ([it] + items)[1..] == items;
  }

  lemma ReadItemsTurn(accepted: set<byte>, declared: nat, it: Item, rest: Bytes, cursor: nat)
    requires cursor < declared && Readable(accepted, it)
    ensures ReadItems(accepted, declared, EncodeItem(it) + rest, cursor)
            == match ReadItems(accepted, declared, rest, cursor + |EncodeItem(it)| + Drift(it))
               case Ok((items, end)) => Ok(([it] + items, end))
               case Err(error) => Err(error)
  {
    hide ReadItem, EncodeItem, Readable;
    ReadEncodedItem(accepted, it, rest);
  }

  /** On written items the loop reads a prefix of them and leaves the encoding of the others. */
  lemma {:induction false} ReadWrittenItems(accepted: set<byte>, declared: nat, items: seq<Item>, rest: Bytes, cursor: nat)
    requires forall i :: 0 <= i < |items| ==> Readable(accepted, items[i])
    requires cursor + Cost(items) >= declared
    ensures var m := Taken(items, declared, cursor);
            ReadItems(accepted, declared, EncodeItems(items) + rest, cursor)
            == Ok((items[..m], EncodeItems(items[m..]) + rest))
  {
    hide ReadItem, EncodeItem, Readable;
    if cursor >= declared {
      assert items[..0] == [] && items[0..] == items;
    } else {
      var it, others := items[0], items[1..];
      var cursor' := cursor + |EncodeItem(it)| + Drift(it);
      Reassociate(EncodeItem(it), EncodeItems(others), rest);
      ReadItemsTurn(accepted, declared, it, EncodeItems(others) + rest, cursor);
      ReadWrittenItems(accepted, declared, others, rest, cursor');
      var m := Taken(others, declared, cursor');
      assert items[..m + 1] == [it] + others[..m];
      assert items[m + 1..] == others[m..];
    }
  }

  /** The loop reads them all exactly when the cursor is still short before the last one. */
  lemma {:induction false} TakenAll(items: seq<Item>, declared: nat, cursor: nat)
    requires items != []
    ensures Taken(items, declared, cursor) == |items| <==> cursor + Cost(items[..|items| - 1]) < declared
  {
    if |items| > 1 {
      var step := |EncodeItem(items[0])| + Drift(items[0]);
      TakenAll(items[1..], declared, cursor + step);
      assert items[..|items| - 1][1..] == items[1..][..|items| - 2];
    } else {
      assert items[1..] == [];
    }
  }

  /** Whatever the loop accepts is readable, and the cursor it stops at covers the declared length. */
  lemma {:induction false} ReadItemsSound(accepted: set<byte>, declared: nat, s: Bytes, cursor: nat)
    requires ReadItems(accepted, declared, s, cursor).Ok?
    ensures var (items, rest) := ReadItems(accepted, declared, s, cursor).value;
            && (forall i :: 0 <= i < |items| ==> Readable(accepted, items[i]))
            && |rest| <= |s|
            && (SUBSCRIPTION_IDENTIFIER !in accepted ==> s == EncodeItems(items) + rest)
            && (SUBSCRIPTION_IDENTIFIER !in accepted ==> cursor + (|s| - |rest|) >= declared)
            && (SUBSCRIPTION_IDENTIFIER !in accepted && items != [] ==>
                  cursor + Cost(items[..|items| - 1]) < declared)
    decreases |s|
  {
    hide ReadItem, EncodeItem, EncodeItems, Cost, Readable;
    EncodeNoItems();
    if cursor < declared {
      var (it, rest) := ReadItem(accepted, s).value;
      var cursor' := cursor + (|s| - |rest|) + Drift(it);
      ReadItemReadable(accepted, s);
      ReadItemsSound(accepted, declared, rest, cursor');
      var (items, end) := ReadItems(accepted, declared, rest, cursor').value;
      if SUBSCRIPTION_IDENTIFIER !in accepted {
        ReadableIsAccepted(accepted, it);
        ReadItemExact(accepted, s, it, rest);
        EncodeItemsCons(it, items);
        Reassociate(EncodeItem(it), EncodeItems(items), end);
        if items == [] {
          assert ([it] + items)[..|items|] == [];
        } else {
          EncodeItemsCons(it, items[..|items| - 1]);
          assert ([it] + items)[..|items|] == [it] + items[..|items| - 1];
        }
      }
    }
  }

  lemma ReadableIsAccepted(accepted: set<byte>, it: Item)
    requires Readable(accepted, it)
    ensures it.prop in accepted
  {
  }

  lemma {:induction false} CostWithoutDrift(items: seq<Item>)
    requires forall i :: 0 <= i < |items| ==> items[i].prop != SUBSCRIPTION_IDENTIFIER
    ensures Cost(items) == |EncodeItems(items)|
  {
    if items != [] {
      CostWithoutDrift(items[1..]);
    }
  }

  /**
   The language of a reader that does not take subscription identifiers (CONNACK, PUBACK and its kin, SUBACK,
   UNSUBACK, DISCONNECT, the will): it succeeds on exactly the encodings of acceptable items that reach the declared
   length with the last item and not before, so the cursor is the number of bytes consumed.
   */
  lemma ReadItemsLanguage(accepted: set<byte>, declared: nat, s: Bytes, items: seq<Item>, rest: Bytes)
    requires SUBSCRIPTION_IDENTIFIER !in accepted
    ensures ReadItems(accepted, declared, s, 0) == Ok((items, rest))
            <==> && (forall i :: 0 <= i < |items| ==> Readable(accepted, items[i]))
                 && s == EncodeItems(items) + rest
                 && |EncodeItems(items)| >= declared
                 && (items != [] ==> |EncodeItems(items[..|items| - 1])| < declared)
  {
    if ReadItems(accepted, declared, s, 0) == Ok((items, rest)) {
      ReadItemsSound(accepted, declared, s, 0);
      if items != [] {
        CostWithoutDrift(items[..|items| - 1]);
      }
    }
    if && (forall i :: 0 <= i < |items| ==> Readable(accepted, items[i]))
       && s == EncodeItems(items) + rest
       && |EncodeItems(items)| >= declared
       && (items != [] ==> |EncodeItems(items[..|items| - 1])| < declared)
    {
      CostWithoutDrift(items);
      ReadWrittenItems(accepted, declared, items, rest, 0);
      if items != [] {
        CostWithoutDrift(items[..|items| - 1]);
        TakenAll(items, declared, 0);
      }
      assert items[..|items|] == items && items[|items|..] == [];
      assert EncodeItems([]) + rest == rest;
    }
  }

  /** A block whose declared length is n: absent, read by the loop, or rejected. */
  lemma ReadBlockOf(accepted: set<byte>, n: nat, body: Bytes)
    ensures ReadBlock(accepted, Encode(n) + body)
            == if n == 0 then Ok((None, body))
               else if n > MAX_VAR_INT then Err(MalformedRemainingLength)
               else match ReadItems(accepted, n, body, 0)
                    case Ok((items, rest)) => Ok((Some(items), rest))
                    case Err(error) => Err(error)
  {
    hide ReadItems, Encode;
    DecodeEncode(n, body);
    assert (Encode(n) + body)[|Encode(n)|..] == body;
  }

  /** A block of acceptable items reads back, unless it is empty, when it reads as absent. */
  lemma ReadWrittenBlock(accepted: set<byte>, items: seq<Item>, rest: Bytes)
    requires SUBSCRIPTION_IDENTIFIER !in accepted
    requires forall i :: 0 <= i < |items| ==> Readable(accepted, items[i])
    requires |EncodeItems(items)| <= MAX_VAR_INT
    ensures ReadBlock(accepted, EncodeBlock(items) + rest) == Ok((if items == [] then None else Some(items), rest))
  {
    hide EncodeItem, Readable, ReadItems;
    var n, body := |EncodeItems(items)|, EncodeItems(items) + rest;
    Reassociate(Encode(n), EncodeItems(items), rest);
    ReadBlockOf(accepted, n, body);
    if items != [] {
      var last := |items| - 1;
      assert items == items[..last] + [items[last]];
      EncodeItemsSplit(items[..last], [items[last]]);
      EncodeOne(items[last]);
      ReadItemsLanguage(accepted, n, body, items, rest);
    }
  }

  /** Every item of a block that was read is readable. */
  lemma ReadBlockReadable(accepted: set<byte>, s: Bytes)
    requires ReadBlock(accepted, s).Ok? && ReadBlock(accepted, s).value.0.Some?
    ensures var items := ReadBlock(accepted, s).value.0.value;
            items != [] && forall i :: 0 <= i < |items| ==> Readable(accepted, items[i])
  {
    var (declared, rest) := ReadVarInt(s).value;
    ReadItemsSound(accepted, declared, rest, 0);
  }
}
