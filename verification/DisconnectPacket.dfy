/** DISCONNECT: the only packet both written and read with a reason code and properties. */
module DisconnectPacket {
  import opened Wire
  import opened VarInt
  import opened Properties
  import opened PropertyLists
  import opened PropertyValues
  import opened Framing

  const REASON_CODES: set<byte> := {
    0x00, 0x04, 0x80, 0x81, 0x82, 0x83, 0x87, 0x89, 0x8B, 0x8D, 0x8E, 0x8F, 0x90, 0x93, 0x94, 0x95, 0x96, 0x97, 0x98,
    0x99, 0x9A, 0x9B, 0x9C, 0x9D, 0x9E, 0x9F, 0xA0, 0xA1, 0xA2
  }

  /** `DisconnectReasonCode`, by its wire value. */
  type ReasonCode = b: byte | b in REASON_CODES witness 0

  const NORMAL: ReasonCode := 0x00

  datatype DisconnectProperties = DisconnectProperties(
    sessionExpiryInterval: Option<u32>,
    reasonString: Option<Bytes>,
    userProperties: seq<(Bytes, Bytes)>,
    serverReference: Option<Bytes>)

  datatype Disconnect = DisconnectV4 | DisconnectV5(reason: ReasonCode, properties: Option<DisconnectProperties>)

  const NO_PROPERTIES := DisconnectProperties(None, None, [], None)

  const DISCONNECT_PROPERTIES: set<byte> := {SESSION_EXPIRY_INTERVAL, REASON_STRING, USER_PROPERTY, SERVER_REFERENCE}

  function Items(p: DisconnectProperties): seq<Item> {
    U32Item(SESSION_EXPIRY_INTERVAL, p.sessionExpiryInterval) + TextItem(REASON_STRING, p.reasonString)
    + UserItems(p.userProperties) + TextItem(SERVER_REFERENCE, p.serverReference)
  }

  function Apply(p: DisconnectProperties, it: Item): DisconnectProperties {
    match it.value
    case U32Value(n) => p.(sessionExpiryInterval := Some(n))
    case TextValue(t) => if it.prop == REASON_STRING then p.(reasonString := Some(t)) else p.(serverReference := Some(t))
    case PairValue(key, val) => p.(userProperties := p.userProperties + [(key, val)])
    case _ => p
  }

  function Fold(p: DisconnectProperties, items: seq<Item>): DisconnectProperties {
    FoldLeft(Apply, p, items)
  }

  // ----- Writing -----

  /** `DisconnectProperties::len` */
  method PropertiesLen(p: DisconnectProperties) returns (len: nat)
    ensures len == Declared(Items(p))
  {
    len := 0;
    if p.sessionExpiryInterval.Some? { len := len + 1 + 4; }
    if p.reasonString.Some? { len := len + 1 + 2 + |p.reasonString.value|; }
    var usersLen := UsersLen(p.userProperties);
    len := len + usersLen;
    if p.serverReference.Some? { len := len + 1 + 2 + |p.serverReference.value|; }
    var a, b := U32Item(SESSION_EXPIRY_INTERVAL, p.sessionExpiryInterval), TextItem(REASON_STRING, p.reasonString);
    var c, d := UserItems(p.userProperties), TextItem(SERVER_REFERENCE, p.serverReference);
    hide Declared;
    DeclaredSplit(a + b + c, d);
    DeclaredSplit(a + b, c);
    DeclaredSplit(a, b);
    DeclaredOption(a);
    DeclaredOption(b);
    DeclaredOption(d);
  }

  /** `DisconnectProperties::write` */
  method WriteProperties(p: DisconnectProperties, buffer: BytesMut)
    modifies buffer
    ensures buffer.data == old(buffer.data) + WriteBlock(Items(p))
  {
    hide Declared, EncodeItems, EncodeItem;
    var len := PropertiesLen(p);
    var _ := WriteRemainingLength(buffer, len);
    ghost var start := buffer.data;
    ghost var done := NoItems(start);
    done := WriteOption(U32Item(SESSION_EXPIRY_INTERVAL, p.sessionExpiryInterval), buffer, start, done);
    done := WriteOption(TextItem(REASON_STRING, p.reasonString), buffer, start, done);
    done := WriteUsers(p.userProperties, buffer, start, done);
    done := WriteOption(TextItem(SERVER_REFERENCE, p.serverReference), buffer, start, done);
    assert done == Items(p);
  }

  /** `Disconnect::len`; the value 2 doubles as the mark of the short form. */
  function Len(d: Disconnect): nat {
    match d
    case DisconnectV4 => 2
    case DisconnectV5(reason, properties) =>
      if reason == NORMAL && properties.None? then 2
      else if properties.None? then 1
      else 1 + LenLen(Declared(Items(properties.value))) + Declared(Items(properties.value))
  }

  function Frame(d: Disconnect): Bytes {
    if d.DisconnectV4? || Len(d) == 2 then [0xE0, 0x00]
    else
      [0xE0] + Encode(Len(d))
      + ([d.reason] + if d.properties.None? then Encode(0) else WriteBlock(Items(d.properties.value)))
  }

  /** `Disconnect::write` */
  method WriteDisconnect(d: Disconnect, buffer: BytesMut) returns (written: nat)
    modifies buffer
    ensures buffer.data == old(buffer.data) + Frame(d)
    ensures written == if Len(d) == 2 then 2 else 1 + |Encode(Len(d))| + Len(d)
  {
    hide Encode, WriteBlock, Items;
    ghost var start := buffer.data;
    match d {
      case DisconnectV4 =>
        buffer.PutU8(0xE0);
        buffer.PutU8(0x00);
        written := 2;
      case DisconnectV5(reason, properties) =>
        buffer.PutU8(0xE0);
        var length := Len(d);
        hide Len;
        if length == 2 {
          buffer.PutU8(0x00);
          return length;
        }
        var lenLen := WriteRemainingLength(buffer, length);
        ghost var head := [0xE0] + Encode(length);
        assert buffer.data == start + head;
        buffer.PutU8(reason);
        if properties.Some? {
          WriteProperties(properties.value, buffer);
        } else {
          var _ := WriteRemainingLength(buffer, 0);
        }
        ghost var block := if properties.None? then Encode(0) else WriteBlock(Items(properties.value));
        assert buffer.data == start + head + [reason] + block;
        assert start + head + [reason] + block == start + (head + ([reason] + block));
        written := 1 + lenLen + length;
    }
  }

  // ----- Reading -----

  function ReadProperties(s: Bytes): Result<Option<DisconnectProperties>> {
    var (items, _) :- ReadBlock(DISCONNECT_PROPERTIES, s);
    Ok(if items.None? then None else Some(Fold(NO_PROPERTIES, items.value)))
  }

  function ReadReason(b: byte): Result<ReasonCode> {
    if b in REASON_CODES then Ok(b) else Err(InvalidConnectReturnCode(b))
  }

  /** `Disconnect::read`. In MQTT 3.1.1 nothing after the header is looked at. */
  function ReadDisconnect(h: FixedHeader, frame: Bytes, protocol: Protocol): Result<Disconnect>
    requires h.fixedHeaderLen <= |frame|
  {
    if h.byte1 / 16 != 14 then Err(InvalidPacketType(h.byte1 / 16))
    else if h.byte1 % 16 != 0 then Err(MalformedPacket)
    else if protocol.V4? then Ok(DisconnectV4)
    else if h.remainingLen == 0 then Ok(DisconnectV5(NORMAL, None))
    else
      var (b, rest) :- ReadU8(frame[h.fixedHeaderLen..]);
      var reason :- ReadReason(b);
      var properties :- ReadProperties(rest);
      Ok(DisconnectV5(reason, properties))
  }

  method GetDisconnect(h: FixedHeader, frame: Bytes, protocol: Protocol) returns (r: Result<Disconnect>)
    requires h.fixedHeaderLen <= |frame|
    ensures r == ReadDisconnect(h, frame, protocol)
  {
    var bytes := new Reader(frame);
    bytes.Advance(h.fixedHeaderLen);
    if h.byte1 / 16 != 14 {
      return Err(InvalidPacketType(h.byte1 / 16));
    }
    if h.byte1 % 16 != 0 {
      return Err(MalformedPacket);
    }
    match protocol {
      case V4 => return Ok(DisconnectV4);
      case V5 =>
        if h.remainingLen == 0 {
          return Ok(DisconnectV5(NORMAL, None));
        }
        var b :- bytes.GetU8();
        var reason :- ReadReason(b);
        var items :- bytes.GetBlock(DISCONNECT_PROPERTIES);
        return Ok(DisconnectV5(reason, if items.None? then None else Some(Fold(NO_PROPERTIES, items.value))));
    }
  }

  // ----- The property record -----

  predicate Valid(p: DisconnectProperties) {
    && (p.reasonString.Some? ==> FitsText(p.reasonString.value))
    && (forall i :: 0 <= i < |p.userProperties| ==> FitsText(p.userProperties[i].0) && FitsText(p.userProperties[i].1))
    && (p.serverReference.Some? ==> FitsText(p.serverReference.value))
  }

  function Size(p: DisconnectProperties): nat {
    Count(p.sessionExpiryInterval) + Count(p.reasonString) + |p.userProperties| + Count(p.serverReference)
  }

  lemma {:induction false} FoldUsers(p: DisconnectProperties, users: seq<(Bytes, Bytes)>)
    ensures Fold(p, UserItems(users)) == p.(userProperties := p.userProperties + users)
    decreases |users|
  {
    if users == [] {
      assert p.userProperties + users == p.userProperties;
    } else {
      FoldUsers(p.(userProperties := p.userProperties + [users[0]]), users[1..]);
      assert p.userProperties + [users[0]] + users[1..] == p.userProperties + users;
    }
  }

  lemma FoldOptions(p: DisconnectProperties, q: DisconnectProperties)
    ensures Fold(p, U32Item(SESSION_EXPIRY_INTERVAL, q.sessionExpiryInterval))
            == if q.sessionExpiryInterval.None? then p else p.(sessionExpiryInterval := q.sessionExpiryInterval)
    ensures Fold(p, TextItem(REASON_STRING, q.reasonString))
            == if q.reasonString.None? then p else p.(reasonString := q.reasonString)
    ensures Fold(p, TextItem(SERVER_REFERENCE, q.serverReference))
            == if q.serverReference.None? then p else p.(serverReference := q.serverReference)
  {
    FoldLeftOne(Apply, p, U32Item(SESSION_EXPIRY_INTERVAL, q.sessionExpiryInterval));
    FoldLeftOne(Apply, p, TextItem(REASON_STRING, q.reasonString));
    FoldLeftOne(Apply, p, TextItem(SERVER_REFERENCE, q.serverReference));
    hide FoldLeft;
  }

  lemma FoldItems(p: DisconnectProperties)
    ensures Fold(NO_PROPERTIES, Items(p)) == p
  {
    var a, b := U32Item(SESSION_EXPIRY_INTERVAL, p.sessionExpiryInterval), TextItem(REASON_STRING, p.reasonString);
    var c, d := UserItems(p.userProperties), TextItem(SERVER_REFERENCE, p.serverReference);
    hide FoldLeft, U32Item, TextItem;
    FoldLeftSplit(Apply, NO_PROPERTIES, a + b + c, d);
    FoldLeftSplit(Apply, NO_PROPERTIES, a + b, c);
    FoldLeftSplit(Apply, NO_PROPERTIES, a, b);
    var p1 := NO_PROPERTIES.(sessionExpiryInterval := p.sessionExpiryInterval);
    var p2 := p1.(reasonString := p.reasonString);
    FoldOptions(NO_PROPERTIES, p);
    assert Fold(NO_PROPERTIES, a) == p1;
    FoldOptions(p1, p);
    assert Fold(p1, b) == p2;
    FoldUsers(p2, p.userProperties);
    assert [] + p.userProperties == p.userProperties;
    FoldOptions(p2.(userProperties := p.userProperties), p);
  }

  lemma ValidItems(p: DisconnectProperties)
    requires Valid(p)
    ensures forall i :: 0 <= i < |Items(p)| ==> Readable(DISCONNECT_PROPERTIES, Items(p)[i])
  {
    hide ValidUtf8;
    forall i | 0 <= i < |p.userProperties| ensures Readable(DISCONNECT_PROPERTIES, UserItems(p.userProperties)[i]) {
      UserItemAt(p.userProperties, i);
    }
  }

  lemma {:induction false} FoldValid(p: DisconnectProperties, items: seq<Item>)
    requires Valid(p)
    requires forall i :: 0 <= i < |items| ==> Readable(DISCONNECT_PROPERTIES, items[i])
    ensures Valid(Fold(p, items))
    ensures items != [] || Size(p) > 0 ==> Size(Fold(p, items)) > 0
    decreases |items|
  {
    hide ValidUtf8;
    if items != [] {
      assert Readable(DISCONNECT_PROPERTIES, items[0]);
      forall i | 0 <= i < |items[1..]| ensures Readable(DISCONNECT_PROPERTIES, items[1..][i]) {
        assert items[1..][i] == items[i + 1];
      }
      FoldValid(Apply(p, items[0]), items[1..]);
    }
  }

  // ----- What the record says, by the numbers of the identifiers -----

  ghost predicate DisconnectHolds(p: DisconnectProperties, items: seq<Item>) {
    && p.sessionExpiryInterval == U32Of(LastOf(items, 17))
    && p.serverReference == TextOf(LastOf(items, 28))
    && p.reasonString == TextOf(LastOf(items, 31))
    && p.userProperties == PairsOf(items)
  }

  predicate DisconnectTyped(it: Item) {
    && (it.value.U32Value? <==> it.prop == 17) && (it.value.TextValue? <==> it.prop == 28 || it.prop == 31)
    && (it.value.PairValue? <==> it.prop == 38)
  }

  lemma DisconnectReadable(it: Item)
    requires Readable(DISCONNECT_PROPERTIES, it)
    ensures DisconnectTyped(it)
  {
    hide ValidValue;
  }

  lemma ApplyHolds(p: DisconnectProperties, items: seq<Item>)
    requires items != [] && DisconnectTyped(items[|items| - 1]) && DisconnectHolds(p, items[..|items| - 1])
    ensures DisconnectHolds(Apply(p, items[|items| - 1]), items)
  {
    LastOfSnoc(items);
    hide LastOf, PairsOf, IdentifiersOf;
    assert p.userProperties + [] == p.userProperties;
  }

  lemma {:induction false} FoldMeans(items: seq<Item>)
    requires Accepted(DISCONNECT_PROPERTIES, items)
    ensures DisconnectHolds(Fold(NO_PROPERTIES, items), items)
    decreases |items|
  {
    if items != [] {
      hide DisconnectHolds, Apply, FoldLeft, Readable, DisconnectTyped;
      FoldMeans(items[..|items| - 1]);
      FoldLeftSnoc(Apply, NO_PROPERTIES, items);
      DisconnectReadable(items[|items| - 1]);
      ApplyHolds(Fold(NO_PROPERTIES, items[..|items| - 1]), items);
    }
  }

  /** Whatever bytes a record is read from, it is the one that their items spell out. */
  lemma PropertiesMean(s: Bytes)
    requires ReadProperties(s).Ok?
    ensures ReadBlock({17, 28, 31, 38}, s).Ok?
    ensures var items, record := ReadBlock({17, 28, 31, 38}, s).value.0, ReadProperties(s).value;
            if items.None? then record.None? else record.Some? && DisconnectHolds(record.value, items.value)
  {
    assert DISCONNECT_PROPERTIES == {17, 28, 31, 38};
    hide ReadBlock, DisconnectHolds, Readable;
    var (items, _) := ReadBlock(DISCONNECT_PROPERTIES, s).value;
    if items.Some? {
      ReadBlockReadable(DISCONNECT_PROPERTIES, s);
      FoldMeans(items.value);
    }
  }

  lemma WrittenMeans(p: DisconnectProperties)
    requires Valid(p)
    ensures DisconnectHolds(p, Items(p))
  {
    hide Items, DisconnectHolds, Valid, FoldLeft;
    ValidItems(p);
    FoldItems(p);
    FoldMeans(Items(p));
  }

  lemma ReadBackValid(s: Bytes, p: DisconnectProperties)
    requires ReadProperties(s) == Ok(Some(p))
    ensures Valid(p) && Size(p) > 0
  {
    ReadBlockReadable(DISCONNECT_PROPERTIES, s);
    FoldValid(NO_PROPERTIES, ReadBlock(DISCONNECT_PROPERTIES, s).value.0.value);
  }

  lemma SizeOfItems(p: DisconnectProperties)
    ensures |Items(p)| == Size(p)
    ensures Size(p) == 0 <==> Declared(Items(p)) == 0
  {
  }

  lemma ReadWrittenProperties(p: DisconnectProperties)
    requires Valid(p) && Size(p) > 0 && Declared(Items(p)) <= MAX_VAR_INT
    ensures ReadProperties(WriteBlock(Items(p))) == Ok(Some(p))
    ensures Declared(Items(p)) == |EncodeItems(Items(p))|
  {
    hide Items, Readable, FoldLeft, EncodeItem, EncodeItems, Declared, ReadBlock, Size;
    ValidItems(p);
    SizeOfItems(p);
    FoldItems(p);
    var items := Items(p);
    WrittenLength(p);
    ReadWrittenBlock(DISCONNECT_PROPERTIES, items, []);
    assert EncodeBlock(items) + [] == WriteBlock(items);
  }

  // ----- Write, then read -----

  /**
   What reads back: the normal disconnection without properties, and any reason with at least one property. Another
   reason without properties announces one byte less than it writes; an empty property record has the length that
   marks the short form, so its reason is dropped.
   */
  predicate Transmittable(d: Disconnect) {
    d.DisconnectV5? && if d.properties.None? then d.reason == NORMAL
                       else Size(d.properties.value) > 0 && Valid(d.properties.value) && Len(d) <= MAX_VAR_INT
  }

  /** A DISCONNECT declares exactly the bytes it writes, unless it has a reason to give and no properties. */
  lemma DeclaresWhatItWrites(d: Disconnect, rest: Bytes)
    requires Len(d) <= MAX_VAR_INT
    ensures SplitHead(Frame(d) + rest).Whole? ==>
              (SplitHead(Frame(d) + rest).rest == rest
               <==> !(d.DisconnectV5? && d.reason != NORMAL && d.properties.None?))
    ensures SplitHead(Frame(d) + rest).Whole?
  {
    FrameHead(d, rest);
  }

  /** Where the splitter cuts a written DISCONNECT. */
  lemma FrameHead(d: Disconnect, rest: Bytes)
    requires Len(d) <= MAX_VAR_INT
    ensures SplitHead(Frame(d) + rest)
            == if d.DisconnectV4? || Len(d) == 2 then Whole(FixedHeader(0xE0, 2, 0), [0xE0, 0x00], rest)
               else if d.properties.None? then
                 Whole(FixedHeader(0xE0, 2, 1), [0xE0 as byte, 1, d.reason], Encode(0) + rest)
               else Whole(FixedHeader(0xE0, 1 + |Encode(Len(d))|, Len(d)), Frame(d), rest)
    ensures d.DisconnectV5? && d.properties.Some? && Len(d) != 2 ==>
              Len(d) == |[d.reason] + WriteBlock(Items(d.properties.value))|
  {
    hide WriteBlock, Items, Declared, LenLen, SplitHead;
    if d.DisconnectV4? || Len(d) == 2 {
      BareHead(rest);
    } else if d.properties.None? {
      ReasonHead(d.reason, rest);
    } else {
      LongForm(d);
      SplitFrameOf(0xE0, [d.reason] + WriteBlock(Items(d.properties.value)), rest);
    }
  }

  lemma BareHead(rest: Bytes)
    ensures SplitHead([0xE0, 0x00] + rest) == Whole(FixedHeader(0xE0, 2, 0), [0xE0, 0x00], rest)
  {
    hide SplitHead;
    SplitDeclared(0xE0, 0, rest);
    assert [0xE0, 0x00] + rest == [0xE0] + Encode(0) + rest;
    assert rest[..0] == [] && rest[0..] == rest;
    assert [0xE0] + Encode(0) + [] == [0xE0, 0x00];
  }

  /** Without properties the length announced is 1, and the property length that follows is not part of the frame. */
  lemma ReasonHead(reason: byte, rest: Bytes)
    ensures SplitHead([0xE0] + Encode(1) + ([reason] + Encode(0)) + rest)
            == Whole(FixedHeader(0xE0, 2, 1), [0xE0, 1, reason], Encode(0) + rest)
  {
    hide SplitHead;
    var s := [reason] + Encode(0) + rest;
    SplitDeclared(0xE0, 1, s);
    assert [0xE0] + Encode(1) + ([reason] + Encode(0)) + rest == [0xE0] + Encode(1) + s;
    assert s[..1] == [reason] && s[1..] == Encode(0) + rest;
  }

  lemma LongForm(d: Disconnect)
    requires d.DisconnectV5? && d.properties.Some? && Len(d) != 2 && Len(d) <= MAX_VAR_INT
    ensures var body := [d.reason] + WriteBlock(Items(d.properties.value));
            Len(d) == |body| && Frame(d) == FrameOf(0xE0, body)
  {
    hide Items, EncodeItems, Declared, Encode;
    WrittenLength(d.properties.value);
    WidthIsLenLen(Declared(Items(d.properties.value)));
  }

  /** With no identifiers among the properties the length added up is always the length written. */
  lemma WrittenLength(p: DisconnectProperties)
    ensures Declared(Items(p)) == |EncodeItems(Items(p))|
  {
    forall i | 0 <= i < |p.userProperties| ensures !UserItems(p.userProperties)[i].value.VarIntValue? {
      UserItemAt(p.userProperties, i);
    }
    DeclaredIsWritten(Items(p));
  }

  /** Split off a stream and read, a written DISCONNECT comes back exactly when it is Transmittable. */
  lemma DisconnectRoundTrip(d: Disconnect, rest: Bytes)
    ensures (var head := SplitHead(Frame(d) + rest);
             head.Whole? && ReadDisconnect(head.header, head.frame, V5) == Ok(d) && head.rest == rest)
            <==> Transmittable(d)
  {
    hide Encode, WriteBlock, Items, Declared, SplitHead, Valid, ReadProperties, Size;
    var head := SplitHead(Frame(d) + rest);
    if Len(d) > MAX_VAR_INT {
      var body := [d.reason] + WriteBlock(Items(d.properties.value)) + rest;
      assert Frame(d) + rest == [0xE0] + Encode(Len(d)) + body;
      SplitDeclared(0xE0, Len(d), body);
    } else {
      FrameHead(d, rest);
      if d.DisconnectV4? || Len(d) == 2 {
        if d.DisconnectV5? && d.properties.Some? {
          SizeOfItems(d.properties.value);
        }
      } else if d.properties.None? {
        BareReason(d.reason);
      } else {
        ReadBackWithProperties(d, head.header);
      }
    }
  }

  lemma BareReason(reason: ReasonCode)
    ensures ReadDisconnect(FixedHeader(0xE0, 2, 1), [0xE0 as byte, 1, reason], V5) == Err(InsufficientBytes(1))
  {
    assert [0xE0 as byte, 1, reason][2..] == [reason] && [reason][1..] == [];
  }

  lemma ReadBackWithProperties(d: Disconnect, h: FixedHeader)
    requires d.DisconnectV5? && d.properties.Some? && Len(d) != 2 && Len(d) <= MAX_VAR_INT
    requires h == FixedHeader(0xE0, 1 + |Encode(Len(d))|, Len(d))
    ensures ReadDisconnect(h, Frame(d), V5) == Ok(d) <==> Size(d.properties.value) > 0 && Valid(d.properties.value)
  {
    var p := d.properties.value;
    SizeOfItems(p);
    hide Items, Declared, EncodeItems, Valid, ReadProperties, Size, Encode, WriteBlock;
    assert Frame(d)[h.fixedHeaderLen..] == [d.reason] + WriteBlock(Items(p));
    assert ([d.reason] + WriteBlock(Items(p)))[1..] == WriteBlock(Items(p));
    if Size(p) > 0 && Valid(p) {
      ReadWrittenProperties(p);
    }
    if ReadDisconnect(h, Frame(d), V5) == Ok(d) {
      ReadBackValid(WriteBlock(Items(p)), p);
    }
  }

  lemma FirstByte(d: Disconnect, rest: Bytes)
    ensures SplitHead(Frame(d) + rest).Whole? ==> SplitHead(Frame(d) + rest).header.byte1 == 0xE0
  {
    hide Encode, WriteBlock;
  }
}
