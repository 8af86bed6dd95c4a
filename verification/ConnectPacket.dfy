/** CONNECT: the tail of will and login, and the flags byte that is patched in after the tail is written. */
module ConnectPacket {
  import opened Wire
  import opened VarInt
  import opened Properties
  import opened PropertyLists
  import opened PropertyValues

  datatype QoS = AtMostOnce | AtLeastOnce | ExactlyOnce

  datatype WillProperties = WillProperties(
    delayInterval: Option<u32>,
    payloadFormatIndicator: Option<byte>,
    messageExpiryInterval: Option<u32>,
    contentType: Option<Bytes>,
    responseTopic: Option<Bytes>,
    correlationData: Option<Bytes>,
    userProperties: seq<(Bytes, Bytes)>)

  datatype LastWill = LastWill(
    topic: Bytes,
    message: Bytes,
    qos: QoS,
    retain: bool,
    properties: Option<WillProperties>)

  datatype Login = Login(username: Bytes, password: Bytes)

  /** A CONNECT as `Connect::new` fills it: no CONNECT properties. */
  datatype Connect = Connect(
    protocol: Protocol,
    keepAlive: u16,
    clientId: Bytes,
    cleanSession: bool,
    lastWill: Option<LastWill>,
    login: Option<Login>)

  // ----- Will properties -----

  const NO_PROPERTIES := WillProperties(None, None, None, None, None, None, [])

  const WILL_PROPERTIES: set<byte> := {
    WILL_DELAY_INTERVAL, PAYLOAD_FORMAT_INDICATOR, MESSAGE_EXPIRY_INTERVAL, CONTENT_TYPE, RESPONSE_TOPIC,
    CORRELATION_DATA, USER_PROPERTY
  }

  function SingleItems(p: WillProperties): seq<Item> {
    U32Item(WILL_DELAY_INTERVAL, p.delayInterval)
    + ByteItem(PAYLOAD_FORMAT_INDICATOR, p.payloadFormatIndicator)
    + U32Item(MESSAGE_EXPIRY_INTERVAL, p.messageExpiryInterval)
    + TextItem(CONTENT_TYPE, p.contentType)
    + TextItem(RESPONSE_TOPIC, p.responseTopic)
    + BinaryItem(CORRELATION_DATA, p.correlationData)
  }

  function Items(p: WillProperties): seq<Item> {
    SingleItems(p) + UserItems(p.userProperties)
  }

  function Apply(p: WillProperties, it: Item): WillProperties {
    match it.value
    case ByteValue(b) => p.(payloadFormatIndicator := Some(b))
    case U32Value(n) =>
      if it.prop == WILL_DELAY_INTERVAL then p.(delayInterval := Some(n)) else p.(messageExpiryInterval := Some(n))
    case TextValue(t) => if it.prop == CONTENT_TYPE then p.(contentType := Some(t)) else p.(responseTopic := Some(t))
    case BinaryValue(d) => p.(correlationData := Some(d))
    case PairValue(key, val) => p.(userProperties := p.userProperties + [(key, val)])
    case _ => p
  }

  function Fold(p: WillProperties, items: seq<Item>): WillProperties {
    FoldLeft(Apply, p, items)
  }

  /** `LastWillProperties::len` */
  method PropertiesLen(p: WillProperties) returns (len: nat)
    ensures len == Declared(Items(p))
  {
    len := 0;
    if p.delayInterval.Some? { len := len + 1 + 4; }
    if p.payloadFormatIndicator.Some? { len := len + 1 + 1; }
    if p.messageExpiryInterval.Some? { len := len + 1 + 4; }
    if p.contentType.Some? { len := len + 1 + 2 + |p.contentType.value|; }
    if p.responseTopic.Some? { len := len + 1 + 2 + |p.responseTopic.value|; }
    if p.correlationData.Some? { len := len + 1 + 2 + |p.correlationData.value|; }
    DeclaredSingles(p);
    hide Declared, SingleItems;
    var usersLen := UsersLen(p.userProperties);
    len := len + usersLen;
    DeclaredSplit(SingleItems(p), UserItems(p.userProperties));
  }

  lemma DeclaredSingles(p: WillProperties)
    ensures Declared(SingleItems(p))
            == (if p.delayInterval.Some? then 5 else 0) + (if p.payloadFormatIndicator.Some? then 2 else 0)
               + (if p.messageExpiryInterval.Some? then 5 else 0)
               + (if p.contentType.Some? then 3 + |p.contentType.value| else 0)
               + (if p.responseTopic.Some? then 3 + |p.responseTopic.value| else 0)
               + (if p.correlationData.Some? then 3 + |p.correlationData.value| else 0)
  {
    var a := U32Item(WILL_DELAY_INTERVAL, p.delayInterval);
    var b := ByteItem(PAYLOAD_FORMAT_INDICATOR, p.payloadFormatIndicator);
    var c, d := U32Item(MESSAGE_EXPIRY_INTERVAL, p.messageExpiryInterval), TextItem(CONTENT_TYPE, p.contentType);
    var e, f := TextItem(RESPONSE_TOPIC, p.responseTopic), BinaryItem(CORRELATION_DATA, p.correlationData);
    DeclaredWord(WILL_DELAY_INTERVAL, p.delayInterval);
    DeclaredByte(PAYLOAD_FORMAT_INDICATOR, p.payloadFormatIndicator);
    DeclaredWord(MESSAGE_EXPIRY_INTERVAL, p.messageExpiryInterval);
    DeclaredText(CONTENT_TYPE, p.contentType);
    DeclaredText(RESPONSE_TOPIC, p.responseTopic);
    DeclaredBinary(CORRELATION_DATA, p.correlationData);
    hide Declared, U32Item, ByteItem, TextItem, BinaryItem;
    DeclaredSplit(a + b + c + d + e, f);
    DeclaredSplit(a + b + c + d, e);
    DeclaredSplit(a + b + c, d);
    DeclaredSplit(a + b, c);
    DeclaredSplit(a, b);
  }

  /** `LastWillProperties::write` */
  method WriteProperties(p: WillProperties, buffer: BytesMut)
    modifies buffer
    ensures buffer.data == old(buffer.data) + WriteBlock(Items(p))
  {
    hide Declared, EncodeItems, EncodeItem;
    var len := PropertiesLen(p);
    var _ := WriteRemainingLength(buffer, len);
    ghost var start := buffer.data;
    ghost var done := WriteSingles(p, buffer, start);
    done := WriteUsers(p.userProperties, buffer, start, done);
    assert done == Items(p);
  }

  method WriteSingles(p: WillProperties, buffer: BytesMut, ghost start: Bytes) returns (ghost done: seq<Item>)
    requires buffer.data == start
    modifies buffer
    ensures done == SingleItems(p)
    ensures buffer.data == start + EncodeItems(done)
  {
    hide EncodeItems, EncodeItem, U32Item, ByteItem, TextItem, BinaryItem;
    done := NoItems(start);
    done := WriteOption(U32Item(WILL_DELAY_INTERVAL, p.delayInterval), buffer, start, done);
    done := WriteOption(ByteItem(PAYLOAD_FORMAT_INDICATOR, p.payloadFormatIndicator), buffer, start, done);
    done := WriteOption(U32Item(MESSAGE_EXPIRY_INTERVAL, p.messageExpiryInterval), buffer, start, done);
    done := WriteOption(TextItem(CONTENT_TYPE, p.contentType), buffer, start, done);
    done := WriteOption(TextItem(RESPONSE_TOPIC, p.responseTopic), buffer, start, done);
    done := WriteOption(BinaryItem(CORRELATION_DATA, p.correlationData), buffer, start, done);
  }

  function ReadProperties(s: Bytes): Parsed<Option<WillProperties>> {
    var (items, rest) :- ReadBlock(WILL_PROPERTIES, s);
    Ok((if items.None? then None else Some(Fold(NO_PROPERTIES, items.value)), rest))
  }

  predicate Valid(p: WillProperties) {
    && (p.contentType.Some? ==> FitsText(p.contentType.value))
    && (p.responseTopic.Some? ==> FitsText(p.responseTopic.value))
    && (p.correlationData.Some? ==> FitsField(p.correlationData.value))
    && (forall i :: 0 <= i < |p.userProperties| ==> FitsText(p.userProperties[i].0) && FitsText(p.userProperties[i].1))
  }

  function Size(p: WillProperties): nat {
    Count(p.delayInterval) + Count(p.payloadFormatIndicator) + Count(p.messageExpiryInterval) + Count(p.contentType)
    + Count(p.responseTopic) + Count(p.correlationData) + |p.userProperties|
  }

  lemma {:induction false} FoldUsers(p: WillProperties, users: seq<(Bytes, Bytes)>)
    ensures Fold(p, UserItems(users)) == p.(userProperties := p.userProperties + users)
    decreases |users|
  {
    if users == [] {
      assert p.userProperties + users == p.userProperties;
    } else {
      FoldUsers(p.(userProperties := p.userProperties + [users[0]]), users[1..]);
      assert p.userProperties + [users[0]] + users[1..] == p.userProperties + users;
    }
  }

  lemma FoldOptions(p: WillProperties, q: WillProperties)
    ensures Fold(p, U32Item(WILL_DELAY_INTERVAL, q.delayInterval))
            == if q.delayInterval.None? then p else p.(delayInterval := q.delayInterval)
    ensures Fold(p, ByteItem(PAYLOAD_FORMAT_INDICATOR, q.payloadFormatIndicator))
            == if q.payloadFormatIndicator.None? then p else p.(payloadFormatIndicator := q.payloadFormatIndicator)
    ensures Fold(p, U32Item(MESSAGE_EXPIRY_INTERVAL, q.messageExpiryInterval))
            == if q.messageExpiryInterval.None? then p else p.(messageExpiryInterval := q.messageExpiryInterval)
  {
    FoldLeftOne(Apply, p, U32Item(WILL_DELAY_INTERVAL, q.delayInterval));
    FoldLeftOne(Apply, p, ByteItem(PAYLOAD_FORMAT_INDICATOR, q.payloadFormatIndicator));
    FoldLeftOne(Apply, p, U32Item(MESSAGE_EXPIRY_INTERVAL, q.messageExpiryInterval));
    hide FoldLeft;
  }

  lemma FoldTextOptions(p: WillProperties, q: WillProperties)
    ensures Fold(p, TextItem(CONTENT_TYPE, q.contentType))
            == if q.contentType.None? then p else p.(contentType := q.contentType)
    ensures Fold(p, TextItem(RESPONSE_TOPIC, q.responseTopic))
            == if q.responseTopic.None? then p else p.(responseTopic := q.responseTopic)
    ensures Fold(p, BinaryItem(CORRELATION_DATA, q.correlationData))
            == if q.correlationData.None? then p else p.(correlationData := q.correlationData)
  {
    FoldLeftOne(Apply, p, TextItem(CONTENT_TYPE, q.contentType));
    FoldLeftOne(Apply, p, TextItem(RESPONSE_TOPIC, q.responseTopic));
    FoldLeftOne(Apply, p, BinaryItem(CORRELATION_DATA, q.correlationData));
    hide FoldLeft;
  }

  lemma FoldItems(p: WillProperties)
    ensures Fold(NO_PROPERTIES, Items(p)) == p
  {
    var a := U32Item(WILL_DELAY_INTERVAL, p.delayInterval);
    var b := ByteItem(PAYLOAD_FORMAT_INDICATOR, p.payloadFormatIndicator);
    var c, d := U32Item(MESSAGE_EXPIRY_INTERVAL, p.messageExpiryInterval), TextItem(CONTENT_TYPE, p.contentType);
    var e, f := TextItem(RESPONSE_TOPIC, p.responseTopic), BinaryItem(CORRELATION_DATA, p.correlationData);
    hide FoldLeft, ByteItem, U32Item, TextItem, BinaryItem;
    FoldLeftSplit(Apply, NO_PROPERTIES, a + b + c + d + e + f, UserItems(p.userProperties));
    FoldLeftSplit(Apply, NO_PROPERTIES, a + b + c + d + e, f);
    FoldLeftSplit(Apply, NO_PROPERTIES, a + b + c + d, e);
    FoldLeftSplit(Apply, NO_PROPERTIES, a + b + c, d);
    FoldLeftSplit(Apply, NO_PROPERTIES, a + b, c);
    FoldLeftSplit(Apply, NO_PROPERTIES, a, b);
    var p1 := NO_PROPERTIES.(delayInterval := p.delayInterval);
    var p2 := p1.(payloadFormatIndicator := p.payloadFormatIndicator);
    var p3 := p2.(messageExpiryInterval := p.messageExpiryInterval);
    var p4 := p3.(contentType := p.contentType);
    var p5 := p4.(responseTopic := p.responseTopic);
    var p6 := p5.(correlationData := p.correlationData);
    FoldOptions(NO_PROPERTIES, p);
    assert Fold(NO_PROPERTIES, a) == p1;
    FoldOptions(p1, p);
    assert Fold(p1, b) == p2;
    FoldOptions(p2, p);
    assert Fold(p2, c) == p3;
    FoldTextOptions(p3, p);
    assert Fold(p3, d) == p4;
    FoldTextOptions(p4, p);
    assert Fold(p4, e) == p5;
    FoldTextOptions(p5, p);
    assert Fold(p5, f) == p6;
    FoldUsers(p6, p.userProperties);
    assert [] + p.userProperties == p.userProperties;
  }

  lemma ValidItems(p: WillProperties)
    requires Valid(p)
    ensures forall i :: 0 <= i < |Items(p)| ==> Readable(WILL_PROPERTIES, Items(p)[i])
  {
    ValidSingles(p);
    hide ValidUtf8, SingleItems, FitsText;
    forall i | 0 <= i < |p.userProperties| ensures Readable(WILL_PROPERTIES, UserItems(p.userProperties)[i]) {
      UserItemAt(p.userProperties, i);
    }
  }

  lemma ValidSingles(p: WillProperties)
    requires Valid(p)
    ensures forall i :: 0 <= i < |SingleItems(p)| ==> Readable(WILL_PROPERTIES, SingleItems(p)[i])
  {
    hide ValidUtf8;
  }

  lemma {:induction false} FoldValid(p: WillProperties, items: seq<Item>)
    requires Valid(p)
    requires forall i :: 0 <= i < |items| ==> Readable(WILL_PROPERTIES, items[i])
    ensures Valid(Fold(p, items))
    ensures items != [] || Size(p) > 0 ==> Size(Fold(p, items)) > 0
    decreases |items|
  {
    hide ValidUtf8, Valid, Size, Apply, Readable;
    if items != [] {
      ApplyValid(p, items[0]);
      forall i | 0 <= i < |items[1..]| ensures Readable(WILL_PROPERTIES, items[1..][i]) {
        assert items[1..][i] == items[i + 1];
      }
      FoldValid(Apply(p, items[0]), items[1..]);
    }
  }

  lemma ApplyValid(p: WillProperties, it: Item)
    requires Valid(p) && Readable(WILL_PROPERTIES, it)
    ensures Valid(Apply(p, it)) && Size(Apply(p, it)) > 0
  {
    hide ValidUtf8;
    match it.value
    case ByteValue(_) =>
    case U16Value(_) =>
    case U32Value(_) =>
    case TextValue(_) =>
    case BinaryValue(_) =>
    case PairValue(_, _) =>
    case VarIntValue(_) =>
  }

  lemma WrittenLength(p: WillProperties)
    ensures Declared(Items(p)) == |EncodeItems(Items(p))|
    ensures Items(p) == [] <==> Size(p) == 0
  {
    forall i | 0 <= i < |p.userProperties| ensures !UserItems(p.userProperties)[i].value.VarIntValue? {
      UserItemAt(p.userProperties, i);
    }
    DeclaredIsWritten(Items(p));
  }

  // ----- What the record says, by the numbers of the identifiers -----

  ghost predicate WillHolds(p: WillProperties, items: seq<Item>) {
    && p.payloadFormatIndicator == ByteOf(LastOf(items, 1))
    && p.messageExpiryInterval == U32Of(LastOf(items, 2))
    && p.contentType == TextOf(LastOf(items, 3))
    && p.responseTopic == TextOf(LastOf(items, 8))
    && p.correlationData == BinaryOf(LastOf(items, 9))
    && p.delayInterval == U32Of(LastOf(items, 24))
    && p.userProperties == PairsOf(items)
  }

  predicate WillTyped(it: Item) {
    && (it.value.ByteValue? <==> it.prop == 1) && (it.value.U32Value? <==> it.prop == 2 || it.prop == 24)
    && (it.value.TextValue? <==> it.prop == 3 || it.prop == 8)
    && (it.value.BinaryValue? <==> it.prop == 9) && (it.value.PairValue? <==> it.prop == 38)
  }

  lemma WillReadable(it: Item)
    requires Readable(WILL_PROPERTIES, it)
    ensures WillTyped(it)
  {
    hide ValidValue;
  }

  lemma ApplyHolds(p: WillProperties, items: seq<Item>)
    requires items != [] && WillTyped(items[|items| - 1]) && WillHolds(p, items[..|items| - 1])
    ensures WillHolds(Apply(p, items[|items| - 1]), items)
  {
    LastOfSnoc(items);
    hide LastOf, PairsOf, IdentifiersOf;
    assert p.userProperties + [] == p.userProperties;
  }

  lemma {:induction false} FoldMeans(items: seq<Item>)
    requires Accepted(WILL_PROPERTIES, items)
    ensures WillHolds(Fold(NO_PROPERTIES, items), items)
    decreases |items|
  {
    if items != [] {
      hide WillHolds, Apply, FoldLeft, Readable, WillTyped;
      FoldMeans(items[..|items| - 1]);
      FoldLeftSnoc(Apply, NO_PROPERTIES, items);
      WillReadable(items[|items| - 1]);
      ApplyHolds(Fold(NO_PROPERTIES, items[..|items| - 1]), items);
    }
  }

  /** Whatever bytes a record is read from, it is the one that their items spell out. */
  lemma PropertiesMean(s: Bytes)
    requires ReadProperties(s).Ok?
    ensures ReadBlock({1, 2, 3, 8, 9, 24, 38}, s).Ok?
    ensures var (items, rest) := ReadBlock({1, 2, 3, 8, 9, 24, 38}, s).value;
            var (record, rest') := ReadProperties(s).value;
            rest' == rest && if items.None? then record.None? else record.Some? && WillHolds(record.value, items.value)
  {
    assert WILL_PROPERTIES == {1, 2, 3, 8, 9, 24, 38};
    hide ReadBlock, WillHolds, Readable;
    var (items, _) := ReadBlock(WILL_PROPERTIES, s).value;
    if items.Some? {
      ReadBlockReadable(WILL_PROPERTIES, s);
      FoldMeans(items.value);
    }
  }

  lemma WrittenMeans(p: WillProperties)
    requires Valid(p)
    ensures WillHolds(p, Items(p))
  {
    hide Items, WillHolds, Valid, FoldLeft;
    ValidItems(p);
    FoldItems(p);
    FoldMeans(Items(p));
  }

  predicate PropertiesSurvive(p: WillProperties) {
    Size(p) > 0 && Valid(p) && Declared(Items(p)) <= MAX_VAR_INT
  }

  /** Will properties read back unless there are none in the record or a field is too long for its prefix. */
  lemma WillPropertiesRoundTrip(p: WillProperties, rest: Bytes)
    ensures var r := ReadProperties(WriteBlock(Items(p)) + rest);
            && (r.Ok? && r.value.0 == Some(p) <==> PropertiesSurvive(p))
            && (PropertiesSurvive(p) ==> r == Ok((Some(p), rest)))
  {
    var items := Items(p);
    WrittenLength(p);
    FoldItems(p);
    var s := WriteBlock(items) + rest;
    hide Items, FoldLeft, Valid, Declared, Readable, EncodeItem, EncodeItems, ReadItems;
    Reassociate(Encode(Declared(items)), EncodeItems(items), rest);
    ReadBlockOf(WILL_PROPERTIES, Declared(items), EncodeItems(items) + rest);
    var r := ReadProperties(s);
    if r.Ok? && r.value.0 == Some(p) {
      ReadBlockReadable(WILL_PROPERTIES, s);
      assert Valid(NO_PROPERTIES) by { EmptyIsValid(); }
      FoldValid(NO_PROPERTIES, ReadBlock(WILL_PROPERTIES, s).value.0.value);
    }
    if PropertiesSurvive(p) {
      ValidItems(p);
      ReadWrittenBlock(WILL_PROPERTIES, items, rest);
    }
  }

  lemma EmptyIsValid()
    ensures Valid(NO_PROPERTIES)
  {
  }

  // ----- The will -----

  function QoSBits(qos: QoS): bv8 {
    match qos
    case AtMostOnce => 0
    case AtLeastOnce => 1 << 3
    case ExactlyOnce => 2 << 3
  }

  function WillFlags(w: LastWill): bv8 {
    0x04 | QoSBits(w.qos) | (if w.retain then 0x20 else 0)
  }

  /** The property length is written in MQTT 3.1.1 as well. */
  function WillBytes(w: LastWill): Bytes {
    (if w.properties.None? then Encode(0) else WriteBlock(Items(w.properties.value)))
    + (EncodeField(w.topic) + EncodeField(w.message))
  }

  function WillLen(w: LastWill): nat {
    (if w.properties.None? then 1
     else LenLen(Declared(Items(w.properties.value))) + Declared(Items(w.properties.value)))
    + 2 + |w.topic| + 2 + |w.message|
  }

  /** `LastWill::write`: appends the will and returns its flags. */
  method WriteWill(w: LastWill, buffer: BytesMut) returns (flags: bv8)
    modifies buffer
    ensures buffer.data == old(buffer.data) + WillBytes(w)
    ensures flags == WillFlags(w)
  {
    hide Encode, WriteBlock, EncodeField;
    flags := 0;
    flags := flags | 0x04 | QoSBits(w.qos);
    if w.retain {
      flags := flags | 0x20;
    }
    if w.properties.Some? {
      WriteProperties(w.properties.value, buffer);
    } else {
      var _ := WriteRemainingLength(buffer, 0);
    }
    buffer.WriteField(w.topic);
    buffer.WriteField(w.message);
  }

  function ReadQoS(flags: bv8): Result<QoS> {
    match (flags & 0x18) >> 3
    case 0 => Ok(AtMostOnce)
    case 1 => Ok(AtLeastOnce)
    case 2 => Ok(ExactlyOnce)
    case n => Err(InvalidQoS(3))
  }

  /** `LastWill::read` */
  function ReadWill(flags: bv8, s: Bytes): Parsed<Option<LastWill>> {
    if flags & 0x04 == 0 then
      if flags & 0x38 != 0 then Err(IncorrectPacketFormat) else Ok((None, s))
    else
      var (properties, s1) :- ReadProperties(s);
      var (topic, s2) :- ReadText(s1);
      var (message, s3) :- ReadField(s2);
      var qos :- ReadQoS(flags);
      Ok((Some(LastWill(topic, message, qos, flags & 0x20 != 0, properties)), s3))
  }

  /** `LastWillProperties::read` */
  method GetWillProperties(bytes: Reader) returns (r: Result<Option<WillProperties>>)
    modifies bytes
    ensures Agrees(ReadProperties(old(bytes.rest)), r, bytes.rest)
  {
    var items :- bytes.GetBlock(WILL_PROPERTIES);
    r := Ok(if items.None? then None else Some(Fold(NO_PROPERTIES, items.value)));
  }

  method GetWill(flags: bv8, bytes: Reader) returns (r: Result<Option<LastWill>>)
    modifies bytes
    ensures Agrees(ReadWill(flags, old(bytes.rest)), r, bytes.rest)
  {
    hide ReadProperties, ReadText, ReadField, ReadQoS;
    if flags & 0x04 == 0 {
      return if flags & 0x38 != 0 then Err(IncorrectPacketFormat) else Ok(None);
    }
    var properties :- GetWillProperties(bytes);
    var topic :- bytes.GetText();
    var message :- bytes.GetField();
    var qos :- ReadQoS(flags);
    r := Ok(Some(LastWill(topic, message, qos, flags & 0x20 != 0, properties)));
  }

  // ----- The login -----

  function LoginFlags(l: Login): bv8 {
    (if l.username == [] then 0 else 0x80) | (if l.password == [] then 0 else 0x40)
  }

  function LoginBytes(l: Login): Bytes {
    (if l.username == [] then [] else EncodeField(l.username))
    + (if l.password == [] then [] else EncodeField(l.password))
  }

  function LoginLen(l: Login): nat {
    (if l.username == [] then 0 else 2 + |l.username|) + (if l.password == [] then 0 else 2 + |l.password|)
  }

  /** `Login::write`: appends the credentials that are not empty and returns their flags. */
  method WriteLogin(l: Login, buffer: BytesMut) returns (flags: bv8)
    modifies buffer
    ensures buffer.data == old(buffer.data) + LoginBytes(l)
    ensures flags == LoginFlags(l)
  {
    flags := 0;
    if l.username != [] {
      flags := flags | 0x80;
      buffer.WriteField(l.username);
    }
    if l.password != [] {
      flags := flags | 0x40;
      buffer.WriteField(l.password);
    }
  }

  function ReadCredential(present: bool, s: Bytes): Parsed<Bytes> {
    if present then ReadText(s) else Ok(([], s))
  }

  /** `Login::read` */
  function ReadLogin(flags: bv8, s: Bytes): Parsed<Option<Login>> {
    var (username, s1) :- ReadCredential(flags & 0x80 != 0, s);
    var (password, s2) :- ReadCredential(flags & 0x40 != 0, s1);
    Ok((if username == [] && password == [] then None else Some(Login(username, password)), s2))
  }

  method GetLogin(flags: bv8, bytes: Reader) returns (r: Result<Option<Login>>)
    modifies bytes
    ensures Agrees(ReadLogin(flags, old(bytes.rest)), r, bytes.rest)
  {
    hide ReadText;
    var username, password := [], [];
    if flags & 0x80 != 0 {
      username :- bytes.GetText();
    }
    if flags & 0x40 != 0 {
      password :- bytes.GetText();
    }
    r := Ok(if username == [] && password == [] then None else Some(Login(username, password)));
  }

  // ----- The packet -----

  const MQTT: Bytes := [77, 81, 84, 84]

  function CleanFlag(c: Connect): bv8 {
    if c.cleanSession then 0x02 else 0
  }

  /** The flags the packet must carry. */
  function Flags(c: Connect): bv8 {
    CleanFlag(c) | WillPart(c) | LoginPart(c)
  }

  function WillPart(c: Connect): bv8 {
    if c.lastWill.None? then 0 else WillFlags(c.lastWill.value)
  }

  function LoginPart(c: Connect): bv8 {
    if c.login.None? then 0 else LoginFlags(c.login.value)
  }

  function Tail(c: Connect): Bytes {
    (if c.lastWill.None? then [] else WillBytes(c.lastWill.value))
    + (if c.login.None? then [] else LoginBytes(c.login.value))
  }

  function Len(c: Connect): nat {
    10 + (if c.protocol.V5? then 1 else 0) + 2 + |c.clientId|
    + (if c.lastWill.None? then 0 else WillLen(c.lastWill.value))
    + (if c.login.None? then 0 else LoginLen(c.login.value))
  }

  /** The body for a given value of the flags byte. */
  function Body(c: Connect, flags: bv8): Bytes {
    EncodeField(MQTT) + [if c.protocol.V4? then 4 else 5] + [flags as byte]
    + (EncodeU16(c.keepAlive) + (if c.protocol.V5? then Encode(0) else []) + EncodeField(c.clientId) + Tail(c))
  }

  function Frame(c: Connect, flags: bv8): Bytes {
    [0x10] + Encode(Len(c)) + Body(c, flags)
  }

  /** Where `write` patches, counted from the start of the whole buffer. */
  function FlagsIndex(c: Connect): nat {
    1 + |Encode(Len(c))| + 2 + 4 + 1
  }

  /** Up to and including the flags byte, and after it. */
  function Start(c: Connect, flags: bv8): Bytes {
    [0x10] + Encode(Len(c)) + EncodeField(MQTT) + [if c.protocol.V4? then 4 else 5] + [flags as byte]
  }

  function Rest(c: Connect): Bytes {
    EncodeU16(c.keepAlive) + (if c.protocol.V5? then Encode(0) else []) + EncodeField(c.clientId) + Tail(c)
  }

  lemma FrameParts(c: Connect, flags: bv8)
    ensures Frame(c, flags) == Start(c, flags) + Rest(c)
  {
    hide Encode, EncodeField, EncodeU16, Len, Tail;
  }

  /** `Connect::write`: the flags byte is written early with the clean-session bit only, and patched at the end. */
  method WriteConnect(c: Connect, buffer: BytesMut) returns (len: nat)
    modifies buffer
    ensures FlagsIndex(c) < |old(buffer.data) + Frame(c, CleanFlag(c))|
    ensures buffer.data == (old(buffer.data) + Frame(c, CleanFlag(c)))[FlagsIndex(c) := Flags(c) as byte]
    ensures len == Len(c)
  {
    hide Encode, Frame, Start, Rest, Len, Flags, CleanFlag;
    ghost var before := buffer.data;
    len := ConnectLen(c);
    var count, flags := WriteStart(c, buffer, len);
    var flagsIndex := 1 + count + 2 + 4 + 1;
    flags := WriteRest(c, buffer, flags);
    assert buffer.data == before + Frame(c, CleanFlag(c)) by {
      FrameParts(c, CleanFlag(c));
      Reassociate(before, Start(c, CleanFlag(c)), Rest(c));
    }
    FrameIsLong(c);
    buffer.data := buffer.data[flagsIndex := flags as byte];
  }

  /** The length added up before anything is written. */
  method ConnectLen(c: Connect) returns (len: nat)
    ensures len == Len(c)
  {
    len := 2 + |MQTT| + 1 + 1 + 2;
    if c.protocol.V5? {
      len := len + 1;
    }
    len := len + 2 + |c.clientId|;
    if c.lastWill.Some? {
      len := len + WillLen(c.lastWill.value);
    }
    if c.login.Some? {
      len := len + LoginLen(c.login.value);
    }
  }

  method WriteStart(c: Connect, buffer: BytesMut, len: nat) returns (count: nat, flags: bv8)
    requires len == Len(c)
    modifies buffer
    ensures buffer.data == old(buffer.data) + Start(c, CleanFlag(c))
    ensures count == |Encode(Len(c))| && flags == CleanFlag(c)
  {
    hide Encode, EncodeField, Len;
    buffer.PutU8(0x10);
    count := WriteRemainingLength(buffer, len);
    buffer.WriteField(MQTT);
    flags := 0;
    if c.cleanSession {
      flags := flags | 0x02;
    }
    buffer.PutU8(if c.protocol.V4? then 4 else 5);
    buffer.PutU8(flags as byte);
  }

  method WriteRest(c: Connect, buffer: BytesMut, flags: bv8) returns (all: bv8)
    requires flags == CleanFlag(c)
    modifies buffer
    ensures buffer.data == old(buffer.data) + Rest(c)
    ensures all == Flags(c)
  {
    hide Encode, EncodeField, Tail, CleanFlag, Flags;
    buffer.PutU16(c.keepAlive);
    if c.protocol.V5? {
      var _ := WriteRemainingLength(buffer, 0);
    }
    buffer.WriteField(c.clientId);
    var will, login := WriteTail(c, buffer);
    all := FlagsUnion(c, flags, will, login);
  }

  method FlagsUnion(c: Connect, clean: bv8, will: bv8, login: bv8) returns (all: bv8)
    requires clean == CleanFlag(c) && will == WillPart(c) && login == LoginPart(c)
    ensures all == Flags(c)
  {
    hide CleanFlag, WillPart, LoginPart;
    all := clean | will | login;
  }

  method WriteTail(c: Connect, buffer: BytesMut) returns (will: bv8, login: bv8)
    modifies buffer
    ensures buffer.data == old(buffer.data) + Tail(c)
    ensures will == WillPart(c) && login == LoginPart(c)
  {
    hide WillBytes, LoginBytes, WillFlags, LoginFlags;
    will, login := 0, 0;
    if c.lastWill.Some? {
      will := WriteWill(c.lastWill.value, buffer);
    }
    if c.login.Some? {
      login := WriteLogin(c.login.value, buffer);
    }
  }

  lemma FrameIsLong(c: Connect)
    ensures |Frame(c, CleanFlag(c))| > FlagsIndex(c)
  {
    hide Encode, Tail, Len;
  }

  /** On an empty buffer, as `Connect::new` starts with, the patch hits the flags byte and nothing else. */
  lemma PatchHitsFlags(c: Connect)
    ensures FlagsIndex(c) < |Frame(c, CleanFlag(c))|
    ensures ([] + Frame(c, CleanFlag(c)))[FlagsIndex(c) := Flags(c) as byte] == Frame(c, Flags(c))
  {
    hide Encode, Tail, Len, Flags, CleanFlag;
    FrameIsLong(c);
  }

  /** Four bytes are enough for the length of the will properties. */
  predicate WillLengthFits(c: Connect) {
    c.lastWill.Some? && c.lastWill.value.properties.Some? ==>
      Declared(Items(c.lastWill.value.properties.value)) <= MAX_VAR_INT
  }

  /** The length added up first is the number of bytes written exactly then; all other fields may be of any length. */
  lemma LenIsWritten(c: Connect, flags: bv8)
    ensures Len(c) == |Body(c, flags)| <==> WillLengthFits(c)
  {
    hide Encode, EncodeItems, Declared, Items;
    assert |Encode(0)| == 1 by { OneByteZero(); }
    if c.lastWill.Some? && c.lastWill.value.properties.Some? {
      var p := c.lastWill.value.properties.value;
      WrittenLength(p);
      WidthIsLenLen(Declared(Items(p)));
    }
  }

  /** A CONNECT whose length four bytes can announce is always of this kind. */
  lemma ShortWillFits(c: Connect)
    requires Len(c) <= MAX_VAR_INT
    ensures WillLengthFits(c)
  {
    hide Encode, EncodeItems, Items;
  }

  lemma OneByteZero()
    ensures |Encode(0)| == 1
  {
  }

  /** Each of the three flag groups can be recovered from the union: their bits are disjoint. */
  lemma FlagsAreDisjoint(c: Connect)
    ensures var f := Flags(c);
            && (f & 0x02 != 0 <==> c.cleanSession)
            && (f & 0x04 != 0 <==> c.lastWill.Some?)
            && (c.lastWill.None? ==> f & 0x38 == 0)
            && (c.lastWill.Some? ==> ReadQoS(f) == Ok(c.lastWill.value.qos))
            && (c.lastWill.Some? ==> (f & 0x20 != 0 <==> c.lastWill.value.retain))
            && (f & 0x80 != 0 <==> c.login.Some? && c.login.value.username != [])
            && (f & 0x40 != 0 <==> c.login.Some? && c.login.value.password != [])
            && f & 0x01 == 0
  {
    if c.lastWill.Some? {
      match c.lastWill.value.qos
      case AtMostOnce =>
      case AtLeastOnce =>
      case ExactlyOnce =>
    }
  }

  // ----- Reading the tail back -----

  predicate WillSurvives(w: LastWill) {
    && FitsText(w.topic) && FitsField(w.message)
    && (w.properties.Some? ==> PropertiesSurvive(w.properties.value))
  }

  /** Empty credentials are not written, so a login with neither reads back as no login. */
  predicate LoginSurvives(l: Login) {
    (l.username != [] || l.password != []) && FitsText(l.username) && FitsText(l.password)
  }

  /** `LastWill::read`, then `Login::read` on what it leaves. */
  function ReadTail(flags: bv8, s: Bytes): Parsed<(Option<LastWill>, Option<Login>)> {
    var (will, s1) :- ReadWill(flags, s);
    var (login, s2) :- ReadLogin(flags, s1);
    Ok(((will, login), s2))
  }

  lemma ReadWillBytes(flags: bv8, w: LastWill, rest: Bytes)
    requires flags & 0x04 != 0 && ReadQoS(flags) == Ok(w.qos) && (flags & 0x20 != 0 <==> w.retain)
    ensures var r := ReadWill(flags, WillBytes(w) + rest);
            && (r.Ok? && r.value.0 == Some(w) <==> WillSurvives(w))
            && (WillSurvives(w) ==> r == Ok((Some(w), rest)))
  {
    hide ReadQoS, ReadProperties, WriteBlock, Items, PropertiesSurvive, ReadBlock, EncodeField, ReadText, ReadField;
    var s := WillBytes(w) + rest;
    var s2 := EncodeField(w.message) + rest;
    var s1 := EncodeField(w.topic) + s2;
    var block := if w.properties.None? then Encode(0) else WriteBlock(Items(w.properties.value));
    assert s == block + s1;
    PropertiesOfWill(w, s1);
    ReadTextExact(s1, w.topic, s2);
    ReadFieldExact(s2, w.message, rest);
    var r := ReadWill(flags, s);
    if r.Ok? && r.value.0 == Some(w) {
      var t2 := ReadText(s1).value.1;
      ReadTextExact(s1, w.topic, t2);
      assert t2 == s1[|EncodeField(w.topic)|..] == s2;
      ReadFieldExact(s2, w.message, ReadField(s2).value.1);
    }
  }

  lemma PropertiesOfWill(w: LastWill, rest: Bytes)
    ensures var block := if w.properties.None? then Encode(0) else WriteBlock(Items(w.properties.value));
            var r := ReadProperties(block + rest);
            var survive := w.properties.Some? ==> PropertiesSurvive(w.properties.value);
            && (r.Ok? && r.value.0 == w.properties <==> survive)
            && (survive ==> r == Ok((w.properties, rest)))
  {
    hide Items, PropertiesSurvive, WriteBlock;
    if w.properties.None? {
      ReadBlockOf(WILL_PROPERTIES, 0, rest);
    } else {
      WillPropertiesRoundTrip(w.properties.value, rest);
    }
  }

  lemma ReadLoginBytes(flags: bv8, login: Option<Login>, rest: Bytes)
    requires flags & 0x80 != 0 <==> login.Some? && login.value.username != []
    requires flags & 0x40 != 0 <==> login.Some? && login.value.password != []
    ensures var bytes := if login.None? then [] else LoginBytes(login.value);
            ReadLogin(flags, bytes + rest) == Ok((login, rest)) <==> (login.Some? ==> LoginSurvives(login.value))
  {
    hide EncodeField, ReadText;
    if login.None? {
      assert [] + rest == rest;
    } else {
      var user, pass := login.value.username, login.value.password;
      var s2 := (if pass == [] then [] else EncodeField(pass)) + rest;
      var s := (if user == [] then [] else EncodeField(user)) + s2;
      assert LoginBytes(login.value) + rest == s;
      assert [] + rest == rest && [] + s2 == s2;
      assert FitsText([]);
      ReadTextExact(s, user, s2);
      ReadTextExact(s2, pass, rest);
      var first, second := ReadCredential(user != [], s), ReadCredential(pass != [], s2);
      assert first == Ok((user, s2)) <==> FitsText(user);
      assert second == Ok((pass, rest)) <==> FitsText(pass);
      if first.Ok? && first.value.0 == user {
        if user != [] {
          ReadTextExact(s, user, first.value.1);
        }
        assert first.value.1 == s[|s| - |s2|..] == s2;
        assert ReadLogin(flags, s)
            == match second
               case Ok((password, end)) =>
                 Ok((if user == [] && password == [] then None else Some(Login(user, password)), end))
               case Err(error) => Err(error);
      }
    }
  }

  /**
   With the flags that are patched in, the tail of a CONNECT reads back to the will and the login written, and
   nothing is left over, exactly when each of them survives on its own.
   */
  lemma TailRoundTrip(c: Connect)
    ensures ReadTail(Flags(c), Tail(c)) == Ok(((c.lastWill, c.login), []))
            <==> && (c.lastWill.Some? ==> WillSurvives(c.lastWill.value))
                 && (c.login.Some? ==> LoginSurvives(c.login.value))
  {
    FlagsAreDisjoint(c);
    hide Flags, ReadTail;
    ReadTailWith(Flags(c), c);
  }

  lemma ReadTailWith(flags: bv8, c: Connect)
    requires flags & 0x04 != 0 <==> c.lastWill.Some?
    requires c.lastWill.None? ==> flags & 0x38 == 0
    requires c.lastWill.Some? ==>
               ReadQoS(flags) == Ok(c.lastWill.value.qos) && (flags & 0x20 != 0 <==> c.lastWill.value.retain)
    requires flags & 0x80 != 0 <==> c.login.Some? && c.login.value.username != []
    requires flags & 0x40 != 0 <==> c.login.Some? && c.login.value.password != []
    ensures ReadTail(flags, Tail(c)) == Ok(((c.lastWill, c.login), []))
            <==> && (c.lastWill.Some? ==> WillSurvives(c.lastWill.value))
                 && (c.login.Some? ==> LoginSurvives(c.login.value))
  {
    hide WillBytes, LoginBytes, ReadQoS, WillSurvives, LoginSurvives, ReadLogin, ReadWill;
    var login := if c.login.None? then [] else LoginBytes(c.login.value);
    assert login + [] == login && [] + login == login;
    ReadLoginBytes(flags, c.login, []);
    if c.lastWill.None? {
      assert Tail(c) == login;
      ReadNoWill(flags, login);
    } else {
      assert Tail(c) == WillBytes(c.lastWill.value) + login;
      ReadWillBytes(flags, c.lastWill.value, login);
    }
    var will, r := ReadWill(flags, Tail(c)), ReadTail(flags, Tail(c));
    if will == Ok((c.lastWill, login)) {
      LoginDecides(c.lastWill, ReadLogin(flags, login), r, c.login);
    }
  }

  /** The tail reads as its will and whatever login follows. */
  lemma LoginDecides(will: Option<LastWill>, login: Parsed<Option<Login>>,
                     tail: Parsed<(Option<LastWill>, Option<Login>)>, l: Option<Login>)
    requires tail == match login
                     case Ok((found, rest)) => Ok(((will, found), rest))
                     case Err(error) => Err(error)
    ensures tail == Ok(((will, l), [])) <==> login == Ok((l, []))
  {
    if tail == Ok(((will, l), [])) {
      assert login.value.0 == l && login.value.1 == [];
    }
  }

  lemma ReadNoWill(flags: bv8, s: Bytes)
    requires flags & 0x04 == 0 && flags & 0x38 == 0
    ensures ReadWill(flags, s) == Ok((None, s))
  {
    hide ReadProperties, ReadText, ReadField, ReadQoS;
  }
}
