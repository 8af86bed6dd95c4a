/** The property records of the packets that acknowledge, as far as a client reads them. */
module AckProps {
  import opened Wire
  import opened Properties
  import opened PropertyLists
  import opened PropertyValues

  const ACK_PROPERTIES: set<byte> := {REASON_STRING, USER_PROPERTY}

  const CONNACK_PROPERTIES: set<byte> := {17, 18, 19, 21, 22, 26, 28, 31, 33, 34, 36, 37, 38, 39, 40, 41, 42}

  /** `PubCommonProperties`, `SubAckProperties` and `UnsubAckProperties` */
  datatype AckProperties = AckProperties(reasonString: Option<Bytes>, userProperties: seq<(Bytes, Bytes)>)

  datatype ConnAckProperties = ConnAckProperties(
    sessionExpiryInterval: Option<u32>,
    receiveMax: Option<u16>,
    maxQos: Option<byte>,
    retainAvailable: Option<byte>,
    maxPacketSize: Option<u32>,
    assignedClientIdentifier: Option<Bytes>,
    topicAliasMax: Option<u16>,
    reasonString: Option<Bytes>,
    userProperties: seq<(Bytes, Bytes)>,
    wildcardSubscriptionAvailable: Option<byte>,
    subscriptionIdentifiersAvailable: Option<byte>,
    sharedSubscriptionAvailable: Option<byte>,
    serverKeepAlive: Option<u16>,
    responseInformation: Option<Bytes>,
    serverReference: Option<Bytes>,
    authenticationMethod: Option<Bytes>,
    authenticationData: Option<Bytes>)

  const NO_ACK_PROPERTIES := AckProperties(None, [])

  const NO_CONNACK_PROPERTIES := ConnAckProperties(
    None, None, None, None, None, None, None, None, [], None, None, None, None, None, None, None, None)

  function ApplyAck(p: AckProperties, it: Item): AckProperties {
    match it.value
    case TextValue(t) => p.(reasonString := Some(t))
    case PairValue(key, val) => p.(userProperties := p.userProperties + [(key, val)])
    case _ => p
  }

  function ApplyConnAck(p: ConnAckProperties, it: Item): ConnAckProperties {
    match it.value
    case ByteValue(b) => ApplyByte(p, it.prop, b)
    case U16Value(n) =>
      if it.prop == 33 then p.(receiveMax := Some(n))
      else if it.prop == TOPIC_ALIAS_MAXIMUM then p.(topicAliasMax := Some(n))
      else p.(serverKeepAlive := Some(n))
    case U32Value(n) =>
      if it.prop == SESSION_EXPIRY_INTERVAL then p.(sessionExpiryInterval := Some(n)) else p.(maxPacketSize := Some(n))
    case TextValue(t) => ApplyText(p, it.prop, t)
    case BinaryValue(d) => p.(authenticationData := Some(d))
    case PairValue(key, val) => p.(userProperties := p.userProperties + [(key, val)])
    case VarIntValue(_) => p
  }

  const TOPIC_ALIAS_MAXIMUM: byte := 34

  function ApplyByte(p: ConnAckProperties, prop: byte, b: byte): ConnAckProperties {
    match prop
    case 36 => p.(maxQos := Some(b))
    case 37 => p.(retainAvailable := Some(b))
    case 40 => p.(wildcardSubscriptionAvailable := Some(b))
    case 41 => p.(subscriptionIdentifiersAvailable := Some(b))
    case _ => p.(sharedSubscriptionAvailable := Some(b))
  }

  function ApplyText(p: ConnAckProperties, prop: byte, t: Bytes): ConnAckProperties {
    match prop
    case 18 => p.(assignedClientIdentifier := Some(t))
    case 21 => p.(authenticationMethod := Some(t))
    case 26 => p.(responseInformation := Some(t))
    case 28 => p.(serverReference := Some(t))
    case _ => p.(reasonString := Some(t))
  }

  function AckRecord(items: seq<Item>): AckProperties {
    FoldLeft(ApplyAck, NO_ACK_PROPERTIES, items)
  }

  function ConnAckRecord(items: seq<Item>): ConnAckProperties {
    FoldLeft(ApplyConnAck, NO_CONNACK_PROPERTIES, items)
  }

  // ----- What the fields of a record mean -----

  ghost predicate AckHolds(p: AckProperties, items: seq<Item>) {
    p == AckProperties(TextOf(LastOf(items, 31)), PairsOf(items))
  }

  ghost predicate FlagsHold(p: ConnAckProperties, items: seq<Item>) {
    && p.maxQos == ByteOf(LastOf(items, 36))
    && p.retainAvailable == ByteOf(LastOf(items, 37))
    && p.wildcardSubscriptionAvailable == ByteOf(LastOf(items, 40))
    && p.subscriptionIdentifiersAvailable == ByteOf(LastOf(items, 41))
    && p.sharedSubscriptionAvailable == ByteOf(LastOf(items, 42))
  }

  ghost predicate NumbersHold(p: ConnAckProperties, items: seq<Item>) {
    && p.sessionExpiryInterval == U32Of(LastOf(items, 17))
    && p.receiveMax == U16Of(LastOf(items, 33))
    && p.maxPacketSize == U32Of(LastOf(items, 39))
    && p.topicAliasMax == U16Of(LastOf(items, 34))
    && p.serverKeepAlive == U16Of(LastOf(items, 19))
  }

  ghost predicate TextsHold(p: ConnAckProperties, items: seq<Item>) {
    && p.assignedClientIdentifier == TextOf(LastOf(items, 18))
    && p.reasonString == TextOf(LastOf(items, 31))
    && p.responseInformation == TextOf(LastOf(items, 26))
    && p.serverReference == TextOf(LastOf(items, 28))
    && p.authenticationMethod == TextOf(LastOf(items, 21))
    && p.authenticationData == BinaryOf(LastOf(items, 22))
    && p.userProperties == PairsOf(items)
  }

  ghost predicate ConnAckHolds(p: ConnAckProperties, items: seq<Item>) {
    FlagsHold(p, items) && NumbersHold(p, items) && TextsHold(p, items)
  }

  lemma ApplyAckHolds(p: AckProperties, items: seq<Item>)
    requires items != [] && Readable(ACK_PROPERTIES, items[|items| - 1]) && AckHolds(p, items[..|items| - 1])
    ensures AckHolds(ApplyAck(p, items[|items| - 1]), items)
  {
    LastOfSnoc(items);
    ReadableIsTyped(ACK_PROPERTIES, items[|items| - 1]);
    hide LastOf, PairsOf, Readable;
    assert p.userProperties + [] == p.userProperties;
  }

  /** The record read from an acknowledgement: the last reason string, and all user properties in their order. */
  lemma {:induction false} AckRecordMeans(items: seq<Item>)
    requires Accepted(ACK_PROPERTIES, items)
    ensures AckHolds(AckRecord(items), items)
    decreases |items|
  {
    if items != [] {
      hide AckHolds, ApplyAck, FoldLeft;
      AckRecordMeans(items[..|items| - 1]);
      FoldLeftSnoc(ApplyAck, NO_ACK_PROPERTIES, items);
      ApplyAckHolds(AckRecord(items[..|items| - 1]), items);
    }
  }

  /** Which properties of a CONNACK carry which kind of value. */
  predicate ConnAckTyped(it: Item) {
    && (it.value.ByteValue? <==> it.prop == 36 || it.prop == 37 || it.prop == 40 || it.prop == 41 || it.prop == 42)
    && (it.value.U16Value? <==> it.prop == 33 || it.prop == 34 || it.prop == 19)
    && (it.value.U32Value? <==> it.prop == 17 || it.prop == 39)
    && (it.value.TextValue? <==>
          it.prop == 18 || it.prop == 21 || it.prop == 26 || it.prop == 28 || it.prop == 31)
    && (it.value.BinaryValue? <==> it.prop == 22)
    && (it.value.PairValue? <==> it.prop == 38)
  }

  lemma ConnAckReadable(it: Item)
    requires Readable(CONNACK_PROPERTIES, it)
    ensures ConnAckTyped(it)
  {
    hide ValidValue;
  }

  lemma ApplyFlags(p: ConnAckProperties, items: seq<Item>)
    requires items != [] && ConnAckTyped(items[|items| - 1]) && FlagsHold(p, items[..|items| - 1])
    ensures FlagsHold(ApplyConnAck(p, items[|items| - 1]), items)
  {
    LastOfSnoc(items);
    hide LastOf, PairsOf;
  }

  lemma ApplyNumbers(p: ConnAckProperties, items: seq<Item>)
    requires items != [] && ConnAckTyped(items[|items| - 1]) && NumbersHold(p, items[..|items| - 1])
    ensures NumbersHold(ApplyConnAck(p, items[|items| - 1]), items)
  {
    LastOfSnoc(items);
    hide LastOf, PairsOf;
  }

  lemma ApplyTexts(p: ConnAckProperties, items: seq<Item>)
    requires items != [] && ConnAckTyped(items[|items| - 1]) && TextsHold(p, items[..|items| - 1])
    ensures TextsHold(ApplyConnAck(p, items[|items| - 1]), items)
  {
    LastOfSnoc(items);
    hide LastOf, PairsOf;
    assert p.userProperties + [] == p.userProperties;
  }

  /** The record read from a CONNACK: each field is the last value given for its own property. */
  lemma {:induction false} ConnAckRecordMeans(items: seq<Item>)
    requires Accepted(CONNACK_PROPERTIES, items)
    ensures ConnAckHolds(ConnAckRecord(items), items)
    decreases |items|
  {
    if items != [] {
      hide FlagsHold, NumbersHold, TextsHold, ApplyConnAck, FoldLeft, Readable, ConnAckTyped;
      var record := ConnAckRecord(items[..|items| - 1]);
      ConnAckRecordMeans(items[..|items| - 1]);
      FoldLeftSnoc(ApplyConnAck, NO_CONNACK_PROPERTIES, items);
      ConnAckReadable(items[|items| - 1]);
      ApplyFlags(record, items);
      ApplyNumbers(record, items);
      ApplyTexts(record, items);
    }
  }
}
