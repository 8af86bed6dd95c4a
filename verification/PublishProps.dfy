/**
 The property record of PUBLISH. Its reader counts every subscription identifier one byte too long, so the cursor
 runs ahead of the bytes; the main result says exactly which records survive that.
 */
module PublishProps {
  import opened Wire
  import opened VarInt
  import opened Properties
  import opened PropertyLists
  import opened PropertyValues

  datatype PublishProperties = PublishProperties(
    payloadFormatIndicator: Option<byte>,
    messageExpiryInterval: Option<u32>,
    topicAlias: Option<u16>,
    responseTopic: Option<Bytes>,
    correlationData: Option<Bytes>,
    userProperties: seq<(Bytes, Bytes)>,
    subscriptionIdentifiers: seq<nat>,
    contentType: Option<Bytes>)

  const NO_PROPERTIES := PublishProperties(None, None, None, None, None, [], [], None)

  // ----- Property records as item lists -----

  const PUBLISH_PROPERTIES: set<byte> := {
    PAYLOAD_FORMAT_INDICATOR, MESSAGE_EXPIRY_INTERVAL, TOPIC_ALIAS, RESPONSE_TOPIC, CORRELATION_DATA, USER_PROPERTY,
    SUBSCRIPTION_IDENTIFIER, CONTENT_TYPE
  }

  function SubscriptionItems(ids: seq<nat>): (items: seq<Item>)
    ensures |items| == |ids|
  {
    if ids == [] then [] else [Item(SUBSCRIPTION_IDENTIFIER, VarIntValue(ids[0]))] + SubscriptionItems(ids[1..])
  }

  /** The properties in the order they are written before the repeatable ones. */
  function SingleItems(p: PublishProperties): seq<Item> {
    ByteItem(PAYLOAD_FORMAT_INDICATOR, p.payloadFormatIndicator)
    + U32Item(MESSAGE_EXPIRY_INTERVAL, p.messageExpiryInterval)
    + U16Item(TOPIC_ALIAS, p.topicAlias)
    + TextItem(RESPONSE_TOPIC, p.responseTopic)
    + BinaryItem(CORRELATION_DATA, p.correlationData)
  }

  function Items(p: PublishProperties): seq<Item> {
    SingleItems(p) + UserItems(p.userProperties) + SubscriptionItems(p.subscriptionIdentifiers)
    + TextItem(CONTENT_TYPE, p.contentType)
  }

  /** What reading one more item does to the record: a repeated single property overwrites, a list grows. */
  function Apply(p: PublishProperties, it: Item): PublishProperties {
    match it.value
    case ByteValue(b) => p.(payloadFormatIndicator := Some(b))
    case U16Value(n) => p.(topicAlias := Some(n))
    case U32Value(n) => p.(messageExpiryInterval := Some(n))
    case TextValue(t) => if it.prop == RESPONSE_TOPIC then p.(responseTopic := Some(t)) else p.(contentType := Some(t))
    case BinaryValue(d) => p.(correlationData := Some(d))
    case PairValue(key, val) => p.(userProperties := p.userProperties + [(key, val)])
    case VarIntValue(n) => p.(subscriptionIdentifiers := p.subscriptionIdentifiers + [n])
  }

  function Fold(p: PublishProperties, items: seq<Item>): PublishProperties {
    FoldLeft(Apply, p, items)
  }

  /** `PublishProperties::len` */
  method PropertiesLen(p: PublishProperties) returns (len: nat)
    ensures len == Declared(Items(p))
  {
    hide Declared, SingleItems;
    len := 0;
    if p.payloadFormatIndicator.Some? { len := len + 1 + 1; }
    if p.messageExpiryInterval.Some? { len := len + 1 + 4; }
    if p.topicAlias.Some? { len := len + 1 + 2; }
    if p.responseTopic.Some? { len := len + 1 + 2 + |p.responseTopic.value|; }
    if p.correlationData.Some? { len := len + 1 + 2 + |p.correlationData.value|; }
    DeclaredSingles(p);
    assert p.subscriptionIdentifiers[..0] == [];
    DeclaredNone();
    var usersLen := UsersLen(p.userProperties);
    len := len + usersLen;
    ghost var users := len;
    var i := 0;
    while i < |p.subscriptionIdentifiers|
      invariant i <= |p.subscriptionIdentifiers|
      invariant len == users + Declared(SubscriptionItems(p.subscriptionIdentifiers[..i]))
    {
      len := len + 1 + LenLen(p.subscriptionIdentifiers[i]);
      SubscriptionItemsSnoc(p.subscriptionIdentifiers, i);
      i := i + 1;
    }
    assert p.subscriptionIdentifiers[..i] == p.subscriptionIdentifiers;
    if p.contentType.Some? { len := len + 1 + 2 + |p.contentType.value|; }
    DeclaredText(CONTENT_TYPE, p.contentType);
    ItemsSplit(p);
  }

  lemma DeclaredSingles(p: PublishProperties)
    ensures Declared(SingleItems(p))
            == (if p.payloadFormatIndicator.Some? then 2 else 0) + (if p.messageExpiryInterval.Some? then 5 else 0)
               + (if p.topicAlias.Some? then 3 else 0)
               + (if p.responseTopic.Some? then 3 + |p.responseTopic.value| else 0)
               + (if p.correlationData.Some? then 3 + |p.correlationData.value| else 0)
  {
    var a, b, c := ByteItem(PAYLOAD_FORMAT_INDICATOR, p.payloadFormatIndicator),
      U32Item(MESSAGE_EXPIRY_INTERVAL, p.messageExpiryInterval), U16Item(TOPIC_ALIAS, p.topicAlias);
    var d, e := TextItem(RESPONSE_TOPIC, p.responseTopic), BinaryItem(CORRELATION_DATA, p.correlationData);
    hide Declared;
    DeclaredSplit(a + b + c + d, e);
    DeclaredSplit(a + b + c, d);
    DeclaredSplit(a + b, c);
    DeclaredSplit(a, b);
    DeclaredOption(a);
    DeclaredOption(b);
    DeclaredOption(c);
    DeclaredOption(d);
    DeclaredOption(e);
  }

  lemma {:induction false} SubscriptionItemsSplit(a: seq<nat>, b: seq<nat>)
    ensures SubscriptionItems(a + b) == SubscriptionItems(a) + SubscriptionItems(b)
  {
    if a == [] {
      assert a + b == b;
    } else {
      SubscriptionItemsSplit(a[1..], b);
      assert (a + b)[1..] == a[1..] + b && (a + b)[0] == a[0];
      var head := [Item(SUBSCRIPTION_IDENTIFIER, VarIntValue(a[0]))];
      Reassociate(head, SubscriptionItems(a[1..]), SubscriptionItems(b));
    }
  }

  lemma SubscriptionItemsSnoc(ids: seq<nat>, i: nat)
    requires i < |ids|
    ensures var it := Item(SUBSCRIPTION_IDENTIFIER, VarIntValue(ids[i]));
            && SubscriptionItems(ids[..i + 1]) == SubscriptionItems(ids[..i]) + [it]
            && Declared(SubscriptionItems(ids[..i + 1])) == Declared(SubscriptionItems(ids[..i])) + DeclaredItem(it)
  {
    assert ids[..i + 1] == ids[..i] + [ids[i]];
    SubscriptionItemsSplit(ids[..i], [ids[i]]);
    var it := Item(SUBSCRIPTION_IDENTIFIER, VarIntValue(ids[i]));
    assert SubscriptionItems([ids[i]]) == [it];
    DeclaredSplit(SubscriptionItems(ids[..i]), [it]);
    DeclaredOne(it);
  }

  lemma ItemsSplit(p: PublishProperties)
    ensures Declared(Items(p))
            == Declared(SingleItems(p)) + Declared(UserItems(p.userProperties))
               + Declared(SubscriptionItems(p.subscriptionIdentifiers)) + Declared(TextItem(CONTENT_TYPE, p.contentType))
  {
    hide SingleItems, Declared;
    var a, b := SingleItems(p), UserItems(p.userProperties);
    var c, d := SubscriptionItems(p.subscriptionIdentifiers), TextItem(CONTENT_TYPE, p.contentType);
    DeclaredSplit(a + b + c, d);
    DeclaredSplit(a + b, c);
    DeclaredSplit(a, b);
  }

  // ----- The writer -----

  /** `PublishProperties::write` */
  method WriteProperties(p: PublishProperties, buffer: BytesMut)
    modifies buffer
    ensures buffer.data == old(buffer.data) + WriteBlock(Items(p))
    ensures Valid(p) ==> PublishHolds(p, Items(p))
  {
    hide Declared, EncodeItems, EncodeItem, Valid, PublishHolds;
    if Valid(p) {
      WrittenMeans(p);
    }
    var len := PropertiesLen(p);
    var _ := WriteRemainingLength(buffer, len);
    ghost var start := buffer.data;
    ghost var done := WriteSingles(p, buffer, start);
    done := WriteUsers(p.userProperties, buffer, start, done);
    ghost var before := done;
    assert p.subscriptionIdentifiers[..0] == [];
    var i := 0;
    while i < |p.subscriptionIdentifiers|
      invariant i <= |p.subscriptionIdentifiers|
      invariant done == before + SubscriptionItems(p.subscriptionIdentifiers[..i])
      invariant buffer.data == start + EncodeItems(done)
    {
      done := WriteNext(Item(SUBSCRIPTION_IDENTIFIER, VarIntValue(p.subscriptionIdentifiers[i])), buffer, start, done);
      SubscriptionItemsSnoc(p.subscriptionIdentifiers, i);
      i := i + 1;
    }
    assert p.subscriptionIdentifiers[..i] == p.subscriptionIdentifiers;
    done := WriteOption(TextItem(CONTENT_TYPE, p.contentType), buffer, start, done);
    assert done == Items(p);
  }

  method WriteSingles(p: PublishProperties, buffer: BytesMut, ghost start: Bytes) returns (ghost done: seq<Item>)
    requires buffer.data == start
    modifies buffer
    ensures done == SingleItems(p)
    ensures buffer.data == start + EncodeItems(done)
  {
    hide EncodeItems, EncodeItem;
    done := NoItems(buffer.data);
    done := WriteOption(ByteItem(PAYLOAD_FORMAT_INDICATOR, p.payloadFormatIndicator), buffer, start, done);
    done := WriteOption(U32Item(MESSAGE_EXPIRY_INTERVAL, p.messageExpiryInterval), buffer, start, done);
    done := WriteOption(U16Item(TOPIC_ALIAS, p.topicAlias), buffer, start, done);
    done := WriteOption(TextItem(RESPONSE_TOPIC, p.responseTopic), buffer, start, done);
    done := WriteOption(BinaryItem(CORRELATION_DATA, p.correlationData), buffer, start, done);
  }

  // ----- The reader -----

  function ReadProperties(s: Bytes): Parsed<Option<PublishProperties>> {
    var (items, rest) :- ReadBlock(PUBLISH_PROPERTIES, s);
    Ok((if items.None? then None else Some(Fold(NO_PROPERTIES, items.value)), rest))
  }

  /** `PublishProperties::read` */
  method GetProperties(bytes: Reader) returns (r: Result<Option<PublishProperties>>)
    modifies bytes
    ensures Agrees(ReadProperties(old(bytes.rest)), r, bytes.rest)
    ensures r.Ok? && r.value.Some? ==>
              exists items :: ReadBlock({1, 2, 3, 8, 9, 11, 35, 38}, old(bytes.rest)) == Ok((Some(items), bytes.rest))
                              && PublishHolds(r.value.value, items)
  {
    hide PublishHolds, ReadBlock, FoldLeft;
    ghost var start := bytes.rest;
    if ReadProperties(start).Ok? {
      PropertiesMean(start);
    }
    assert PUBLISH_PROPERTIES == {1, 2, 3, 8, 9, 11, 35, 38};
    var items :- bytes.GetBlock(PUBLISH_PROPERTIES);
    assert ReadBlock({1, 2, 3, 8, 9, 11, 35, 38}, start) == Ok((items, bytes.rest));
    r := Ok(if items.None? then None else Some(Fold(NO_PROPERTIES, items.value)));
  }

  lemma {:induction false} FoldUsers(p: PublishProperties, users: seq<(Bytes, Bytes)>)
    ensures Fold(p, UserItems(users)) == p.(userProperties := p.userProperties + users)
    decreases |users|
  {
    if users == [] {
      assert p.userProperties + users == p.userProperties;
    } else {
      FoldUsers(p.(userProperties := p.userProperties + [users[0]]), users[1..]);
      assert p.userProperties + [users[0]] + users[1..] == p.userProperties + users;
    }
  }

  lemma {:induction false} FoldSubscriptions(p: PublishProperties, ids: seq<nat>)
    ensures Fold(p, SubscriptionItems(ids)) == p.(subscriptionIdentifiers := p.subscriptionIdentifiers + ids)
    decreases |ids|
  {
    if ids == [] {
      assert p.subscriptionIdentifiers + ids == p.subscriptionIdentifiers;
    } else {
      FoldSubscriptions(p.(subscriptionIdentifiers := p.subscriptionIdentifiers + [ids[0]]), ids[1..]);
      assert p.subscriptionIdentifiers + [ids[0]] + ids[1..] == p.subscriptionIdentifiers + ids;
    }
  }

  /** Reading the items of a record one by one rebuilds the record. */
  lemma FoldItems(p: PublishProperties)
    ensures Fold(NO_PROPERTIES, Items(p)) == p
  {
    var a, b := SingleItems(p), UserItems(p.userProperties);
    var c, d := SubscriptionItems(p.subscriptionIdentifiers), TextItem(CONTENT_TYPE, p.contentType);
    var p0 := p.(userProperties := [], subscriptionIdentifiers := [], contentType := None);
    FoldSingles(p);
    hide SingleItems;
    FoldLeftSplit(Apply, NO_PROPERTIES, a + b + c, d);
    FoldLeftSplit(Apply, NO_PROPERTIES, a + b, c);
    FoldLeftSplit(Apply, NO_PROPERTIES, a, b);
    assert [] + p.userProperties == p.userProperties && [] + p.subscriptionIdentifiers == p.subscriptionIdentifiers;
    FoldUsers(p0, p.userProperties);
    FoldSubscriptions(p0.(userProperties := p.userProperties), p.subscriptionIdentifiers);
  }

  lemma FoldSingles(p: PublishProperties)
    ensures Fold(NO_PROPERTIES, SingleItems(p))
            == p.(userProperties := [], subscriptionIdentifiers := [], contentType := None)
  {
    var a, b, c := ByteItem(PAYLOAD_FORMAT_INDICATOR, p.payloadFormatIndicator),
      U32Item(MESSAGE_EXPIRY_INTERVAL, p.messageExpiryInterval), U16Item(TOPIC_ALIAS, p.topicAlias);
    var d, e := TextItem(RESPONSE_TOPIC, p.responseTopic), BinaryItem(CORRELATION_DATA, p.correlationData);
    hide FoldLeft, ByteItem, U16Item, U32Item, TextItem, BinaryItem;
    FoldLeftSplit(Apply, NO_PROPERTIES, a + b + c + d, e);
    FoldLeftSplit(Apply, NO_PROPERTIES, a + b + c, d);
    FoldLeftSplit(Apply, NO_PROPERTIES, a + b, c);
    FoldLeftSplit(Apply, NO_PROPERTIES, a, b);
    var p1 := NO_PROPERTIES.(payloadFormatIndicator := p.payloadFormatIndicator);
    var p2 := p1.(messageExpiryInterval := p.messageExpiryInterval);
    var p3 := p2.(topicAlias := p.topicAlias);
    var p4 := p3.(responseTopic := p.responseTopic);
    FoldOptions(NO_PROPERTIES, p);
    assert Fold(NO_PROPERTIES, a) == p1;
    FoldOptions(p1, p);
    assert Fold(p1, b) == p2;
    FoldOptions(p2, p);
    assert Fold(p2, c) == p3;
    FoldOptions(p3, p);
    assert Fold(p3, d) == p4;
    FoldOptions(p4, p);
  }

  /** Folding one optional property sets it, if it is there. */
  lemma FoldOptions(p: PublishProperties, q: PublishProperties)
    ensures Fold(p, ByteItem(PAYLOAD_FORMAT_INDICATOR, q.payloadFormatIndicator))
            == if q.payloadFormatIndicator.None? then p else p.(payloadFormatIndicator := q.payloadFormatIndicator)
    ensures Fold(p, U32Item(MESSAGE_EXPIRY_INTERVAL, q.messageExpiryInterval))
            == if q.messageExpiryInterval.None? then p else p.(messageExpiryInterval := q.messageExpiryInterval)
    ensures Fold(p, U16Item(TOPIC_ALIAS, q.topicAlias))
            == if q.topicAlias.None? then p else p.(topicAlias := q.topicAlias)
    ensures Fold(p, TextItem(RESPONSE_TOPIC, q.responseTopic))
            == if q.responseTopic.None? then p else p.(responseTopic := q.responseTopic)
    ensures Fold(p, BinaryItem(CORRELATION_DATA, q.correlationData))
            == if q.correlationData.None? then p else p.(correlationData := q.correlationData)
  {
    FoldLeftOne(Apply, p, ByteItem(PAYLOAD_FORMAT_INDICATOR, q.payloadFormatIndicator));
    FoldLeftOne(Apply, p, U32Item(MESSAGE_EXPIRY_INTERVAL, q.messageExpiryInterval));
    FoldLeftOne(Apply, p, U16Item(TOPIC_ALIAS, q.topicAlias));
    FoldLeftOne(Apply, p, TextItem(RESPONSE_TOPIC, q.responseTopic));
    FoldLeftOne(Apply, p, BinaryItem(CORRELATION_DATA, q.correlationData));
    hide FoldLeft;
  }

  // ----- What the record says, by the numbers of the identifiers -----

  ghost predicate PublishHolds(p: PublishProperties, items: seq<Item>) {
    && p.payloadFormatIndicator == ByteOf(LastOf(items, 1))
    && p.messageExpiryInterval == U32Of(LastOf(items, 2))
    && p.contentType == TextOf(LastOf(items, 3))
    && p.responseTopic == TextOf(LastOf(items, 8))
    && p.correlationData == BinaryOf(LastOf(items, 9))
    && p.subscriptionIdentifiers == IdentifiersOf(items)
    && p.topicAlias == U16Of(LastOf(items, 35))
    && p.userProperties == PairsOf(items)
  }

  predicate PublishTyped(it: Item) {
    && (it.value.ByteValue? <==> it.prop == 1) && (it.value.U32Value? <==> it.prop == 2)
    && (it.value.U16Value? <==> it.prop == 35) && (it.value.TextValue? <==> it.prop == 3 || it.prop == 8)
    && (it.value.BinaryValue? <==> it.prop == 9) && (it.value.PairValue? <==> it.prop == 38)
    && (it.value.VarIntValue? <==> it.prop == 11)
  }

  lemma PublishReadable(it: Item)
    requires Readable(PUBLISH_PROPERTIES, it)
    ensures PublishTyped(it)
  {
    hide ValidValue;
  }

  lemma ApplyHolds(p: PublishProperties, items: seq<Item>)
    requires items != [] && PublishTyped(items[|items| - 1]) && PublishHolds(p, items[..|items| - 1])
    ensures PublishHolds(Apply(p, items[|items| - 1]), items)
  {
    LastOfSnoc(items);
    hide LastOf, PairsOf, IdentifiersOf;
    assert p.userProperties + [] == p.userProperties && p.subscriptionIdentifiers + [] == p.subscriptionIdentifiers;
  }

  /** Each field is the last value given for its own identifier, or all of them in order. */
  lemma {:induction false} FoldMeans(items: seq<Item>)
    requires AllReadable(items)
    ensures PublishHolds(Fold(NO_PROPERTIES, items), items)
    decreases |items|
  {
    if items != [] {
      hide PublishHolds, Apply, FoldLeft, Readable, PublishTyped;
      FoldMeans(items[..|items| - 1]);
      FoldLeftSnoc(Apply, NO_PROPERTIES, items);
      PublishReadable(items[|items| - 1]);
      ApplyHolds(Fold(NO_PROPERTIES, items[..|items| - 1]), items);
    }
  }

  /** Whatever bytes a record is read from, it is the one that their items spell out. */
  lemma PropertiesMean(s: Bytes)
    requires ReadProperties(s).Ok?
    ensures ReadBlock({1, 2, 3, 8, 9, 11, 35, 38}, s).Ok?
    ensures var (items, rest) := ReadBlock({1, 2, 3, 8, 9, 11, 35, 38}, s).value;
            var (record, rest') := ReadProperties(s).value;
            rest' == rest && if items.None? then record.None? else record.Some? && PublishHolds(record.value, items.value)
  {
    assert PUBLISH_PROPERTIES == {1, 2, 3, 8, 9, 11, 35, 38};
    hide ReadBlock, PublishHolds, Readable;
    var (items, _) := ReadBlock(PUBLISH_PROPERTIES, s).value;
    if items.Some? {
      ReadBlockReadable(PUBLISH_PROPERTIES, s);
      FoldMeans(items.value);
    }
  }

  /** And what is written spells out the record. */
  lemma WrittenMeans(p: PublishProperties)
    requires Valid(p)
    ensures PublishHolds(p, Items(p))
  {
    hide Items, PublishHolds, Valid, FoldLeft;
    ValidItems(p);
    FoldItems(p);
    FoldMeans(Items(p));
  }

  // ----- Which records can be read at all -----

  /** Text is UTF-8, fields fit a 16-bit length, identifiers fit four bytes. */
  predicate Valid(p: PublishProperties) {
    && (p.responseTopic.Some? ==> FitsText(p.responseTopic.value))
    && (p.correlationData.Some? ==> FitsField(p.correlationData.value))
    && (forall i :: 0 <= i < |p.userProperties| ==> FitsText(p.userProperties[i].0) && FitsText(p.userProperties[i].1))
    && (forall i :: 0 <= i < |p.subscriptionIdentifiers| ==> p.subscriptionIdentifiers[i] <= MAX_VAR_INT)
    && (p.contentType.Some? ==> FitsText(p.contentType.value))
  }

  ghost predicate AllReadable(items: seq<Item>) {
    forall i :: 0 <= i < |items| ==> Readable(PUBLISH_PROPERTIES, items[i])
  }

  lemma {:induction false} SubscriptionItemAt(ids: seq<nat>, i: nat)
    requires i < |ids|
    ensures SubscriptionItems(ids)[i] == Item(SUBSCRIPTION_IDENTIFIER, VarIntValue(ids[i]))
  {
    if i > 0 {
      SubscriptionItemAt(ids[1..], i - 1);
    }
  }

  lemma ValidItems(p: PublishProperties)
    requires Valid(p)
    ensures AllReadable(Items(p))
  {
    hide ValidUtf8;
    forall i | 0 <= i < |p.userProperties| ensures Readable(PUBLISH_PROPERTIES, UserItems(p.userProperties)[i]) {
      UserItemAt(p.userProperties, i);
    }
    forall i | 0 <= i < |p.subscriptionIdentifiers|
      ensures Readable(PUBLISH_PROPERTIES, SubscriptionItems(p.subscriptionIdentifiers)[i])
    {
      SubscriptionItemAt(p.subscriptionIdentifiers, i);
    }
    SinglesReadable(p);
    hide SingleItems;
  }

  lemma SinglesReadable(p: PublishProperties)
    requires Valid(p)
    ensures AllReadable(SingleItems(p))
  {
    hide ValidUtf8;
  }

  lemma ApplyValid(p: PublishProperties, it: Item)
    requires Valid(p) && Readable(PUBLISH_PROPERTIES, it)
    ensures Valid(Apply(p, it))
  {
    hide ValidUtf8;
    match it.value
    case ByteValue(_) =>
    case U16Value(_) =>
    case U32Value(_) =>
    case TextValue(_) =>
    case BinaryValue(_) =>
    case PairValue(_, _) =>
    case VarIntValue(_) =>
  }

  lemma {:induction false} FoldValid(p: PublishProperties, items: seq<Item>)
    requires Valid(p) && AllReadable(items)
    ensures Valid(Fold(p, items))
    decreases |items|
  {
    hide Valid, Readable, Apply;
    if items != [] {
      forall i | 0 <= i < |items[1..]| ensures Readable(PUBLISH_PROPERTIES, items[1..][i]) {
        assert items[1..][i] == items[i + 1];
      }
      ApplyValid(p, items[0]);
      FoldValid(Apply(p, items[0]), items[1..]);
    }
  }

  /** How many properties a record holds. */
  function Size(p: PublishProperties): nat {
    Count(p.payloadFormatIndicator) + Count(p.messageExpiryInterval) + Count(p.topicAlias) + Count(p.responseTopic)
    + Count(p.correlationData) + |p.userProperties| + |p.subscriptionIdentifiers| + Count(p.contentType)
  }

  lemma SizeOfItems(p: PublishProperties)
    ensures |Items(p)| == Size(p)
  {
  }

  lemma ApplySize(p: PublishProperties, it: Item)
    ensures 0 < Size(Apply(p, it)) <= Size(p) + 1
  {
    match it.value
    case ByteValue(_) =>
    case U16Value(_) =>
    case U32Value(_) =>
    case TextValue(_) =>
    case BinaryValue(_) =>
    case PairValue(key, val) => assert |p.userProperties + [(key, val)]| == |p.userProperties| + 1;
    case VarIntValue(n) => assert |p.subscriptionIdentifiers + [n]| == |p.subscriptionIdentifiers| + 1;
  }

  /** A record read from n items holds at most n properties, and at least one if n is not zero. */
  lemma {:induction false} FoldSize(p: PublishProperties, items: seq<Item>)
    ensures Size(Fold(p, items)) <= Size(p) + |items|
    ensures items != [] || Size(p) > 0 ==> Size(Fold(p, items)) > 0
    decreases |items|
  {
    hide Size, Apply;
    if items != [] {
      ApplySize(p, items[0]);
      FoldSize(Apply(p, items[0]), items[1..]);
    }
  }

  // ----- Which records survive the drifting cursor -----

  /**
   The drift when the last property is reached is smaller than that property. With a content type last, every
   identifier has drifted by then; without one, all identifiers but the last.
   */
  predicate DriftFits(p: PublishProperties) {
    var ids := p.subscriptionIdentifiers;
    if p.contentType.Some? then |ids| < 3 + |p.contentType.value|
    else ids != [] ==> |ids| - 1 < 1 + LenLen(ids[|ids| - 1])
  }

  function TotalDrift(items: seq<Item>): nat {
    if items == [] then 0 else Drift(items[0]) + TotalDrift(items[1..])
  }

  lemma {:induction false} TotalDriftSplit(a: seq<Item>, b: seq<Item>)
    ensures TotalDrift(a + b) == TotalDrift(a) + TotalDrift(b)
  {
    if a == [] {
      assert a + b == b;
    } else {
      TotalDriftSplit(a[1..], b);
      assert (a + b)[1..] == a[1..] + b;
    }
  }

  lemma {:induction false} CostIsLengthAndDrift(items: seq<Item>)
    ensures Cost(items) == |EncodeItems(items)| + TotalDrift(items)
  {
    hide EncodeItem;
    if items != [] {
      CostIsLengthAndDrift(items[1..]);
    }
  }

  lemma {:induction false} DriftOfSubscriptions(ids: seq<nat>)
    ensures TotalDrift(SubscriptionItems(ids)) == |ids|
  {
    if ids != [] {
      DriftOfSubscriptions(ids[1..]);
    }
  }

  lemma {:induction false} NoDrift(items: seq<Item>)
    requires forall i :: 0 <= i < |items| ==> items[i].prop != SUBSCRIPTION_IDENTIFIER
    ensures TotalDrift(items) == 0
  {
    if items != [] {
      NoDrift(items[1..]);
    }
  }

  lemma DriftOfItems(p: PublishProperties)
    ensures TotalDrift(Items(p)) == |p.subscriptionIdentifiers|
  {
    var a, b := SingleItems(p), UserItems(p.userProperties);
    var c, d := SubscriptionItems(p.subscriptionIdentifiers), TextItem(CONTENT_TYPE, p.contentType);
    NoDrift(a);
    hide SingleItems;
    forall i | 0 <= i < |b| ensures b[i].prop != SUBSCRIPTION_IDENTIFIER {
      UserItemAt(p.userProperties, i);
    }
    NoDrift(b);
    DriftOfSubscriptions(p.subscriptionIdentifiers);
    TotalDriftSplit(a + b + c, d);
    TotalDriftSplit(a + b, c);
    TotalDriftSplit(a, b);
  }

  /** The last item of a record: the content type, else the last identifier, else one that does not drift. */
  lemma LastItem(p: PublishProperties)
    requires Items(p) != []
    ensures var last, ids := Items(p)[|Items(p)| - 1], p.subscriptionIdentifiers;
            if p.contentType.Some? then last == Item(CONTENT_TYPE, TextValue(p.contentType.value))
            else if ids != [] then last == Item(SUBSCRIPTION_IDENTIFIER, VarIntValue(ids[|ids| - 1]))
            else last.prop != SUBSCRIPTION_IDENTIFIER
  {
    var ids, users := p.subscriptionIdentifiers, p.userProperties;
    if p.contentType.None? {
      if ids != [] {
        SubscriptionItemAt(ids, |ids| - 1);
      } else if users != [] {
        UserItemAt(users, |users| - 1);
      }
    }
  }

  /** The caller's condition is the loop's: the cursor is still short of the declared length before the last item. */
  lemma DriftFitsExact(p: PublishProperties)
    requires Valid(p) && Items(p) != []
    ensures var items := Items(p);
            DriftFits(p) <==> Cost(items[..|items| - 1]) < |EncodeItems(items)|
  {
    var items, ids := Items(p), p.subscriptionIdentifiers;
    var most, last := items[..|items| - 1], items[|items| - 1];
    LastItem(p);
    DriftOfItems(p);
    hide Items, Valid;
    assert items == most + [last];
    EncodeItemsSplit(most, [last]);
    TotalDriftSplit(most, [last]);
    CostIsLengthAndDrift(most);
    EncodeOne(last);
    assert TotalDrift([last]) == Drift(last);
    if p.contentType.None? && ids != [] {
      assert ids[|ids| - 1] <= MAX_VAR_INT by { LastIdFits(p); }
      WidthIsLenLen(ids[|ids| - 1]);
    }
  }

  lemma LastIdFits(p: PublishProperties)
    requires Valid(p) && p.subscriptionIdentifiers != []
    ensures p.subscriptionIdentifiers[|p.subscriptionIdentifiers| - 1] <= MAX_VAR_INT
  {
  }

  /** Records that write and read back unchanged. */
  predicate Survives(p: PublishProperties) {
    Size(p) > 0 && Valid(p) && DriftFits(p) && Declared(Items(p)) <= MAX_VAR_INT
  }

  /** Writing a record and reading it gives it back, with what follows untouched, exactly when it Survives. */
  lemma PropertiesRoundTrip(p: PublishProperties, payload: Bytes)
    ensures ReadProperties(WriteBlock(Items(p)) + payload) == Ok((Some(p), payload)) <==> Survives(p)
  {
    hide Items, Valid, FoldLeft, DriftFits, Declared;
    var items := Items(p);
    SizeOfItems(p);
    Reassociate(Encode(Declared(items)), EncodeItems(items), payload);
    ReadBlockOf(PUBLISH_PROPERTIES, Declared(items), EncodeItems(items) + payload);
    if ReadProperties(WriteBlock(items) + payload) == Ok((Some(p), payload)) {
      ReadBackValid(WriteBlock(items) + payload, p, payload);
    }
    if Valid(p) && Size(p) > 0 && Declared(items) <= MAX_VAR_INT {
      ReadSurvivor(p, payload);
    }
    assert Declared([]) == 0 by { DeclaredNone(); }
  }

  lemma ReadBackValid(s: Bytes, p: PublishProperties, payload: Bytes)
    requires ReadProperties(s) == Ok((Some(p), payload))
    ensures Valid(p) && Size(p) > 0
  {
    var items := ReadBlock(PUBLISH_PROPERTIES, s).value.0.value;
    ReadBlockReadable(PUBLISH_PROPERTIES, s);
    hide Items, Valid, FoldLeft;
    assert Valid(NO_PROPERTIES) by { EmptyIsValid(); }
    FoldValid(NO_PROPERTIES, items);
    FoldSize(NO_PROPERTIES, items);
  }

  lemma EmptyIsValid()
    ensures Valid(NO_PROPERTIES)
  {
  }

  lemma ReadSurvivor(p: PublishProperties, payload: Bytes)
    requires Valid(p) && Size(p) > 0 && Declared(Items(p)) <= MAX_VAR_INT
    ensures ReadProperties(WriteBlock(Items(p)) + payload) == Ok((Some(p), payload)) <==> DriftFits(p)
  {
    hide Items, Valid, FoldLeft, EncodeItems, DriftFits, Readable, Declared, ReadItems, EncodeItem, VarIntsFit;
    var items := Items(p);
    var n, body := Declared(items), EncodeItems(items) + payload;
    SizeOfItems(p);
    Reassociate(Encode(n), EncodeItems(items), payload);
    ReadBlockOf(PUBLISH_PROPERTIES, n, body);
    ValidItems(p);
    ValidFits(p);
    DeclaredIsWritten(items);
    assert n > 0 by { NotWrittenEmpty(items); }
    DriftFitsExact(p);
    FoldItems(p);
    CostIsLengthAndDrift(items);
    ReadWrittenItems(PUBLISH_PROPERTIES, n, items, payload, 0);
    TakenAll(items, n, 0);
    var m := Taken(items, n, 0);
    if m == |items| {
      assert items[..m] == items && items[m..] == [];
      EncodeNone();
      assert [] + payload == payload;
    } else {
      FoldSize(NO_PROPERTIES, items[..m]);
    }
  }

  /** Up to two identifiers always survive; three one-byte identifiers with no content type after them never do. */
  lemma DriftThreshold(p: PublishProperties)
    ensures |p.subscriptionIdentifiers| <= 2 ==> DriftFits(p)
    ensures p.contentType.None? && |p.subscriptionIdentifiers| == 3 && p.subscriptionIdentifiers[2] < 128
            ==> !DriftFits(p)
    ensures p.contentType.None? && |p.subscriptionIdentifiers| > 5 ==> !DriftFits(p)
  {
  }

  /** The only variable integers of a record are its identifiers. */
  lemma IdentifiersFit(p: PublishProperties)
    ensures VarIntsFit(Items(p))
            <==> forall i :: 0 <= i < |p.subscriptionIdentifiers| ==> p.subscriptionIdentifiers[i] <= MAX_VAR_INT
  {
    var a, b := SingleItems(p), UserItems(p.userProperties);
    var c, d := SubscriptionItems(p.subscriptionIdentifiers), TextItem(CONTENT_TYPE, p.contentType);
    ItemsSplit(p);
    FitSplit(a + b + c, d);
    FitSplit(a + b, c);
    FitSplit(a, b);
    forall i | 0 <= i < |b| ensures !b[i].value.VarIntValue? {
      UserItemAt(p.userProperties, i);
    }
    forall i | 0 <= i < |c| ensures c[i] == Item(SUBSCRIPTION_IDENTIFIER, VarIntValue(p.subscriptionIdentifiers[i])) {
      SubscriptionItemAt(p.subscriptionIdentifiers, i);
    }
    SinglesAreNoVarInts(p);
    hide Items, SingleItems;
    if VarIntsFit(c) {
      forall i | 0 <= i < |c| ensures p.subscriptionIdentifiers[i] <= MAX_VAR_INT {
        assert c[i].value.VarIntValue?;
      }
    }
  }

  lemma ValidFits(p: PublishProperties)
    requires Valid(p)
    ensures VarIntsFit(Items(p))
  {
    hide Items, VarIntsFit;
    IdentifiersFit(p);
  }

  lemma SinglesAreNoVarInts(p: PublishProperties)
    ensures VarIntsFit(SingleItems(p))
  {
  }

  lemma FitSplit(a: seq<Item>, b: seq<Item>)
    ensures VarIntsFit(a + b) <==> VarIntsFit(a) && VarIntsFit(b)
  {
    var all := a + b;
    assert forall i :: 0 <= i < |a| ==> all[i] == a[i];
    assert forall i :: 0 <= i < |b| ==> all[|a| + i] == b[i];
    if VarIntsFit(a) && VarIntsFit(b) {
      forall i | 0 <= i < |all| && all[i].value.VarIntValue? ensures all[i].value.n <= MAX_VAR_INT {
        assert i >= |a| ==> all[i] == b[i - |a|];
      }
    }
    if VarIntsFit(all) {
      forall i | 0 <= i < |b| && b[i].value.VarIntValue? ensures b[i].value.n <= MAX_VAR_INT {
        assert all[|a| + i] == b[i];
      }
    }
  }
}
