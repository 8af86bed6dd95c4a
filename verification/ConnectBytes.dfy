/**
 CONNECT as a broker reads it, by section 3.1 of MQTT 3.1.1 and of MQTT 5.0, apart from the client's own readers. The two
 versions differ in the level and in the property blocks, which MQTT 3.1.1 does not have.
 */
module ConnectBytes {
  import opened Wire
  import opened VarInt
  import opened Numerals
  import opened Properties
  import opened PropertyLists
  import opened Framing
  import opened ConnectPacket

  // ----- The flags byte -----

  function QoSWeight(qos: QoS): nat {
    match qos
    case AtMostOnce => 0
    case AtLeastOnce => 8
    case ExactlyOnce => 16
  }

  /** Clean session 2, will 4, its QoS times 8, its retain flag 32, password 64, user name 128. */
  function FlagsNumber(c: Connect): nat {
    (if c.cleanSession then 2 else 0)
    + (match c.lastWill
       case None => 0
       case Some(w) =>
         4 + QoSWeight(w.qos) + if w.retain then 32 else 0)
    + match c.login
      case None => 0
      case Some(l) => (if l.password == [] then 0 else 64) + if l.username == [] then 0 else 128
  }

  lemma WillNumber(w: LastWill)
    ensures WillFlags(w) as int
            == 4 + QoSWeight(w.qos) + if w.retain then 32 else 0
  {
    match w.qos
    case AtMostOnce =>
    case AtLeastOnce =>
    case ExactlyOnce =>
  }

  lemma LoginNumber(l: Login)
    ensures LoginFlags(l) as int == (if l.password == [] then 0 else 64) + if l.username == [] then 0 else 128
  {
  }

  lemma FlagsAreNumber(c: Connect)
    ensures Flags(c) as int == FlagsNumber(c)
  {
    if c.lastWill.Some? {
      match c.lastWill.value.qos
      case AtMostOnce =>
      case AtLeastOnce =>
      case ExactlyOnce =>
    }
  }

  // ----- The decoder -----

  function QoSOf(n: nat): Result<QoS> {
    match n
    case 0 => Ok(AtMostOnce)
    case 1 => Ok(AtLeastOnce)
    case 2 => Ok(ExactlyOnce)
    case _ => Err(InvalidQoS(3))
  }

  /** The will properties in MQTT 5.0; there are none in MQTT 3.1.1. */
  function DecodeWillProperties(version: Protocol, s: Bytes): Parsed<Option<WillProperties>> {
    if version.V4? then Ok((None, s)) else ReadProperties(s)
  }

  function DecodeWill(version: Protocol, flags: nat, s: Bytes): Parsed<Option<LastWill>> {
    if flags / 4 % 2 == 0 then if flags / 8 % 8 == 0 then Ok((None, s)) else Err(IncorrectPacketFormat)
    else
      var (properties, s1) :- DecodeWillProperties(version, s);
      var (topic, s2) :- ReadText(s1);
      var (message, s3) :- ReadField(s2);
      var qos :- QoSOf(flags / 8 % 4);
      Ok((Some(LastWill(topic, message, qos, flags / 32 % 2 == 1, properties)), s3))
  }

  /** A user name is text, a password any bytes. */
  function DecodeLogin(flags: nat, s: Bytes): Parsed<Option<Login>> {
    var (username, s1) :- DecodeUser(flags, s);
    var (password, s2) :- DecodePassword(flags, s1);
    Ok((if flags / 64 % 4 == 0 then None else Some(Login(username, password)), s2))
  }

  function DecodeUser(flags: nat, s: Bytes): Parsed<Bytes> {
    if flags / 128 % 2 == 1 then ReadText(s) else Ok(([], s))
  }

  function DecodePassword(flags: nat, s: Bytes): Parsed<Bytes> {
    if flags / 64 % 2 == 1 then ReadField(s) else Ok(([], s))
  }

  /** The client id, the will and the login, to the end. */
  function DecodePayload(version: Protocol, flags: nat, keepAlive: u16, s: Bytes): Result<Connect> {
    var (clientId, s1) :- ReadText(s);
    var (will, s2) :- DecodeWill(version, flags, s1);
    var (login, s3) :- DecodeLogin(flags, s2);
    if s3 == [] then Ok(Connect(version, keepAlive, clientId, flags / 2 % 2 == 1, will, login)) else Err(MalformedPacket)
  }

  /** Protocol name, level, flags, keep alive, and in MQTT 5.0 the length of the CONNECT properties, which must be zero. */
  function DecodeBody(body: Bytes): Result<Connect> {
    if |body| < 10 || body[..6] != [0, 4, 77, 81, 84, 84] || body[7] % 2 != 0 then Err(MalformedPacket)
    else
      var flags, keepAlive: u16 := body[7], body[8] as int * 256 + body[9];
      if body[6] == 4 then DecodePayload(V4, flags, keepAlive, body[10..])
      else if body[6] == 5 && |body| > 10 && body[10] == 0 then DecodePayload(V5, flags, keepAlive, body[11..])
      else Err(MalformedPacket)
  }

  /** One whole packet: type 1, a length, and a body of that length. */
  function DecodeConnect(s: Bytes): Result<Connect> {
    if s == [] || s[0] != 0x10 then Err(MalformedPacket)
    else
      var (n, body) :- ReadVarInt(s[1..]);
      if n == |body| then DecodeBody(body) else Err(MalformedPacket)
  }

  // ----- What decodes -----

  /** Text and fields fit, the length fits four bytes, and no field of the record is one that is not written. */
  predicate Connectable(c: Connect) {
    && FitsText(c.clientId) && Len(c) <= MAX_VAR_INT
    && (c.lastWill.Some? ==> c.protocol.V5? && WillSurvives(c.lastWill.value))
    && (c.login.Some? ==> LoginFits(c.login.value))
  }

  predicate LoginFits(l: Login) {
    (l.username != [] || l.password != []) && FitsText(l.username) && FitsField(l.password)
  }

  lemma FlagBits(c: Connect)
    ensures var f := FlagsNumber(c);
            && f < 256 && f % 2 == 0 && f / 2 % 2 == (if c.cleanSession then 1 else 0)
            && f / 4 % 2 == (if c.lastWill.Some? then 1 else 0)
            && (c.lastWill.None? ==> f / 8 % 8 == 0)
            && (c.lastWill.Some? ==> QoSOf(f / 8 % 4) == Ok(c.lastWill.value.qos)
                                     && f / 32 % 2 == (if c.lastWill.value.retain then 1 else 0))
            && f / 64 % 2 == (if c.login.Some? && c.login.value.password != [] then 1 else 0)
            && f / 128 % 2 == (if c.login.Some? && c.login.value.username != [] then 1 else 0)
            && (f / 64 % 4 == 0 <==> c.login.None? || (c.login.value.username == [] && c.login.value.password == []))
  {
    hide QoSOf;
    var clean: nat, there: nat := if c.cleanSession then 1 else 0, if c.lastWill.Some? then 1 else 0;
    var qos: nat := if c.lastWill.None? then 0 else QoSNumber(c.lastWill.value.qos);
    var retain: nat := if c.lastWill.Some? && c.lastWill.value.retain then 1 else 0;
    var pass: nat := if c.login.Some? && c.login.value.password != [] then 1 else 0;
    var user: nat := if c.login.Some? && c.login.value.username != [] then 1 else 0;
    assert FlagsNumber(c) == 2 * clean + 4 * there + 8 * qos + 32 * retain + 64 * pass + 128 * user;
    hide FlagsNumber;
    Bits(clean, there, qos, retain, pass, user);
  }

  function QoSNumber(qos: QoS): (n: nat)
    ensures n < 3 && QoSOf(n) == Ok(qos)
  {
    match qos
    case AtMostOnce => 0
    case AtLeastOnce => 1
    case ExactlyOnce => 2
  }

  lemma Bits(clean: nat, there: nat, qos: nat, retain: nat, pass: nat, user: nat)
    requires clean < 2 && there < 2 && qos < 4 && retain < 2 && pass < 2 && user < 2
    ensures var f := 2 * clean + 4 * there + 8 * qos + 32 * retain + 64 * pass + 128 * user;
            && f < 256 && f % 2 == 0 && f / 2 % 2 == clean && f / 4 % 2 == there
            && f / 8 % 8 == qos + 4 * retain && f / 8 % 4 == qos && f / 32 % 2 == retain
            && f / 64 % 2 == pass && f / 128 % 2 == user && f / 64 % 4 == pass + 2 * user
  {
    var f6 := pass + 2 * user;
    var f5 := retain + 2 * f6;
    var f3 := qos + 4 * f5;
    var f2 := there + 2 * f3;
    Digit(0, clean, f2, 2, 2);
    Peel(0, clean + 2 * f2, 2);
    Digit(2 * clean, there, f3, 4, 2);
    Digit(2 * clean + 4 * there, qos, f5, 8, 4);
    Digit(2 * clean + 4 * there, qos + 4 * retain, f6, 8, 8);
    Digit(2 * clean + 4 * there + 8 * qos, retain, f6, 32, 2);
    Digit(2 * clean + 4 * there + 8 * qos + 32 * retain, pass, user, 64, 2);
    Digit(2 * clean + 4 * there + 8 * qos + 32 * retain, f6, 0, 64, 4);
    Digit(2 * clean + 4 * there + 8 * qos + 32 * retain + 64 * pass, user, 0, 128, 2);
  }

  /** A group of bits in the middle of a number. */
  lemma Digit(low: nat, digit: nat, high: nat, base: nat, width: nat)
    requires low < base && digit < width && base in {2, 4, 8, 32, 64, 128} && width in {2, 4, 8}
    ensures (low + base * (digit + width * high)) / base % width == digit
  {
    Peel(low, digit + width * high, base);
    Peel(digit, high, width);
  }

  /** The digits of a number at one place. */
  lemma Peel(low: nat, high: nat, base: nat)
    requires low < base && base in {2, 4, 8, 32, 64, 128}
    ensures (low + base * high) / base == high && (low + base * high) % base == low
  {
    if base == 2 {
    } else if base == 4 {
    } else if base == 8 {
    } else if base == 32 {
    } else if base == 64 {
    } else {
    }
  }

  lemma DecodesWill(flags: nat, w: LastWill, rest: Bytes)
    requires flags / 4 % 2 == 1 && QoSOf(flags / 8 % 4) == Ok(w.qos) && (flags / 32 % 2 == 1 <==> w.retain)
    ensures var r := DecodeWill(V5, flags, WillBytes(w) + rest);
            && (r.Ok? && r.value.0 == Some(w) <==> WillSurvives(w))
            && (WillSurvives(w) ==> r == Ok((Some(w), rest)))
  {
    hide ReadProperties, WriteBlock, Items, PropertiesSurvive, ReadBlock, EncodeField, ReadText, ReadField;
    var s2 := EncodeField(w.message) + rest;
    var s1 := EncodeField(w.topic) + s2;
    var block := if w.properties.None? then Encode(0) else WriteBlock(Items(w.properties.value));
    assert WillBytes(w) + rest == block + s1;
    PropertiesOfWill(w, s1);
    ReadTextExact(s1, w.topic, s2);
    ReadFieldExact(s2, w.message, rest);
    var r := DecodeWill(V5, flags, WillBytes(w) + rest);
    if r.Ok? && r.value.0 == Some(w) {
      var t2 := ReadText(s1).value.1;
      ReadTextExact(s1, w.topic, t2);
      assert t2 == s1[|EncodeField(w.topic)|..] == s2;
      ReadFieldExact(s2, w.message, ReadField(s2).value.1);
    }
  }

  lemma DecodesUser(flags: nat, user: Bytes, rest: Bytes)
    requires flags / 128 % 2 == if user != [] then 1 else 0
    ensures var r := DecodeUser(flags, (if user == [] then [] else EncodeField(user)) + rest);
            && (r == Ok((user, rest)) <==> FitsText(user))
            && (r.Ok? && r.value.0 == user ==> r.value.1 == rest)
  {
    if user == [] {
      assert [] + rest == rest && FitsText([]);
    } else {
      hide EncodeField, ReadText;
      var s := EncodeField(user) + rest;
      ReadTextExact(s, user, rest);
      var r := ReadText(s);
      if r.Ok? && r.value.0 == user {
        ReadTextExact(s, user, r.value.1);
        SamePrefix(EncodeField(user), rest, r.value.1);
      }
    }
  }

  lemma DecodesPassword(flags: nat, pass: Bytes)
    requires flags / 64 % 2 == if pass != [] then 1 else 0
    ensures DecodePassword(flags, if pass == [] then [] else EncodeField(pass)) == Ok((pass, [])) <==> FitsField(pass)
  {
    if pass != [] {
      ReadFieldExact(EncodeField(pass), pass, []);
      assert EncodeField(pass) + [] == EncodeField(pass);
    }
  }

  lemma DecodesLogin(flags: nat, login: Option<Login>)
    requires flags / 128 % 2 == (if login.Some? && login.value.username != [] then 1 else 0)
    requires flags / 64 % 2 == (if login.Some? && login.value.password != [] then 1 else 0)
    requires flags / 64 % 4 == 0 <==> login.None? || (login.value.username == [] && login.value.password == [])
    ensures var bytes := if login.None? then [] else LoginBytes(login.value);
            DecodeLogin(flags, bytes) == Ok((login, [])) <==> (login.Some? ==> LoginFits(login.value))
  {
    if login.Some? {
      hide EncodeField, DecodeUser, DecodePassword;
      var user, pass := login.value.username, login.value.password;
      var s2 := if pass == [] then [] else EncodeField(pass);
      DecodesUser(flags, user, s2);
      DecodesPassword(flags, pass);
      var first := DecodeUser(flags, LoginBytes(login.value));
      if first.Ok? && first.value.0 == user {
        assert first == Ok((user, s2));
      }
    }
  }

  lemma DecodesPayload(c: Connect)
    requires c.lastWill.Some? ==> c.protocol.V5?
    ensures DecodePayload(c.protocol, FlagsNumber(c), c.keepAlive, EncodeField(c.clientId) + Tail(c)) == Ok(c)
            <==> && FitsText(c.clientId)
                 && (c.lastWill.Some? ==> WillSurvives(c.lastWill.value))
                 && (c.login.Some? ==> LoginFits(c.login.value))
  {
    hide FlagsNumber, WillSurvives, LoginFits, EncodeField, ReadText, DecodeLogin, DecodeWill, ValidUtf8, QoSOf, Tail;
    hide FitsText;
    FlagBits(c);
    var f, s := FlagsNumber(c), EncodeField(c.clientId) + Tail(c);
    ReadTextExact(s, c.clientId, Tail(c));
    WillThenLogin(c);
    if ReadText(s).Ok? && ReadText(s).value.0 == c.clientId {
      ReadTextExact(s, c.clientId, ReadText(s).value.1);
      SamePrefix(EncodeField(c.clientId), Tail(c), ReadText(s).value.1);
    }
  }

  lemma SamePrefix(a: Bytes, x: Bytes, y: Bytes)
    requires a + x == a + y
    ensures x == y
  {
    assert x == (a + x)[|a|..];
  }

  /** What is behind the client id. */
  lemma WillThenLogin(c: Connect)
    requires c.lastWill.Some? ==> c.protocol.V5?
    ensures var f := FlagsNumber(c);
            var will := DecodeWill(c.protocol, f, Tail(c));
            (&& will.Ok? && will.value.0 == c.lastWill
             && DecodeLogin(f, will.value.1).Ok? && DecodeLogin(f, will.value.1).value.0 == c.login
             && DecodeLogin(f, will.value.1).value.1 == [])
            <==> && (c.lastWill.Some? ==> WillSurvives(c.lastWill.value))
                 && (c.login.Some? ==> LoginFits(c.login.value))
  {
    FlagBits(c);
    hide FlagsNumber, WillBytes, LoginBytes, WillSurvives, LoginFits, QoSOf;
    var login := if c.login.None? then [] else LoginBytes(c.login.value);
    assert [] + login == login;
    DecodesLogin(FlagsNumber(c), c.login);
    if c.lastWill.Some? {
      hide DecodeWill;
      DecodesWill(FlagsNumber(c), c.lastWill.value, login);
    }
  }

  // ----- The whole packet -----

  /** Where everything stands in the body that is written. */
  lemma BodyParts(c: Connect, flags: bv8)
    ensures var body := Body(c, flags);
            && |body| >= 10 && body[..6] == [0, 4, 77, 81, 84, 84] && body[6] == (if c.protocol.V4? then 4 else 5)
            && body[7] as int == flags as int && body[8] as int * 256 + body[9] == c.keepAlive
            && (c.protocol.V4? ==> body[10..] == EncodeField(c.clientId) + Tail(c))
            && (c.protocol.V5? ==> |body| > 10 && body[10] == 0 && body[11..] == EncodeField(c.clientId) + Tail(c))
  {
    var more := EncodeField(c.clientId) + Tail(c);
    hide EncodeField, Tail;
    MqttField();
    assert Encode(0) == [0];
    var head := [0, 4, 77, 81, 84, 84] + [if c.protocol.V4? then 4 else 5] + [flags as byte] + EncodeU16(c.keepAlive);
    assert Body(c, flags) == head + (if c.protocol.V5? then [0] else []) + more;
  }

  lemma MqttField()
    ensures EncodeField(MQTT) == [0, 4, 77, 81, 84, 84]
  {
  }

  lemma DecodesBody(c: Connect)
    ensures DecodeBody(Body(c, Flags(c)))
            == DecodePayload(c.protocol, FlagsNumber(c), c.keepAlive, EncodeField(c.clientId) + Tail(c))
  {
    FlagsAreNumber(c);
    FlagBits(c);
    BodyParts(c, Flags(c));
    hide Flags, FlagsNumber, Body, DecodePayload;
  }

  /** How much of the payload a decoded packet accounts for. */
  lemma PayloadLength(c: Connect, s: Bytes)
    requires DecodePayload(c.protocol, FlagsNumber(c), c.keepAlive, s) == Ok(c) && c.protocol.V4? && c.lastWill.Some?
    ensures c.lastWill.value.properties.None?
    ensures |s| == 2 + |c.clientId| + 2 + |c.lastWill.value.topic| + 2 + |c.lastWill.value.message|
                   + if c.login.None? then 0 else |LoginBytes(c.login.value)|
  {
    FlagBits(c);
    hide FlagsNumber, ValidUtf8, QoSOf;
    var f := FlagsNumber(c);
    var s1 := ReadText(s).value.1;
    assert |s1| == |s| - 2 - |c.clientId|;
    var will := DecodeWill(V4, f, s1).value;
    WillLength(f, s1);
    LoginLength(f, will.1, c.login);
  }

  lemma WillLength(flags: nat, s: Bytes)
    requires flags / 4 % 2 == 1 && DecodeWill(V4, flags, s).Ok?
    ensures var (will, rest) := DecodeWill(V4, flags, s).value;
            will.Some? && will.value.properties.None? && |rest| == |s| - 2 - |will.value.topic| - 2 - |will.value.message|
  {
    hide ValidUtf8, QoSOf;
  }

  lemma LoginLength(flags: nat, s: Bytes, login: Option<Login>)
    requires DecodeLogin(flags, s) == Ok((login, []))
    requires flags / 64 % 2 == (if login.Some? && login.value.password != [] then 1 else 0)
    requires flags / 128 % 2 == (if login.Some? && login.value.username != [] then 1 else 0)
    ensures |s| == if login.None? then 0 else |LoginBytes(login.value)|
  {
    hide ValidUtf8;
  }

  /** In MQTT 3.1.1 the property length before the will topic is one byte too many: no will gets through. */
  lemma NoWillInV4(c: Connect)
    requires c.protocol.V4? && c.lastWill.Some?
    ensures DecodePayload(c.protocol, FlagsNumber(c), c.keepAlive, EncodeField(c.clientId) + Tail(c)) != Ok(c)
  {
    var s := EncodeField(c.clientId) + Tail(c);
    if DecodePayload(c.protocol, FlagsNumber(c), c.keepAlive, s) == Ok(c) {
      PayloadLength(c, s);
      hide LoginBytes, DecodePayload;
      assert |Encode(0)| == 1 by { OneByteZero(); }
    }
  }

  /**
   A written CONNECT is decoded to what was written exactly if everything in it fits, it is not a login without
   credentials, and it has no will in MQTT 3.1.1.
   */
  lemma ConnectDecodes(c: Connect)
    ensures DecodeConnect(Frame(c, Flags(c))) == Ok(c) <==> Connectable(c)
  {
    var frame, body := Frame(c, Flags(c)), Body(c, Flags(c));
    DecodeEncode(Len(c), body);
    DecodesBody(c);
    hide Flags, Len, Body, Encode, Decode, DecodeBody, Tail, FlagsNumber, DecodePayload, WillSurvives, LoginFits;
    hide FitsText;
    assert frame[1..] == Encode(Len(c)) + body;
    if Len(c) <= MAX_VAR_INT {
      ShortWillFits(c);
      LenIsWritten(c, Flags(c));
      assert (Encode(Len(c)) + body)[|Encode(Len(c))|..] == body;
      if c.protocol.V4? && c.lastWill.Some? {
        NoWillInV4(c);
      } else {
        DecodesPayload(c);
      }
    }
  }
}
