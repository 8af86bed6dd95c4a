/**
 The bytes of a property and of a property block, by the tables of section 2.2.2 of MQTT 5.0: what each reader accepts,
 both ways, the reader of PUBLISH with its drifting cursor included.
 */
module PropertyBytes {
  import opened Wire
  import opened VarInt
  import opened Properties
  import opened PropertyValues
  import opened Numerals

  // ----- One property -----

  /** A two-byte length and a field of that length. */
  predicate IsField(s: Bytes, field: Bytes) {
    |s| == 2 + |field| && BigEndian(s[..2]) == |field| && s[2..] == field
  }

  predicate IsTextField(s: Bytes, text: Bytes) {
    IsField(s, text) && ValidUtf8(text)
  }

  predicate SpellsValue(s: Bytes, v: Value) {
    match v
    case ByteValue(b) => s == [b]
    case U16Value(n) => |s| == 2 && BigEndian(s) == n
    case U32Value(n) => |s| == 4 && BigEndian(s) == n
    case TextValue(t) => IsTextField(s, t)
    case BinaryValue(d) => IsField(s, d)
    case PairValue(key, val) =>
      2 + |key| <= |s| && IsTextField(s[..2 + |key|], key) && IsTextField(s[2 + |key|..], val)
    case VarIntValue(n) => IsVarInt(s, n)
  }

  /** The bytes of one property: its identifier, and a value of the kind that belongs to it. */
  predicate Spells(s: Bytes, it: Item) {
    s != [] && s[0] == it.prop && WellTyped(it) && SpellsValue(s[1..], it.value)
  }

  /** What is left is the end of what there was. */
  predicate EndsWith(s: Bytes, rest: Bytes) {
    |rest| <= |s| && s[|s| - |rest|..] == rest
  }

  lemma FieldSpelled(front: Bytes, field: Bytes, rest: Bytes)
    ensures ReadField(front + rest) == Ok((field, rest)) <==> IsField(front, field)
    ensures ReadText(front + rest) == Ok((field, rest)) <==> IsTextField(front, field)
  {
    var s := front + rest;
    FieldMeans(s, field, rest);
    if |s| >= 2 && s == s[..2] + field + rest {
      assert |front| == 2 + |field|;
      assert front == s[..|front|] && s[..|front|] == s[..2] + field;
      assert front[..2] == s[..2] && front[2..] == field;
    }
    if IsField(front, field) {
      assert s[..2] == front[..2] && front == front[..2] + front[2..];
    }
  }

  lemma U16Spelled(front: Bytes, n: u16, rest: Bytes)
    ensures ReadU16(front + rest) == Ok((n, rest)) <==> |front| == 2 && BigEndian(front) == n
  {
    var s := front + rest;
    U16IsBigEndian(s, n, rest);
    if |s| >= 2 && rest == s[2..] {
      assert |front| == 2 && s[..2] == front;
    }
    if |front| == 2 {
      assert s[..2] == front && s[2..] == rest;
    }
  }

  lemma U32Spelled(front: Bytes, n: u32, rest: Bytes)
    ensures ReadU32(front + rest) == Ok((n, rest)) <==> |front| == 4 && BigEndian(front) == n
  {
    var s := front + rest;
    U32IsBigEndian(s, n, rest);
    if |s| >= 4 && rest == s[4..] {
      assert |front| == 4 && s[..4] == front;
    }
    if |front| == 4 {
      assert s[..4] == front && s[4..] == rest;
    }
  }

  lemma VarIntSpelled(front: Bytes, n: nat, rest: Bytes)
    ensures ReadVarInt(front + rest) == Ok((n, rest)) <==> IsVarInt(front, n)
  {
    var s := front + rest;
    DecodeMeans(s);
    hide Decode, IsVarInt;
    if IsVarInt(front, n) {
      assert s[..|front|] == front && s[|front|..] == rest;
      assert Decode(s) == VarInt.Value(|front|, n);
    }
    if ReadVarInt(s) == Ok((n, rest)) {
      var k := Decode(s).count;
      assert Decode(s) == VarInt.Value(k, n);
      assert |s[k..]| == |rest| && k == |front|;
      assert s[..k] == front;
    }
  }

  lemma PairSpelled(front: Bytes, key: Bytes, val: Bytes, rest: Bytes)
    ensures ReadValue(TextPair, front + rest) == Ok((PairValue(key, val), rest))
            <==> SpellsValue(front, PairValue(key, val))
  {
    hide ReadValue, ReadText, IsTextField;
    var s, k := front + rest, 2 + |key|;
    PairRead(s, key, val, rest);
    if k <= |front| {
      var a, b := front[..k], front[k..];
      assert s == a + (b + rest) && s[k..] == b + rest;
      FieldSpelled(a, key, b + rest);
      FieldSpelled(b, val, rest);
    } else if k <= |s| {
      TextRead(s[k..], val);
      assert |s[k..]| < |rest| + 2 + |val|;
    }
  }

  lemma PairRead(s: Bytes, key: Bytes, val: Bytes, rest: Bytes)
    ensures var k := 2 + |key|;
            ReadValue(TextPair, s) == Ok((PairValue(key, val), rest))
            <==> k <= |s| && ReadText(s) == Ok((key, s[k..])) && ReadText(s[k..]) == Ok((val, rest))
  {
    TextRead(s, key);
    hide ValidUtf8;
  }

  lemma TextRead(s: Bytes, text: Bytes)
    ensures ReadText(s).Ok? && ReadText(s).value.0 == text ==>
              2 + |text| <= |s| && ReadText(s).value.1 == s[2 + |text|..]
  {
  }

  lemma ValueSpelled(shape: Shape, front: Bytes, v: Value, rest: Bytes)
    ensures ReadValue(shape, front + rest) == Ok((v, rest)) <==> HasShape(v, shape) && SpellsValue(front, v)
  {
    var s := front + rest;
    ShapeRead(shape, s);
    if HasShape(v, shape) {
      ValueRead(v, s, rest);
      hide ReadValue, ReadU8, ReadU16, ReadU32, ReadText, ReadField, ReadVarInt, IsTextField, IsField, IsVarInt, BigEndian;
      match v
      case ByteValue(b) => OneByteSpelled(front, b, rest);
      case U16Value(n) => U16Spelled(front, n, rest);
      case U32Value(n) => U32Spelled(front, n, rest);
      case TextValue(t) => FieldSpelled(front, t, rest);
      case BinaryValue(d) => FieldSpelled(front, d, rest);
      case PairValue(key, val) => PairSpelled(front, key, val, rest);
      case VarIntValue(n) => VarIntSpelled(front, n, rest);
    }
  }

  lemma ShapeRead(shape: Shape, s: Bytes)
    ensures ReadValue(shape, s).Ok? ==> HasShape(ReadValue(shape, s).value.0, shape)
  {
    hide ReadU8, ReadU16, ReadU32, ReadText, ReadField, ReadVarInt;
  }

  /** Each shape has its own reader. */
  lemma ValueRead(v: Value, s: Bytes, rest: Bytes)
    ensures match v
            case ByteValue(b) => ReadValue(OneByte, s) == Ok((v, rest)) <==> ReadU8(s) == Ok((b, rest))
            case U16Value(n) => ReadValue(TwoBytes, s) == Ok((v, rest)) <==> ReadU16(s) == Ok((n, rest))
            case U32Value(n) => ReadValue(FourBytes, s) == Ok((v, rest)) <==> ReadU32(s) == Ok((n, rest))
            case TextValue(t) => ReadValue(Text, s) == Ok((v, rest)) <==> ReadText(s) == Ok((t, rest))
            case BinaryValue(d) => ReadValue(Binary, s) == Ok((v, rest)) <==> ReadField(s) == Ok((d, rest))
            case PairValue(_, _) => true
            case VarIntValue(n) => ReadValue(VariableInt, s) == Ok((v, rest)) <==> ReadVarInt(s) == Ok((n, rest))
  {
    hide Decode, ValidUtf8;
  }

  lemma OneByteSpelled(front: Bytes, b: byte, rest: Bytes)
    ensures ReadU8(front + rest) == Ok((b, rest)) <==> front == [b]
  {
    var s := front + rest;
    if s != [] && s[1..] == rest {
      assert |front| == 1 && front == [s[0]];
    }
    if front == [b] {
      assert s[1..] == rest;
    }
  }

  lemma ValueLeavesEnd(shape: Shape, s: Bytes)
    ensures ReadValue(shape, s).Ok? ==> EndsWith(s, ReadValue(shape, s).value.1)
  {
  }

  /** A property is read from exactly the bytes that spell it. */
  lemma ItemSpelled(accepted: set<byte>, front: Bytes, it: Item, rest: Bytes)
    ensures ReadItem(accepted, front + rest) == Ok((it, rest)) <==> it.prop in accepted && Spells(front, it)
  {
    var s := front + rest;
    if front != [] {
      assert s[1..] == front[1..] + rest && s[0] == front[0];
      if ShapeOf(front[0]).Some? {
        ValueSpelled(ShapeOf(front[0]).value, front[1..], it.value, rest);
        TypedByShape(front[0], it.value);
      } else {
        assert !WellTyped(Item(front[0], it.value));
      }
      hide ReadValue, SpellsValue, ShapeOf, HasShape, WellTyped;
    } else if s != [] && ReadItem(accepted, s).Ok? {
      assert |ReadItem(accepted, s).value.1| < |s|;
    }
  }

  lemma TypedByShape(prop: byte, v: Value)
    requires ShapeOf(prop).Some?
    ensures HasShape(v, ShapeOf(prop).value) <==> WellTyped(Item(prop, v))
  {
  }

  // ----- A block -----

  /** Where the reader's cursor stands after i properties: a subscription identifier counts one byte too many. */
  function CursorAt(parts: seq<Bytes>, items: seq<Item>, i: nat): nat
    requires i <= |parts| == |items|
  {
    if i == 0 then 0
    else CursorAt(parts, items, i - 1) + |parts[i - 1]| + if items[i - 1].prop == 11 then 1 else 0
  }

  /** These properties in these bytes, from a cursor on: it falls short of the declared length before each, not after. */
  ghost predicate Lists(accepted: set<byte>, declared: nat, cursor: nat, parts: seq<Bytes>, items: seq<Item>) {
    && |parts| == |items|
    && (forall i :: 0 <= i < |items| ==> items[i].prop in accepted && Spells(parts[i], items[i]))
    && (forall i :: 0 <= i < |items| ==> cursor + CursorAt(parts, items, i) < declared)
    && cursor + CursorAt(parts, items, |items|) >= declared
  }

  lemma {:induction false} CursorCons(part: Bytes, it: Item, parts: seq<Bytes>, items: seq<Item>, i: nat)
    requires i <= |parts| == |items|
    ensures CursorAt([part] + parts, [it] + items, i + 1)
            == |part| + (if it.prop == 11 then 1 else 0) + CursorAt(parts, items, i)
    decreases i
  {
    if i > 0 {
      CursorCons(part, it, parts, items, i - 1);
    } else {
      assert CursorAt([part] + parts, [it] + items, 0) == 0;
    }
  }

  lemma ListsCons(accepted: set<byte>, declared: nat, cursor: nat, part: Bytes, it: Item, parts: seq<Bytes>,
                  items: seq<Item>)
    requires |parts| == |items|
    ensures Lists(accepted, declared, cursor, [part] + parts, [it] + items)
            <==> && cursor < declared && it.prop in accepted && Spells(part, it)
                 && Lists(accepted, declared, cursor + |part| + (if it.prop == 11 then 1 else 0), parts, items)
  {
    hide Spells, CursorAt;
    var all, its := [part] + parts, [it] + items;
    CursorNone(all, its);
    forall i: nat | i <= |items|
      ensures CursorAt(all, its, i + 1) == |part| + (if it.prop == 11 then 1 else 0) + CursorAt(parts, items, i)
    {
      CursorCons(part, it, parts, items, i);
    }
    if Lists(accepted, declared, cursor, all, its) {
      assert it == its[0] && part == all[0];
      forall i | 0 <= i < |items| ensures items[i].prop in accepted && Spells(parts[i], items[i]) {
        assert items[i] == its[i + 1] && parts[i] == all[i + 1];
      }
      assert cursor + CursorAt(all, its, 0) < declared;
      forall i | 0 <= i < |items|
        ensures cursor + |part| + (if it.prop == 11 then 1 else 0) + CursorAt(parts, items, i) < declared
      {
        assert cursor + CursorAt(all, its, i + 1) < declared;
      }
    }
    if cursor < declared && it.prop in accepted && Spells(part, it)
       && Lists(accepted, declared, cursor + |part| + (if it.prop == 11 then 1 else 0), parts, items) {
      forall i | 0 <= i < |its| ensures cursor + CursorAt(all, its, i) < declared {
        if i > 0 {
          var j := i - 1;
          CursorCons(part, it, parts, items, j);
          assert cursor + |part| + (if it.prop == 11 then 1 else 0) + CursorAt(parts, items, j) < declared;
        }
      }
    }
  }

  lemma CursorNone(parts: seq<Bytes>, items: seq<Item>)
    requires |parts| == |items|
    ensures CursorAt(parts, items, 0) == 0
  {
  }

  /** The properties that are read, and the parts they are read from. */
  lemma {:induction false} ItemsRead(accepted: set<byte>, declared: nat, s: Bytes, cursor: nat) returns (parts: seq<Bytes>)
    requires ReadItems(accepted, declared, s, cursor).Ok?
    ensures var (items, rest) := ReadItems(accepted, declared, s, cursor).value;
            Lists(accepted, declared, cursor, parts, items) && s == Flatten(parts) + rest
    decreases |s|
  {
    hide ReadItem, Spells;
    if cursor >= declared {
      parts := [];
      CursorNone([], []);
      assert Flatten(parts) + s == s;
    } else {
      var (it, rest) := ReadItem(accepted, s).value;
      ItemLeavesEnd(accepted, s);
      var part := s[..|s| - |rest|];
      assert s == part + rest;
      ItemSpelled(accepted, part, it, rest);
      var cursor' := cursor + (|s| - |rest|) + Drift(it);
      var more := ItemsRead(accepted, declared, rest, cursor');
      var (items, end) := ReadItems(accepted, declared, rest, cursor').value;
      hide ReadItems, Lists;
      parts := [part] + more;
      ListsCons(accepted, declared, cursor, part, it, more, items);
      assert parts[1..] == more;
      Reassociate(part, Flatten(more), end);
    }
  }

  lemma ItemLeavesEnd(accepted: set<byte>, s: Bytes)
    ensures ReadItem(accepted, s).Ok? ==> EndsWith(s, ReadItem(accepted, s).value.1)
  {
    if s != [] && ShapeOf(s[0]).Some? {
      ValueLeavesEnd(ShapeOf(s[0]).value, s[1..]);
      hide ReadValue, ShapeOf;
    }
  }

  /** And what lies in the bytes is read. */
  lemma {:induction false} ItemsListed(accepted: set<byte>, declared: nat, parts: seq<Bytes>, items: seq<Item>,
                                       rest: Bytes, cursor: nat)
    requires Lists(accepted, declared, cursor, parts, items)
    ensures ReadItems(accepted, declared, Flatten(parts) + rest, cursor) == Ok((items, rest))
    decreases |parts|
  {
    hide ReadItem, Spells;
    if parts == [] {
      CursorNone(parts, items);
      assert Flatten(parts) + rest == rest;
    } else {
      var part, it := parts[0], items[0];
      assert parts == [part] + parts[1..] && items == [it] + items[1..];
      ListsCons(accepted, declared, cursor, part, it, parts[1..], items[1..]);
      var more := Flatten(parts[1..]) + rest;
      Reassociate(part, Flatten(parts[1..]), rest);
      ItemSpelled(accepted, part, it, more);
      var cursor' := cursor + |part| + if it.prop == 11 then 1 else 0;
      ItemsListed(accepted, declared, parts[1..], items[1..], rest, cursor');
      assert |part + more| - |more| == |part|;
      hide Lists, Flatten;
    }
  }

  /** A block: its declared length, and if that is not zero the properties that reach it. */
  ghost predicate IsBlock(accepted: set<byte>, s: Bytes, block: Option<seq<Item>>, rest: Bytes) {
    exists head: Bytes, declared: nat, parts: seq<Bytes> ::
      && s == head + Flatten(parts) + rest && IsVarInt(head, declared)
      && if declared == 0 then block.None? && parts == []
         else block.Some? && Lists(accepted, declared, 0, parts, block.value)
  }

  /** What every property reader of the client accepts, on any bytes. */
  lemma BlockLanguage(accepted: set<byte>, s: Bytes, block: Option<seq<Item>>, rest: Bytes)
    ensures ReadBlock(accepted, s) == Ok((block, rest)) <==> IsBlock(accepted, s, block, rest)
  {
    hide ReadItems, Lists, IsVarInt, Flatten;
    if IsBlock(accepted, s, block, rest) {
      var head: Bytes, declared: nat, parts: seq<Bytes> :|
        && s == head + Flatten(parts) + rest && IsVarInt(head, declared)
        && if declared == 0 then block.None? && parts == []
           else block.Some? && Lists(accepted, declared, 0, parts, block.value);
      BlockListed(accepted, head, declared, parts, block, rest);
    }
    if ReadBlock(accepted, s) == Ok((block, rest)) {
      BlockRead(accepted, s);
    }
  }

  lemma BlockListed(accepted: set<byte>, head: Bytes, declared: nat, parts: seq<Bytes>, block: Option<seq<Item>>,
                    rest: Bytes)
    requires IsVarInt(head, declared)
    requires if declared == 0 then block.None? && parts == []
             else block.Some? && Lists(accepted, declared, 0, parts, block.value)
    ensures ReadBlock(accepted, head + Flatten(parts) + rest) == Ok((block, rest))
  {
    var more := Flatten(parts) + rest;
    VarIntSpelled(head, declared, more);
    hide ReadVarInt, ReadItems, Lists, IsVarInt;
    Reassociate(head, Flatten(parts), rest);
    if declared == 0 {
      assert more == rest;
    } else {
      ItemsListed(accepted, declared, parts, block.value, rest, 0);
    }
  }

  lemma BlockRead(accepted: set<byte>, s: Bytes)
    requires ReadBlock(accepted, s).Ok?
    ensures var (block, rest) := ReadBlock(accepted, s).value; IsBlock(accepted, s, block, rest)
  {
    var (block, rest) := ReadBlock(accepted, s).value;
    var (declared, more) := ReadVarInt(s).value;
    VarIntLeavesEnd(s);
    var head := s[..|s| - |more|];
    assert s == head + more;
    VarIntSpelled(head, declared, more);
    hide ReadVarInt, ReadItems, Lists, IsVarInt;
    if declared == 0 {
      assert Flatten([]) == [] && head + [] + more == s;
    } else {
      var parts := ItemsRead(accepted, declared, more, 0);
      Reassociate(head, Flatten(parts), rest);
    }
  }

  lemma VarIntLeavesEnd(s: Bytes)
    ensures ReadVarInt(s).Ok? ==> EndsWith(s, ReadVarInt(s).value.1)
  {
  }
}
