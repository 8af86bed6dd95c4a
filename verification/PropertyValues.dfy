/**
 What a list of properties says, by the identifier numbers of section 2.2.2.2 of MQTT 5.0: the values the record of every
 packet is compared with.
 */
module PropertyValues {
  import opened Wire
  import opened Properties
  import opened PropertyLists

  /** The value of the last item with this identifier. */
  function LastOf(items: seq<Item>, prop: byte): Option<Value>
    decreases |items|
  {
    if items == [] then None
    else if items[|items| - 1].prop == prop then Some(items[|items| - 1].value)
    else LastOf(items[..|items| - 1], prop)
  }

  /** All user properties, in order. */
  function PairsOf(items: seq<Item>): seq<(Bytes, Bytes)>
    decreases |items|
  {
    if items == [] then []
    else
      var it := items[|items| - 1];
      PairsOf(items[..|items| - 1])
      + if it.prop == 38 && it.value.PairValue? then [(it.value.key, it.value.val)] else []
  }

  /** All subscription identifiers, in order. */
  function IdentifiersOf(items: seq<Item>): seq<nat>
    decreases |items|
  {
    if items == [] then []
    else
      var it := items[|items| - 1];
      IdentifiersOf(items[..|items| - 1]) + if it.prop == 11 && it.value.VarIntValue? then [it.value.n] else []
  }

  function ByteOf(v: Option<Value>): Option<byte> {
    if v.Some? && v.value.ByteValue? then Some(v.value.b) else None
  }

  function U16Of(v: Option<Value>): Option<u16> {
    if v.Some? && v.value.U16Value? then Some(v.value.half) else None
  }

  function U32Of(v: Option<Value>): Option<u32> {
    if v.Some? && v.value.U32Value? then Some(v.value.word) else None
  }

  function TextOf(v: Option<Value>): Option<Bytes> {
    if v.Some? && v.value.TextValue? then Some(v.value.text) else None
  }

  function BinaryOf(v: Option<Value>): Option<Bytes> {
    if v.Some? && v.value.BinaryValue? then Some(v.value.data) else None
  }

  ghost predicate Accepted(accepted: set<byte>, items: seq<Item>) {
    forall i :: 0 <= i < |items| ==> Readable(accepted, items[i])
  }

  lemma LastOfSnoc(items: seq<Item>)
    requires items != []
    ensures var init, it := items[..|items| - 1], items[|items| - 1];
            && (forall prop :: LastOf(items, prop) == if it.prop == prop then Some(it.value) else LastOf(init, prop))
            && PairsOf(items)
               == PairsOf(init) + (if it.prop == 38 && it.value.PairValue? then [(it.value.key, it.value.val)] else [])
            && IdentifiersOf(items)
               == IdentifiersOf(init) + (if it.prop == 11 && it.value.VarIntValue? then [it.value.n] else [])
  {
  }

  /** Which identifiers carry which kind of value. */
  predicate WellTyped(it: Item) {
    && (it.value.ByteValue? <==> it.prop in {1, 23, 25, 36, 37, 40, 41, 42})
    && (it.value.U16Value? <==> it.prop in {19, 33, 34, 35})
    && (it.value.U32Value? <==> it.prop in {2, 17, 24, 39})
    && (it.value.TextValue? <==> it.prop in {3, 8, 18, 21, 26, 28, 31})
    && (it.value.BinaryValue? <==> it.prop in {9, 22})
    && (it.value.PairValue? <==> it.prop == 38)
    && (it.value.VarIntValue? <==> it.prop == 11)
  }

  predicate Typed(accepted: set<byte>, it: Item) {
    it.prop in accepted && WellTyped(it)
  }

  lemma ReadableIsTyped(accepted: set<byte>, it: Item)
    requires Readable(accepted, it)
    ensures Typed(accepted, it)
  {
    hide ValidValue;
  }
}
