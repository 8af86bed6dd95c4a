/** What the writers of all property records share: optional items, user properties, and the length added up first. */
module PropertyLists {
  import opened Wire
  import opened VarInt
  import opened Properties

  function ByteItem(prop: byte, b: Option<byte>): (items: seq<Item>)
    ensures |items| <= 1
  {
    if b.None? then [] else [Item(prop, ByteValue(b.value))]
  }

  function U16Item(prop: byte, n: Option<u16>): (items: seq<Item>)
    ensures |items| <= 1
  {
    if n.None? then [] else [Item(prop, U16Value(n.value))]
  }

  function U32Item(prop: byte, n: Option<u32>): (items: seq<Item>)
    ensures |items| <= 1
  {
    if n.None? then [] else [Item(prop, U32Value(n.value))]
  }

  function BinaryItem(prop: byte, data: Option<Bytes>): (items: seq<Item>)
    ensures |items| <= 1
  {
    if data.None? then [] else [Item(prop, BinaryValue(data.value))]
  }

  function TextItem(prop: byte, text: Option<Bytes>): (items: seq<Item>)
    ensures |items| <= 1
  {
    if text.None? then [] else [Item(prop, TextValue(text.value))]
  }

  function UserItems(users: seq<(Bytes, Bytes)>): (items: seq<Item>)
    ensures |items| == |users|
  {
    if users == [] then [] else [Item(USER_PROPERTY, PairValue(users[0].0, users[0].1))] + UserItems(users[1..])
  }

  /** The length the writer adds up for an item before writing it. */
  function DeclaredItem(it: Item): nat {
    1 + match it.value
        case ByteValue(_) => 1
        case U16Value(_) => 2
        case U32Value(_) => 4
        case TextValue(t) => 2 + |t|
        case BinaryValue(d) => 2 + |d|
        case PairValue(key, val) => 2 + |key| + 2 + |val|
        case VarIntValue(n) => LenLen(n)
  }

  function Declared(items: seq<Item>): nat {
    if items == [] then 0 else DeclaredItem(items[0]) + Declared(items[1..])
  }

  function WriteBlock(items: seq<Item>): Bytes {
    Encode(Declared(items)) + EncodeItems(items)
  }

  lemma {:induction false} DeclaredSplit(a: seq<Item>, b: seq<Item>)
    ensures Declared(a + b) == Declared(a) + Declared(b)
  {
    if a == [] {
      assert a + b == b;
    } else {
      DeclaredSplit(a[1..], b);
      assert (a + b)[1..] == a[1..] + b;
    }
  }

  predicate VarIntsFit(items: seq<Item>) {
    forall i :: 0 <= i < |items| && items[i].value.VarIntValue? ==> items[i].value.n <= MAX_VAR_INT
  }

  /** The declared length is the written one exactly if no variable integer is too great; then it is too short. */
  lemma {:induction false} DeclaredIsWritten(items: seq<Item>)
    ensures Declared(items) <= |EncodeItems(items)|
    ensures Declared(items) == |EncodeItems(items)| <==> VarIntsFit(items)
    decreases |items|
  {
    if items != [] {
      var it, tail := items[0], items[1..];
      DeclaredIsWritten(tail);
      ItemLength(it);
      assert forall i :: 0 <= i < |tail| ==> tail[i] == items[i + 1];
      if VarIntsFit(tail) && (it.value.VarIntValue? ==> it.value.n <= MAX_VAR_INT) {
        forall i | 0 <= i < |items| && items[i].value.VarIntValue? ensures items[i].value.n <= MAX_VAR_INT {
          assert i > 0 ==> items[i] == tail[i - 1];
        }
      }
      hide DeclaredItem, EncodeItem;
    }
  }

  lemma ItemLength(it: Item)
    ensures DeclaredItem(it) <= |EncodeItem(it)|
    ensures DeclaredItem(it) == |EncodeItem(it)| <==> (it.value.VarIntValue? ==> it.value.n <= MAX_VAR_INT)
  {
    if it.value.VarIntValue? {
      WidthIsLenLen(it.value.n);
    }
  }

  lemma DeclaredNone()
    ensures Declared([]) == 0
  {
  }

  lemma DeclaredText(prop: byte, text: Option<Bytes>)
    ensures Declared(TextItem(prop, text)) == if text.Some? then 3 + |text.value| else 0
  {
  }

  lemma DeclaredWord(prop: byte, n: Option<u32>)
    ensures Declared(U32Item(prop, n)) == if n.Some? then 5 else 0
  {
  }

  lemma DeclaredByte(prop: byte, b: Option<byte>)
    ensures Declared(ByteItem(prop, b)) == if b.Some? then 2 else 0
  {
  }

  lemma DeclaredBinary(prop: byte, data: Option<Bytes>)
    ensures Declared(BinaryItem(prop, data)) == if data.Some? then 3 + |data.value| else 0
  {
  }

  lemma {:induction false} UserItemsSplit(a: seq<(Bytes, Bytes)>, b: seq<(Bytes, Bytes)>)
    ensures UserItems(a + b) == UserItems(a) + UserItems(b)
  {
    if a == [] {
      assert a + b == b;
    } else {
      UserItemsSplit(a[1..], b);
      assert (a + b)[1..] == a[1..] + b && (a + b)[0] == a[0];
      var head := [Item(USER_PROPERTY, PairValue(a[0].0, a[0].1))];
      Reassociate(head, UserItems(a[1..]), UserItems(b));
    }
  }

  lemma UserItemsSnoc(users: seq<(Bytes, Bytes)>, i: nat)
    requires i < |users|
    ensures var it := Item(USER_PROPERTY, PairValue(users[i].0, users[i].1));
            && UserItems(users[..i + 1]) == UserItems(users[..i]) + [it]
            && Declared(UserItems(users[..i + 1])) == Declared(UserItems(users[..i])) + DeclaredItem(it)
  {
    assert users[..i + 1] == users[..i] + [users[i]];
    UserItemsSplit(users[..i], [users[i]]);
    var it := Item(USER_PROPERTY, PairValue(users[i].0, users[i].1));
    assert UserItems([users[i]]) == [it];
    DeclaredSplit(UserItems(users[..i]), [it]);
    DeclaredOne(it);
  }

  lemma DeclaredOne(it: Item)
    ensures Declared([it]) == DeclaredItem(it)
  {
    assert [it][1..] == [];
  }

  /** The loop over user properties, which every property writer has. */
  method WriteUsers(users: seq<(Bytes, Bytes)>, buffer: BytesMut, ghost start: Bytes, ghost done: seq<Item>)
    returns (ghost more: seq<Item>)
    requires buffer.data == start + EncodeItems(done)
    modifies buffer
    ensures more == done + UserItems(users)
    ensures buffer.data == start + EncodeItems(more)
  {
    hide EncodeItems, EncodeItem;
    more := done;
    assert users[..0] == [];
    var i := 0;
    while i < |users|
      invariant i <= |users|
      invariant more == done + UserItems(users[..i])
      invariant buffer.data == start + EncodeItems(more)
    {
      more := WriteNext(Item(USER_PROPERTY, PairValue(users[i].0, users[i].1)), buffer, start, more);
      UserItemsSnoc(users, i);
      i := i + 1;
    }
    assert users[..i] == users;
  }

  ghost function NoItems(written: Bytes): (items: seq<Item>)
    ensures items == [] && written == written + EncodeItems(items)
  {
    []
  }

  lemma {:induction false} UserItemAt(users: seq<(Bytes, Bytes)>, i: nat)
    requires i < |users|
    ensures UserItems(users)[i] == Item(USER_PROPERTY, PairValue(users[i].0, users[i].1))
  {
    if i > 0 {
      UserItemAt(users[1..], i - 1);
    }
  }

  function Count<T>(o: Option<T>): nat {
    if o.Some? then 1 else 0
  }

  lemma NotWrittenEmpty(items: seq<Item>)
    requires items != []
    ensures |EncodeItems(items)| > 0
  {
  }

  lemma EncodeNone()
    ensures EncodeItems([]) == []
  {
  }

  /** The length loop over user properties. */
  method UsersLen(users: seq<(Bytes, Bytes)>) returns (len: nat)
    ensures len == Declared(UserItems(users))
  {
    hide Declared;
    len := 0;
    assert users[..0] == [];
    DeclaredNone();
    var i := 0;
    while i < |users|
      invariant i <= |users|
      invariant len == Declared(UserItems(users[..i]))
    {
      var (key, value) := users[i];
      len := len + 1 + 2 + |key| + 2 + |value|;
      UserItemsSnoc(users, i);
      i := i + 1;
    }
    assert users[..i] == users;
  }

  lemma DeclaredOption(it: seq<Item>)
    requires |it| <= 1
    ensures Declared(it) == if it == [] then 0 else DeclaredItem(it[0])
  {
    if it != [] {
      assert it == [it[0]];
    }
  }

  /** One `if let Some` of a property writer. */
  method WriteOption(it: seq<Item>, buffer: BytesMut, ghost start: Bytes, ghost done: seq<Item>)
    returns (ghost more: seq<Item>)
    requires |it| <= 1
    requires buffer.data == start + EncodeItems(done)
    modifies buffer
    ensures more == done + it
    ensures buffer.data == start + EncodeItems(more)
  {
    hide EncodeItems;
    if it == [] {
      more := done;
      assert more == done + it;
    } else {
      more := WriteNext(it[0], buffer, start, done);
      assert it == [it[0]];
    }
  }

  // ----- Reading items into a record -----

  /** What a record becomes as the items read are put into it, one after the other. */
  function FoldLeft<P>(apply: (P, Item) -> P, p: P, items: seq<Item>): P
    decreases |items|
  {
    if items == [] then p else FoldLeft(apply, apply(p, items[0]), items[1..])
  }

  lemma {:induction false} FoldLeftSplit<P>(apply: (P, Item) -> P, p: P, a: seq<Item>, b: seq<Item>)
    ensures FoldLeft(apply, p, a + b) == FoldLeft(apply, FoldLeft(apply, p, a), b)
    decreases |a|
  {
    if a == [] {
      assert a + b == b;
    } else {
      FoldLeftSplit(apply, apply(p, a[0]), a[1..], b);
      assert (a + b)[1..] == a[1..] + b;
    }
  }

  lemma FoldLeftOne<P>(apply: (P, Item) -> P, p: P, items: seq<Item>)
    requires |items| <= 1
    ensures FoldLeft(apply, p, items) == if items == [] then p else apply(p, items[0])
  {
  }

  lemma FoldLeftSnoc<P>(apply: (P, Item) -> P, p: P, items: seq<Item>)
    requires items != []
    ensures var n := |items| - 1;
            FoldLeft(apply, p, items) == apply(FoldLeft(apply, p, items[..n]), items[n])
  {
    var n := |items| - 1;
    assert items == items[..n] + [items[n]];
    FoldLeftSplit(apply, p, items[..n], [items[n]]);
    FoldLeftOne(apply, FoldLeft(apply, p, items[..n]), [items[n]]);
  }
}
