/** A key-value server as MGET, DEL and MSET see it, and what splitting one of these commands
    by hash slot does to its meaning. The slot of a key is a parameter: nothing here depends
    on how it is computed. */
module KeyValue {
  import opened Bytes

  type Store = map<Text, Text>
  type SlotOf = Text -> nat

  datatype Item = Item(key: Text, value: Text)

  // ---------- the commands, run one key at a time as the server does ----------

  function Fetch(store: Store, key: Text): Option<Text> {
    if key in store then Some(store[key]) else None
  }

  function MGet(store: Store, items: seq<Item>): (r: seq<Option<Text>>)
    ensures |r| == |items| && forall i :: 0 <= i < |r| ==> r[i] == Fetch(store, items[i].key)
  {
    if items == [] then [] else [Fetch(store, items[0].key)] + MGet(store, items[1..])
  }

  function MSet(store: Store, items: seq<Item>): Store
    decreases |items|
  {
    if items == [] then store else MSet(store[items[0].key := items[0].value], items[1..])
  }

  function Del(store: Store, items: seq<Item>): Store
    decreases |items|
  {
    if items == [] then store else Del(store - {items[0].key}, items[1..])
  }

  /** The number of keys DEL reports as removed. */
  function DelCount(store: Store, items: seq<Item>): nat
    decreases |items|
  {
    if items == [] then 0
    else (if items[0].key in store then 1 else 0) + DelCount(store - {items[0].key}, items[1..])
  }

  // ---------- fragments ----------

  /** The items whose keys fall in the slots lo, ..., hi - 1, in their original order. */
  function Between(slot: SlotOf, items: seq<Item>, lo: nat, hi: nat): seq<Item> {
    if items == [] then []
    else if lo <= slot(items[0].key) < hi then [items[0]] + Between(slot, items[1..], lo, hi)
    else Between(slot, items[1..], lo, hi)
  }

  function Fragment(slot: SlotOf, items: seq<Item>, s: nat): seq<Item> {
    Between(slot, items, s, s + 1)
  }

  lemma {:induction false} BetweenAppend(slot: SlotOf, a: seq<Item>, b: seq<Item>, lo: nat, hi: nat)
    ensures Between(slot, a + b, lo, hi) == Between(slot, a, lo, hi) + Between(slot, b, lo, hi)
  {
    if a == [] {
      assert a + b == b;
    } else {
      assert (a + b)[1..] == a[1..] + b;
      BetweenAppend(slot, a[1..], b, lo, hi);
    }
  }

  lemma {:induction false} BetweenAll(slot: SlotOf, items: seq<Item>, hi: nat)
    requires forall i :: 0 <= i < |items| ==> slot(items[i].key) < hi
    ensures Between(slot, items, 0, hi) == items
  {
    if items != [] {
      assert forall i :: 0 <= i < |items[1..]| ==> items[1..][i] == items[i + 1];
      BetweenAll(slot, items[1..], hi);
    }
  }

  /** Running the fragments of the slots below `n`, in slot order. */
  function MSetFragments(slot: SlotOf, store: Store, items: seq<Item>, n: nat): Store {
    if n == 0 then store
    else MSet(MSetFragments(slot, store, items, n - 1), Fragment(slot, items, n - 1))
  }

  function DelFragments(slot: SlotOf, store: Store, items: seq<Item>, n: nat): Store {
    if n == 0 then store
    else Del(DelFragments(slot, store, items, n - 1), Fragment(slot, items, n - 1))
  }

  function DelFragmentsCount(slot: SlotOf, store: Store, items: seq<Item>, n: nat): nat {
    if n == 0 then 0
    else
      DelFragmentsCount(slot, store, items, n - 1)
      + DelCount(DelFragments(slot, store, items, n - 1), Fragment(slot, items, n - 1))
  }

  // ---------- MSET ----------

  /** The value the last item with this key gives it. */
  function Last(items: seq<Item>, key: Text): Option<Text> {
    if items == [] then None
    else if Last(items[1..], key).Some? then Last(items[1..], key)
    else if items[0].key == key then Some(items[0].value)
    else None
  }

  lemma {:induction false} MSetLast(store: Store, items: seq<Item>, key: Text)
    ensures Fetch(MSet(store, items), key) == if Last(items, key).Some? then Last(items, key) else Fetch(store, key)
    decreases |items|
  {
    if items != [] { MSetLast(store[items[0].key := items[0].value], items[1..], key); }
  }

  lemma {:induction false} LastBetween(slot: SlotOf, items: seq<Item>, lo: nat, hi: nat, key: Text)
    ensures Last(Between(slot, items, lo, hi), key) == if lo <= slot(key) < hi then Last(items, key) else None
  {
    if items != [] {
      LastBetween(slot, items[1..], lo, hi, key);
      var rest := Between(slot, items[1..], lo, hi);
      assert ([items[0]] + rest)[1..] == rest;
    }
  }

  lemma StoresEqual(a: Store, b: Store)
    requires forall key :: Fetch(a, key) == Fetch(b, key)
    ensures a == b
  {
    forall key ensures key in a <==> key in b { assert Fetch(a, key) == Fetch(b, key); }
    forall key | key in a ensures a[key] == b[key] { assert Fetch(a, key) == Fetch(b, key); }
  }

  lemma {:induction false} MSetBelow(slot: SlotOf, store: Store, items: seq<Item>, n: nat)
    ensures MSetFragments(slot, store, items, n) == MSet(store, Between(slot, items, 0, n))
  {
    if n == 0 {
      NothingBelowZero(slot, items);
    } else {
      MSetBelow(slot, store, items, n - 1);
      MSetNext(slot, store, items, n - 1);
    }
  }

  /** Setting one fragment more. */
  lemma MSetNext(slot: SlotOf, store: Store, items: seq<Item>, s: nat)
    ensures MSet(MSet(store, Between(slot, items, 0, s)), Fragment(slot, items, s)) == MSet(store, Between(slot, items, 0, s + 1))
  {
    var before := MSet(store, Between(slot, items, 0, s));
    forall key
      ensures Fetch(MSet(before, Fragment(slot, items, s)), key) == Fetch(MSet(store, Between(slot, items, 0, s + 1)), key)
    {
      MSetLast(before, Fragment(slot, items, s), key);
      MSetLast(store, Between(slot, items, 0, s), key);
      MSetLast(store, Between(slot, items, 0, s + 1), key);
      LastBetween(slot, items, s, s + 1, key);
      LastBetween(slot, items, 0, s, key);
      LastBetween(slot, items, 0, s + 1, key);
    }
    StoresEqual(MSet(before, Fragment(slot, items, s)), MSet(store, Between(slot, items, 0, s + 1)));
  }

  lemma {:induction false} NothingBelowZero(slot: SlotOf, items: seq<Item>)
    ensures Between(slot, items, 0, 0) == []
  {
    if items != [] { NothingBelowZero(slot, items[1..]); }
  }

  /** Splitting MSET by slot leaves the same store behind as the unsplit command, because
      equal keys stay in one fragment and in their order. */
  lemma SplitMSet(slot: SlotOf, store: Store, items: seq<Item>, n: nat)
    requires forall i :: 0 <= i < |items| ==> slot(items[i].key) < n
    ensures MSetFragments(slot, store, items, n) == MSet(store, items)
  {
    MSetBelow(slot, store, items, n);
    BetweenAll(slot, items, n);
  }

  // ---------- DEL ----------

  function Keys(items: seq<Item>): set<Text> {
    if items == [] then {} else {items[0].key} + Keys(items[1..])
  }

  /** DEL removes the keys it names. */
  lemma {:induction false} DelRemoves(store: Store, items: seq<Item>)
    ensures Del(store, items) == store - Keys(items)
    decreases |items|
  {
    if items != [] {
      DelRemoves(store - {items[0].key}, items[1..]);
      assert store - {items[0].key} - Keys(items[1..]) == store - ({items[0].key} + Keys(items[1..]));
    }
  }

  /** DEL counts the distinct keys it names that were there. */
  lemma {:induction false} DelCounts(store: Store, items: seq<Item>)
    ensures DelCount(store, items) == |store.Keys * Keys(items)|
    decreases |items|
  {
    if items == [] {
      assert store.Keys * {} == {};
    } else {
      DelCounts(store - {items[0].key}, items[1..]);
      RemoveOne(store.Keys, (store - {items[0].key}).Keys, items[0].key, Keys(items[1..]));
    }
  }

  lemma RemoveOne(present: set<Text>, left: set<Text>, key: Text, rest: set<Text>)
    requires left == present - {key}
    ensures |present * ({key} + rest)| == (if key in present then 1 else 0) + |left * rest|
  {
    assert present * ({key} + rest) == left * rest + if key in present then {key} else {};
  }

  lemma {:induction false} KeysBetween(slot: SlotOf, items: seq<Item>, lo: nat, hi: nat)
    ensures Keys(Between(slot, items, lo, hi)) == set key | key in Keys(items) && lo <= slot(key) < hi
  {
    if items != [] {
      KeysBetween(slot, items[1..], lo, hi);
      var rest := Between(slot, items[1..], lo, hi);
      assert ([items[0]] + rest)[1..] == rest;
    }
  }

  lemma {:induction false} DelBelow(slot: SlotOf, store: Store, items: seq<Item>, n: nat)
    ensures DelFragments(slot, store, items, n) == store - Keys(Between(slot, items, 0, n))
    decreases n
  {
    if n == 0 {
      NothingBelowZero(slot, items);
      assert store - {} == store;
    } else {
      DelBelow(slot, store, items, n - 1);
      DelRemoves(DelFragments(slot, store, items, n - 1), Fragment(slot, items, n - 1));
      KeysSplit(slot, items, n);
      RemoveTwice(store, Keys(Between(slot, items, 0, n - 1)), Keys(Fragment(slot, items, n - 1)));
    }
  }

  lemma RemoveTwice(store: Store, a: set<Text>, b: set<Text>)
    ensures store - a - b == store - (a + b)
  {
  }

  lemma {:induction false} DelCountBelow(slot: SlotOf, store: Store, items: seq<Item>, n: nat)
    ensures DelFragmentsCount(slot, store, items, n) == |store.Keys * Keys(Between(slot, items, 0, n))|
    decreases n
  {
    if n == 0 {
      DelCountNone(slot, store, items);
    } else {
      var s := n - 1;
      DelCountNext(slot, store, items, n, Fragment(slot, items, s));
      DelCountBelow(slot, store, items, s);
      calc {
        DelFragmentsCount(slot, store, items, n);
        DelFragmentsCount(slot, store, items, s) + DelCount(DelFragments(slot, store, items, s), Fragment(slot, items, s));
        |store.Keys * Keys(Between(slot, items, 0, n))|;
      }
    }
  }

  lemma DelCountNone(slot: SlotOf, store: Store, items: seq<Item>)
    ensures |store.Keys * Keys(Between(slot, items, 0, 0))| == 0
  {
    NothingBelowZero(slot, items);
    assert store.Keys * {} == {};
  }

  lemma DelCountNext(slot: SlotOf, store: Store, items: seq<Item>, n: nat, fragment: seq<Item>)
    requires n > 0 && fragment == Fragment(slot, items, n - 1)
    ensures |store.Keys * Keys(Between(slot, items, 0, n - 1))| + DelCount(DelFragments(slot, store, items, n - 1), fragment)
         == |store.Keys * Keys(Between(slot, items, 0, n))|
  {
    LeftBelow(slot, store, items, n - 1);
    KeysSplit(slot, items, n);
    DelCountStep(store, DelFragments(slot, store, items, n - 1), fragment, Keys(Between(slot, items, 0, n - 1)), Keys(fragment));
  }

  lemma LeftBelow(slot: SlotOf, store: Store, items: seq<Item>, n: nat)
    ensures Remain(DelFragments(slot, store, items, n).Keys, store.Keys, Keys(Between(slot, items, 0, n)))
  {
    DelBelow(slot, store, items, n);
  }

  lemma DelCountStep(store: Store, left: Store, fragment: seq<Item>, below: set<Text>, keys: set<Text>)
    requires Remain(left.Keys, store.Keys, below) && keys == Keys(fragment) && Apart(below, keys)
    ensures |store.Keys * below| + DelCount(left, fragment) == |store.Keys * (below + keys)|
  {
    DelCounts(left, fragment);
    SplitCount(store.Keys, left.Keys, below, keys);
  }

  /** `left` is what remains of `present` without `gone`. */
  ghost predicate Remain(left: set<Text>, present: set<Text>, gone: set<Text>) {
    forall key :: key in left <==> key in present && key !in gone
  }

  predicate Apart(a: set<Text>, b: set<Text>) { a !! b }

  lemma KeysSplit(slot: SlotOf, items: seq<Item>, n: nat)
    requires n > 0
    ensures Apart(Keys(Between(slot, items, 0, n - 1)), Keys(Fragment(slot, items, n - 1)))
    ensures Keys(Between(slot, items, 0, n)) == Keys(Between(slot, items, 0, n - 1)) + Keys(Fragment(slot, items, n - 1))
  {
    KeysBetween(slot, items, n - 1, n);
    KeysBetween(slot, items, 0, n - 1);
    KeysBetween(slot, items, 0, n);
  }

  lemma SplitCount(present: set<Text>, left: set<Text>, a: set<Text>, b: set<Text>)
    requires Apart(a, b) && Remain(left, present, a)
    ensures |present * a| + |left * b| == |present * (a + b)|
  {
    assert left == present - a;
    assert left * b == present * b;
    assert present * (a + b) == present * a + present * b;
  }

  /** Splitting DEL by slot removes the same keys and reports the same count, duplicate keys
      included. */
  lemma SplitDel(slot: SlotOf, store: Store, items: seq<Item>, n: nat)
    requires forall i :: 0 <= i < |items| ==> slot(items[i].key) < n
    ensures DelFragments(slot, store, items, n) == Del(store, items)
    ensures DelFragmentsCount(slot, store, items, n) == DelCount(store, items)
  {
    DelBelow(slot, store, items, n);
    DelCountBelow(slot, store, items, n);
    BetweenAll(slot, items, n);
    DelRemoves(store, items);
    DelCounts(store, items);
  }

  // ---------- MGET ----------

  /** Item `i` sits in its fragment behind exactly those of its fragment that come before it. */
  lemma ItemInFragment(slot: SlotOf, items: seq<Item>, i: nat)
    requires i < |items|
    ensures var s := slot(items[i].key);
      var rank := |Fragment(slot, items[..i], s)|;
      rank < |Fragment(slot, items, s)| && Fragment(slot, items, s)[rank] == items[i]
  {
    var s := slot(items[i].key);
    assert items == items[..i] + ([items[i]] + items[i + 1..]);
    BetweenAppend(slot, items[..i], [items[i]] + items[i + 1..], s, s + 1);
    assert ([items[i]] + items[i + 1..])[1..] == items[i + 1..];
  }
}
