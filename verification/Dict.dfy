/** The chained hash table of `hiredis-vip/dict.c` refines a finite map, for any hash function.
    A chain is the sequence of its entries, the first one first. */
module Dict {
  import opened Bytes
  import opened Powers

  datatype Entry<V> = Entry(key: Text, val: V)

  const INITIAL_SIZE := 4
  const LONG_MAX := TWO63 - 1

  /** Any hash function; its results have 32 bits. */
  type Hash = Text -> nat

  function Bucket(hash: Hash, mask: nat, key: Text): nat {
    And(hash(key) % TWO32, mask)
  }

  predicate Has<V>(chain: seq<Entry<V>>, key: Text) {
    exists j :: 0 <= j < |chain| && chain[j].key == key
  }

  predicate Distinct<V>(chain: seq<Entry<V>>) {
    forall i, j :: 0 <= i < j < |chain| ==> chain[i].key != chain[j].key
  }

  /** Chain `i` holds exactly the entries of `m` that belong there, each once. */
  ghost predicate ChainOf<V>(chain: seq<Entry<V>>, i: nat, m: map<Text, V>, hash: Hash, mask: nat) {
    && Distinct(chain)
    && (forall j :: 0 <= j < |chain| ==>
          chain[j].key in m && m[chain[j].key] == chain[j].val && Bucket(hash, mask, chain[j].key) == i)
    && (forall k :: k in m && Bucket(hash, mask, k) == i ==> Has(chain, k))
  }

  ghost predicate TableOf<V>(table: seq<seq<Entry<V>>>, m: map<Text, V>, hash: Hash, mask: nat) {
    forall i :: 0 <= i < |table| ==> ChainOf(table[i], i, m, hash, mask)
  }

  ghost predicate IsSize(n: nat) {
    n >= INITIAL_SIZE && exists p: nat :: Pow2(p) == n
  }

  lemma BucketInRange(hash: Hash, size: nat, key: Text)
    requires IsSize(size)
    ensures Bucket(hash, size - 1, key) < size && Bucket(hash, size - 1, key) == (hash(key) % TWO32) % size
  {
    var p: nat :| Pow2(p) == size;
    AndMask(hash(key) % TWO32, p);
  }

  // ---------- what a change of one chain does ----------

  lemma ChainAdd<V>(chain: seq<Entry<V>>, i: nat, m: map<Text, V>, hash: Hash, mask: nat, e: Entry<V>)
    requires ChainOf(chain, i, m, hash, mask) && e.key !in m
    ensures ChainOf(if Bucket(hash, mask, e.key) == i then [e] + chain else chain, i, m[e.key := e.val], hash, mask)
  {
    var more := [e] + chain;
    if Bucket(hash, mask, e.key) == i {
      forall k | k in m[e.key := e.val] && Bucket(hash, mask, k) == i ensures Has(more, k) {
        if k == e.key {
          assert more[0].key == k;
        } else {
          var j :| 0 <= j < |chain| && chain[j].key == k;
          assert more[j + 1].key == k;
        }
      }
    }
  }

  lemma ChainDelete<V>(chain: seq<Entry<V>>, i: nat, m: map<Text, V>, hash: Hash, mask: nat, j: nat)
    requires ChainOf(chain, i, m, hash, mask) && j < |chain|
    ensures ChainOf(chain[..j] + chain[j + 1..], i, m - {chain[j].key}, hash, mask)
  {
    var less, m' := chain[..j] + chain[j + 1..], m - {chain[j].key};
    forall k | k in m' && Bucket(hash, mask, k) == i ensures Has(less, k) {
      var n :| 0 <= n < |chain| && chain[n].key == k;
      assert less[if n < j then n else n - 1].key == k;
    }
  }

  lemma ChainDeleteOther<V>(chain: seq<Entry<V>>, i: nat, m: map<Text, V>, hash: Hash, mask: nat, key: Text)
    requires ChainOf(chain, i, m, hash, mask) && Bucket(hash, mask, key) != i
    ensures ChainOf(chain, i, m - {key}, hash, mask)
  {
  }

  lemma ChainSet<V>(chain: seq<Entry<V>>, i: nat, m: map<Text, V>, hash: Hash, mask: nat, j: nat, val: V)
    requires ChainOf(chain, i, m, hash, mask) && j < |chain|
    ensures ChainOf(chain[j := Entry(chain[j].key, val)], i, m[chain[j].key := val], hash, mask)
  {
    var key, set' := chain[j].key, chain[j := Entry(chain[j].key, val)];
    forall k | k in m[key := val] && Bucket(hash, mask, k) == i ensures Has(set', k) {
      var n :| 0 <= n < |chain| && chain[n].key == k;
      assert set'[n].key == k;
    }
  }

  lemma ChainSetOther<V>(chain: seq<Entry<V>>, i: nat, m: map<Text, V>, hash: Hash, mask: nat, key: Text, val: V)
    requires ChainOf(chain, i, m, hash, mask) && Bucket(hash, mask, key) != i
    ensures ChainOf(chain, i, m[key := val], hash, mask)
  {
  }

  // ---------- the number of entries ----------

  function Total<V>(table: seq<seq<Entry<V>>>): nat {
    if table == [] then 0 else Total(table[..|table| - 1]) + |table[|table| - 1]|
  }

  /** The keys of the first `n` chains. */
  ghost function KeysBelow<V>(m: map<Text, V>, hash: Hash, mask: nat, n: nat): set<Text> {
    set k | k in m && Bucket(hash, mask, k) < n
  }

  function ChainKeys<V>(chain: seq<Entry<V>>): set<Text> {
    set j | 0 <= j < |chain| :: chain[j].key
  }

  lemma {:induction false} ChainKeysCount<V>(chain: seq<Entry<V>>)
    requires Distinct(chain)
    ensures |ChainKeys(chain)| == |chain|
  {
    if chain != [] {
      var front, n := chain[..|chain| - 1], |chain| - 1;
      ChainKeysCount(front);
      assert ChainKeys(chain) == ChainKeys(front) + {chain[n].key};
      assert chain[n].key !in ChainKeys(front);
    }
  }

  lemma KeysStep<V>(chain: seq<Entry<V>>, i: nat, m: map<Text, V>, hash: Hash, mask: nat)
    requires ChainOf(chain, i, m, hash, mask)
    ensures KeysBelow(m, hash, mask, i + 1) == KeysBelow(m, hash, mask, i) + ChainKeys(chain)
    ensures KeysBelow(m, hash, mask, i) !! ChainKeys(chain)
    ensures |ChainKeys(chain)| == |chain|
  {
    ChainKeysCount(chain);
    forall k | k in KeysBelow(m, hash, mask, i + 1) && k !in KeysBelow(m, hash, mask, i) ensures k in ChainKeys(chain) {
      var j :| 0 <= j < |chain| && chain[j].key == k;
    }
  }

  lemma {:induction false} TotalBelow<V>(table: seq<seq<Entry<V>>>, m: map<Text, V>, hash: Hash, mask: nat, n: nat)
    requires TableOf(table, m, hash, mask) && n <= |table|
    ensures Total(table[..n]) == |KeysBelow(m, hash, mask, n)|
    decreases n
  {
    if n > 0 {
      TotalBelow(table, m, hash, mask, n - 1);
      assert table[..n][..n - 1] == table[..n - 1];
      KeysStep(table[n - 1], n - 1, m, hash, mask);
    } else {
      assert KeysBelow(m, hash, mask, 0) == {};
    }
  }

  lemma AllKeys<V>(m: map<Text, V>, hash: Hash, mask: nat)
    requires IsSize(mask + 1)
    ensures KeysBelow(m, hash, mask, mask + 1) == m.Keys
  {
    forall k | k in m ensures Bucket(hash, mask, k) < mask + 1 { BucketInRange(hash, mask + 1, k); }
  }

  /** The table has as many entries as the map it stands for. */
  lemma EntriesCounted<V>(table: seq<seq<Entry<V>>>, m: map<Text, V>, hash: Hash, mask: nat)
    requires |table| == mask + 1 && IsSize(mask + 1) && TableOf(table, m, hash, mask)
    ensures Total(table) == |m|
  {
    TotalBelow(table, m, hash, mask, mask + 1);
    AllKeys(m, hash, mask);
    assert table[..mask + 1] == table;
    assert |m.Keys| == |m|;
  }

  // ---------- what a change of the table does ----------

  lemma TableAdd<V>(t: seq<seq<Entry<V>>>, m: map<Text, V>, hash: Hash, mask: nat, h: nat, e: Entry<V>)
    requires TableOf(t, m, hash, mask) && e.key !in m && h < |t| && h == Bucket(hash, mask, e.key)
    ensures TableOf(t[h := [e] + t[h]], m[e.key := e.val], hash, mask)
  {
    forall i | 0 <= i < |t| ensures ChainOf(if h == i then [e] + t[i] else t[i], i, m[e.key := e.val], hash, mask) {
      ChainAdd(t[i], i, m, hash, mask, e);
    }
  }

  lemma TableDelete<V>(t: seq<seq<Entry<V>>>, m: map<Text, V>, hash: Hash, mask: nat, h: nat, j: nat)
    requires TableOf(t, m, hash, mask) && h < |t| && j < |t[h]|
    ensures TableOf(t[h := t[h][..j] + t[h][j + 1..]], m - {t[h][j].key}, hash, mask)
  {
    ChainDelete(t[h], h, m, hash, mask, j);
    var key := t[h][j].key;
    forall i | 0 <= i < |t| && i != h ensures ChainOf(t[i], i, m - {key}, hash, mask) {
      ChainDeleteOther(t[i], i, m, hash, mask, key);
    }
  }

  lemma TableSet<V>(t: seq<seq<Entry<V>>>, m: map<Text, V>, hash: Hash, mask: nat, h: nat, j: nat, val: V)
    requires TableOf(t, m, hash, mask) && h < |t| && j < |t[h]|
    ensures var key := t[h][j].key; TableOf(t[h := t[h][j := Entry(key, val)]], m[key := val], hash, mask)
  {
    ChainSet(t[h], h, m, hash, mask, j, val);
    var key := t[h][j].key;
    forall i | 0 <= i < |t| && i != h ensures ChainOf(t[i], i, m[key := val], hash, mask) {
      ChainSetOther(t[i], i, m, hash, mask, key, val);
    }
  }

  /** A key is in the map exactly if it is in its chain. */
  lemma InItsChain<V>(t: seq<seq<Entry<V>>>, m: map<Text, V>, hash: Hash, mask: nat, key: Text)
    requires TableOf(t, m, hash, mask) && Bucket(hash, mask, key) < |t|
    ensures key in m <==> Has(t[Bucket(hash, mask, key)], key)
  {
    assert ChainOf(t[Bucket(hash, mask, key)], Bucket(hash, mask, key), m, hash, mask);
  }

  predicate Within<V(==)>(a: map<Text, V>, b: map<Text, V>) {
    forall k :: k in a ==> k in b && a[k] == b[k]
  }

  lemma WithinFull<V>(a: map<Text, V>, b: map<Text, V>)
    requires Within(a, b)
    ensures |a| <= |b| && (|a| == |b| || a.Keys == b.Keys ==> a == b)
  {
    Subset(a.Keys, b.Keys);
    assert |a.Keys| == |a| && |b.Keys| == |b|;
  }

  lemma {:induction false} Subset(a: set<Text>, b: set<Text>)
    requires a <= b
    ensures |a| <= |b| && (|a| == |b| ==> a == b)
    decreases |a|
  {
    if a != {} {
      var x :| x in a;
      Subset(a - {x}, b - {x});
      assert a == (a - {x}) + {x} && b == (b - {x}) + {x};
    } else if |b| == 0 {
      assert b == {};
    }
  }

  /** `_dictNextPower`. */
  method NextPower(size: nat) returns (i: nat)
    ensures size < LONG_MAX ==> IsSize(i) && size <= i && (i == INITIAL_SIZE || i < 2 * size)
    ensures size >= LONG_MAX ==> i == LONG_MAX
  {
    if size >= LONG_MAX { return LONG_MAX; }
    i := INITIAL_SIZE;
    assert Pow2(2) == 4;
    ghost var p: nat := 2;
    while i < size
      invariant i >= INITIAL_SIZE && Pow2(p) == i && (i == INITIAL_SIZE || i < 2 * size)
      decreases size - i
    {
      i := i * 2;
      p := p + 1;
    }
  }

  /** `moved`, a part of `all`, is what was there before and the first `j` entries of the chain. */
  ghost predicate Tally<V>(moved: map<Text, V>, all: map<Text, V>, before: set<Text>, chain: seq<Entry<V>>, j: nat)
    requires j <= |chain|
  {
    Within(moved, all) && moved.Keys == before + ChainKeys(chain[..j]) && |moved| == |before| + j
  }

  /** A chain that has still to be moved. */
  ghost predicate ToMove<V>(chain: seq<Entry<V>>, all: map<Text, V>, before: set<Text>) {
    && Distinct(chain) && ChainKeys(chain) !! before
    && forall j :: 0 <= j < |chain| ==> chain[j].key in all && all[chain[j].key] == chain[j].val
  }

  lemma MoveCount<V>(moved: map<Text, V>, all: map<Text, V>, before: set<Text>, chain: seq<Entry<V>>, j: nat)
    requires j < |chain| && ToMove(chain, all, before) && Tally(moved, all, before, chain, j)
    ensures chain[j].key !in moved && Tally(moved[chain[j].key := chain[j].val], all, before, chain, j + 1)
  {
    NextKey(chain, j);
    var he := chain[j];
    assert moved[he.key := he.val].Keys == moved.Keys + {he.key};
  }

  /** Moves an entry to the front of its chain in the new table `n`. */
  method MoveEntry<V>(he: Entry<V>, n: array<seq<Entry<V>>>, hash: Hash, ghost moved: map<Text, V>)
    requires IsSize(n.Length) && TableOf(n[..], moved, hash, n.Length - 1) && he.key !in moved
    modifies n
    ensures TableOf(n[..], moved[he.key := he.val], hash, n.Length - 1)
  {
    BucketInRange(hash, n.Length, he.key);
    var h := Bucket(hash, n.Length - 1, he.key);
    ghost var was := n[..];
    TableAdd(was, moved, hash, n.Length - 1, h, he);
    n[h] := [he] + n[h];
    assert n[..] == was[h := [he] + was[h]];
  }

  /** Moves the entries of a chain over to the new table. */
  method MoveChain<V>(chain: seq<Entry<V>>, n: array<seq<Entry<V>>>, hash: Hash, ghost moved: map<Text, V>, ghost all: map<Text, V>)
    returns (ghost moved': map<Text, V>)
    requires IsSize(n.Length) && TableOf(n[..], moved, hash, n.Length - 1) && Within(moved, all)
    requires ToMove(chain, all, moved.Keys)
    modifies n
    ensures TableOf(n[..], moved', hash, n.Length - 1) && Tally(moved', all, moved.Keys, chain, |chain|)
  {
    moved' := moved;
    assert chain[..0] == [];
    for j := 0 to |chain|
      invariant TableOf(n[..], moved', hash, n.Length - 1) && Tally(moved', all, moved.Keys, chain, j)
    {
      MoveCount(moved', all, moved.Keys, chain, j);
      MoveEntry(chain[j], n, hash, moved');
      moved' := moved'[chain[j].key := chain[j].val];
    }
  }

  lemma NextKey<V>(chain: seq<Entry<V>>, j: nat)
    requires j < |chain| && Distinct(chain)
    ensures chain[j].key in ChainKeys(chain) && chain[j].key !in ChainKeys(chain[..j])
    ensures ChainKeys(chain[..j + 1]) == ChainKeys(chain[..j]) + {chain[j].key}
  {
    assert chain[..j + 1] == chain[..j] + [chain[j]];
  }

  /** What the first `i` chains held has been moved. */
  ghost predicate Rehashed<V>(moved: map<Text, V>, m: map<Text, V>, hash: Hash, mask: nat, i: nat) {
    Within(moved, m) && moved.Keys == KeysBelow(m, hash, mask, i)
  }

  lemma ChainToMove<V>(moved: map<Text, V>, chain: seq<Entry<V>>, i: nat, m: map<Text, V>, hash: Hash, mask: nat)
    requires ChainOf(chain, i, m, hash, mask) && Rehashed(moved, m, hash, mask, i)
    ensures ToMove(chain, m, moved.Keys)
  {
    KeysStep(chain, i, m, hash, mask);
  }

  lemma ChainMoved<V>(moved: map<Text, V>, moved': map<Text, V>, chain: seq<Entry<V>>, i: nat, m: map<Text, V>, hash: Hash, mask: nat)
    requires ChainOf(chain, i, m, hash, mask) && Rehashed(moved, m, hash, mask, i)
    requires Tally(moved', m, moved.Keys, chain, |chain|)
    ensures Rehashed(moved', m, hash, mask, i + 1) && |moved'| == |moved| + |chain|
  {
    KeysStep(chain, i, m, hash, mask);
    assert chain[..|chain|] == chain && |moved.Keys| == |moved|;
  }

  /** All chains have been moved, or all entries: the new table holds the whole map. */
  lemma MovedAll<V>(moved: map<Text, V>, m: map<Text, V>, hash: Hash, mask: nat, i: nat)
    requires IsSize(mask + 1) && Rehashed(moved, m, hash, mask, i) && (i == mask + 1 || |moved| >= |m|)
    ensures moved == m
  {
    if i == mask + 1 { AllKeys(m, hash, mask); }
    WithinFull(moved, m);
  }

  lemma RehashedNone<V>(m: map<Text, V>, hash: Hash, mask: nat)
    ensures Rehashed(map[], m, hash, mask, 0)
  {
    assert KeysBelow(m, hash, mask, 0) == {};
  }

  method RehashChain<V>(chain: seq<Entry<V>>, i: nat, n: array<seq<Entry<V>>>, hash: Hash, ghost moved: map<Text, V>,
                        ghost m: map<Text, V>, ghost mask: nat)
    returns (ghost moved': map<Text, V>)
    requires IsSize(n.Length) && TableOf(n[..], moved, hash, n.Length - 1)
    requires ChainOf(chain, i, m, hash, mask) && Rehashed(moved, m, hash, mask, i)
    modifies n
    ensures TableOf(n[..], moved', hash, n.Length - 1)
    ensures Rehashed(moved', m, hash, mask, i + 1) && |moved'| == |moved| + |chain|
  {
    ChainToMove(moved, chain, i, m, hash, mask);
    moved' := MoveChain(chain, n, hash, moved, m);
    ChainMoved(moved, moved', chain, i, m, hash, mask);
  }

  /** The loop of `dictExpand`: moves every entry over to the new table `n`. */
  method Rehash<V>(table: seq<seq<Entry<V>>>, used: nat, n: array<seq<Entry<V>>>, hash: Hash, ghost m: map<Text, V>, ghost mask: nat)
    requires |table| == mask + 1 && IsSize(mask + 1) && TableOf(table, m, hash, mask) && used == |m|
    requires IsSize(n.Length) && TableOf(n[..], map[], hash, n.Length - 1)
    modifies n
    ensures TableOf(n[..], m, hash, n.Length - 1)
  {
    ghost var moved: map<Text, V> := map[];
    RehashedNone(m, hash, mask);
    var i, left := 0, used;
    while i < |table| && left > 0
      invariant 0 <= i <= |table| && left == |m| - |moved|
      invariant TableOf(n[..], moved, hash, n.Length - 1) && Rehashed(moved, m, hash, mask, i)
    {
      moved := RehashChain(table[i], i, n, hash, moved, m, mask);
      left := left - |table[i]|;
      i := i + 1;
    }
    MovedAll(moved, m, hash, mask, i);
    assert left == 0;
  }

  lemma EmptyTable<V>(t: seq<seq<Entry<V>>>, hash: Hash, mask: nat)
    requires forall i :: 0 <= i < |t| ==> t[i] == []
    ensures TableOf(t, map[], hash, mask)
  {
  }

  method NewTable<V>(realsize: nat, hash: Hash) returns (n: array<seq<Entry<V>>>)
    requires realsize > 0
    ensures fresh(n) && n.Length == realsize && TableOf(n[..], map[], hash, realsize - 1)
  {
    n := new seq<Entry<V>>[realsize](i => []);
    EmptyTable(n[..], hash, realsize - 1);
  }

  // ---------- the hash table ----------

  /** Where an entry is found: its chain and its place there. */
  datatype Place = Place(h: nat, j: nat)

  class Dict<V> {
    const hash: Hash
    var table: array<seq<Entry<V>>>
    var size: nat
    var sizemask: nat
    var used: nat
    /** The map the table stands for. */
    ghost var contents: map<Text, V>

    /** The size is zero or a power of two from four on; the entries are those of the map, each
        in its chain, and there are no more of them than chains. */
    ghost predicate Valid()
      reads this, table
    {
      && size == table.Length && used == |contents| <= size
      && (if size == 0 then contents == map[]
          else IsSize(size) && sizemask == size - 1 && TableOf(table[..], contents, hash, sizemask))
    }

    constructor (hash: Hash)
      ensures Valid() && fresh(table) && this.hash == hash && contents == map[]
    {
      this.hash := hash;
      table := new seq<Entry<V>>[0];
      size, sizemask, used, contents := 0, 0, 0, map[];
    }

    /** A new table with all the entries. */
    method Refilled(realsize: nat) returns (n: array<seq<Entry<V>>>)
      requires Valid() && IsSize(realsize)
      ensures fresh(n) && n.Length == realsize && TableOf(n[..], contents, hash, realsize - 1)
    {
      n := NewTable<V>(realsize, hash);
      if size > 0 { Rehash(table[..], used, n, hash, contents, sizemask); }
    }

    /** `dictExpand`. */
    method Expand(requested: nat) returns (ok: bool)
      requires Valid() && requested < LONG_MAX
      modifies this
      ensures Valid() && contents == old(contents) && ok == (used <= requested)
      ensures if ok then requested <= size && fresh(table) && IsSize(size) else unchanged(this)
    {
      var realsize := NextPower(requested);
      ok := used <= requested;
      if ok { Resize(realsize); }
    }

    /** The new table takes the place of the old one. */
    method Resize(realsize: nat)
      requires Valid() && used <= realsize && IsSize(realsize)
      modifies this
      ensures Valid() && contents == old(contents) && size == realsize && fresh(table)
    {
      var n := Refilled(realsize);
      table, size, sizemask := n, realsize, realsize - 1;
    }

    /** `dictFind`: the place of the entry with this key. */
    method Find(key: Text) returns (r: Option<Place>)
      requires Valid()
      ensures r.Some? <==> key in contents
      ensures r.Some? ==> IsAt(r.value, key) && ValueAt(r.value) == contents[key]
    {
      if size == 0 { return None; }
      BucketInRange(hash, size, key);
      var h := Bucket(hash, sizemask, key);
      InItsChain(table[..], contents, hash, sizemask, key);
      var j := FindKey(table[h], key);
      if j.None? { return None; }
      EntryFound(table[..], contents, hash, sizemask, h, j.value);
      r := Some(Place(h, j.value));
    }

    predicate IsAt(p: Place, key: Text)
      reads this, table
    {
      p.h < table.Length && p.j < |table[p.h]| && table[p.h][p.j].key == key
    }

    function ValueAt(p: Place): V
      requires p.h < table.Length && p.j < |table[p.h]|
      reads this, table
    {
      table[p.h][p.j].val
    }

    /** `_dictKeyIndex`: makes room and gives the chain for a new key, none if the key is there. */
    method KeyIndex(key: Text) returns (r: Option<nat>)
      requires Valid() && |contents| < 0x8000_0000
      modifies this
      ensures Valid() && contents == old(contents) && (fresh(table) || table == old(table))
      ensures r.None? <==> key in contents
      ensures r.Some? ==> r.value == Bucket(hash, sizemask, key) && r.value < size && used < size
    {
      if size == 0 {
        var _ := Expand(INITIAL_SIZE);
      } else if used == size {
        var _ := Expand(size * 2);
      }
      BucketInRange(hash, size, key);
      var h := Bucket(hash, sizemask, key);
      InItsChain(table[..], contents, hash, sizemask, key);
      var j := FindKey(table[h], key);
      r := if j.Some? then None else Some(h);
    }

    /** `dictAdd`. */
    method Add(key: Text, val: V) returns (ok: bool)
      requires Valid() && |contents| < 0x8000_0000
      modifies this, table
      ensures Valid() && (fresh(table) || table == old(table))
      ensures ok == (key !in old(contents))
      ensures contents == if ok then old(contents)[key := val] else old(contents)
    {
      var index := KeyIndex(key);
      if index.None? { return false; }
      var h := index.value;
      ghost var was := table[..];
      TableAdd(was, contents, hash, sizemask, h, Entry(key, val));
      table[h] := [Entry(key, val)] + table[h];
      assert table[..] == was[h := [Entry(key, val)] + was[h]];
      used := used + 1;
      contents := contents[key := val];
      ok := true;
    }

    /** `dictReplace`. */
    method Replace(key: Text, val: V) returns (added: bool)
      requires Valid() && |contents| < 0x8000_0000
      modifies this, table
      ensures Valid() && (fresh(table) || table == old(table))
      ensures added == (key !in old(contents)) && contents == old(contents)[key := val]
    {
      added := Add(key, val);
      if added { return; }
      var p := Find(key);
      SetValue(p.value, key, val);
    }

    method SetValue(p: Place, key: Text, val: V)
      requires Valid() && IsAt(p, key) && key in contents && size > 0
      modifies this`contents, table
      ensures Valid() && contents == old(contents)[key := val]
    {
      ghost var was := table[..];
      TableSet(was, contents, hash, sizemask, p.h, p.j, val);
      table[p.h] := table[p.h][p.j := Entry(key, val)];
      assert table[..] == was[p.h := was[p.h][p.j := Entry(key, val)]];
      contents := contents[key := val];
    }

    /** `dictDelete`. */
    method Delete(key: Text) returns (ok: bool)
      requires Valid()
      modifies this, table
      ensures Valid() && table == old(table)
      ensures ok == (key in old(contents)) && contents == old(contents) - {key}
      ensures size == old(size) && sizemask == old(sizemask)
      ensures forall i :: 0 <= i < size ==> Shrunk(old(table[i]), table[i], key)
    {
      var p := Find(key);
      if p.None? { return false; }
      Unlink(p.value, key);
      ok := true;
    }

    method Unlink(p: Place, key: Text)
      requires Valid() && IsAt(p, key) && key in contents
      modifies this`contents, this`used, table
      ensures Valid() && contents == old(contents) - {key}
      ensures table[p.h] == old(table[p.h][..p.j] + table[p.h][p.j + 1..])
      ensures forall i :: 0 <= i < size && i != p.h ==> table[i] == old(table[i])
    {
      ghost var was := table[..];
      TableDelete(was, contents, hash, sizemask, p.h, p.j);
      table[p.h] := table[p.h][..p.j] + table[p.h][p.j + 1..];
      assert table[..] == was[p.h := was[p.h][..p.j] + was[p.h][p.j + 1..]];
      used := used - 1;
      contents := contents - {key};
    }
  }

  /** The chain without the entry of this key, if it had one. */
  predicate Shrunk<V(==)>(before: seq<Entry<V>>, after: seq<Entry<V>>, key: Text) {
    after == before || exists j :: 0 <= j < |before| && before[j].key == key && after == before[..j] + before[j + 1..]
  }

  /** The walk along a chain. */
  method FindKey<V>(chain: seq<Entry<V>>, key: Text) returns (r: Option<nat>)
    ensures r.Some? ==> r.value < |chain| && chain[r.value].key == key
    ensures r.None? ==> !Has(chain, key)
  {
    for j := 0 to |chain|
      invariant forall i :: 0 <= i < j ==> chain[i].key != key
    {
      if chain[j].key == key { return Some(j); }
    }
    r := None;
  }

  lemma EntryFound<V>(t: seq<seq<Entry<V>>>, m: map<Text, V>, hash: Hash, mask: nat, h: nat, j: nat)
    requires TableOf(t, m, hash, mask) && h < |t| && j < |t[h]|
    ensures t[h][j].key in m && m[t[h][j].key] == t[h][j].val
  {
    assert ChainOf(t[h], h, m, hash, mask);
  }

  // ---------- any sequence of operations ----------

  datatype Operation<V> = AddOf(key: Text, val: V) | ReplaceOf(key: Text, val: V) | DeleteOf(key: Text) | FindOf(key: Text)

  datatype Answer<V> = Flag(ok: bool) | Value(val: Option<V>)

  /** The operation on a finite map. */
  function OnMap<V>(m: map<Text, V>, op: Operation<V>): (map<Text, V>, Answer<V>) {
    match op
    case AddOf(key, val) => if key in m then (m, Flag(false)) else (m[key := val], Flag(true))
    case ReplaceOf(key, val) => (m[key := val], Flag(key !in m))
    case DeleteOf(key) => (m - {key}, Flag(key in m))
    case FindOf(key) => (m, Value(if key in m then Some(m[key]) else None))
  }

  function OnMapAll<V>(ops: seq<Operation<V>>): (map<Text, V>, seq<Answer<V>>) {
    if ops == [] then (map[], [])
    else
      var (m, answers) := OnMapAll(ops[..|ops| - 1]);
      var (m', answer) := OnMap(m, ops[|ops| - 1]);
      (m', answers + [answer])
  }

  lemma OneMore<V>(m: map<Text, V>, op: Operation<V>)
    ensures |OnMap(m, op).0| <= |m| + 1
  {
    var m' := OnMap(m, op).0;
    if op.DeleteOf? {
      WithinFull(m', m);
    } else if !op.FindOf? && op.key !in m {
      assert |m'.Keys| == |m'| && m'.Keys == m.Keys + {op.key} && |m.Keys| == |m|;
    } else if op.ReplaceOf? {
      assert |m'.Keys| == |m'| && m'.Keys == m.Keys && |m.Keys| == |m|;
    }
  }

  method Perform<V>(d: Dict<V>, op: Operation<V>) returns (answer: Answer<V>)
    requires d.Valid() && |d.contents| < 0x8000_0000
    modifies d, d.table
    ensures d.Valid() && (fresh(d.table) || d.table == old(d.table))
    ensures (d.contents, answer) == OnMap(old(d.contents), op)
  {
    match op
    case AddOf(key, val) =>
      var ok := d.Add(key, val);
      answer := Flag(ok);
    case ReplaceOf(key, val) =>
      var added := d.Replace(key, val);
      answer := Flag(added);
    case DeleteOf(key) =>
      var ok := d.Delete(key);
      answer := Flag(ok);
    case FindOf(key) =>
      var p := d.Find(key);
      answer := Value(if p.None? then None else Some(d.ValueAt(p.value)));
  }

  /** Any sequence of operations on a new table answers as on a finite map, for any hash function. */
  method AnyRun<V>(hash: Hash, ops: seq<Operation<V>>) returns (d: Dict<V>, answers: seq<Answer<V>>)
    requires |ops| < 0x8000_0000
    ensures fresh(d) && d.Valid() && (d.contents, answers) == OnMapAll(ops)
  {
    d := new Dict(hash);
    answers := [];
    for i := 0 to |ops|
      invariant fresh(d) && fresh(d.table) && d.Valid() && |d.contents| <= i
      invariant (d.contents, answers) == OnMapAll(ops[..i])
    {
      assert ops[..i + 1][..i] == ops[..i];
      OneMore(d.contents, ops[i]);
      var answer := Perform(d, ops[i]);
      answers := answers + [answer];
    }
    assert ops[..|ops|] == ops;
  }

  // ---------- iteration ----------

  predicate IsRest<V(==)>(rest: seq<Entry<V>>, chain: seq<Entry<V>>) {
    |rest| <= |chain| && chain[|chain| - |rest|..] == rest
  }

  /** What is still to come: the rest of the chain at `index` and the chains behind it. */
  ghost predicate Ahead<V>(todo: map<Text, V>, m: map<Text, V>, hash: Hash, mask: nat, index: int, rest: seq<Entry<V>>) {
    && Within(todo, m)
    && forall k :: k in todo <==> k in m && (Bucket(hash, mask, k) > index || Has(rest, k))
  }

  /** The end of a chain: on to the next. */
  lemma AheadNextChain<V>(todo: map<Text, V>, m: map<Text, V>, hash: Hash, mask: nat, index: int, chain: seq<Entry<V>>)
    requires Ahead(todo, m, hash, mask, index, []) && index >= -1 && ChainOf(chain, index + 1, m, hash, mask)
    ensures Ahead(todo, m, hash, mask, index + 1, chain)
  {
    forall k | k in m && Has(chain, k) ensures Bucket(hash, mask, k) == index + 1 {
      var j :| 0 <= j < |chain| && chain[j].key == k;
    }
  }

  /** An entry is handed out. */
  lemma AheadNextEntry<V>(todo: map<Text, V>, m: map<Text, V>, hash: Hash, mask: nat, index: nat, chain: seq<Entry<V>>, rest: seq<Entry<V>>)
    requires Ahead(todo, m, hash, mask, index, rest) && rest != [] && IsRest(rest, chain) && ChainOf(chain, index, m, hash, mask)
    ensures rest[0].key in todo && todo[rest[0].key] == rest[0].val && IsRest(rest[1..], chain)
    ensures Ahead(todo - {rest[0].key}, m, hash, mask, index, rest[1..])
  {
    var at := |chain| - |rest|;
    forall j | 0 <= j < |rest| ensures rest[j] == chain[at + j] {}
    assert chain[at].key == rest[0].key && Has(rest, rest[0].key);
    assert chain[at + 1..] == rest[1..];
    forall k ensures Has(rest, k) && k != rest[0].key <==> Has(rest[1..], k) {
      RestKeys(chain, at, rest, k);
    }
  }

  lemma RestKeys<V>(chain: seq<Entry<V>>, at: nat, rest: seq<Entry<V>>, k: Text)
    requires rest != [] && Distinct(chain) && at + |rest| == |chain| && chain[at..] == rest
    ensures Has(rest, k) && k != rest[0].key <==> Has(rest[1..], k)
  {
    if Has(rest, k) && k != rest[0].key {
      var j :| 0 <= j < |rest| && rest[j].key == k;
      assert rest[1..][j - 1].key == k;
    }
    if Has(rest[1..], k) {
      var j :| 0 <= j < |rest[1..]| && rest[1..][j].key == k;
      assert rest[j + 1].key == k && chain[at + j + 1] == rest[j + 1] && chain[at] == rest[0];
    }
  }

  /** Deleting what is not ahead leaves what is ahead. */
  lemma AheadDelete<V>(todo: map<Text, V>, m: map<Text, V>, hash: Hash, mask: nat, index: int, rest: seq<Entry<V>>, key: Text)
    requires Ahead(todo, m, hash, mask, index, rest) && key !in todo
    ensures Ahead(todo, m - {key}, hash, mask, index, rest)
  {
  }

  /** Behind the last chain nothing is left. */
  lemma AheadEnd<V>(todo: map<Text, V>, m: map<Text, V>, hash: Hash, size: nat, mask: nat, index: int)
    requires Ahead(todo, m, hash, mask, index, []) && index + 1 >= size
    requires if size == 0 then m == map[] else IsSize(size) && mask == size - 1
    ensures todo == map[] && Ahead(todo, m, hash, mask, index + 1, [])
  {
    forall k | k in m ensures Bucket(hash, mask, k) <= index + 1 && k !in todo { BucketInRange(hash, size, k); }
  }

  lemma RestDelete<V>(rest: seq<Entry<V>>, chain: seq<Entry<V>>, chain': seq<Entry<V>>, key: Text)
    requires IsRest(rest, chain) && !Has(rest, key) && Shrunk(chain, chain', key)
    ensures IsRest(rest, chain')
  {
    if chain' != chain {
      var j :| 0 <= j < |chain| && chain[j].key == key && chain' == chain[..j] + chain[j + 1..];
      var at := |chain| - |rest|;
      forall n | at <= n < |chain| ensures chain[n].key != key { assert rest[n - at] == chain[n]; }
      assert chain'[at - 1..] == chain[at..];
    }
  }

  /** The entry was still to come and is no longer. */
  ghost predicate HandedOut<V>(before: map<Text, V>, after: map<Text, V>, e: Entry<V>) {
    e.key in before && before[e.key] == e.val && after == before - {e.key}
  }

  class Iterator<V> {
    const ht: Dict<V>
    var index: int
    var entry: Option<Entry<V>>
    /** The chain from the saved next entry on. */
    var nextEntry: seq<Entry<V>>
    /** What is still to come. */
    ghost var todo: map<Text, V>

    ghost predicate Valid()
      reads this, ht, ht.table
    {
      && ht.Valid() && index >= -1
      && (entry.Some? ==> 0 <= index < ht.size && IsRest(nextEntry, ht.table[index]))
      && Ahead(todo, ht.contents, ht.hash, ht.sizemask, index, if entry.Some? then nextEntry else [])
    }

    /** `dictGetIterator`. */
    constructor (ht: Dict<V>)
      requires ht.Valid()
      ensures Valid() && this.ht == ht && todo == ht.contents
    {
      this.ht := ht;
      index, entry, nextEntry, todo := -1, None, [], ht.contents;
    }

    /** The saved rest is the whole of the next chain. */
    method EnterChain() returns (rest: seq<Entry<V>>)
      requires Valid() && entry.None? && index + 1 < ht.size
      modifies this`index
      ensures index == old(index) + 1 && index < ht.size && rest == ht.table[index]
      ensures Ahead(todo, ht.contents, ht.hash, ht.sizemask, index, rest)
    {
      index := index + 1;
      rest := ht.table[index];
      assert ChainOf(ht.table[..][index], index, ht.contents, ht.hash, ht.sizemask);
      AheadNextChain(todo, ht.contents, ht.hash, ht.sizemask, index - 1, rest);
    }

    /** Hands out an entry and saves the one behind it. */
    method HandOut(rest: seq<Entry<V>>) returns (e: Entry<V>)
      requires ht.Valid() && 0 <= index < ht.size && rest != [] && IsRest(rest, ht.table[index])
      requires Ahead(todo, ht.contents, ht.hash, ht.sizemask, index, rest)
      modifies this`entry, this`nextEntry, this`todo
      ensures Valid() && e.key in old(todo) && old(todo)[e.key] == e.val && todo == old(todo) - {e.key}
    {
      assert ChainOf(ht.table[..][index], index, ht.contents, ht.hash, ht.sizemask);
      AheadNextEntry(todo, ht.contents, ht.hash, ht.sizemask, index, ht.table[index], rest);
      e := rest[0];
      todo := todo - {e.key};
      entry, nextEntry := Some(e), rest[1..];
    }

    /** `dictNext`. */
    method Next() returns (r: Option<Entry<V>>)
      requires Valid()
      modifies this
      ensures Valid()
      ensures r.None? ==> todo == old(todo) == map[]
      ensures r.Some? ==> HandedOut(old(todo), todo, r.value)
    {
      while true
        invariant Valid() && todo == old(todo)
        decreases ht.size - index, if entry.Some? then 1 else 0
      {
        var rest := nextEntry;
        if entry.None? {
          if index + 1 >= ht.size {
            AheadEnd(todo, ht.contents, ht.hash, ht.size, ht.sizemask, index);
            index := index + 1;
            return None;
          }
          rest := EnterChain();
        }
        if rest != [] {
          var e := HandOut(rest);
          return Some(e);
        }
        entry := None;
      }
    }

    /** A caller that deletes what it gets if that is doomed. */
    method NextAndDelete(doomed: set<Text>) returns (r: Option<Entry<V>>)
      requires Valid()
      modifies this, ht, ht.table
      ensures Valid() && ht.table == old(ht.table)
      ensures r.None? ==> todo == old(todo) == map[] && ht.contents == old(ht.contents)
      ensures r.Some? ==> HandedOut(old(todo), todo, r.value)
      ensures r.Some? ==>
        ht.contents == if r.value.key in doomed then old(ht.contents) - {r.value.key} else old(ht.contents)
    {
      r := Next();
      if r.Some? && r.value.key in doomed { DeleteSeen(r.value.key); }
    }

    /** The caller deletes something that has been handed out already. */
    method DeleteSeen(key: Text)
      requires Valid() && key !in todo
      modifies ht, ht.table
      ensures Valid() && ht.table == old(ht.table) && ht.contents == old(ht.contents) - {key}
    {
      ghost var was := ht.contents;
      if entry.Some? {
        assert !Has(nextEntry, key) by { NotAhead(todo, was, ht.hash, ht.sizemask, index, nextEntry, key); }
      }
      ghost var chain := if entry.Some? then ht.table[index] else [];
      AheadDelete(todo, was, ht.hash, ht.sizemask, index, if entry.Some? then nextEntry else [], key);
      var _ := ht.Delete(key);
      if entry.Some? { RestDelete(nextEntry, chain, ht.table[index], key); }
    }
  }

  lemma NotAhead<V>(todo: map<Text, V>, m: map<Text, V>, hash: Hash, mask: nat, index: int, rest: seq<Entry<V>>, key: Text)
    requires Ahead(todo, m, hash, mask, index, rest) && key !in todo && IsOf(rest, m)
    ensures !Has(rest, key)
  {
  }

  predicate IsOf<V>(rest: seq<Entry<V>>, m: map<Text, V>) {
    forall j :: 0 <= j < |rest| ==> rest[j].key in m
  }

  /** A walk over a table in which every returned entry that is `doomed` is deleted at once: it
      meets every entry exactly once all the same. */
  method VisitAll<V>(ht: Dict<V>, doomed: set<Text>) returns (seen: seq<Entry<V>>)
    requires ht.Valid()
    modifies ht, ht.table
    ensures ht.Valid() && ht.contents == old(ht.contents) - doomed
    ensures Distinct(seen) && |seen| == |old(ht.contents)|
    ensures forall i :: 0 <= i < |seen| ==> seen[i].key in old(ht.contents) && old(ht.contents)[seen[i].key] == seen[i].val
  {
    var it := new Iterator(ht);
    seen := [];
    ghost var start := ht.contents;
    VisitedNone(start, doomed);
    var done := false;
    while !done
      invariant fresh(it) && it.ht == ht && it.Valid() && ht.table == old(ht.table)
      invariant Met(seen, it.todo, ht.contents, start, doomed) && (done ==> it.todo == map[])
      decreases !done, |it.todo|
    {
      done, seen := VisitOne(it, seen, doomed, start);
    }
    VisitedAll(seen, start, ht.contents, doomed);
  }

  method VisitOne<V>(it: Iterator<V>, seen: seq<Entry<V>>, doomed: set<Text>, ghost start: map<Text, V>)
    returns (done: bool, seen': seq<Entry<V>>)
    requires it.Valid() && Met(seen, it.todo, it.ht.contents, start, doomed)
    modifies it, it.ht, it.ht.table
    ensures it.Valid() && it.ht.table == old(it.ht.table)
    ensures Met(seen', it.todo, it.ht.contents, start, doomed)
    ensures if done then it.todo == map[] else |it.todo| < |old(it.todo)|
  {
    ghost var before, contents := it.todo, it.ht.contents;
    var e := it.NextAndDelete(doomed);
    if e.None? { return true, seen; }
    MetStep(seen, before, contents, start, doomed, e.value);
    done, seen' := false, seen + [e.value];
  }

  ghost predicate Met<V>(seen: seq<Entry<V>>, todo: map<Text, V>, contents: map<Text, V>, start: map<Text, V>, doomed: set<Text>) {
    Visited(seen, todo, start) && Spared(contents, start, seen, doomed)
  }

  lemma MetStep<V>(seen: seq<Entry<V>>, todo: map<Text, V>, contents: map<Text, V>, start: map<Text, V>, doomed: set<Text>, e: Entry<V>)
    requires Met(seen, todo, contents, start, doomed) && e.key in todo && todo[e.key] == e.val
    ensures |todo - {e.key}| < |todo|
    ensures Met(seen + [e], todo - {e.key}, if e.key in doomed then contents - {e.key} else contents, start, doomed)
  {
    VisitedStep(seen, todo, start, e);
    SparedStep(contents, start, seen, doomed, e);
    OneLess(todo, e.key);
  }

  lemma OneLess<V>(todo: map<Text, V>, key: Text)
    requires key in todo
    ensures |todo - {key}| < |todo|
  {
    assert |todo.Keys| == |todo| && (todo - {key}).Keys == todo.Keys - {key};
    assert |(todo - {key}).Keys| == |todo - {key}|;
  }

  /** Of what has been seen, the doomed is gone. */
  ghost predicate Spared<V>(contents: map<Text, V>, start: map<Text, V>, seen: seq<Entry<V>>, doomed: set<Text>) {
    contents == start - (ChainKeys(seen) * doomed)
  }

  lemma SparedStep<V>(contents: map<Text, V>, start: map<Text, V>, seen: seq<Entry<V>>, doomed: set<Text>, e: Entry<V>)
    requires Spared(contents, start, seen, doomed)
    ensures Spared(if e.key in doomed then contents - {e.key} else contents, start, seen + [e], doomed)
  {
    KeysSnoc(seen, e);
  }

  lemma KeysSnoc<V>(seen: seq<Entry<V>>, e: Entry<V>)
    ensures ChainKeys(seen + [e]) == ChainKeys(seen) + {e.key}
  {
    var all := seen + [e];
    assert all[|seen|] == e;
    forall k | k in ChainKeys(seen) ensures k in ChainKeys(all) {
      var i :| 0 <= i < |seen| && seen[i].key == k;
      assert all[i].key == k;
    }
  }

  /** What has been seen and what is still to come make up the map, without overlap. */
  ghost predicate Visited<V>(seen: seq<Entry<V>>, todo: map<Text, V>, start: map<Text, V>) {
    && Distinct(seen) && Within(todo, start) && todo.Keys == start.Keys - ChainKeys(seen)
    && forall i :: 0 <= i < |seen| ==> seen[i].key in start && start[seen[i].key] == seen[i].val
  }

  lemma VisitedNone<V>(start: map<Text, V>, doomed: set<Text>)
    ensures Visited([], start, start) && Spared(start, start, [], doomed)
  {
  }

  lemma VisitedStep<V>(seen: seq<Entry<V>>, todo: map<Text, V>, start: map<Text, V>, e: Entry<V>)
    requires Visited(seen, todo, start) && e.key in todo && todo[e.key] == e.val
    ensures Visited(seen + [e], todo - {e.key}, start)
  {
    KeysSnoc(seen, e);
    forall i | 0 <= i < |seen| ensures seen[i].key in ChainKeys(seen) {}
  }

  lemma VisitedAll<V>(seen: seq<Entry<V>>, start: map<Text, V>, contents: map<Text, V>, doomed: set<Text>)
    requires Visited(seen, map[], start) && Spared(contents, start, seen, doomed)
    ensures |seen| == |start| && contents == start - doomed
  {
    ChainKeysCount(seen);
    forall k | k in ChainKeys(seen) ensures k in start {}
    assert ChainKeys(seen) == start.Keys;
    assert |start.Keys| == |start|;
  }
}
