/** The two indexes from slots to nodes in `hiredis-vip/hircluster.c`: a table with an entry for
    every slot and a sorted list of slot ranges searched by halving. The route update builds both
    from the ranges a cluster reports. */
module SlotIndex {
  import opened Bytes
  import opened Powers
  import opened Sorting

  /** `start` and `end` are 32-bit numbers as reported; both belong to the range. */
  datatype Range = Range(start: nat, end: nat, node: nat)
  datatype Master = Master(isMaster: bool, ranges: seq<Range>)

  predicate WellFormed(r: Range) { r.start <= r.end < SLOTS }

  predicate Holds(r: Range, k: int) { r.start <= k <= r.end }

  ghost predicate Overlap(a: Range, b: Range) { exists k: int :: Holds(a, k) && Holds(b, k) }

  ghost predicate PairwiseDisjoint(ranges: seq<Range>) {
    forall i, j :: 0 <= i < j < |ranges| ==> !Overlap(ranges[i], ranges[j])
  }

  function AllRanges(masters: seq<Master>): seq<Range> {
    if masters == [] then [] else AllRanges(masters[..|masters| - 1]) + masters[|masters| - 1].ranges
  }

  /** The reported routes the update accepts. */
  ghost predicate Acceptable(masters: seq<Master>) {
    && (forall i :: 0 <= i < |masters| ==> masters[i].isMaster)
    && (forall i :: 0 <= i < |AllRanges(masters)| ==> WellFormed(AllRanges(masters)[i]))
    && PairwiseDisjoint(AllRanges(masters))
  }

  /** Accepted are masters whose ranges lie within the slots 0 to 16383 and end or start before one
      another. */
  lemma AcceptableMeans(masters: seq<Master>)
    ensures var all := AllRanges(masters);
      Acceptable(masters) <==>
        && (forall i :: 0 <= i < |masters| ==> masters[i].isMaster)
        && (forall i :: 0 <= i < |all| ==> all[i].start <= all[i].end <= 16383)
        && (forall i, j :: 0 <= i < j < |all| ==> all[i].end < all[j].start || all[j].end < all[i].start)
  {
    var all := AllRanges(masters);
    forall i, j | 0 <= i < j < |all| && all[i].start <= all[i].end && all[j].start <= all[j].end
      ensures !Overlap(all[i], all[j]) <==> all[i].end < all[j].start || all[j].end < all[i].start
    {
      OverlapMeans(all[i], all[j]);
    }
    if Acceptable(masters) {
      forall i, j | 0 <= i < j < |all| ensures all[i].end < all[j].start || all[j].end < all[i].start {
        assert WellFormed(all[i]) && WellFormed(all[j]) && !Overlap(all[i], all[j]);
      }
    }
  }

  lemma OverlapMeans(a: Range, b: Range)
    requires a.start <= a.end && b.start <= b.end
    ensures !Overlap(a, b) <==> a.end < b.start || b.end < a.start
  {
    if !(a.end < b.start || b.end < a.start) {
      var k: int := if a.start < b.start then b.start else a.start;
      assert Holds(a, k) && Holds(b, k);
    }
  }

  // ---------- who holds a slot ----------

  /** The nodes that hold slot `k`, once for every range. */
  function Owners(ranges: seq<Range>, k: int): multiset<nat> {
    if ranges == [] then multiset{}
    else
      var last := ranges[|ranges| - 1];
      Owners(ranges[..|ranges| - 1], k) + if Holds(last, k) then multiset{last.node} else multiset{}
  }

  lemma OwnersSnoc(ranges: seq<Range>, r: Range, k: int)
    ensures Owners(ranges + [r], k) == Owners(ranges, k) + if Holds(r, k) then multiset{r.node} else multiset{}
  {
    assert (ranges + [r])[..|ranges|] == ranges;
  }

  lemma {:induction false} OwnersAppend(a: seq<Range>, b: seq<Range>, k: int)
    ensures Owners(a + b, k) == Owners(a, k) + Owners(b, k)
  {
    if b == [] {
      assert a + b == a;
    } else {
      var front, last := b[..|b| - 1], b[|b| - 1];
      assert a + b == (a + front) + [last] && b == front + [last];
      OwnersSnoc(a + front, last, k);
      OwnersSnoc(front, last, k);
      OwnersAppend(a, front, k);
    }
  }

  /** A range that holds the slot is one of the owners. */
  lemma {:induction false} HolderOwns(ranges: seq<Range>, k: int, i: nat)
    requires i < |ranges| && Holds(ranges[i], k)
    ensures ranges[i].node in Owners(ranges, k)
  {
    if i < |ranges| - 1 { HolderOwns(ranges[..|ranges| - 1], k, i); }
  }

  lemma {:induction false} OwnerHolds(ranges: seq<Range>, k: int) returns (i: nat)
    requires |Owners(ranges, k)| > 0
    ensures i < |ranges| && Holds(ranges[i], k)
  {
    if Holds(ranges[|ranges| - 1], k) {
      i := |ranges| - 1;
    } else {
      i := OwnerHolds(ranges[..|ranges| - 1], k);
    }
  }

  lemma {:induction false} DisjointThenOneOwner(ranges: seq<Range>, k: int)
    requires PairwiseDisjoint(ranges)
    ensures |Owners(ranges, k)| <= 1
  {
    if ranges != [] {
      var front, n := ranges[..|ranges| - 1], |ranges| - 1;
      DisjointThenOneOwner(front, k);
      if Holds(ranges[n], k) && |Owners(front, k)| > 0 {
        var i := OwnerHolds(front, k);
        assert Overlap(ranges[i], ranges[n]);
      }
    }
  }

  lemma {:induction false} TwoHoldersTwoOwners(ranges: seq<Range>, k: int, i: nat, j: nat)
    requires i < j < |ranges| && Holds(ranges[i], k) && Holds(ranges[j], k)
    ensures |Owners(ranges, k)| > 1
  {
    var front := ranges[..|ranges| - 1];
    if j == |ranges| - 1 {
      HolderOwns(front, k, i);
    } else {
      TwoHoldersTwoOwners(front, k, i, j);
    }
  }

  /** Ranges are pairwise disjoint exactly if no slot has two owners. */
  lemma DisjointOwners(ranges: seq<Range>)
    ensures PairwiseDisjoint(ranges) <==> forall k: int :: |Owners(ranges, k)| <= 1
  {
    if PairwiseDisjoint(ranges) {
      forall k: int ensures |Owners(ranges, k)| <= 1 { DisjointThenOneOwner(ranges, k); }
    } else {
      var i, j :| 0 <= i < j < |ranges| && Overlap(ranges[i], ranges[j]);
      var k: int :| Holds(ranges[i], k) && Holds(ranges[j], k);
      TwoHoldersTwoOwners(ranges, k, i, j);
    }
  }

  // ---------- sorting ----------

  predicate Sorted(ranges: seq<Range>) {
    forall i, j :: 0 <= i < j < |ranges| ==> ranges[i].start <= ranges[j].start
  }

  lemma {:induction false} OwnersPermuted(a: seq<Range>, b: seq<Range>, k: int)
    requires multiset(a) == multiset(b)
    ensures Owners(a, k) == Owners(b, k)
    decreases |a|
  {
    SameLength(a, b);
    if a != [] {
      var i := FoundIn(a, b);
      var b' := b[..i] + b[i + 1..];
      FirstTaken(a, b, i, b', k);
      OwnersPermuted(a[1..], b', k);
    }
  }

  lemma FoundIn(a: seq<Range>, b: seq<Range>) returns (i: nat)
    requires multiset(a) == multiset(b) && a != []
    ensures i < |b| && b[i] == a[0]
  {
    assert a[0] in multiset(a);
    i :| 0 <= i < |b| && b[i] == a[0];
  }

  lemma FirstTaken(a: seq<Range>, b: seq<Range>, i: nat, b': seq<Range>, k: int)
    requires multiset(a) == multiset(b) && a != [] && i < |b| && b[i] == a[0] && b' == b[..i] + b[i + 1..]
    ensures multiset(a[1..]) == multiset(b')
    ensures Owners(a[1..], k) == Owners(b', k) ==> Owners(a, k) == Owners(b, k)
  {
    assert a[1..] == a[..0] + a[1..];
    TakeOut(a, 0, a[1..], a[0], k);
    TakeOut(b, i, b', a[0], k);
  }

  lemma TakeOut(a: seq<Range>, i: nat, rest: seq<Range>, r: Range, k: int)
    requires i < |a| && r == a[i] && rest == a[..i] + a[i + 1..]
    ensures multiset(rest) == multiset(a) - multiset{r}
    ensures Owners(a, k) == Owners(rest, k) + if Holds(r, k) then multiset{r.node} else multiset{}
  {
    Parts(a, i);
    OwnersMiddle(a[..i], a[i], a[i + 1..], k);
  }

  lemma Parts<T>(a: seq<T>, i: nat)
    requires i < |a|
    ensures a == a[..i] + ([a[i]] + a[i + 1..])
    ensures multiset(a[..i] + a[i + 1..]) == multiset(a) - multiset{a[i]}
  {
    assert a == a[..i] + ([a[i]] + a[i + 1..]);
  }

  lemma OwnersMiddle(x: seq<Range>, r: Range, y: seq<Range>, k: int)
    ensures Owners(x + ([r] + y), k) == Owners(x + y, k) + if Holds(r, k) then multiset{r.node} else multiset{}
  {
    OwnersAppend(x, [r] + y, k);
    OwnersAppend([r], y, k);
    OwnersAppend(x, y, k);
    OwnersSnoc([], r, k);
    assert [] + [r] == [r];
  }

  /** The library's sort, whose order among equal starts does not matter. */
  method SortByStart(ranges: seq<Range>) returns (sorted: seq<Range>)
    ensures Sorted(sorted) && multiset(sorted) == multiset(ranges)
    ensures forall k: int :: Owners(sorted, k) == Owners(ranges, k)
  {
    sorted := Sort(ranges, (r: Range) => r.start);
    forall k: int ensures Owners(sorted, k) == Owners(ranges, k) { OwnersPermuted(sorted, ranges, k); }
  }

  // ---------- the table ----------

  function Cell(owner: Option<nat>): multiset<nat> {
    if owner.None? then multiset{} else multiset{owner.value}
  }

  /** Every entry names the one node that holds its slot, if there is one. */
  ghost predicate Indexed(ranges: seq<Range>, table: seq<Option<nat>>) {
    |table| == SLOTS && forall k :: 0 <= k < SLOTS ==> Owners(ranges, k) == Cell(table[k])
  }

  predicate Free(table: seq<Option<nat>>, r: Range)
    requires |table| == SLOTS
  {
    forall k :: 0 <= k < SLOTS && Holds(r, k) ==> table[k].None?
  }

  predicate Entered(before: seq<Option<nat>>, r: Range, after: seq<Option<nat>>)
    requires |before| == |after| == SLOTS
  {
    forall k :: 0 <= k < SLOTS ==> after[k] == if Holds(r, k) then Some(r.node) else before[k]
  }

  /** Enters one range unless one of its slots is taken. */
  method Mark(table: array<Option<nat>>, r: Range) returns (ok: bool)
    requires table.Length == SLOTS && WellFormed(r)
    modifies table
    ensures ok <==> Free(old(table[..]), r)
    ensures ok ==> Entered(old(table[..]), r, table[..])
  {
    var k := r.start;
    while k <= r.end
      invariant r.start <= k <= r.end + 1
      invariant forall i :: r.start <= i < k ==> old(table[i]).None?
      invariant forall i :: 0 <= i < SLOTS ==> table[i] == if r.start <= i < k then Some(r.node) else old(table[i])
    {
      if table[k].Some? { return false; }
      table[k] := Some(r.node);
      k := k + 1;
    }
    ok := true;
  }

  lemma MarkedIndexed(ranges: seq<Range>, j: nat, before: seq<Option<nat>>, after: seq<Option<nat>>)
    requires j < |ranges| && Indexed(ranges[..j], before) && |after| == SLOTS
    requires Free(before, ranges[j]) && Entered(before, ranges[j], after)
    ensures Indexed(ranges[..j + 1], after)
  {
    assert ranges[..j + 1] == ranges[..j] + [ranges[j]];
    forall k | 0 <= k < SLOTS ensures Owners(ranges[..j + 1], k) == Cell(after[k]) { OwnersSnoc(ranges[..j], ranges[j], k); }
  }

  lemma TakenTwice(ranges: seq<Range>, j: nat, table: seq<Option<nat>>)
    requires j < |ranges| && Indexed(ranges[..j], table) && !Free(table, ranges[j])
    ensures !PairwiseDisjoint(ranges)
  {
    var k :| 0 <= k < SLOTS && Holds(ranges[j], k) && table[k].Some?;
    var i := OwnerHolds(ranges[..j], k);
    assert Overlap(ranges[i], ranges[j]);
  }

  lemma IndexedDisjoint(ranges: seq<Range>, table: seq<Option<nat>>)
    requires Indexed(ranges, table) && forall i :: 0 <= i < |ranges| ==> WellFormed(ranges[i])
    ensures PairwiseDisjoint(ranges)
  {
    forall i, j | 0 <= i < j < |ranges| ensures !Overlap(ranges[i], ranges[j]) {
      if Overlap(ranges[i], ranges[j]) {
        var k: int :| Holds(ranges[i], k) && Holds(ranges[j], k);
        TwoHoldersTwoOwners(ranges, k, i, j);
      }
    }
  }

  method FillTable(ranges: seq<Range>) returns (ok: bool, table: array<Option<nat>>)
    requires forall i :: 0 <= i < |ranges| ==> WellFormed(ranges[i])
    ensures fresh(table) && table.Length == SLOTS
    ensures ok <==> PairwiseDisjoint(ranges)
    ensures ok ==> Indexed(ranges, table[..])
  {
    table := new Option<nat>[SLOTS](i => None);
    assert ranges[..0] == [];
    for j := 0 to |ranges|
      invariant Indexed(ranges[..j], table[..])
    {
      ghost var before := table[..];
      ok := Mark(table, ranges[j]);
      if !ok {
        TakenTwice(ranges, j, before);
        return;
      }
      MarkedIndexed(ranges, j, before, table[..]);
    }
    assert ranges[..|ranges|] == ranges;
    IndexedDisjoint(ranges, table[..]);
    ok := true;
  }

  // ---------- the search ----------

  /** What a look-up by halving comes to; `OutOfArray` reads behind the list. */
  datatype Lookup = Node(id: nat) | NoNode | OutOfArray

  function FromCell(owner: Option<nat>): Lookup {
    if owner.Some? then Node(owner.value) else NoNode
  }

  /** 32-bit arithmetic. */
  function Wrap(x: int): nat { x % TWO32 }

  predicate Apart(ranges: seq<Range>) {
    && (forall i :: 0 <= i < |ranges| ==> WellFormed(ranges[i]))
    && (forall i, j :: 0 <= i < j < |ranges| ==> ranges[i].end < ranges[j].start)
  }

  lemma SortedApart(ranges: seq<Range>)
    requires Sorted(ranges) && PairwiseDisjoint(ranges) && forall i :: 0 <= i < |ranges| ==> WellFormed(ranges[i])
    ensures Apart(ranges)
  {
    forall i, j | 0 <= i < j < |ranges| ensures ranges[i].end < ranges[j].start {
      if ranges[i].end >= ranges[j].start {
        assert Holds(ranges[i], ranges[j].start) && Holds(ranges[j], ranges[j].start);
        assert Overlap(ranges[i], ranges[j]);
      }
    }
  }

  lemma {:induction false} AtMostOnePerSlot(ranges: seq<Range>)
    requires Apart(ranges)
    ensures |ranges| <= SLOTS && (ranges != [] ==> ranges[|ranges| - 1].end >= |ranges| - 1)
  {
    if ranges != [] {
      var n := |ranges| - 1;
      AtMostOnePerSlot(ranges[..n]);
      if n > 0 { assert ranges[n - 1].end < ranges[n].start; }
      assert WellFormed(ranges[n]);
    }
  }

  /** Halving until fewer than four are left: the two leading bits. */
  function LeadingBits(m: nat): nat { if m < 4 then m else LeadingBits(m / 2) }

  /** The leading bits are "10" exactly from twice to three times a power of two. */
  lemma {:induction false} LeadingTen(m: nat)
    requires m >= 2
    ensures LeadingBits(m) == 2 <==> exists p: nat :: 2 * Pow2(p) <= m < 3 * Pow2(p)
    ensures LeadingBits(m) == 2 || LeadingBits(m) == 3
  {
    if m < 4 {
      assert Pow2(0) == 1;
      if m == 2 { assert 2 * Pow2(0) <= m < 3 * Pow2(0); }
      forall p: nat | p > 0 ensures 2 * Pow2(p) > 3 { assert Pow2(p) == 2 * Pow2(p - 1); }
    } else {
      LeadingTen(m / 2);
      if LeadingBits(m / 2) == 2 {
        var p: nat :| 2 * Pow2(p) <= m / 2 < 3 * Pow2(p);
        assert Pow2(p + 1) == 2 * Pow2(p);
      }
      if p: nat :| 2 * Pow2(p) <= m < 3 * Pow2(p) {
        assert p > 0 && Pow2(p) == 2 * Pow2(p - 1);
        assert 2 * Pow2(p - 1) <= m / 2 < 3 * Pow2(p - 1);
      }
    }
  }

  /** Where the search stands when `k` is not before the first range. */
  predicate Narrowed(slots: seq<Range>, k: nat, start: nat, end: nat) {
    && start <= end + 1 <= |slots|
    && (forall i :: 0 <= i < start ==> slots[i].end < k) && (forall i :: end < i < |slots| ==> slots[i].start > k)
  }

  /** Where it stands when `k` is before the first range: it always goes to the left. */
  predicate Leftwards(slots: seq<Range>, start: nat, end: nat) {
    && start == 0
    && (if end < |slots| then LeadingBits(end + 2) == LeadingBits(|slots| + 1)
        else end == TWO32 - 1 && LeadingBits(|slots| + 1) == 3)
  }

  lemma LeadingStep(slots: seq<Range>, end: nat)
    requires 0 < end < |slots| < TWO32 && Leftwards(slots, 0, end)
    ensures Leftwards(slots, 0, Wrap(end / 2 - 1))
  {
    if end == 1 {
      assert Wrap(end / 2 - 1) == TWO32 - 1;
    } else {
      WrapSmall(end / 2 - 1);
      HalfStep(end);
    }
  }

  lemma WrapSmall(x: int)
    requires 0 <= x < TWO32
    ensures Wrap(x) == x
  {
  }

  lemma HalfStep(end: nat)
    requires end > 1
    ensures LeadingBits(end / 2 + 1) == LeadingBits(end + 2)
  {
    assert (end + 2) / 2 == end / 2 + 1;
  }

  predicate Missing(slots: seq<Range>, k: nat) {
    forall i :: 0 <= i < |slots| ==> !Holds(slots[i], k)
  }

  lemma NarrowLeft(slots: seq<Range>, k: nat, start: nat, end: nat, middle: nat)
    requires Apart(slots) && slots != [] && slots[0].start <= k && Narrowed(slots, k, start, end)
    requires middle <= end && slots[middle].start > k
    ensures middle > 0 && Narrowed(slots, k, start, middle - 1)
  {
    assert WellFormed(slots[middle]);
    forall i | middle - 1 < i < |slots| ensures slots[i].start > k {
      if i > middle { assert slots[middle].end < slots[i].start; }
    }
  }

  lemma NarrowRight(slots: seq<Range>, k: nat, start: nat, end: nat, middle: nat)
    requires Apart(slots) && Narrowed(slots, k, start, end)
    requires middle <= end && slots[middle].end < k
    ensures Narrowed(slots, k, middle + 1, end)
  {
    forall i | 0 <= i < middle + 1 ensures slots[i].end < k {
      if i < middle { assert slots[i].end < slots[middle].start; }
    }
  }

  /** Nothing is left to look at: the loop ends. */
  lemma NarrowedOut(slots: seq<Range>, k: nat, start: nat, end: nat)
    requires Narrowed(slots, k, start, end) && start >= end && !Holds(slots[end], k)
    ensures Missing(slots, k)
  {
  }

  /** What holds whenever the loop of the search is entered again. */
  predicate Searching(slots: seq<Range>, k: nat, start: nat, end: nat) {
    if slots == [] then start == 0 && end == TWO32 - 1
    else if slots[0].start <= k then Narrowed(slots, k, start, end)
    else Leftwards(slots, start, end)
  }

  /** What the search answers without having found a range. */
  predicate GivesUp(slots: seq<Range>, k: nat) {
    slots != [] && if slots[0].start <= k then Missing(slots, k) else LeadingBits(|slots| + 1) == 2
  }

  /** The middle at which the search looks next. */
  function Middle(start: nat, end: nat): nat {
    if start >= end then end else start + (end - start) / 2
  }

  function Remaining(slots: seq<Range>, start: nat, end: nat): int {
    if end >= |slots| then 1 else end - start + 3
  }

  /** What the search may answer. */
  predicate Answers(slots: seq<Range>, k: nat, r: Lookup) {
    match r
    case Node(id) => exists i :: 0 <= i < |slots| && Holds(slots[i], k) && slots[i].node == id
    case NoNode => GivesUp(slots, k)
    case OutOfArray => slots == [] || (k < slots[0].start && LeadingBits(|slots| + 1) == 3)
  }

  lemma SearchHit(slots: seq<Range>, k: nat, i: nat)
    requires i < |slots| && Holds(slots[i], k)
    ensures Answers(slots, k, Node(slots[i].node))
  {
  }

  lemma SearchOutside(slots: seq<Range>, k: nat, start: nat, end: nat)
    requires |slots| <= SLOTS && Searching(slots, k, start, end) && Middle(start, end) >= |slots|
    ensures Answers(slots, k, OutOfArray)
  {
  }

  /** The last look gives up; any other leaves less to look at. */
  predicate GoesOn(slots: seq<Range>, k: nat, start: nat, end: nat, start': nat, end': nat) {
    if start >= end then GivesUp(slots, k) && Remaining(slots, start, end) > 0
    else Searching(slots, k, start', end') && 0 <= Remaining(slots, start', end') < Remaining(slots, start, end)
  }

  lemma SearchLeft(slots: seq<Range>, k: nat, start: nat, end: nat)
    requires Apart(slots) && |slots| <= SLOTS && Searching(slots, k, start, end)
    requires Middle(start, end) < |slots| && slots[Middle(start, end)].start > k
    ensures GoesOn(slots, k, start, end, start, Wrap(Middle(start, end) - 1))
  {
    if slots[0].start <= k {
      LeftNarrows(slots, k, start, end, Middle(start, end));
    } else {
      LeftLeads(slots, k, start, end, Middle(start, end));
    }
  }

  lemma LeftNarrows(slots: seq<Range>, k: nat, start: nat, end: nat, m: nat)
    requires Apart(slots) && 0 < |slots| <= SLOTS && slots[0].start <= k && Narrowed(slots, k, start, end)
    requires m == Middle(start, end) < |slots| && slots[m].start > k
    ensures GoesOn(slots, k, start, end, start, Wrap(m - 1))
  {
    NarrowLeft(slots, k, start, end, m);
    if start >= end { NarrowedOut(slots, k, start, end); }
  }

  lemma LeftLeads(slots: seq<Range>, k: nat, start: nat, end: nat, m: nat)
    requires 0 < |slots| <= SLOTS && slots[0].start > k && Leftwards(slots, start, end)
    requires m == Middle(start, end) < |slots|
    ensures GoesOn(slots, k, start, end, start, Wrap(m - 1))
  {
    if start < end { LeadingStep(slots, end); }
  }

  lemma SearchRight(slots: seq<Range>, k: nat, start: nat, end: nat)
    requires Apart(slots) && |slots| <= SLOTS && Searching(slots, k, start, end)
    requires Middle(start, end) < |slots| && slots[Middle(start, end)].end < k
    ensures GoesOn(slots, k, start, end, Wrap(Middle(start, end) + 1), end)
  {
    var m := Middle(start, end);
    assert slots[0].start <= k by {
      assert WellFormed(slots[m]);
      if m > 0 { assert slots[0].end < slots[m].start; assert WellFormed(slots[0]); }
    }
    NarrowRight(slots, k, start, end, m);
    if start >= end { NarrowedOut(slots, k, start, end); }
  }

  /** One look into the list. */
  method Probe(slots: seq<Range>, k: nat, start: nat, end: nat) returns (found: Option<Lookup>, start': nat, end': nat)
    requires Apart(slots) && |slots| <= SLOTS && Searching(slots, k, start, end)
    ensures found.Some? ==> Answers(slots, k, found.value)
    ensures found.None? ==> GoesOn(slots, k, start, end, start', end')
  {
    var middle := Middle(start, end);
    found, start', end' := None, start, end;
    if middle >= |slots| {
      SearchOutside(slots, k, start, end);
      found := Some(OutOfArray);
    } else if slots[middle].start > k {
      SearchLeft(slots, k, start, end);
      end' := Wrap(middle - 1);
    } else if slots[middle].end < k {
      SearchRight(slots, k, start, end);
      start' := Wrap(middle + 1);
    } else {
      SearchHit(slots, k, middle);
      found := Some(Node(slots[middle].node));
    }
  }

  /** The search of `node_get_by_slot`. From the first range on it finds the holder of every slot;
      below the first range it answers "no node" for some list lengths and reads outside the list
      for the others, depending on the leading bits of the length plus one. An empty list is
      always read. */
  method Search(slots: seq<Range>, k: nat) returns (r: Lookup)
    requires Apart(slots)
    ensures Answers(slots, k, r)
  {
    AtMostOnePerSlot(slots);
    var start: nat, end: nat, stop := 0, Wrap(|slots| - 1), false;
    while !stop
      invariant if stop then GivesUp(slots, k) else Searching(slots, k, start, end)
      decreases if stop then 0 else Remaining(slots, start, end)
    {
      stop := start >= end;
      var found;
      found, start, end := Probe(slots, k, start, end);
      if found.Some? { return found.value; }
    }
    r := NoNode;
  }

  // ---------- the route of a cluster context ----------

  lemma {:induction false} AllRangesGrow(masters: seq<Master>, i: nat)
    requires i < |masters|
    ensures AllRanges(masters[..i + 1]) == AllRanges(masters[..i]) + masters[i].ranges
  {
    assert masters[..i + 1][..i] == masters[..i];
  }

  lemma {:induction false} RangesIncluded(masters: seq<Master>, i: nat, j: nat)
    requires i < |masters| && j < |masters[i].ranges|
    ensures masters[i].ranges[j] in AllRanges(masters)
  {
    if i < |masters| - 1 { RangesIncluded(masters[..|masters| - 1], i, j); }
  }

  ghost predicate Legible(masters: seq<Master>) {
    && (forall i :: 0 <= i < |masters| ==> masters[i].isMaster)
    && forall i :: 0 <= i < |AllRanges(masters)| ==> WellFormed(AllRanges(masters)[i])
  }

  /** Walks the nodes and their ranges, all checked. */
  method Collect(masters: seq<Master>) returns (ok: bool, ranges: seq<Range>)
    ensures ok <==> Legible(masters)
    ensures ok ==> ranges == AllRanges(masters)
  {
    ranges := [];
    for i := 0 to |masters|
      invariant ranges == AllRanges(masters[..i])
      invariant forall m :: 0 <= m < i ==> masters[m].isMaster
      invariant forall m :: 0 <= m < |ranges| ==> WellFormed(ranges[m])
    {
      if !masters[i].isMaster { return false, []; }
      var more := masters[i].ranges;
      for j := 0 to |more|
        invariant ranges == AllRanges(masters[..i]) + more[..j]
        invariant forall m :: 0 <= m < |ranges| ==> WellFormed(ranges[m])
      {
        if more[j].start > more[j].end || more[j].end >= SLOTS {
          RangesIncluded(masters, i, j);
          return false, [];
        }
        ranges := ranges + [more[j]];
      }
      AllRangesGrow(masters, i);
    }
    assert masters[..|masters|] == masters;
    ok := true;
  }

  lemma DisjointTransfer(a: seq<Range>, b: seq<Range>)
    requires (forall k: int :: Owners(a, k) == Owners(b, k)) && PairwiseDisjoint(a)
    ensures PairwiseDisjoint(b)
  {
    forall i, j | 0 <= i < j < |b| ensures !Overlap(b[i], b[j]) {
      if Overlap(b[i], b[j]) {
        var k: int :| Holds(b[i], k) && Holds(b[j], k);
        assert Owners(a, k) == Owners(b, k);
        DisjointThenOneOwner(a, k);
        TwoHoldersTwoOwners(b, k, i, j);
      }
    }
  }

  lemma IndexedSame(a: seq<Range>, b: seq<Range>, table: seq<Option<nat>>)
    requires forall k: int :: Owners(a, k) == Owners(b, k)
    ensures Indexed(a, table) <==> Indexed(b, table)
    ensures PairwiseDisjoint(a) <==> PairwiseDisjoint(b)
  {
    if PairwiseDisjoint(a) { DisjointTransfer(a, b); }
    if PairwiseDisjoint(b) { DisjointTransfer(b, a); }
  }

  lemma SameElements(a: seq<Range>, b: seq<Range>)
    requires multiset(a) == multiset(b) && forall i :: 0 <= i < |a| ==> WellFormed(a[i])
    ensures forall i :: 0 <= i < |b| ==> WellFormed(b[i])
  {
    forall i | 0 <= i < |b| ensures WellFormed(b[i]) {
      assert b[i] in multiset(a);
    }
  }

  /** What the search answers is what the table says. */
  lemma TableAgrees(slots: seq<Range>, table: seq<Option<nat>>, k: nat, r: Lookup)
    requires Indexed(slots, table) && Apart(slots) && slots != [] && slots[0].start <= k < SLOTS && Answers(slots, k, r)
    ensures r == FromCell(table[k])
  {
    match r
    case Node(id) =>
      var i :| 0 <= i < |slots| && Holds(slots[i], k) && slots[i].node == id;
      HolderOwns(slots, k, i);
    case NoNode =>
      if |Owners(slots, k)| > 0 { var i := OwnerHolds(slots, k); }
  }

  /** Both indexes of the ranges. */
  method Build(ranges: seq<Range>) returns (ok: bool, sorted: seq<Range>, filled: array<Option<nat>>)
    requires forall i :: 0 <= i < |ranges| ==> WellFormed(ranges[i])
    ensures fresh(filled) && filled.Length == SLOTS && ok == PairwiseDisjoint(ranges)
    ensures multiset(sorted) == multiset(ranges)
    ensures ok ==> Apart(sorted) && Indexed(sorted, filled[..]) && Indexed(ranges, filled[..])
  {
    sorted := SortByStart(ranges);
    SameElements(ranges, sorted);
    ok, filled := FillTable(sorted);
    IndexedSame(sorted, ranges, filled[..]);
    if ok { SortedApart(sorted); }
  }

  class Route {
    var masters: seq<Master>
    var slots: Option<seq<Range>>
    const table: array<Option<nat>>
    var version: nat

    ghost predicate Valid()
      reads this, table
    {
      table.Length == SLOTS && (slots.Some? ==> Apart(slots.value) && Indexed(slots.value, table[..]))
    }

    constructor ()
      ensures Valid() && slots.None? && version == 0 && fresh(table)
      ensures forall k :: 0 <= k < SLOTS ==> table[k].None?
    {
      masters, slots, version := [], None, 0;
      table := new Option<nat>[SLOTS](i => None);
    }

    /** Both indexes are those of the reported route. */
    ghost predicate Reflects(reported: seq<Master>)
      reads this, table
    {
      && masters == reported && slots.Some? && multiset(slots.value) == multiset(AllRanges(reported))
      && table.Length == SLOTS && Indexed(AllRanges(reported), table[..])
    }

    /** The index part of `cluster_update_route_by_addr`. */
    method Update(reported: seq<Master>) returns (ok: bool)
      requires Valid()
      modifies this, table
      ensures Valid() && ok == Acceptable(reported)
      ensures ok ==> Reflects(reported) && version == old(version) + 1
      ensures !ok ==> unchanged(this) && unchanged(table)
    {
      var ranges;
      ok, ranges := Collect(reported);
      if ok {
        var sorted, filled;
        ok, sorted, filled := Build(ranges);
        if ok { Install(reported, sorted, filled); }
      }
    }

    /** The new route takes the place of the old one. */
    method Install(reported: seq<Master>, sorted: seq<Range>, filled: array<Option<nat>>)
      requires Valid() && filled != table && filled.Length == SLOTS
      requires Apart(sorted) && multiset(sorted) == multiset(AllRanges(reported))
      requires Indexed(sorted, filled[..]) && Indexed(AllRanges(reported), filled[..])
      modifies this, table
      ensures Valid() && Reflects(reported) && version == old(version) + 1
    {
      Copy(filled, table);
      masters, slots, version := reported, Some(sorted), version + 1;
    }

    /** `node_get_by_table`. */
    method NodeByTable(k: nat) returns (r: Lookup)
      requires Valid()
      ensures r == if k < SLOTS then FromCell(table[k]) else NoNode
    {
      if k >= SLOTS { return NoNode; }
      r := FromCell(table[k]);
    }

    /** `node_get_by_slot`: agrees with the table from the first range on. */
    method NodeBySlot(k: nat) returns (r: Lookup)
      requires Valid()
      ensures k >= SLOTS || slots.None? ==> r == NoNode
      ensures k < SLOTS && slots == Some([]) ==> r == OutOfArray
      ensures k < SLOTS && slots.Some? && slots.value != [] ==>
        var list := slots.value;
        r == if list[0].start <= k then FromCell(table[k])
             else if LeadingBits(|list| + 1) == 2 then NoNode
             else OutOfArray
    {
      if k >= SLOTS || slots.None? { return NoNode; }
      r := Search(slots.value, k);
      if slots.value != [] {
        LeadingTen(|slots.value| + 1);
        if slots.value[0].start <= k {
          TableAgrees(slots.value, table[..], k, r);
        } else {
          SearchBelow(slots.value, k, r);
        }
      }
    }
  }

  /** One of the ranges that master `i` reports has the slot between its ends, or on one of them. */
  predicate Reports(reported: seq<Master>, i: nat, j: nat, k: nat) {
    i < |reported| && j < |reported[i].ranges| && reported[i].ranges[j].start <= k <= reported[i].ranges[j].end
  }

  /** What the table says once a route is in use: the node that reports the slot, and nobody when
      there is none. */
  lemma TableAnswers(reported: seq<Master>, table: seq<Option<nat>>, k: nat)
    requires Indexed(AllRanges(reported), table) && k < 16384
    ensures forall i: nat, j: nat :: Reports(reported, i, j, k) ==> table[k] == Some(reported[i].ranges[j].node)
    ensures table[k].Some? ==> exists r :: r in AllRanges(reported) && r.start <= k <= r.end && r.node == table[k].value
  {
    var all := AllRanges(reported);
    forall i: nat, j: nat | Reports(reported, i, j, k) ensures table[k] == Some(reported[i].ranges[j].node) {
      RangesIncluded(reported, i, j);
      var n :| 0 <= n < |all| && all[n] == reported[i].ranges[j];
      HolderOwns(all, k, n);
    }
    if table[k].Some? {
      assert table[k].value in Owners(all, k);
      var n := OwnerIs(all, k, table[k].value);
      assert all[n] in all;
    }
  }

  lemma {:induction false} OwnerIs(ranges: seq<Range>, k: int, node: nat) returns (i: nat)
    requires node in Owners(ranges, k)
    ensures i < |ranges| && ranges[i].start <= k <= ranges[i].end && ranges[i].node == node
  {
    i := |ranges| - 1;
    if !(Holds(ranges[i], k) && ranges[i].node == node) { i := OwnerIs(ranges[..i], k, node); }
  }

  /** Two slots held, the first of them not slot 0. */
  const GAPPED: seq<Master> := [Master(true, [Range(1, 1, 7), Range(3, 3, 8)])]

  lemma GappedAcceptable()
    ensures Acceptable(GAPPED) && |AllRanges(GAPPED)| == 2
    ensures forall r :: r in multiset(AllRanges(GAPPED)) ==> r.start > 0
  {
    var ranges: seq<Range> := [Range(1, 1, 7), Range(3, 3, 8)];
    assert GAPPED[..0] == [];
    assert AllRanges(GAPPED) == AllRanges(GAPPED[..0]) + ranges == ranges;
    GappedRanges(ranges);
  }

  lemma GappedRanges(ranges: seq<Range>)
    requires ranges == [Range(1, 1, 7), Range(3, 3, 8)]
    ensures PairwiseDisjoint(ranges) && forall i :: 0 <= i < |ranges| ==> WellFormed(ranges[i])
    ensures forall r :: r in multiset(ranges) ==> r.start > 0
  {
  }

  /** The route is accepted, and looking up slot 0, which nobody holds, reads outside the list. */
  method SearchLeavesList() returns (route: Route, byTable: Lookup, bySlot: Lookup)
    ensures route.Valid() && route.Reflects(GAPPED) && byTable == NoNode && bySlot == OutOfArray
  {
    route := GappedUpdate();
    GappedRoute(route);
    byTable := route.NodeByTable(0);
    bySlot := route.NodeBySlot(0);
  }

  method GappedUpdate() returns (route: Route)
    ensures route.Valid() && route.Reflects(GAPPED)
  {
    GappedAcceptable();
    route := new Route();
    var ok := route.Update(GAPPED);
  }

  lemma GappedRoute(route: Route)
    requires route.Valid() && route.Reflects(GAPPED)
    ensures route.slots.Some? && |route.slots.value| == 2 && route.slots.value[0].start > 0 && route.table[0] == None
  {
    GappedAcceptable();
    GappedIndexes(route.slots.value, AllRanges(GAPPED), route.table[..]);
  }

  lemma GappedIndexes(list: seq<Range>, ranges: seq<Range>, table: seq<Option<nat>>)
    requires Apart(list) && Indexed(list, table) && multiset(list) == multiset(ranges)
    requires |ranges| == 2 && forall r :: r in multiset(ranges) ==> r.start > 0
    ensures |list| == 2 && list[0].start > 0 && table[0] == None
  {
    assert |list| == |multiset(list)| == |multiset(ranges)| == 2;
    assert list[0] in multiset(list);
    NobodyHolds(list, table, 0);
  }

  lemma NobodyHolds(list: seq<Range>, table: seq<Option<nat>>, k: nat)
    requires Apart(list) && Indexed(list, table) && k < SLOTS && list != [] && k < list[0].start
    ensures table[k] == None
  {
    forall i | 0 <= i < |list| ensures !Holds(list[i], k) {
      assert WellFormed(list[0]) && (i > 0 ==> list[0].end < list[i].start);
    }
    if |Owners(list, k)| > 0 { var i := OwnerHolds(list, k); }
  }

  lemma SearchBelow(slots: seq<Range>, k: nat, r: Lookup)
    requires Apart(slots) && slots != [] && k < slots[0].start && Answers(slots, k, r)
    ensures r == if LeadingBits(|slots| + 1) == 2 then NoNode else OutOfArray
  {
    LeadingTen(|slots| + 1);
    forall i | 0 <= i < |slots| ensures !Holds(slots[i], k) {
      assert WellFormed(slots[0]) && (i > 0 ==> slots[0].end < slots[i].start);
    }
  }

  method Copy(from: array<Option<nat>>, to: array<Option<nat>>)
    requires from != to && from.Length == to.Length
    modifies to
    ensures to[..] == from[..]
  {
    for k := 0 to to.Length
      invariant to[..k] == from[..k]
    {
      to[k] := from[k];
    }
  }
}
