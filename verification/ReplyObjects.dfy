/** How a reply tree lies in memory while the reader builds it (`hiredis/hiredis.c`, the
    `create...Object` functions): every object is allocated in turn and its address is stored in
    the element slot of the object around it. Addresses are allocation numbers here. */
module ReplyObjects {
  import opened Bytes
  import opened Replies

  /** An unset element slot is `None`. */
  datatype Node = LeafNode(reply: Reply) | AggNode(kind: Kind, elements: seq<Option<nat>>)

  function Size(r: Reply): nat
    decreases r, 1
  {
    if r.Aggregate? then 1 + SizeAll(r.elements) else 1
  }

  function SizeAll(rs: seq<Reply>): nat
    decreases rs, 0
  {
    if rs == [] then 0 else SizeAll(rs[..|rs| - 1]) + Size(rs[|rs| - 1])
  }

  /** The objects of a finished reply, the first of them at `lo`. */
  function Layout(r: Reply, lo: nat): (nodes: seq<Node>)
    ensures |nodes| == Size(r)
    decreases r, 1
  {
    if r.Aggregate? then [AggNode(r.kind, Ids(r.elements, lo + 1))] + LayoutAll(r.elements, lo + 1) else [LeafNode(r)]
  }

  function LayoutAll(rs: seq<Reply>, lo: nat): (nodes: seq<Node>)
    ensures |nodes| == SizeAll(rs)
    decreases rs, 0
  {
    if rs == [] then [] else LayoutAll(rs[..|rs| - 1], lo) + Layout(rs[|rs| - 1], lo + SizeAll(rs[..|rs| - 1]))
  }

  /** Where the elements start. */
  function Ids(rs: seq<Reply>, lo: nat): (ids: seq<Option<nat>>)
    ensures |ids| == |rs|
  {
    if rs == [] then [] else Ids(rs[..|rs| - 1], lo) + [Some(lo + SizeAll(rs[..|rs| - 1]))]
  }

  function Unset(n: nat): (ids: seq<Option<nat>>)
    ensures |ids| == n
  {
    if n == 0 then [] else [None] + Unset(n - 1)
  }

  /** Storing an address in an element slot. */
  function SetSlot(objs: seq<Node>, id: nat, idx: nat, child: nat): (r: seq<Node>)
    requires id < |objs| && objs[id].AggNode? && idx < |objs[id].elements|
    ensures |r| == |objs|
  {
    objs[id := AggNode(objs[id].kind, objs[id].elements[idx := Some(child)])]
  }

  lemma SizeSnoc(got: seq<Reply>, r: Reply, more: seq<Reply>)
    requires more == got + [r]
    ensures SizeAll(more) == SizeAll(got) + Size(r)
  {
    assert more[..|more| - 1] == got && more[|more| - 1] == r;
  }

  lemma LayoutSnoc(got: seq<Reply>, r: Reply, more: seq<Reply>, lo: nat, child: nat)
    requires more == got + [r] && child == lo + SizeAll(got)
    ensures LayoutAll(more, lo) == LayoutAll(got, lo) + Layout(r, child)
  {
    assert more[..|more| - 1] == got && more[|more| - 1] == r;
  }

  lemma IdsSnoc(got: seq<Reply>, r: Reply, more: seq<Reply>, lo: nat, child: nat)
    requires more == got + [r] && child == lo + SizeAll(got)
    ensures Ids(more, lo) == Ids(got, lo) + [Some(child)]
  {
    assert more[..|more| - 1] == got;
  }

  lemma AllSnoc(got: seq<Reply>, r: Reply, more: seq<Reply>, lo: nat, child: nat)
    requires more == got + [r] && child == lo + SizeAll(got)
    ensures SizeAll(more) == SizeAll(got) + Size(r)
    ensures LayoutAll(more, lo) == LayoutAll(got, lo) + Layout(r, child)
    ensures Ids(more, lo) == Ids(got, lo) + [Some(child)]
  {
    SizeSnoc(got, r, more);
    LayoutSnoc(got, r, more, lo, child);
    IdsSnoc(got, r, more, lo, child);
  }

  // ---------- a finished reply ----------

  predicate AllSet(nodes: seq<Node>, lo: nat) {
    forall k, j :: 0 <= k < |nodes| && nodes[k].AggNode? && 0 <= j < |nodes[k].elements| ==>
      nodes[k].elements[j].Some? && lo + k < nodes[k].elements[j].value < lo + |nodes|
  }

  /** No element slot of a finished reply is left unset, and every one holds the address of an
      object allocated after its parent. */
  lemma {:induction false} NoSlotUnset(r: Reply, lo: nat)
    ensures AllSet(Layout(r, lo), lo)
    decreases r, 1
  {
    if r.Aggregate? {
      NoSlotUnsetAll(r.elements, lo + 1);
      IdsWithin(r.elements, lo + 1);
    }
  }

  lemma {:induction false} NoSlotUnsetAll(rs: seq<Reply>, lo: nat)
    ensures AllSet(LayoutAll(rs, lo), lo)
    decreases rs, 0
  {
    if rs != [] {
      var front, last := rs[..|rs| - 1], rs[|rs| - 1];
      NoSlotUnsetAll(front, lo);
      NoSlotUnset(last, lo + SizeAll(front));
    }
  }

  lemma {:induction false} IdsWithin(rs: seq<Reply>, lo: nat)
    ensures forall j :: 0 <= j < |rs| ==> Ids(rs, lo)[j].Some? && lo <= Ids(rs, lo)[j].value < lo + SizeAll(rs)
  {
    if rs != [] { IdsWithin(rs[..|rs| - 1], lo); }
  }

  /** Following the addresses gives the reply back. */
  function ReplyAt(nodes: seq<Node>, id: nat): Reply
    requires AllSet(nodes, 0) && id < |nodes|
    decreases |nodes| - id, 1, 0
  {
    match nodes[id]
    case LeafNode(r) => r
    case AggNode(kind, ids) => Aggregate(kind, RepliesAt(nodes, id, |ids|))
  }

  function RepliesAt(nodes: seq<Node>, id: nat, n: nat): seq<Reply>
    requires AllSet(nodes, 0) && id < |nodes| && nodes[id].AggNode? && n <= |nodes[id].elements|
    decreases |nodes| - id, 0, n
  {
    if n == 0 then [] else RepliesAt(nodes, id, n - 1) + [ReplyAt(nodes, nodes[id].elements[n - 1].value)]
  }

  /** These objects are the ones from `lo` on. */
  predicate Lie(x: seq<Node>, nodes: seq<Node>, lo: nat) {
    lo + |x| <= |nodes| && nodes[lo..lo + |x|] == x
  }

  lemma LieSplit(x: seq<Node>, y: seq<Node>, nodes: seq<Node>, lo: nat)
    requires Lie(x + y, nodes, lo)
    ensures Lie(x, nodes, lo) && Lie(y, nodes, lo + |x|)
  {
    var z := nodes[lo..lo + |x + y|];
    assert nodes[lo..lo + |x|] == z[..|x|] && nodes[lo + |x|..lo + |x| + |y|] == z[|x|..];
  }

  lemma {:induction false} TreeIsFound(r: Reply, nodes: seq<Node>, id: nat)
    requires AllSet(nodes, 0) && Lie(Layout(r, id), nodes, id)
    ensures ReplyAt(nodes, id) == r
    decreases r, 1
  {
    assert nodes[id] == nodes[id..id + |Layout(r, id)|][0];
    if r.Aggregate? {
      LieSplit([AggNode(r.kind, Ids(r.elements, id + 1))], LayoutAll(r.elements, id + 1), nodes, id);
      assert r.elements[..|r.elements|] == r.elements;
      TreesAreFound(r.elements, nodes, id, |r.elements|);
    }
  }

  lemma {:induction false} TreesAreFound(all: seq<Reply>, nodes: seq<Node>, id: nat, n: nat)
    requires AllSet(nodes, 0) && id < |nodes| && n <= |all|
    requires nodes[id].AggNode? && nodes[id].elements == Ids(all, id + 1)
    requires Lie(LayoutAll(all[..n], id + 1), nodes, id + 1)
    ensures RepliesAt(nodes, id, n) == all[..n]
    decreases all, n
  {
    if n > 0 {
      var front, last := all[..n - 1], all[n - 1];
      var at := id + 1 + SizeAll(front);
      IdOf(all, id + 1, n - 1);
      assert all[..n] == front + [last];
      LastLies(front, last, all[..n], nodes, id + 1, at);
      TreesAreFound(all, nodes, id, n - 1);
      TreeIsFound(last, nodes, at);
      RepliesSnoc(nodes, id, n, at);
    }
  }

  lemma LastLies(front: seq<Reply>, last: Reply, all: seq<Reply>, nodes: seq<Node>, lo: nat, at: nat)
    requires all == front + [last] && at == lo + SizeAll(front) && Lie(LayoutAll(all, lo), nodes, lo)
    ensures Lie(LayoutAll(front, lo), nodes, lo) && Lie(Layout(last, at), nodes, at)
  {
    AllSnoc(front, last, all, lo, at);
    LieSplit(LayoutAll(front, lo), Layout(last, at), nodes, lo);
  }

  lemma RepliesSnoc(nodes: seq<Node>, id: nat, n: nat, at: nat)
    requires AllSet(nodes, 0) && id < |nodes| && nodes[id].AggNode? && 0 < n <= |nodes[id].elements|
    requires nodes[id].elements[n - 1] == Some(at)
    ensures at < |nodes| && RepliesAt(nodes, id, n) == RepliesAt(nodes, id, n - 1) + [ReplyAt(nodes, at)]
  {
  }

  lemma {:induction false} IdOf(rs: seq<Reply>, lo: nat, j: nat)
    requires j < |rs|
    ensures Ids(rs, lo)[j] == Some(lo + SizeAll(rs[..j]))
  {
    if j < |rs| - 1 {
      IdOf(rs[..|rs| - 1], lo, j);
      assert rs[..|rs| - 1][..j] == rs[..j];
    }
  }

  /** What the caller of the reader finds by following the addresses from the root is the reply. */
  lemma RootIsReply(r: Reply)
    ensures AllSet(Layout(r, 0), 0) && ReplyAt(Layout(r, 0), 0) == r
  {
    NoSlotUnset(r, 0);
    var nodes := Layout(r, 0);
    assert nodes[0..0 + |nodes|] == nodes;
    TreeIsFound(r, nodes, 0);
  }
}
