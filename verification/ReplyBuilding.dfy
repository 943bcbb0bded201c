/** The objects while a reply is read: some aggregates are still open. */
module ReplyBuilding {
  import opened Bytes
  import opened Replies
  import opened ReplyStream
  import opened ReplyObjects

  // ---------- aggregates under construction ----------

  predicate Unfinished(frames: Frames) {
    frames.Within? ==> |frames.got| < frames.total && Unfinished(frames.outer)
  }

  /** An aggregate with `got` of its `total` elements, at `lo`. */
  function OpenAt(kind: Kind, total: nat, got: seq<Reply>, lo: nat): (nodes: seq<Node>)
    requires |got| <= total
    ensures |nodes| == 1 + SizeAll(got) && nodes[0].AggNode? && |nodes[0].elements| == total
  {
    [AggNode(kind, Ids(got, lo + 1) + Unset(total - |got|))] + LayoutAll(got, lo + 1)
  }

  /** The objects while `frames` are open, the innermost open aggregate and what is in it last. */
  function Building(frames: Frames): (nodes: seq<Node>)
    requires Unfinished(frames)
    ensures |nodes| == Start(frames)
    ensures frames.Within? ==> Slot(nodes, Start(frames.outer), frames.total)
    decreases frames, 0
  {
    match frames
    case Outside => []
    case Within(outer, kind, total, got) => Around(outer) + OpenAt(kind, total, got, Start(outer))
  }

  /** How many objects there are, and so where the next one goes. */
  function Start(frames: Frames): nat {
    if frames.Within? then Start(frames.outer) + 1 + SizeAll(frames.got) else 0
  }

  predicate Slot(nodes: seq<Node>, id: nat, total: nat) {
    id < |nodes| && nodes[id].AggNode? && |nodes[id].elements| == total
  }

  /** The objects there once the next object is hooked into the innermost open aggregate. */
  function Around(frames: Frames): (nodes: seq<Node>)
    requires Unfinished(frames)
    ensures |nodes| == Start(frames)
    decreases frames, 1
  {
    match frames
    case Outside => []
    case Within(outer, kind, total, got) =>
      SetSlot(Building(frames), Start(outer), |got|, Start(frames))
  }

  /** The objects when `r` has just been finished inside `frames`. */
  function Finished(frames: Frames, r: Reply): seq<Node>
    requires Unfinished(frames)
  {
    Around(frames) + Layout(r, Start(frames))
  }

  lemma SlotSnoc(ids: seq<Option<nat>>, n: nat, id: nat)
    requires n > 0
    ensures (ids + Unset(n))[|ids| := Some(id)] == ids + [Some(id)] + Unset(n - 1)
  {
  }

  lemma SetHead(head: Node, tail: seq<Node>, idx: nat, child: nat)
    requires head.AggNode? && idx < |head.elements|
    ensures SetSlot([head] + tail, 0, idx, child) == [AggNode(head.kind, head.elements[idx := Some(child)])] + tail
  {
  }

  lemma HookIn(kind: Kind, ids: seq<Option<nat>>, n: nat, all: seq<Node>, more: seq<Node>, child: nat)
    requires n > 0
    ensures |(ids + Unset(n))| > |ids|
    ensures SetSlot([AggNode(kind, ids + Unset(n))] + all, 0, |ids|, child) + more
         == [AggNode(kind, ids + [Some(child)] + Unset(n - 1))] + (all + more)
  {
    SlotSnoc(ids, n, child);
    SetHead(AggNode(kind, ids + Unset(n)), all, |ids|, child);
    Associative([AggNode(kind, ids + [Some(child)] + Unset(n - 1))], all, more);
  }

  /** Hooking an element in, seen from the aggregate: the next open slot is filled. */
  lemma OpenSnoc(kind: Kind, total: nat, got: seq<Reply>, more: seq<Reply>, lo: nat, r: Reply, child: nat)
    requires more == got + [r] && |got| < total && child == lo + 1 + SizeAll(got)
    ensures OpenAt(kind, total, more, lo) == SetSlot(OpenAt(kind, total, got, lo), 0, |got|, child) + Layout(r, child)
  {
    AllSnoc(got, r, more, lo + 1, child);
    HookIn(kind, Ids(got, lo + 1), total - |got|, LayoutAll(got, lo + 1), Layout(r, child), child);
  }

  lemma HookBehind(a: seq<Node>, b: seq<Node>, idx: nat, child: nat, more: seq<Node>)
    requires |b| > 0 && b[0].AggNode? && idx < |b[0].elements|
    ensures |a| < |a + b| && (a + b)[|a|] == b[0]
    ensures SetSlot(a + b, |a|, idx, child) + more == a + (SetSlot(b, 0, idx, child) + more)
  {
    assert SetSlot(a + b, |a|, idx, child) == a + SetSlot(b, 0, idx, child);
    Associative(a, SetSlot(b, 0, idx, child), more);
  }

  /** A reply finished inside an open aggregate: the objects are those of an aggregate with one
      element more. */
  lemma FinishedInside(frames: Frames, r: Reply)
    requires frames.Within? && Unfinished(frames)
    ensures Finished(frames, r) ==
      Around(frames.outer) + OpenAt(frames.kind, frames.total, frames.got + [r], Start(frames.outer))
  {
    match frames
    case Within(outer, kind, total, got) =>
      var lo := Start(outer);
      var child := Start(frames);
      OpenSnoc(kind, total, got, got + [r], lo, r, child);
      var a, b := Around(outer), OpenAt(kind, total, got, lo);
      assert Around(frames) == SetSlot(a + b, |a|, |got|, child);
      HookBehind(a, b, |got|, child, Layout(r, child));
  }

  /** The last element finishes the aggregate itself. */
  lemma FinishedCloses(frames: Frames, r: Reply)
    requires frames.Within? && Unfinished(frames) && |frames.got| + 1 == frames.total
    ensures Finished(frames, r) == Finished(frames.outer, Aggregate(frames.kind, frames.got + [r]))
  {
    FinishedInside(frames, r);
    OpenFull(frames.kind, frames.total, frames.got + [r], Start(frames.outer));
  }

  lemma OpenFull(kind: Kind, total: nat, elements: seq<Reply>, lo: nat)
    requires |elements| == total
    ensures OpenAt(kind, total, elements, lo) == Layout(Aggregate(kind, elements), lo)
  {
    var ids := Ids(elements, lo + 1);
    assert ids + Unset(0) == ids;
  }

  lemma FinishedStaysOpen(frames: Frames, r: Reply)
    requires frames.Within? && Unfinished(frames) && |frames.got| + 1 < frames.total
    ensures var frames' := frames.(got := frames.got + [r]);
      Unfinished(frames') && Finished(frames, r) == Building(frames')
  {
    FinishedInside(frames, r);
  }

  /** The objects do not change while the end of a reply closes one aggregate after the other. */
  lemma {:induction false} FinishedDelivers(frames: Frames, r: Reply)
    requires Unfinished(frames)
    ensures match Deliver(frames, r)
      case Whole(whole) => Finished(frames, r) == Layout(whole, 0)
      case Inside(inner) => Unfinished(inner) && Finished(frames, r) == Building(inner)
    decreases frames
  {
    if frames.Outside? {
      assert [] + Layout(r, 0) == Layout(r, 0);
    } else if |frames.got| + 1 == frames.total {
      FinishedCloses(frames, r);
      FinishedDelivers(frames.outer, Aggregate(frames.kind, frames.got + [r]));
    } else {
      FinishedStaysOpen(frames, r);
    }
  }
}
