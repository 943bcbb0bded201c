/** The linked list of callbacks of `hiredis/async.c`, with its head and tail pointers: it is the
    first-in first-out queue that `Async` works with. */
module CallbackList {
  import opened Bytes
  import opened Async

  class ListNode {
    const cb: Callback
    var next: ListNode?

    constructor (cb: Callback)
      ensures this.cb == cb && next == null
    {
      this.cb, next := cb, null;
    }
  }

  class CallbackList {
    var head: ListNode?
    var tail: ListNode?
    ghost var nodes: seq<ListNode>

    ghost predicate Valid()
      reads this, nodes
    {
      && (forall i, j :: 0 <= i < j < |nodes| ==> nodes[i] != nodes[j])
      && (forall i :: 0 <= i < |nodes| - 1 ==> nodes[i].next == nodes[i + 1])
      && (nodes != [] ==> nodes[|nodes| - 1].next == null)
      && head == (if nodes == [] then null else nodes[0])
      && tail == (if nodes == [] then null else nodes[|nodes| - 1])
    }

    constructor ()
      ensures Valid() && nodes == []
    {
      head, tail, nodes := null, null, [];
    }

    /** `__redisPushCallback`. */
    method Push(source: Callback)
      requires Valid()
      modifies this, nodes
      ensures Valid() && Contents(nodes) == old(Contents(nodes)) + [source]
      ensures fresh(nodes[|nodes| - 1]) && nodes[..|nodes| - 1] == old(nodes)
    {
      var cb := new ListNode(source);
      if head == null { head := cb; }
      if tail != null { tail.next := cb; }
      tail := cb;
      nodes := nodes + [cb];
      ContentsAppend(old(nodes), cb);
    }

    /** `__redisShiftCallback`. */
    method Shift() returns (r: Option<Callback>)
      requires Valid()
      modifies this
      ensures Valid()
      ensures var was := old(Contents(nodes));
        if was == [] then r.None? && nodes == old(nodes) == []
        else r == Some(was[0]) && Contents(nodes) == was[1..] && nodes == old(nodes)[1..]
    {
      var cb := head;
      if cb == null { return None; }
      ghost var was := nodes;
      assert cb == was[0] && (|was| > 1 ==> cb.next == was[1]);
      head := cb.next;
      if cb == tail { tail := null; }
      nodes := nodes[1..];
      assert forall i :: 0 <= i < |nodes| ==> nodes[i] == was[i + 1];
      r := Some(cb.cb);
    }
  }

  datatype Operation = PushOf(cb: Callback) | ShiftOf

  /** What the shifts of a run on a queue give, and what is left. */
  function OnQueue(ops: seq<Operation>): (seq<Option<Callback>>, seq<Callback>) {
    if ops == [] then ([], [])
    else
      var (given, q) := OnQueue(ops[..|ops| - 1]);
      match ops[|ops| - 1]
      case PushOf(cb) => (given, q + [cb])
      case ShiftOf => if q == [] then (given + [None], q) else (given + [Some(q[0])], q[1..])
  }

  /** Any run on a new list gives what it would give on a queue. */
  method AnyRun(ops: seq<Operation>) returns (list: CallbackList, given: seq<Option<Callback>>)
    ensures fresh(list) && list.Valid() && (given, Contents(list.nodes)) == OnQueue(ops)
  {
    list := new CallbackList();
    given := [];
    for i := 0 to |ops|
      invariant fresh(list) && fresh(set n | n in list.nodes) && list.Valid()
      invariant (given, Contents(list.nodes)) == OnQueue(ops[..i])
    {
      assert ops[..i + 1][..i] == ops[..i];
      match ops[i]
      case PushOf(cb) => list.Push(cb);
      case ShiftOf =>
        var r := list.Shift();
        given := given + [r];
    }
    assert ops[..|ops|] == ops;
  }

  function Contents(nodes: seq<ListNode>): (cbs: seq<Callback>)
    ensures |cbs| == |nodes|
  {
    if nodes == [] then [] else [nodes[0].cb] + Contents(nodes[1..])
  }

  lemma {:induction false} ContentsAppend(nodes: seq<ListNode>, last: ListNode)
    ensures Contents(nodes + [last]) == Contents(nodes) + [last.cb]
  {
    if nodes == [] {
      assert [last][1..] == [];
    } else {
      assert (nodes + [last])[1..] == nodes[1..] + [last];
      ContentsAppend(nodes[1..], last);
    }
  }
}
