/** `command_post_fragment` of `hircluster.c`: one reply put together from the replies of the
    sub-commands. */
module Gather {
  import opened Bytes
  import opened CommandTable
  import opened Replies

  const OK_TEXT: Text := [79, 75]

  /** The replies of the sub-commands by slot; a missing reply is a null pointer. */
  type SubReplies = map<nat, Option<Reply>>

  /** The outcome of looking at every reply before anything is put together. */
  datatype Verdict = Proceed(count: int) | Stop(reply: Option<Reply>)

  /** The first reply that is missing, an error or of the wrong type decides; otherwise the
      integers are added up. */
  function Inspect(ctype: Command, order: seq<nat>, replies: SubReplies, count: int): Verdict
    requires forall i :: 0 <= i < |order| ==> order[i] in replies
  {
    if order == [] then Proceed(count)
    else
      match replies[order[0]]
      case None => Stop(None)
      case Some(reply) =>
        if reply.Error? then Stop(Some(reply))
        else if ctype == MGET then
          if reply.Aggregate? && reply.kind == ArrayKind then Inspect(ctype, order[1..], replies, count) else Stop(None)
        else if ctype == DEL then
          if reply.Integer? then Inspect(ctype, order[1..], replies, count + reply.value) else Stop(None)
        else
          if reply == Status(OK_TEXT) then Inspect(ctype, order[1..], replies, count) else Stop(None)
  }

  method InspectReplies(ctype: Command, order: seq<nat>, replies: SubReplies) returns (v: Verdict)
    requires forall i :: 0 <= i < |order| ==> order[i] in replies
    ensures v == Inspect(ctype, order, replies, 0)
  {
    var count, i := 0, 0;
    while i < |order|
      invariant 0 <= i <= |order|
      invariant Inspect(ctype, order[i..], replies, count) == Inspect(ctype, order, replies, 0)
    {
      assert order[i..][1..] == order[i + 1..];
      var reply := replies[order[i]];
      if reply.None? { return Stop(None); }
      if reply.value.Error? { return Stop(reply); }
      if ctype == MGET {
        if !(reply.value.Aggregate? && reply.value.kind == ArrayKind) { return Stop(None); }
      } else if ctype == DEL {
        if !reply.value.Integer? { return Stop(None); }
        count := count + reply.value.value;
      } else {
        if reply.value != Status(OK_TEXT) { return Stop(None); }
      }
      i := i + 1;
    }
    v := Proceed(count);
  }

  /** How many keys at position `from` or later belong to slot `s`. */
  function CountFrom(fragSeq: seq<nat>, from: nat, s: nat): nat
    requires from <= |fragSeq|
    decreases |fragSeq| - from
  {
    if from == |fragSeq| then 0
    else (if fragSeq[from] == s then 1 else 0) + CountFrom(fragSeq, from + 1, s)
  }

  predicate Enough(fragSeq: seq<nat>, parts: map<nat, seq<Reply>>, from: nat) {
    from <= |fragSeq| && forall s :: s in parts ==> CountFrom(fragSeq, from, s) <= |parts[s]|
  }

  /** `reply` is the element that key `i` is owed: counted from the back of its slot's reply,
      the one at the key's distance from the last key of that slot. */
  predicate Owed(fragSeq: seq<nat>, parts: map<nat, seq<Reply>>, i: nat, reply: Reply) {
    && i < |fragSeq| && fragSeq[i] in parts
    && var part := parts[fragSeq[i]];
       var back := CountFrom(fragSeq, i, fragSeq[i]);
       1 <= back <= |part| && reply == part[|part| - back]
  }

  predicate Placed(fragSeq: seq<nat>, parts: map<nat, seq<Reply>>, i: nat, tail: seq<Reply>) {
    i + |tail| == |fragSeq| && forall k :: 0 <= k < |tail| ==> Owed(fragSeq, parts, i + k, tail[k])
  }

  /** The `elements` counts once the keys from position `i` on have been served. */
  predicate LeftOver(fragSeq: seq<nat>, parts: map<nat, seq<Reply>>, i: nat, left: map<nat, nat>) {
    && i <= |fragSeq| && left.Keys == parts.Keys
    && forall s :: s in parts ==> left[s] == |parts[s]| - CountFrom(fragSeq, i, s)
  }

  /** The backward reassembly of MGET. `left` is the `elements` count of every sub-reply, which
      the loop decrements as it moves elements out. */
  method Reassemble(fragSeq: seq<nat>, parts: map<nat, seq<Reply>>)
    returns (elements: Option<seq<Reply>>, left: map<nat, nat>)
    requires forall i :: 0 <= i < |fragSeq| ==> fragSeq[i] in parts
    ensures elements.Some? <==> Enough(fragSeq, parts, 0)
    ensures elements.Some? ==> Placed(fragSeq, parts, 0, elements.value) && LeftOver(fragSeq, parts, 0, left)
  {
    left := map s | s in parts :: |parts[s]|;
    var tail: seq<Reply> := [];
    var i := |fragSeq|;
    while i > 0
      invariant 0 <= i <= |fragSeq| && Placed(fragSeq, parts, i, tail) && LeftOver(fragSeq, parts, i, left)
    {
      i := i - 1;
      var s := fragSeq[i];
      if left[s] == 0 {
        NotEnough(fragSeq, parts, i, s);
        return None, left;
      }
      PlacedCons(fragSeq, parts, i, parts[s][left[s] - 1], tail);
      tail := [parts[s][left[s] - 1]] + tail;
      left := left[s := left[s] - 1];
    }
    elements := Some(tail);
  }

  lemma PlacedCons(fragSeq: seq<nat>, parts: map<nat, seq<Reply>>, i: nat, reply: Reply, tail: seq<Reply>)
    requires Owed(fragSeq, parts, i, reply) && Placed(fragSeq, parts, i + 1, tail)
    ensures Placed(fragSeq, parts, i, [reply] + tail)
  {
    forall k | 0 <= k < |tail| + 1 ensures Owed(fragSeq, parts, i + k, ([reply] + tail)[k]) {
      assert k > 0 ==> Owed(fragSeq, parts, i + 1 + (k - 1), tail[k - 1]);
    }
  }

  lemma {:induction false} CountGrows(fragSeq: seq<nat>, from: nat, s: nat)
    requires from <= |fragSeq|
    ensures CountFrom(fragSeq, from, s) <= CountFrom(fragSeq, 0, s)
    decreases from
  {
    if from > 0 { CountGrows(fragSeq, from - 1, s); }
  }

  lemma NotEnough(fragSeq: seq<nat>, parts: map<nat, seq<Reply>>, i: nat, s: nat)
    requires i < |fragSeq| && s == fragSeq[i] && s in parts && CountFrom(fragSeq, i + 1, s) >= |parts[s]|
    ensures !Enough(fragSeq, parts, 0)
  {
    CountGrows(fragSeq, i, s);
  }

  /** The parts of the replies that MGET takes elements from. */
  function Parts(replies: SubReplies): map<nat, seq<Reply>> {
    map s | s in replies && replies[s].Some? && replies[s].value.Aggregate? :: replies[s].value.elements
  }

  /** What `command_post_fragment` has to return. */
  ghost predicate Assembled(ctype: Command, order: seq<nat>, replies: SubReplies, fragSeq: seq<nat>, out: Option<Reply>)
    requires forall i :: 0 <= i < |order| ==> order[i] in replies
  {
    match Inspect(ctype, order, replies, 0)
    case Stop(reply) => out == reply
    case Proceed(count) =>
      if ctype == DEL then out == Some(Integer(count))
      else if ctype != MGET then out == Some(Status(OK_TEXT))
      else if !Enough(fragSeq, Parts(replies), 0) then out == None
      else
        && out.Some? && out.value.Aggregate? && out.value.kind == ArrayKind
        && Placed(fragSeq, Parts(replies), 0, out.value.elements)
  }

  /** `command_post_fragment`. */
  method PostFragment(ctype: Command, order: seq<nat>, replies: SubReplies, fragSeq: seq<nat>) returns (out: Option<Reply>)
    requires ctype in {MGET, DEL, MSET}
    requires forall i :: 0 <= i < |order| ==> order[i] in replies
    requires forall i :: 0 <= i < |fragSeq| ==> fragSeq[i] in order
    ensures Assembled(ctype, order, replies, fragSeq, out)
  {
    var v := InspectReplies(ctype, order, replies);
    if v.Stop? { return v.reply; }
    if ctype == MGET {
      forall i | 0 <= i < |fragSeq| ensures fragSeq[i] in Parts(replies) {
        ProceedMeansArrays(order, replies, fragSeq[i], 0);
      }
      var elements, left := Reassemble(fragSeq, Parts(replies));
      if elements.None? { return None; }
      out := Some(Aggregate(ArrayKind, elements.value));
    } else if ctype == DEL {
      out := Some(Integer(v.count));
    } else {
      out := Some(Status(OK_TEXT));
    }
  }

  lemma {:induction false} ProceedMeansArrays(order: seq<nat>, replies: SubReplies, s: nat, count: int)
    requires forall i :: 0 <= i < |order| ==> order[i] in replies
    requires Inspect(MGET, order, replies, count).Proceed? && s in order
    ensures s in replies && replies[s].Some? && replies[s].value.Aggregate? && replies[s].value.kind == ArrayKind
  {
    if s != order[0] { ProceedMeansArrays(order[1..], replies, s, count); }
  }
}
