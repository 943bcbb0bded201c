/** The incremental reply reader (`hiredis/read.c`): a buffer that is fed in chunks, and an
    explicit, growing stack of tasks, one for every open aggregate and one for the item at hand.
    Every method is proved against `ReplyStream` and `ReplyObjects`. */
module Reader {
  import opened Bytes
  import opened DecimalText
  import opened Replies
  import opened ReplyStream
  import opened ReplyStreamLaws
  import opened ReplyObjects
  import opened ReplyBuilding
  import SdsArgs

  const STACK_SIZE := 9
  const DISCARD_AT := 1024

  /** `typ` is unset until the type byte has been read; `parent` is a position in the stack. */
  datatype Task = Task(typ: Option<Type>, elements: int, idx: int, obj: Option<nat>, parent: Option<nat>)

  const BLANK := Task(None, 0, 0, None, None)

  // ---------- what the stack means ----------

  function Depth(frames: Frames): nat {
    if frames.Within? then Depth(frames.outer) + 1 else 0
  }

  /** Task `n` stands for the `n`th open aggregate; the task behind it points back to it. */
  predicate Stack(task: seq<Task>, frames: Frames) {
    match frames
    case Outside => |task| > 0 && task[0].parent == None
    case Within(outer, kind, total, got) =>
      var n := Depth(outer);
      && Stack(task, outer) && Unfinished(frames) && n + 1 < |task|
      && task[n].typ == Some(AggregateType(kind)) && task[n].elements == total && task[n].obj == Some(Start(outer))
      && task[n + 1].idx == |got| && task[n + 1].parent == Some(n)
  }

  lemma {:induction false} StackUnfinished(task: seq<Task>, frames: Frames)
    requires Stack(task, frames)
    ensures Unfinished(frames) && Depth(frames) < |task|
  {
  }

  /** What the stack always looks like: every task but the first points back to the one before
      it, which stands for an aggregate with room for the element this one reads. */
  lemma {:induction false} ParentIsBelow(task: seq<Task>, frames: Frames, i: nat)
    requires Stack(task, frames) && i <= Depth(frames)
    ensures i < |task| && task[i].parent == if i == 0 then None else Some(i - 1)
    ensures i > 0 ==> task[i - 1].typ.Some? && task[i - 1].typ.value.AggregateType? && 0 <= task[i].idx < task[i - 1].elements
  {
    StackUnfinished(task, frames);
    if frames.Within? && i < Depth(frames) { ParentIsBelow(task, frames.outer, i); }
  }

  lemma {:induction false} StackKept(task: seq<Task>, task': seq<Task>, frames: Frames)
    requires Stack(task, frames) && |task| <= |task'| && Depth(frames) < |task|
    requires forall i :: 0 <= i < Depth(frames) ==> task'[i] == task[i]
    requires task'[Depth(frames)].idx == task[Depth(frames)].idx && task'[Depth(frames)].parent == task[Depth(frames)].parent
    ensures Stack(task', frames)
  {
    if frames.Within? { StackKept(task, task', frames.outer); }
  }

  /** One more aggregate is opened. */
  lemma StackGrows(task: seq<Task>, frames: Frames, kind: Kind, total: nat, top: Task, below: Task)
    requires Stack(task, frames) && Unfinished(frames) && Depth(frames) + 1 < |task| && total > 0
    requires top == task[Depth(frames)].(typ := Some(AggregateType(kind)), elements := total, obj := Some(Start(frames)))
    requires below.idx == 0 && below.parent == Some(Depth(frames))
    ensures Stack(task[Depth(frames) := top][Depth(frames) + 1 := below], Within(frames, kind, total, []))
  {
    StackKept(task, task[Depth(frames) := top][Depth(frames) + 1 := below], frames);
  }

  lemma StackTyped(task: seq<Task>, frames: Frames, cur: Task)
    requires Stack(task, frames) && Depth(frames) < |task|
    requires cur.idx == task[Depth(frames)].idx && cur.parent == task[Depth(frames)].parent
    ensures Stack(task[Depth(frames) := cur], frames)
  {
    StackKept(task, task[Depth(frames) := cur], frames);
  }

  /** The innermost aggregate waits for its next element. */
  lemma StackAdvances(task: seq<Task>, frames: Frames, r: Reply, next: Task)
    requires Stack(task, frames) && frames.Within? && |frames.got| + 1 < frames.total
    requires Depth(frames) < |task| && next.idx == |frames.got| + 1 && next.parent == Some(Depth(frames.outer))
    ensures Stack(task[Depth(frames) := next], frames.(got := frames.got + [r]))
  {
    StackUnfinished(task, frames);
    StackKept(task, task[Depth(frames) := next], frames.outer);
  }

  /** The next item decides how reading goes on. */
  function Decided(cfg: Config, frames: Frames, t: Type, s: Text, item: Item): Outcome {
    match item
    case NeedMore => Stuck(frames, Some(t), s)
    case Bad => Failed
    case Open(_, _, used) => if used > |s| then Failed else Settled(cfg, frames, item, s[used..])
    case Leaf(_, used) => if used > |s| then Failed else Settled(cfg, frames, item, s[used..])
  }

  lemma ItemDecides(cfg: Config, frames: Frames, t: Type, s: Text)
    ensures Advance(cfg, frames, Some(t), s) == Decided(cfg, frames, t, s, ReadItem(cfg, t, s))
  {
    ItemUses(cfg, t, s);
  }

  predicate IsLineType(t: Type) {
    !t.AggregateType? && t != StringType && t != VerbatimType
  }

  /** `s` starts with `line` and its CR LF. */
  predicate LineTaken(s: Text, line: Text, rest: Text) {
    SeekNewline(s) == Some(|line|) && |line| + 2 <= |s| && line == s[..|line|] && rest == s[|line| + 2..]
  }

  lemma NoLine(cfg: Config, frames: Frames, t: Type, s: Text)
    requires SeekNewline(s).None?
    ensures Advance(cfg, frames, Some(t), s) == Stuck(frames, Some(t), s)
  {
  }

  lemma LineDecides(cfg: Config, frames: Frames, t: Type, s: Text, line: Text, rest: Text)
    requires IsLineType(t) && LineTaken(s, line, rest)
    ensures var r := LineReply(cfg, t, line);
      Advance(cfg, frames, Some(t), s) == if r.None? then Failed else Onward(cfg, Deliver(frames, r.value), rest)
  {
    ItemDecides(cfg, frames, t, s);
  }

  predicate IsBulkType(t: Type) {
    t == StringType || t == VerbatimType
  }

  lemma BulkDecides(cfg: Config, frames: Frames, t: Type, s: Text, i: nat, item: Item)
    requires IsBulkType(t) && SeekNewline(s) == Some(i) && i + 2 <= |s| && item == BulkItem(t, s, i)
    ensures Advance(cfg, frames, Some(t), s) == Decided(cfg, frames, t, s, item)
  {
    ItemDecides(cfg, frames, t, s);
  }

  lemma LeafDecides(cfg: Config, frames: Frames, t: Type, buf: Text, pos: nat, item: Item)
    requires item.Leaf? && pos + item.used <= |buf|
    ensures Decided(cfg, frames, t, buf[pos..], item) == Onward(cfg, Deliver(frames, item.reply), buf[pos + item.used..])
  {
    assert buf[pos..][item.used..] == buf[pos + item.used..];
  }

  /** `createStringObject` on the body of a bulk item. */
  function BulkReply(t: Type, body: Text): Reply
    requires t == VerbatimType ==> |body| >= 4
  {
    if t == VerbatimType then Verbatim(body[..3], body[4..]) else Str(body)
  }

  lemma BulkReplyIs(t: Type, s: Text, i: nat, len: nat)
    requires IsBulkType(t) && i + 2 <= |s| && Int64Of(s[..i]) == Some(len) && i + 2 + len + 2 <= |s|
    requires t == VerbatimType ==> len >= 4 && s[i + 5] == COLON
    ensures BulkItem(t, s, i) == Leaf(BulkReply(t, s[i + 2..i + 2 + len]), i + 2 + len + 2)
  {
    var body := s[i + 2..i + 2 + len];
    if t == VerbatimType {
      assert body[..3] == s[i + 2..i + 5] && body[4..] == s[i + 6..i + 2 + len];
    }
  }

  lemma AggregateDecides(cfg: Config, frames: Frames, kind: Kind, s: Text, line: Text, rest: Text)
    requires LineTaken(s, line, rest)
    ensures Advance(cfg, frames, Some(AggregateType(kind)), s) == Settled(cfg, frames, AggregateItem(cfg, kind, line), rest)
  {
    ItemDecides(cfg, frames, AggregateType(kind), s);
  }

  /** How reading goes on with `rest` behind an item that is all there. */
  function Settled(cfg: Config, frames: Frames, item: Item, rest: Text): Outcome {
    match item
    case Open(kind, total, _) => Advance(cfg, Within(frames, kind, total, []), None, rest)
    case Leaf(r, _) => Onward(cfg, Deliver(frames, r), rest)
    case _ => Failed
  }

  function Onward(cfg: Config, d: Delivery, s: Text): Outcome {
    match d
    case Whole(whole) => Complete(whole, s)
    case Inside(frames) => Advance(cfg, frames, None, s)
  }

  lemma {:induction false} NewlineFits(s: Text)
    ensures SeekNewline(s).Some? ==> SeekNewline(s).value + 2 <= |s|
  {
    if |s| >= 2 { NewlineFits(s[1..]); }
  }

  // ---------- helpers of the reader that only look at text ----------

  /** `seekNewline`, `memchr` included. */
  method FindNewline(s: Text) returns (r: Option<nat>)
    ensures r == SeekNewline(s)
  {
    if |s| < 2 { return None; }
    var i := 0;
    while i < |s| - 1 && !(s[i] == CR && s[i + 1] == LF)
      invariant 0 <= i <= |s| - 1
      invariant SeekNewline(s) == Shifted(SeekNewline(s[i..]), i)
    {
      assert s[i..][1..] == s[i + 1..];
      i := i + 1;
    }
    if i == |s| - 1 { return None; }
    assert s[i..][0] == CR;
    r := Some(i);
  }

  function Shifted(r: Option<nat>, n: nat): Option<nat> {
    if r.None? then None else Some(r.value + n)
  }

  /** The checks `processLineItem` makes on a line of type `t`. */
  method LineValue(cfg: Config, t: Type, line: Text) returns (r: Option<Reply>)
    requires IsLineType(t)
    ensures r == LineReply(cfg, t, line)
  {
    if t == IntegerType {
      var v := String2ll(line);
      r := if v.None? then None else Some(Integer(v.value));
    } else if t == DoubleType {
      r := if |line| >= 326 || !cfg.isDouble(line) then None else Some(Double(line));
    } else if t == NilType {
      r := if |line| != 0 then None else Some(Nil);
    } else if t == BoolType {
      r := if |line| != 1 || !IsTruth(line[0]) then None else Some(Bool(line[0] == 116 || line[0] == 84));
    } else if t == BigNumberType {
      for i := 0 to |line|
        invariant forall k :: 0 <= k < i ==> IsDigit(line[k]) || (k == 0 && line[0] == MINUS)
      {
        if i == 0 && line[0] == MINUS { continue; }
        if line[i] < 48 || line[i] > 57 { return None; }
      }
      r := Some(BigNumber(line));
    } else {
      for i := 0 to |line|
        invariant IsSimple(line[..i])
      {
        if line[i] == CR || line[i] == LF { return None; }
        assert line[..i + 1] == line[..i] + [line[i]];
      }
      assert line[..|line|] == line;
      r := Some(if t == StatusType then Status(line) else Error(line));
    }
  }

  /** The slot for the object of a task, if there is an object around it. */
  predicate HasSlot(objs: seq<Node>, task: seq<Task>, cur: Task) {
    cur.parent.Some? ==>
      && cur.parent.value < |task|
      && var parent := task[cur.parent.value].obj;
         parent.Some? && parent.value < |objs| && objs[parent.value].AggNode? && 0 <= cur.idx < |objs[parent.value].elements|
  }

  function Hooked(objs: seq<Node>, task: seq<Task>, cur: Task): seq<Node>
    requires HasSlot(objs, task, cur)
  {
    if cur.parent.Some? then SetSlot(objs, task[cur.parent.value].obj.value, cur.idx, |objs|) else objs
  }

  lemma OpensEmpty(frames: Frames, kind: Kind, total: nat)
    requires Unfinished(frames) && total > 0
    ensures Building(Within(frames, kind, total, [])) == Around(frames) + [AggNode(kind, Unset(total))]
  {
    assert [] + Unset(total) == Unset(total);
    assert OpenAt(kind, total, [], Start(frames)) == [AggNode(kind, Unset(total))];
  }

  lemma HookedIsAround(task: seq<Task>, frames: Frames)
    requires Stack(task, frames)
    ensures Depth(frames) < |task| && Unfinished(frames)
    ensures var cur, objs := task[Depth(frames)], Building(frames);
      HasSlot(objs, task, cur) && Hooked(objs, task, cur) == Around(frames)
  {
    StackUnfinished(task, frames);
  }

  /** The checks `processBulkItem` makes on the bytes at hand, its header line ending at `i`. */
  method BulkValue(t: Type, p: Text, i: nat) returns (item: Item)
    requires IsBulkType(t) && i + 2 <= |p|
    ensures item == BulkItem(t, p, i) && !item.Open? && (item.Leaf? ==> !item.reply.Aggregate? && 0 < item.used <= |p|)
  {
    var len := String2ll(p[..i]);
    if len.None? || len.value < -1 { return Bad; }
    if len.value == -1 { return Leaf(Nil, i + 2); }
    var bytelen := i + 2 + len.value + 2;
    if bytelen > |p| { return NeedMore; }
    if t == VerbatimType && (len.value < 4 || p[i + 5] != COLON) { return Bad; }
    BulkReplyIs(t, p, i, len.value);
    item := Leaf(BulkReply(t, p[i + 2..i + 2 + len.value]), bytelen);
  }

  /** The checks `processAggregateItem` makes on its line. */
  method AggregateValue(cfg: Config, kind: Kind, line: Text) returns (item: Item)
    ensures item == AggregateItem(cfg, kind, line)
    ensures item.Bad? || item.Open? || item == Leaf(Nil, |line| + 2) || item == Leaf(Aggregate(kind, []), |line| + 2)
  {
    var elements := String2ll(line);
    if elements.None? { return Bad; }
    var n := elements.value;
    if n < -1 || (cfg.maxElements > 0 && n > cfg.maxElements) { return Bad; }
    if n == -1 { return Leaf(Nil, |line| + 2); }
    if kind == MapKind { n := n * 2; }
    if n > 0 { return Open(kind, n, |line| + 2); }
    item := Leaf(Aggregate(kind, []), |line| + 2);
  }

  // ---------- the reader ----------

  class Reader {
    const cfg: Config
    var err: bool
    var buf: Text
    var pos: nat
    var task: seq<Task>
    var ridx: int
    /** The objects of the reply under construction, in order of allocation. */
    var objs: seq<Node>
    var reply: Option<nat>
    /** The open aggregates the stack stands for. */
    ghost var frames: Frames

    /** In the middle of a reply. */
    ghost predicate Busy()
      reads this
    {
      && !err && pos <= |buf| && Depth(frames) == ridx && Stack(task, frames) && Unfinished(frames)
      && objs == Building(frames) && (frames.Within? ==> reply == Some(0))
    }

    ghost predicate Valid()
      reads this
    {
      && |task| >= STACK_SIZE && pos <= |buf|
      && (err || ridx == -1 ==> ridx == -1 && frames == Outside)
      && (ridx != -1 ==> Busy())
    }

    /** What the reader stands for between calls. */
    ghost function State(): Session
      reads this
      requires Valid()
    {
      if err then DEAD
      else Session(frames, if ridx == -1 then None else task[ridx].typ, buf[pos..], false)
    }

    constructor (cfg: Config)
      ensures Valid() && this.cfg == cfg && State() == FRESH
    {
      this.cfg := cfg;
      err, buf, pos := false, [], 0;
      task := [BLANK, BLANK, BLANK, BLANK, BLANK, BLANK, BLANK, BLANK, BLANK];
      ridx, objs, reply, frames := -1, [], None, Outside;
    }

    /** `__redisReaderSetError`. */
    method SetError()
      modifies this`err, this`buf, this`pos, this`ridx, this`reply, this`frames
      ensures err && buf == [] && pos == 0 && ridx == -1 && frames == Outside
    {
      reply, buf, pos, ridx, err, frames := None, [], 0, -1, true, Outside;
    }

    /** The `create...Object` functions: a new object is stored in the element slot its task
        points at. */
    method Create(node: Node) returns (id: nat)
      requires 0 <= ridx < |task| && HasSlot(objs, task, task[ridx])
      modifies this`objs
      ensures id == old(|objs|) && objs == Hooked(old(objs), task, task[ridx]) + [node]
    {
      id := |objs|;
      var cur := task[ridx];
      if cur.parent.Some? {
        objs := SetSlot(objs, task[cur.parent.value].obj.value, cur.idx, id) + [node];
      } else {
        objs := objs + [node];
      }
    }

    /** `moveToNextTask`. */
    method MoveToNextTask(ghost r: Reply)
      requires Depth(frames) == ridx && Stack(task, frames)
      modifies this`ridx, this`task, this`frames
      ensures |task| == old(|task|)
      ensures match Deliver(old(frames), r)
        case Whole(_) => ridx == -1 && frames == Outside
        case Inside(inner) => frames == inner && Depth(frames) == ridx && Stack(task, frames) && task[ridx].typ == None
    {
      ghost var x := r;
      StackUnfinished(task, frames);
      while ridx >= 0
        invariant ridx >= 0 && Depth(frames) == ridx < |task| && Stack(task, frames) && task == old(task)
        invariant Deliver(frames, x) == Deliver(old(frames), r)
      {
        if ridx == 0 {
          ridx, frames := -1, Outside;
          return;
        }
        var cur, prv := task[ridx], task[ridx - 1];
        if cur.idx == prv.elements - 1 {
          frames, x := frames.outer, Aggregate(frames.kind, frames.got + [x]);
          ridx := ridx - 1;
        } else {
          var next := cur.(typ := None, elements := -1, idx := cur.idx + 1);
          StackUnfinished(task, frames);
          StackAdvances(task, frames, x, next);
          frames := frames.(got := frames.got + [x]);
          task := task[ridx := next];
          return;
        }
      }
    }

    /** What one step has done, given what was to be read before it. */
    ghost predicate Stepped(ok: bool, before: Outcome)
      reads this
    {
      if err then !ok && before == Failed && buf == [] && pos == 0 && ridx == -1 && frames == Outside
      else if !ok then Busy() && before == Stuck(frames, task[ridx].typ, buf[pos..])
      else if ridx == -1 then
        && pos <= |buf| && frames == Outside && reply == Some(0)
        && before.Complete? && before.unread == buf[pos..] && objs == Layout(before.reply, 0)
      else Busy() && before == Advance(cfg, frames, task[ridx].typ, buf[pos..])
    }

    /** The end of every item that is a finished reply: create the object, make it the result if
        it is the root, and move on. */
    method FinishItem(r: Reply, node: Node)
      requires Busy() && [node] == Layout(r, Start(frames))
      modifies this`objs, this`reply, this`ridx, this`task, this`frames
      ensures |task| == old(|task|)
      ensures Stepped(true, Onward(cfg, Deliver(old(frames), r), buf[pos..]))
    {
      HookedIsAround(task, frames);
      FinishedDelivers(frames, r);
      var obj := Create(node);
      if ridx == 0 { reply := Some(obj); }
      MoveToNextTask(r);
      if ridx >= 0 { StackUnfinished(task, frames); }
    }

    /** `readLine`. */
    method ReadLine() returns (line: Option<Text>)
      requires pos <= |buf|
      modifies this`pos
      ensures pos <= |buf| && if line.Some? then pos > old(pos) else pos == old(pos)
      ensures if line.Some? then LineTaken(old(buf[pos..]), line.value, buf[pos..]) else SeekNewline(old(buf[pos..])).None?
    {
      var i := FindNewline(buf[pos..]);
      if i.None? { return None; }
      NewlineFits(buf[pos..]);
      line := Some(buf[pos..][..i.value]);
      pos := pos + i.value + 2;
    }

    /** `processLineItem`. */
    method ProcessLineItem() returns (ok: bool)
      requires Busy() && task[ridx].typ.Some? && IsLineType(task[ridx].typ.value)
      modifies this
      ensures Stepped(ok, old(Advance(cfg, frames, task[ridx].typ, buf[pos..])))
      ensures |task| == old(|task|) && (!err ==> buf == old(buf)) && (ok ==> pos > old(pos))
    {
      var t := task[ridx].typ.value;
      ghost var s := buf[pos..];
      var line := ReadLine();
      ok := false;
      if line.None? {
        NoLine(cfg, frames, t, s);
      } else {
        LineDecides(cfg, frames, t, s, line.value, buf[pos..]);
        var r := LineValue(cfg, t, line.value);
        if r.None? {
          SetError();
        } else {
          FinishItem(r.value, LeafNode(r.value));
          ok := true;
        }
      }
    }

    /** The rest of `processBulkItem`, the bulk string looked at. */
    method SettleBulk(t: Type, item: Item) returns (ok: bool)
      requires Busy() && task[ridx].typ == Some(t) && !item.Open?
      requires item.Leaf? ==> !item.reply.Aggregate? && 0 < item.used <= |buf| - pos
      modifies this
      ensures Stepped(ok, Decided(cfg, old(frames), t, old(buf[pos..]), item))
      ensures |task| == old(|task|) && (!err ==> buf == old(buf)) && (ok ==> pos > old(pos))
    {
      ok := item.Leaf?;
      if item.Leaf? {
        LeafDecides(cfg, frames, t, buf, pos, item);
        pos := pos + item.used;
        FinishItem(item.reply, LeafNode(item.reply));
      } else if item.Bad? {
        SetError();
      }
    }

    /** `processBulkItem`. */
    method ProcessBulkItem() returns (ok: bool)
      requires Busy() && task[ridx].typ.Some? && IsBulkType(task[ridx].typ.value)
      modifies this
      ensures Stepped(ok, old(Advance(cfg, frames, task[ridx].typ, buf[pos..])))
      ensures |task| == old(|task|) && (!err ==> buf == old(buf)) && (ok ==> pos > old(pos))
    {
      var t, p := task[ridx].typ.value, buf[pos..];
      var s := FindNewline(p);
      if s.None? {
        NoLine(cfg, frames, t, p);
        ok := false;
      } else {
        NewlineFits(p);
        var item := BulkValue(t, p, s.value);
        BulkDecides(cfg, frames, t, p, s.value, item);
        ok := SettleBulk(t, item);
      }
    }

    /** `redisReaderGrow`. */
    method Grow()
      requires Stack(task, frames)
      modifies this`task
      ensures |task| == old(|task|) + STACK_SIZE && task[..old(|task|)] == old(task) && Stack(task, frames)
    {
      StackUnfinished(task, frames);
      StackKept(task, task + [BLANK, BLANK, BLANK, BLANK, BLANK, BLANK, BLANK, BLANK, BLANK], frames);
      task := task + [BLANK, BLANK, BLANK, BLANK, BLANK, BLANK, BLANK, BLANK, BLANK];
    }

    /** An aggregate with elements becomes the innermost open one. */
    method OpenItem(kind: Kind, total: nat)
      requires Busy() && total > 0 && ridx < |task| - 1 && task[ridx].typ == Some(AggregateType(kind))
      modifies this`objs, this`reply, this`ridx, this`task, this`frames
      ensures |task| == old(|task|)
      ensures Busy() && frames == Within(old(frames), kind, total, []) && task[ridx].typ == None
    {
      HookedIsAround(task, frames);
      var obj := Create(AggNode(kind, Unset(total)));
      OpensEmpty(frames, kind, total);
      var top := task[ridx].(elements := total, obj := Some(obj));
      var below := Task(None, -1, 0, None, Some(ridx));
      StackGrows(task, frames, kind, total, top, below);
      if ridx == 0 { reply := Some(obj); }
      task := task[ridx := top][ridx + 1 := below];
      frames := Within(frames, kind, total, []);
      ridx := ridx + 1;
    }

    /** The rest of `processAggregateItem`, its line read. */
    method SettleAggregate(kind: Kind, line: Text) returns (ok: bool)
      requires Busy() && ridx < |task| - 1 && task[ridx].typ == Some(AggregateType(kind))
      modifies this
      ensures Stepped(ok, Settled(cfg, old(frames), AggregateItem(cfg, kind, line), old(buf[pos..])))
      ensures |task| == old(|task|) && (!err ==> buf == old(buf) && pos == old(pos))
    {
      var item := AggregateValue(cfg, kind, line);
      ok := !item.Bad?;
      if item.Bad? {
        SetError();
      } else if item.Open? {
        OpenItem(kind, item.total);
      } else {
        FinishItem(item.reply, if item.reply.Nil? then LeafNode(Nil) else AggNode(kind, []));
      }
    }

    /** `processAggregateItem`. */
    method ProcessAggregateItem() returns (ok: bool)
      requires Busy() && task[ridx].typ.Some? && task[ridx].typ.value.AggregateType?
      modifies this
      ensures Stepped(ok, old(Advance(cfg, frames, task[ridx].typ, buf[pos..])))
      ensures |task| >= old(|task|) && (!err ==> buf == old(buf)) && (ok ==> pos > old(pos))
    {
      var kind := task[ridx].typ.value.kind;
      ghost var s := buf[pos..];
      if ridx == |task| - 1 { Grow(); }
      var line := ReadLine();
      if line.None? {
        NoLine(cfg, frames, AggregateType(kind), s);
        ok := false;
      } else {
        AggregateDecides(cfg, frames, kind, s, line.value, buf[pos..]);
        ok := SettleAggregate(kind, line.value);
      }
    }

    /** The type byte, if there is one and it is known. */
    method ReadType() returns (ok: bool)
      requires Busy() && task[ridx].typ.None?
      modifies this
      ensures if ok then Busy() && task[ridx].typ.Some? && frames == old(frames) && pos == old(pos) + 1
              else Stepped(false, old(Advance(cfg, frames, None, buf[pos..])))
      ensures ok ==> Advance(cfg, frames, task[ridx].typ, buf[pos..]) == old(Advance(cfg, frames, None, buf[pos..]))
      ensures |task| == old(|task|) && (!err ==> buf == old(buf))
    {
      ok := false;
      if pos < |buf| {
        var t := TypeOf(buf[pos]);
        if t.None? {
          SetError();
        } else {
          assert buf[pos..][1..] == buf[pos + 1..];
          StackTyped(task, frames, task[ridx].(typ := t));
          pos, task := pos + 1, task[ridx := task[ridx].(typ := t)];
          ok := true;
        }
      }
    }

    /** `processItem`. */
    method ProcessItem() returns (ok: bool)
      requires Busy()
      modifies this
      ensures Stepped(ok, old(Advance(cfg, frames, task[ridx].typ, buf[pos..])))
      ensures |task| >= old(|task|) && (!err ==> buf == old(buf)) && (ok ==> pos > old(pos))
    {
      ok := true;
      if task[ridx].typ.None? { ok := ReadType(); }
      if ok {
        var t := task[ridx].typ.value;
        if t.AggregateType? {
          ok := ProcessAggregateItem();
        } else if IsBulkType(t) {
          ok := ProcessBulkItem();
        } else {
          ok := ProcessLineItem();
        }
      }
    }

    /** `redisReaderFeed`. An idle, oversized buffer may be given back first; it is empty then. */
    method Feed(chunk: Text) returns (ok: bool)
      requires Valid()
      modifies this`buf
      ensures Valid() && ok == !err
      ensures State() == ReplyStream.Feed(old(State()), chunk)
    {
      if err { return false; }
      buf := buf + chunk;
      ok := true;
    }

    /** The loop of `redisReaderGetReply`. */
    method ProcessItems() returns (ok: bool)
      requires Busy()
      modifies this
      ensures Stepped(ok, old(Advance(cfg, frames, task[ridx].typ, buf[pos..])))
      ensures ok ==> ridx == -1
      ensures |task| >= old(|task|)
    {
      ok := true;
      while ridx >= 0
        invariant ok && Stepped(ok, old(Advance(cfg, frames, task[ridx].typ, buf[pos..])))
        invariant |task| >= old(|task|) && pos <= |buf|
        decreases |buf| - pos
      {
        ok := ProcessItem();
        if !ok { break; }
      }
    }

    /** The first item of a reply is next. */
    method Begin()
      requires Valid() && !err && ridx == -1
      modifies this`task, this`ridx, this`objs
      ensures Busy() && frames == Outside && task[ridx].typ == None && |task| == old(|task|)
    {
      task := task[0 := Task(None, -1, -1, None, None)];
      ridx, objs := 0, [];
    }

    /** The bytes taken are dropped from the buffer once they are many. */
    method Discard()
      requires pos <= |buf|
      modifies this`buf, this`pos
      ensures pos <= |buf| && buf[pos..] == old(buf[pos..])
    {
      if pos >= DISCARD_AT {
        SdsArgs.RangeDropsFront(buf, pos);
        buf := SdsArgs.SdsRange(buf, pos, -1);
        pos := 0;
      }
    }

    /** `redisReaderGetReply`. */
    method GetReply() returns (ok: bool, nodes: Option<seq<Node>>)
      requires Valid()
      modifies this
      ensures Valid() && ok == !err
      ensures Given(nodes, ReplyStream.GetReply(cfg, old(State())))
    {
      nodes := None;
      if !err && |buf| != 0 {
        if ridx == -1 { Begin(); }
        var done := ProcessItems();
        if !err {
          Discard();
          if ridx == -1 {
            nodes := if reply.Some? then Some(objs) else None;
            reply := None;
          }
        }
      }
      ok := !err;
    }

    /** The reader has come to the given session and hands out the objects of the given reply. */
    ghost predicate Given(nodes: Option<seq<Node>>, r: (Session, Option<Reply>))
      reads this
    {
      Valid() && State() == r.0 && nodes == if r.1.None? then None else Some(Layout(r.1.value, 0))
    }
  }

  // ---------- whole sessions ----------

  /** The objects handed out for some replies. */
  function Layouts(replies: seq<Reply>): seq<seq<Node>> {
    if replies == [] then [] else Layouts(replies[..|replies| - 1]) + [Layout(replies[|replies| - 1], 0)]
  }

  lemma LayoutsSnoc(replies: seq<Reply>, r: Reply)
    ensures Layouts(replies + [r]) == Layouts(replies) + [Layout(r, 0)]
  {
    assert (replies + [r])[..|replies|] == replies;
  }

  /** What has been drained and what is still to come. */
  ghost predicate Draining(cfg: Config, start: Session, now: Session, replies: seq<Reply>) {
    Drain(cfg, start) == (Drain(cfg, now).0, replies + Drain(cfg, now).1)
  }

  lemma DrainingStep(cfg: Config, start: Session, now: Session, replies: seq<Reply>)
    requires Draining(cfg, start, now, replies)
    ensures var (after, r) := GetReply(cfg, now);
      if r.None? then Drain(cfg, start) == (after, replies)
      else Draining(cfg, start, after, replies + [r.value]) && |after.unread| < |now.unread|
  {
    CompleteShrinks(cfg, now.frames, now.pending, now.unread);
    var (after, r) := GetReply(cfg, now);
    if r.Some? {
      DrainCons(cfg, now, after, r.value);
      assert replies + ([r.value] + Drain(cfg, after).1) == (replies + [r.value]) + Drain(cfg, after).1;
    } else {
      assert Drain(cfg, now) == (after, []);
      assert replies + [] == replies;
    }
  }

  /** Asks for replies until there is none. */
  method DrainReader(r: Reader) returns (given: seq<seq<Node>>, ghost replies: seq<Reply>)
    requires r.Valid()
    modifies r
    ensures r.Valid() && given == Layouts(replies) && (r.State(), replies) == Drain(r.cfg, old(r.State()))
  {
    given, replies := [], [];
    ghost var start := r.State();
    assert replies + Drain(r.cfg, start).1 == Drain(r.cfg, start).1;
    while true
      invariant r.Valid() && Draining(r.cfg, start, r.State(), replies) && given == Layouts(replies)
      decreases |r.State().unread|
    {
      ghost var now := r.State();
      DrainingStep(r.cfg, start, now, replies);
      var ok, nodes := r.GetReply();
      if nodes.None? { return; }
      ghost var reply := ReplyStream.GetReply(r.cfg, now).1.value;
      LayoutsSnoc(replies, reply);
      given := given + [nodes.value];
      replies := replies + [reply];
    }
  }

  /** A new reader fed with chunks and drained after each gives what it would give for all the
      bytes at once, and ends in the same state. */
  method ReadChunks(cfg: Config, chunks: seq<Text>) returns (r: Reader, given: seq<seq<Node>>, ghost replies: seq<Reply>)
    ensures fresh(r) && r.Valid() && given == Layouts(replies)
    ensures (r.State(), replies) == Drain(cfg, ReplyStream.Feed(FRESH, Concat(chunks)))
  {
    r := new Reader(cfg);
    given, replies := [], [];
    assert chunks[..0] == [];
    for i := 0 to |chunks|
      invariant fresh(r) && r.cfg == cfg && r.Valid() && given == Layouts(replies)
      invariant (r.State(), replies) == Run(cfg, FRESH, chunks[..i])
    {
      ghost var now := r.State();
      var ok := r.Feed(chunks[i]);
      var more;
      ghost var latest;
      more, latest := DrainReader(r);
      RunSnoc(cfg, FRESH, chunks[..i], chunks[i]);
      assert chunks[..i + 1] == chunks[..i] + [chunks[i]];
      LayoutsAppend(replies, latest);
      given := given + more;
      replies := replies + latest;
    }
    assert chunks[..|chunks|] == chunks;
    ChunksFromTheStart(cfg, chunks);
  }

  lemma {:induction false} LayoutsAppend(a: seq<Reply>, b: seq<Reply>)
    ensures Layouts(a + b) == Layouts(a) + Layouts(b)
  {
    if b == [] {
      assert a + b == a;
    } else {
      var front, last := b[..|b| - 1], b[|b| - 1];
      assert a + b == (a + front) + [last] && b == front + [last];
      LayoutsAppend(a, front);
      LayoutsSnoc(a + front, last);
    }
  }

  lemma {:induction false} RunSnoc(cfg: Config, s: Session, chunks: seq<Text>, chunk: Text)
    ensures var (mid, first) := Run(cfg, s, chunks);
      var (end, more) := Drain(cfg, ReplyStream.Feed(mid, chunk));
      Run(cfg, s, chunks + [chunk]) == (end, first + more)
    decreases |chunks|
  {
    var all := chunks + [chunk];
    if chunks == [] {
      assert all[0] == chunk && all[1..] == [];
      var more := Drain(cfg, ReplyStream.Feed(s, chunk)).1;
      assert more + [] == more && [] + more == more;
    } else {
      assert all[0] == chunks[0] && all[1..] == chunks[1..] + [chunk];
      var (s1, replies) := Drain(cfg, ReplyStream.Feed(s, chunks[0]));
      RunSnoc(cfg, s1, chunks[1..], chunk);
      var (mid, first) := Run(cfg, s1, chunks[1..]);
      var more := Drain(cfg, ReplyStream.Feed(mid, chunk)).1;
      assert replies + (first + more) == (replies + first) + more;
    }
  }
}
