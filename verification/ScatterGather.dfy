/** The whole way of a multi-key command through `hircluster.c`: split by slot into serialised
    sub-commands, each run by a server that sees only its bytes, the replies put together
    again. Store and reply are those of the unsplit command. */
module ScatterGather {
  import opened Bytes
  import opened DecimalText
  import opened CommandTable
  import opened CommandGrammar
  import opened Resp
  import CommandLaws
  import opened CommandClasses
  import opened KeyValue
  import opened Fragments
  import opened FragmentLaws
  import opened Decoding
  import opened Replies
  import opened Gather

  // ---------- the server ----------

  function AsReply(value: Option<Text>): Reply {
    match value
    case None => Nil
    case Some(text) => Str(text)
  }

  function AsReplies(values: seq<Option<Text>>): (r: seq<Reply>)
    ensures |r| == |values| && forall i :: 0 <= i < |r| ==> r[i] == AsReply(values[i])
  {
    if values == [] then [] else [AsReply(values[0])] + AsReplies(values[1..])
  }

  /** The command run in one piece. */
  function Serve(ctype: Command, store: Store, items: seq<Item>): (Store, Reply) {
    if ctype == MGET then (store, Aggregate(ArrayKind, AsReplies(MGet(store, items))))
    else if ctype == DEL then (Del(store, items), Integer(DelCount(store, items)))
    else (MSet(store, items), Status(OK_TEXT))
  }

  /** The bytes are those of the formatted command for these items, its name spelt in any way. */
  ghost predicate Means(bytes: Text, ctype: Command, items: seq<Item>) {
    ctype in {MGET, DEL, MSET} && exists name :: Spelt(bytes, name, ctype, items)
  }

  predicate Spelt(bytes: Text, name: Text, ctype: Command, items: seq<Item>) {
    Lookup(name) == ctype && bytes == Format(ArgvNamed(name, ctype, items))
  }

  lemma OwnNameMeans(ctype: Command, items: seq<Item>)
    requires ctype in {MGET, DEL, MSET}
    ensures Means(Format(ArgvOf(ctype, items)), ctype, items)
  {
    OwnNames();
    assert Spelt(Format(ArgvOf(ctype, items)), NameOf(ctype), ctype, items);
  }

  /** A server decodes the bytes it receives and runs what they say. */
  ghost function Execute(store: Store, bytes: Text): (Store, Reply) {
    if exists ctype, items :: Means(bytes, ctype, items) then
      var ctype, items :| Means(bytes, ctype, items);
      Serve(ctype, store, items)
    else (store, Error([]))
  }

  // ---------- decoding ----------

  lemma {:induction false} ServeByKeys(ctype: Command, store: Store, a: seq<Item>, b: seq<Item>)
    requires ctype in {MGET, DEL, MSET} && ArgsOf(ctype == MSET, a) == ArgsOf(ctype == MSET, b)
    ensures Serve(ctype, store, a) == Serve(ctype, store, b)
    decreases |a|
  {
    var mset := ctype == MSET;
    ArgsLength(mset, a);
    ArgsLength(mset, b);
    assert |a| == |b|;
    if a != [] {
      assert ArgsOf(mset, a)[0] == a[0].key && ArgsOf(mset, b)[0] == b[0].key;
      assert mset ==> ArgsOf(mset, a)[1] == a[0].value && ArgsOf(mset, b)[1] == b[0].value;
      assert ArgsOf(mset, a)[(if mset then 2 else 1)..] == ArgsOf(mset, a[1..]);
      assert ArgsOf(mset, b)[(if mset then 2 else 1)..] == ArgsOf(mset, b[1..]);
      if ctype == MGET {
        ServeByKeys(ctype, store, a[1..], b[1..]);
      } else if ctype == DEL {
        ServeByKeys(ctype, store - {a[0].key}, a[1..], b[1..]);
      } else {
        ServeByKeys(ctype, store[a[0].key := a[0].value], a[1..], b[1..]);
      }
    }
  }

  /** A server that receives the bytes of a command runs that command. */
  lemma ExecuteFormatted(store: Store, bytes: Text, ctype: Command, items: seq<Item>)
    requires Means(bytes, ctype, items)
    ensures Execute(store, bytes) == Serve(ctype, store, items)
  {
    var ctype', items' :| Means(bytes, ctype', items') && Execute(store, bytes) == Serve(ctype', store, items');
    assert Means(bytes, ctype', items');
    var name, name' :| Spelt(bytes, name, ctype, items) && Spelt(bytes, name', ctype', items');
    var argv, argv' := ArgvNamed(name, ctype, items), ArgvNamed(name', ctype', items');
    FormatInjective(argv, argv');
    assert argv[0] == name && argv'[0] == name';
    assert argv[1..] == ArgsOf(ctype == MSET, items) && argv'[1..] == ArgsOf(ctype' == MSET, items');
    ServeByKeys(ctype, store, items, items');
  }

  /** Bytes that are no formatted command are refused. */
  lemma ExecuteRefuses(store: Store, bytes: Text)
    requires forall argv: seq<Text> :: bytes != Format(argv)
    ensures Execute(store, bytes) == (store, Error([]))
  {
    assert forall name, ctype, items :: !Spelt(bytes, name, ctype, items);
  }

  /** A server answers with an error only to refuse. */
  lemma ErrorRefuses(store: Store, bytes: Text)
    ensures Execute(store, bytes).1.Error? ==> Execute(store, bytes).1 == Error([])
  {
  }

  // ---------- running the sub-commands ----------

  /** Sends the sub-commands one after the other and files each reply under its slot. */
  ghost function RunCommands(store: Store, commands: seq<SubCommand>): (Store, SubReplies) {
    if commands == [] then (store, map[])
    else
      var last := commands[|commands| - 1];
      var (before, replies) := RunCommands(store, commands[..|commands| - 1]);
      var (after, reply) := Execute(before, last.Wire());
      (after, replies[last.slot := Some(reply)])
  }

  function SlotOrder(commands: seq<SubCommand>): seq<nat> {
    if commands == [] then [] else SlotOrder(commands[..|commands| - 1]) + [commands[|commands| - 1].slot]
  }

  /** Everything the split is applied to, in one bundle. */
  datatype Job = Job(buf: Text, ctype: Command, spans: seq<Span>, items: seq<Item>, slot: SlotOf) {
    /** The text has been parsed to these items. */
    ghost predicate Parsed() {
      && ctype in {MGET, DEL, MSET} && AllHold(buf, ctype == MSET, spans, items)
      && forall i :: 0 <= i < |items| ==> slot(items[i].key) < SLOTS
    }

    /** The sub-command of slot `s` announces a key with digits left over from an earlier number. */
    predicate Stale(s: nat) {
      |spans| == |items| && !NoStaleDigits(KeysOf(s), |Digits(ArgCount(ctype, |KeysOf(s)|))|)
    }

    predicate ExactBelow(n: nat) {
      forall s :: 0 <= s < n ==> !Stale(s)
    }

    /** No sub-command announces a stale length. */
    predicate Exact() { ExactBelow(SLOTS) }

    ghost predicate Valid() { Parsed() && Exact() }

    function KeysOf(s: nat): seq<KeyPos>
      requires |spans| == |items|
    {
      OfSlot(SlotsOf(slot, items), Positions(ctype == MSET, spans, items), |items|, s)
    }

    function Part(s: nat): seq<Item> {
      Fragment(slot, items, s)
    }

    ghost function CommandsBelow(n: nat): seq<SubCommand>
      requires Parsed()
    {
      PositionsSound(buf, ctype, spans, items);
      Commands(buf, ctype, SlotsOf(slot, items), Positions(ctype == MSET, spans, items), n)
    }

    /** What running the sub-command of slot `s` comes to. */
    function Served(store: Store, s: nat): (Store, Reply) {
      if Stale(s) then (store, Error([])) else Serve(ctype, store, Part(s))
    }

    /** The store once the sub-commands of the slots below `n` have run. */
    function StoreBelow(store: Store, n: nat): Store {
      if n == 0 then store else Served(StoreBelow(store, n - 1), n - 1).0
    }

    function ReplyOf(store: Store, s: nat): Reply {
      Served(StoreBelow(store, s), s).1
    }

    /** The reply of the command in one piece, or a refusal. */
    function Answer(store: Store): Reply {
      if Exact() then Serve(ctype, store, items).1 else Error([])
    }

    ghost predicate RepliesBelow(store: Store, replies: SubReplies, n: nat) {
      forall s: nat :: ReplyFiled(store, replies, n, s)
    }

    predicate ReplyFiled(store: Store, replies: SubReplies, n: nat, s: nat) {
      if s < n && Part(s) != [] then s in replies && replies[s] == Some(ReplyOf(store, s)) else s !in replies
    }
  }

  lemma PartOfSlot(job: Job, s: nat)
    requires job.Parsed() && s < SLOTS
    ensures |job.KeysOf(s)| == |job.Part(s)| && Sound(job.buf, job.ctype, job.KeysOf(s))
    ensures KeysHold(job.buf, job.ctype == MSET, job.KeysOf(s), job.Part(s))
  {
    PositionsSound(job.buf, job.ctype, job.spans, job.items);
    SelectedSound(job.buf, job.ctype, SlotsOf(job.slot, job.items),
      Positions(job.ctype == MSET, job.spans, job.items), |job.items|, s);
    assert job.items[..|job.items|] == job.items;
    SlotGetsFragment(job.buf, job.ctype == MSET, job.spans, job.items, job.slot, |job.items|, s);
  }

  /** What is sent for a slot is the command for its items, or no command at all. */
  lemma WireOfPart(buf: Text, ctype: Command, keys: seq<KeyPos>, items: seq<Item>, s: nat)
    requires ctype in {MGET, DEL, MSET} && Sound(buf, ctype, keys) && KeysHold(buf, ctype == MSET, keys, items)
    ensures var wire := Serialised(buf, ctype, keys, s).Wire();
      if NoStaleDigits(keys, |Digits(ArgCount(ctype, |keys|))|) then Means(wire, ctype, items)
      else forall argv: seq<Text> :: wire != Format(argv)
  {
    if NoStaleDigits(keys, |Digits(ArgCount(ctype, |keys|))|) {
      WireIsWhole(buf, ctype, keys, items, s);
      SerialisedIsFormat(buf, ctype, keys, items, s);
      OwnNameMeans(ctype, items);
    } else {
      forall argv: seq<Text> ensures Serialised(buf, ctype, keys, s).Wire() != Format(argv) {
        StaleIsNoCommand(buf, ctype, keys, items, s, argv);
      }
    }
  }

  lemma ExecutePart(job: Job, store: Store, s: nat, sub: SubCommand)
    requires job.Parsed() && s < SLOTS && Sound(job.buf, job.ctype, job.KeysOf(s))
    requires sub == Serialised(job.buf, job.ctype, job.KeysOf(s), s)
    ensures Execute(store, sub.Wire()) == job.Served(store, s)
  {
    PartOfSlot(job, s);
    WireOfPart(job.buf, job.ctype, job.KeysOf(s), job.Part(s), s);
    if job.Stale(s) {
      ExecuteRefuses(store, sub.Wire());
    } else {
      ExecuteFormatted(store, sub.Wire(), job.ctype, job.Part(s));
    }
  }

  lemma RunOneMore(job: Job, store: Store, replies: SubReplies, s: nat)
    requires job.RepliesBelow(store, replies, s)
    ensures job.Part(s) == [] ==> job.RepliesBelow(store, replies, s + 1)
    ensures job.Part(s) != [] ==> job.RepliesBelow(store, replies[s := Some(job.ReplyOf(store, s))], s + 1)
  {
    var n, replies' := s + 1, replies[s := Some(job.ReplyOf(store, s))];
    if job.Part(s) == [] {
      forall k: nat ensures job.ReplyFiled(store, replies, n, k) {
        assert job.ReplyFiled(store, replies, s, k);
      }
    } else {
      forall k: nat ensures job.ReplyFiled(store, replies', n, k) {
        assert job.ReplyFiled(store, replies, s, k);
      }
    }
  }

  lemma ServeNothing(ctype: Command, store: Store)
    ensures Serve(ctype, store, []).0 == store
  {
  }

  /** After the sub-commands of the slots below `n`, store and replies are as if each slot's
      items had been served in turn. */
  ghost predicate RanBelow(job: Job, store: Store, commands: seq<SubCommand>, n: nat) {
    && RunCommands(store, commands).0 == job.StoreBelow(store, n)
    && job.RepliesBelow(store, RunCommands(store, commands).1, n)
  }

  lemma RunEmptySlot(job: Job, store: Store, commands: seq<SubCommand>, s: nat)
    requires RanBelow(job, store, commands, s) && job.Part(s) == [] && !job.Stale(s)
    ensures RanBelow(job, store, commands, s + 1)
  {
    RunOneMore(job, store, RunCommands(store, commands).1, s);
    ServeNothing(job.ctype, job.StoreBelow(store, s));
  }

  lemma RunSlot(job: Job, store: Store, commands: seq<SubCommand>, s: nat, sub: SubCommand)
    requires RanBelow(job, store, commands, s) && job.Part(s) != []
    requires Execute(job.StoreBelow(store, s), sub.Wire()) == job.Served(job.StoreBelow(store, s), s) && sub.slot == s
    ensures RanBelow(job, store, commands + [sub], s + 1)
  {
    RunOneMore(job, store, RunCommands(store, commands).1, s);
    RunLast(store, commands, sub);
  }

  lemma {:induction false} RunBelow(job: Job, store: Store, n: nat)
    requires job.Parsed() && n <= SLOTS
    ensures RanBelow(job, store, job.CommandsBelow(n), n)
    decreases n
  {
    if n == 0 {
      forall s: nat ensures job.ReplyFiled(store, map[], 0, s) {}
    } else {
      var s := n - 1;
      RunBelow(job, store, s);
      PartOfSlot(job, s);
      var sub := Serialised(job.buf, job.ctype, job.KeysOf(s), s);
      CommandsStep(job, s, sub);
      if job.Part(s) == [] {
        assert job.CommandsBelow(n) == job.CommandsBelow(s);
        RunEmptySlot(job, store, job.CommandsBelow(s), s);
      } else {
        ExecutePart(job, job.StoreBelow(store, s), s, sub);
        RunSlot(job, store, job.CommandsBelow(s), s, sub);
      }
    }
  }

  lemma CommandsStep(job: Job, s: nat, sub: SubCommand)
    requires job.Parsed() && s < SLOTS && Sound(job.buf, job.ctype, job.KeysOf(s))
    requires |job.KeysOf(s)| == |job.Part(s)| && sub == Serialised(job.buf, job.ctype, job.KeysOf(s), s)
    ensures job.CommandsBelow(s + 1) == job.CommandsBelow(s) + if job.Part(s) == [] then [] else [sub]
  {
    PositionsSound(job.buf, job.ctype, job.spans, job.items);
  }

  lemma RunLast(store: Store, commands: seq<SubCommand>, last: SubCommand)
    ensures var (before, replies) := RunCommands(store, commands);
      var (after, reply) := Execute(before, last.Wire());
      RunCommands(store, commands + [last]) == (after, replies[last.slot := Some(reply)])
  {
    assert (commands + [last])[..|commands|] == commands;
  }

  // ---------- putting the replies together ----------

  lemma {:induction false} StoreBelowIs(job: Job, store: Store, n: nat)
    requires job.ExactBelow(n)
    ensures job.ctype == MGET ==> job.StoreBelow(store, n) == store
    ensures job.ctype == DEL ==> job.StoreBelow(store, n) == DelFragments(job.slot, store, job.items, n)
    ensures job.ctype == MSET ==> job.StoreBelow(store, n) == MSetFragments(job.slot, store, job.items, n)
    decreases n
  {
    if n > 0 { StoreBelowIs(job, store, n - 1); }
  }

  lemma {:induction false} InspectSnoc(ctype: Command, order: seq<nat>, s: nat, replies: SubReplies, count: int)
    requires s in replies && forall i :: 0 <= i < |order| ==> order[i] in replies
    ensures forall i :: 0 <= i < |order + [s]| ==> (order + [s])[i] in replies
    ensures Inspect(ctype, order + [s], replies, count) == match Inspect(ctype, order, replies, count)
      case Stop(reply) => Stop(reply)
      case Proceed(c) => Inspect(ctype, [s], replies, c)
    decreases |order|
  {
    if order == [] {
      assert order + [s] == [s];
    } else {
      assert (order + [s])[1..] == order[1..] + [s];
      match replies[order[0]]
      case None =>
      case Some(reply) =>
        InspectSnoc(ctype, order[1..], s, replies, if ctype == DEL && reply.Integer? then count + reply.value else count);
    }
  }

  /** The running total of the integers that the replies of the slots below `n` carry. */
  function CountBelow(job: Job, store: Store, n: nat): nat {
    if job.ctype == DEL then DelFragmentsCount(job.slot, store, job.items, n) else 0
  }

  lemma InspectOne(job: Job, store: Store, replies: SubReplies, s: nat, count: int)
    requires job.ctype in {MGET, DEL, MSET} && s in replies && replies[s] == Some(job.ReplyOf(store, s))
    ensures Inspect(job.ctype, [s], replies, count) ==
      if job.Stale(s) then Stop(Some(Error([])))
      else Proceed(count + if job.ctype == DEL then DelCount(job.StoreBelow(store, s), job.Part(s)) else 0)
  {
    var one: seq<nat> := [s];
    assert one[1..] == [];
  }

  /** What has come of looking at the replies of the slots below `n`. */
  function VerdictBelow(job: Job, store: Store, n: nat): Verdict {
    if job.ExactBelow(n) then Proceed(CountBelow(job, store, n)) else Stop(Some(Error([])))
  }

  ghost predicate InspectedBelow(job: Job, store: Store, replies: SubReplies, order: seq<nat>, n: nat) {
    && (forall i :: 0 <= i < |order| ==> order[i] in replies)
    && Inspect(job.ctype, order, replies, 0) == VerdictBelow(job, store, n)
  }

  lemma ExactOneMore(job: Job, s: nat)
    ensures job.ExactBelow(s + 1) <==> job.ExactBelow(s) && !job.Stale(s)
  {
  }

  lemma InspectEmptySlot(job: Job, store: Store, replies: SubReplies, order: seq<nat>, s: nat)
    requires InspectedBelow(job, store, replies, order, s) && job.Part(s) == [] && !job.Stale(s)
    ensures InspectedBelow(job, store, replies, order, s + 1)
  {
    ExactOneMore(job, s);
  }

  lemma InspectSlot(job: Job, store: Store, replies: SubReplies, order: seq<nat>, s: nat)
    requires job.ctype in {MGET, DEL, MSET} && InspectedBelow(job, store, replies, order, s)
    requires s in replies && replies[s] == Some(job.ReplyOf(store, s))
    ensures InspectedBelow(job, store, replies, order + [s], s + 1)
  {
    ExactOneMore(job, s);
    InspectSnoc(job.ctype, order, s, replies, 0);
    if job.ExactBelow(s) {
      StoreBelowIs(job, store, s);
      InspectOne(job, store, replies, s, CountBelow(job, store, s));
    }
  }

  lemma {:induction false} InspectBelow(job: Job, store: Store, replies: SubReplies, n: nat)
    requires job.Parsed() && n <= SLOTS && job.RepliesBelow(store, replies, SLOTS)
    ensures InspectedBelow(job, store, replies, SlotOrder(job.CommandsBelow(n)), n)
    decreases n
  {
    if n > 0 {
      var s := n - 1;
      InspectBelow(job, store, replies, s);
      PartOfSlot(job, s);
      var sub := Serialised(job.buf, job.ctype, job.KeysOf(s), s);
      CommandsStep(job, s, sub);
      var order := SlotOrder(job.CommandsBelow(s));
      if job.Part(s) == [] {
        assert job.CommandsBelow(n) == job.CommandsBelow(s);
        InspectEmptySlot(job, store, replies, order, s);
      } else {
        assert job.ReplyFiled(store, replies, SLOTS, s);
        OrderSnoc(job.CommandsBelow(s), sub);
        InspectSlot(job, store, replies, order, s);
      }
    }
  }

  lemma OrderSnoc(commands: seq<SubCommand>, sub: SubCommand)
    ensures SlotOrder(commands + [sub]) == SlotOrder(commands) + [sub.slot]
  {
    assert (commands + [sub])[..|commands|] == commands;
  }

  lemma {:induction false} CountIsPart(slot: SlotOf, items: seq<Item>, from: nat, s: nat)
    requires from <= |items|
    ensures CountFrom(SlotsOf(slot, items), from, s) == |Fragment(slot, items[from..], s)|
    decreases |items| - from
  {
    if from < |items| {
      CountIsPart(slot, items, from + 1, s);
      assert items[from..][1..] == items[from + 1..];
    } else {
      assert items[from..] == [];
    }
  }

  /** The parts MGET takes elements from are aligned with the keys of their slots. */
  predicate Aligned(slot: SlotOf, store: Store, items: seq<Item>, parts: map<nat, seq<Reply>>) {
    forall i :: 0 <= i < |items| ==>
      var s := slot(items[i].key);
      s in parts && parts[s] == AsReplies(MGet(store, Fragment(slot, items, s)))
  }

  lemma OwedIsValue(slot: SlotOf, store: Store, items: seq<Item>, parts: map<nat, seq<Reply>>, i: nat)
    requires i < |items| && Aligned(slot, store, items, parts)
    ensures Owed(SlotsOf(slot, items), parts, i, AsReply(Fetch(store, items[i].key)))
  {
    var s := slot(items[i].key);
    ItemInFragment(slot, items, i);
    CountIsPart(slot, items, i, s);
    assert items == items[..i] + items[i..];
    BetweenAppend(slot, items[..i], items[i..], s, s + 1);
    assert items[i..][0] == items[i];
  }

  lemma MGetPlaced(slot: SlotOf, store: Store, items: seq<Item>, parts: map<nat, seq<Reply>>)
    requires Aligned(slot, store, items, parts)
    ensures Placed(SlotsOf(slot, items), parts, 0, AsReplies(MGet(store, items)))
  {
    forall k | 0 <= k < |items|
      ensures Owed(SlotsOf(slot, items), parts, k, AsReplies(MGet(store, items))[k])
    {
      OwedIsValue(slot, store, items, parts, k);
    }
  }

  lemma PlacedUnique(fragSeq: seq<nat>, parts: map<nat, seq<Reply>>, a: seq<Reply>, b: seq<Reply>)
    requires Placed(fragSeq, parts, 0, a) && Placed(fragSeq, parts, 0, b)
    ensures a == b
  {
    forall k | 0 <= k < |a| ensures a[k] == b[k] {
      assert Owed(fragSeq, parts, 0 + k, a[k]) && Owed(fragSeq, parts, 0 + k, b[k]);
    }
  }

  lemma PartsAligned(job: Job, store: Store, replies: SubReplies)
    requires job.Valid() && job.ctype == MGET && job.RepliesBelow(store, replies, SLOTS)
    ensures Aligned(job.slot, store, job.items, Parts(replies))
  {
    forall i | 0 <= i < |job.items|
      ensures var s := job.slot(job.items[i].key);
        s in Parts(replies) && Parts(replies)[s] == AsReplies(MGet(store, job.Part(s)))
    {
      var s := job.slot(job.items[i].key);
      ItemInFragment(job.slot, job.items, i);
      StoreBelowIs(job, store, s);
      assert job.ReplyFiled(store, replies, SLOTS, s);
    }
  }

  /** Every slot's reply holds exactly as many elements as the slot has keys. */
  lemma PartsExact(job: Job, store: Store, replies: SubReplies)
    requires job.Valid() && job.ctype == MGET && job.RepliesBelow(store, replies, SLOTS)
    ensures forall s :: s in Parts(replies) ==> |Parts(replies)[s]| == CountFrom(SlotsOf(job.slot, job.items), 0, s)
  {
    forall s | s in Parts(replies)
      ensures |Parts(replies)[s]| == CountFrom(SlotsOf(job.slot, job.items), 0, s)
    {
      assert job.ReplyFiled(store, replies, SLOTS, s);
      StoreBelowIs(job, store, s);
      CountIsPart(job.slot, job.items, 0, s);
      assert job.items[0..] == job.items;
    }
  }

  /** Once MGET is put together no sub-reply has an element left: each is moved exactly once. */
  lemma EveryElementMovedOnce(job: Job, store: Store, replies: SubReplies, left: map<nat, nat>)
    requires job.Valid() && job.ctype == MGET && job.RepliesBelow(store, replies, SLOTS)
    requires LeftOver(SlotsOf(job.slot, job.items), Parts(replies), 0, left)
    ensures forall s :: s in left ==> left[s] == 0
  {
    PartsExact(job, store, replies);
  }

  lemma WholeStore(job: Job, store: Store)
    requires job.Valid()
    ensures job.StoreBelow(store, SLOTS) == Serve(job.ctype, store, job.items).0
    ensures job.ctype == DEL ==> CountBelow(job, store, SLOTS) == DelCount(store, job.items)
  {
    StoreBelowIs(job, store, SLOTS);
    if job.ctype == DEL { SplitDel(job.slot, store, job.items, SLOTS); }
    if job.ctype == MSET { SplitMSet(job.slot, store, job.items, SLOTS); }
  }

  lemma AssembledExact(job: Job, store: Store, order: seq<nat>, replies: SubReplies, out: Option<Reply>)
    requires job.Valid() && job.RepliesBelow(store, replies, SLOTS)
    requires InspectedBelow(job, store, replies, order, SLOTS)
    ensures Assembled(job.ctype, order, replies, SlotsOf(job.slot, job.items), out)
      <==> out == Some(Serve(job.ctype, store, job.items).1)
  {
    WholeStore(job, store);
    if job.ctype == MGET { MGetAssembled(job, store, replies, out); }
  }

  lemma MGetAssembled(job: Job, store: Store, replies: SubReplies, out: Option<Reply>)
    requires job.Valid() && job.ctype == MGET && job.RepliesBelow(store, replies, SLOTS)
    ensures Enough(SlotsOf(job.slot, job.items), Parts(replies), 0)
    ensures var elements := AsReplies(MGet(store, job.items));
      out.Some? && out.value.Aggregate? ==>
        (Placed(SlotsOf(job.slot, job.items), Parts(replies), 0, out.value.elements) <==> out.value.elements == elements)
  {
    var slots, parts := SlotsOf(job.slot, job.items), Parts(replies);
    PartsAligned(job, store, replies);
    PartsExact(job, store, replies);
    MGetPlaced(job.slot, store, job.items, parts);
    if out.Some? && out.value.Aggregate? && Placed(slots, parts, 0, out.value.elements) {
      PlacedUnique(slots, parts, out.value.elements, AsReplies(MGet(store, job.items)));
    }
  }

  lemma AssembledIs(job: Job, store: Store, order: seq<nat>, replies: SubReplies, out: Option<Reply>)
    requires job.Parsed() && job.RepliesBelow(store, replies, SLOTS)
    requires InspectedBelow(job, store, replies, order, SLOTS)
    ensures Assembled(job.ctype, order, replies, SlotsOf(job.slot, job.items), out) <==> out == Some(job.Answer(store))
  {
    if job.Exact() { AssembledExact(job, store, order, replies, out); }
  }

  /** Splitting a parsed command by slot, running every sub-command from the bytes sent for it, in
      slot order, and putting the replies together gives the reply of the unsplit command if and
      only if no length announced is stale, and a refusal otherwise: for all keys, values and
      stores, duplicate keys included. */
  lemma SplitMeansExactly(job: Job, store: Store, out: Option<Reply>)
    requires job.Parsed()
    ensures var commands := job.CommandsBelow(SLOTS);
      var replies := RunCommands(store, commands).1;
      && (forall i :: 0 <= i < |SlotOrder(commands)| ==> SlotOrder(commands)[i] in replies)
      && (Assembled(job.ctype, SlotOrder(commands), replies, SlotsOf(job.slot, job.items), out)
        <==> out == Some(job.Answer(store)))
    ensures job.Answer(store) == Serve(job.ctype, store, job.items).1 <==> job.Exact()
  {
    var commands := job.CommandsBelow(SLOTS);
    var replies := RunCommands(store, commands).1;
    RunBelow(job, store, SLOTS);
    InspectBelow(job, store, replies, SLOTS);
    AssembledIs(job, store, SlotOrder(commands), replies, out);
  }

  /** Without stale lengths the store, too, is that of the unsplit command. */
  lemma SplitPreservesMeaning(job: Job, store: Store, out: Option<Reply>)
    requires job.Valid()
    ensures var commands := job.CommandsBelow(SLOTS);
      var (after, replies) := RunCommands(store, commands);
      && after == Serve(job.ctype, store, job.items).0
      && (forall i :: 0 <= i < |SlotOrder(commands)| ==> SlotOrder(commands)[i] in replies)
      && (Assembled(job.ctype, SlotOrder(commands), replies, SlotsOf(job.slot, job.items), out)
        <==> out == Some(Serve(job.ctype, store, job.items).1))
  {
    SplitMeansExactly(job, store, out);
    RunBelow(job, store, SLOTS);
    WholeStore(job, store);
  }

  /** The split applies to a formatted MGET, DEL or MSET, however its name is spelt: parsing its
      text gives the spans the split starts from. */
  lemma FormattedIsParsed(name: Text, ctype: Command, items: seq<Item>, slot: SlotOf, spans: seq<Span>)
    requires ctype in {MGET, DEL, MSET} && items != [] && Lookup(name) == ctype
    requires CommandLaws.Fits(ArgvNamed(name, ctype, items))
    requires forall i :: 0 <= i < |items| ==> slot(items[i].key) < SLOTS
    requires spans == CommandLaws.Spans(ArgvNamed(name, ctype, items), 1, Step(ctype))
    ensures var buf := Format(ArgvNamed(name, ctype, items));
      && Parse(buf).Done? && Parse(buf).cmd.ctype == ctype && Parse(buf).cmd.keys == spans
      && |spans| == |items| && Job(buf, ctype, spans, items, slot).Parsed()
  {
    VectorCommands(name);
    ParseVector(name, ctype, items);
    VectorSpansHold(name, ctype, items);
  }

  /** Keys that are not empty never leave a stale length. */
  lemma NonEmptyKeysExact(job: Job)
    requires AllHold(job.buf, job.ctype == MSET, job.spans, job.items)
    requires forall i :: 0 <= i < |job.items| ==> job.items[i].key != []
    ensures job.Exact()
  {
    forall s | 0 <= s < SLOTS ensures !job.Stale(s) {
      var slots, positions := SlotsOf(job.slot, job.items), Positions(job.ctype == MSET, job.spans, job.items);
      OfSlotNonEmpty(slots, positions, |job.items|, s, job, job.items);
      NonEmptyKeysNotStale(job.KeysOf(s), |Digits(ArgCount(job.ctype, |job.KeysOf(s)|))|);
    }
  }

  lemma {:induction false} OfSlotNonEmpty(slots: seq<nat>, positions: seq<KeyPos>, n: nat, s: nat, job: Job, items: seq<Item>)
    requires AllHold(job.buf, job.ctype == MSET, job.spans, items) && positions == Positions(job.ctype == MSET, job.spans, items)
    requires n <= |items| == |slots| && forall i :: 0 <= i < |items| ==> items[i].key != []
    ensures forall i :: 0 <= i < |OfSlot(slots, positions, n, s)| ==> KeyLength(OfSlot(slots, positions, n, s)[i]) > 0
    decreases n
  {
    if n > 0 {
      OfSlotNonEmpty(slots, positions, n - 1, s, job, items);
      assert Holds(job.buf, job.ctype == MSET, job.spans[n - 1], items[n - 1]);
    }
  }
}
