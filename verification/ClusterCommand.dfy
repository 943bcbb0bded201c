/** `command_format_by_slot` and the whole of `redisClusterFormattedCommand`
    (`hiredis-vip/hircluster.c`): parse, split by slot, send with redirections, put together. */
module ClusterCommand {
  import opened Bytes
  import opened DecimalText
  import opened CommandTable
  import opened CommandGrammar
  import CommandParser
  import CommandLaws
  import opened CommandClasses
  import ParsedKeys
  import opened Resp
  import KeySlot
  import opened KeyValue
  import opened Fragments
  import opened FragmentLaws
  import opened Replies
  import opened ScatterGather
  import opened Redirect

  // ---------- splitting by slot ----------

  /** An MSET that is cut short behind several keys can be split only if all their values are
      there: looking for one that is not runs off the end of the text. */
  predicate Usable(buf: Text, out: Outcome) {
    out.RanOut? && out.ctype == MSET && |out.keys| > 1 ==> AllReadable(buf, true, out.keys)
  }

  /** What is to be sent where: no slot means nothing, no sub-commands mean the command itself. */
  datatype Plan = Plan(slotNum: int, ctype: Command, commands: seq<SubCommand>, fragSeq: seq<nat>)

  predicate BySlot(buf: Text, out: Outcome, plan: Plan) {
    && plan.ctype == TypeIn(out)
    && var keys := KeysIn(out);
       if keys == [] then plan.slotNum == -1 && plan.commands == [] && plan.fragSeq == []
       else if |keys| == 1 then OneKey(buf, keys[0], plan)
       else SeveralKeys(buf, keys, plan)
  }

  predicate OneKey(buf: Text, span: Span, plan: Plan) {
    && span.start <= span.end <= |buf| && plan.slotNum == KeySlot.Slot(buf[span.start..span.end])
    && plan.commands == [] && plan.fragSeq == []
  }

  /** The slot is that of the last key; the split is given only when there is more than one slot. */
  predicate SeveralKeys(buf: Text, keys: seq<Span>, plan: Plan) {
    && keys != [] && plan.ctype in {MGET, DEL, MSET} && AllReadable(buf, plan.ctype == MSET, keys)
    && var slots, positions := KeySlots(buf, keys, KeySlot.Slot), NotedAll(buf, plan.ctype == MSET, keys);
    && plan.slotNum == slots[|slots| - 1] && Sound(buf, plan.ctype, positions)
    && Fragmented(Commands(buf, plan.ctype, slots, positions, SLOTS), slots, plan.commands, plan.fragSeq)
  }

  /** `command_format_by_slot`: no slot for a text that does not parse or has no key; one key gives
      its slot; more are split. */
  method CommandFormatBySlot(buf: Text) returns (plan: Plan)
    requires |buf| <= INT_MAX && Usable(buf, Parse(buf))
    ensures BySlot(buf, Parse(buf), plan)
  {
    var out := CommandParser.ParseCmd(buf);
    var keys := KeysIn(out);
    plan := Plan(-1, TypeIn(out), [], []);
    if |keys| == 1 {
      assert keys[0].start <= keys[0].end < |buf|;
      var slotNum := KeySlot.KeyHashSlot(buf[keys[0].start..keys[0].end]);
      plan := plan.(slotNum := slotNum);
    } else if |keys| > 1 {
      SeveralSplit(buf, out);
      plan := SplitByKeys(buf, TypeIn(out), keys);
    }
  }

  method SplitByKeys(buf: Text, ctype: Command, keys: seq<Span>) returns (plan: Plan)
    requires |buf| <= INT_MAX && |keys| > 1 && 2 * |keys| < INT_MAX
    requires ctype in {MGET, DEL, MSET} && AllReadable(buf, ctype == MSET, keys)
    ensures plan.ctype == ctype && SeveralKeys(buf, keys, plan)
  {
    var slotNum, commands, fragSeq := PreFragment(buf, ctype, keys, KeySlot.Slot);
    plan := Plan(slotNum, ctype, commands, fragSeq);
  }

  lemma SeveralSplit(buf: Text, out: Outcome)
    requires |buf| <= INT_MAX && out == Parse(buf) && Usable(buf, out) && |KeysIn(out)| > 1
    requires CommandParser.KeysInside(buf, KeysIn(out))
    ensures var ctype, keys := TypeIn(out), KeysIn(out);
      ctype in {MGET, DEL, MSET} && AllReadable(buf, ctype == MSET, keys) && 2 * |keys| < INT_MAX
  {
    ParsedKeys.SeveralKeysSplit(buf);
  }

  // ---------- the slots of the keys are those of the sub-commands ----------

  lemma {:induction false} SlotHasKeys(slots: seq<nat>, positions: seq<KeyPos>, n: nat, i: nat)
    requires i < n <= |slots| == |positions|
    ensures OfSlot(slots, positions, n, slots[i]) != []
  {
    if i < n - 1 { SlotHasKeys(slots, positions, n - 1, i); }
  }

  lemma {:induction false} SlotListed(buf: Text, ctype: Command, slots: seq<nat>, positions: seq<KeyPos>, n: nat, s: nat)
    requires |slots| == |positions| && Sound(buf, ctype, positions) && s < n && OfSlot(slots, positions, |slots|, s) != []
    ensures s in SlotOrder(Commands(buf, ctype, slots, positions, n))
    decreases n
  {
    var last := n - 1;
    if s < last { SlotListed(buf, ctype, slots, positions, last, s); }
    StaysListed(buf, ctype, slots, positions, last, n, s);
  }

  lemma StaysListed(buf: Text, ctype: Command, slots: seq<nat>, positions: seq<KeyPos>, last: nat, n: nat, s: nat)
    requires |slots| == |positions| && Sound(buf, ctype, positions) && n == last + 1
    requires s in SlotOrder(Commands(buf, ctype, slots, positions, last)) || (s == last && OfSlot(slots, positions, |slots|, s) != [])
    ensures s in SlotOrder(Commands(buf, ctype, slots, positions, n))
  {
    OrderGrows(buf, ctype, slots, positions, last);
  }

  lemma OrderGrows(buf: Text, ctype: Command, slots: seq<nat>, positions: seq<KeyPos>, s: nat)
    requires |slots| == |positions| && Sound(buf, ctype, positions)
    ensures SlotOrder(Commands(buf, ctype, slots, positions, s + 1))
         == SlotOrder(Commands(buf, ctype, slots, positions, s))
            + if OfSlot(slots, positions, |slots|, s) == [] then [] else [s]
  {
    var keys, before := OfSlot(slots, positions, |slots|, s), Commands(buf, ctype, slots, positions, s);
    SelectedSound(buf, ctype, slots, positions, |slots|, s);
    OrderSnoc(before, Serialised(buf, ctype, keys, s));
    assert before + [] == before && SlotOrder(before) + [] == SlotOrder(before);
  }

  /** Every key's slot is among those of the sub-commands. */
  lemma SlotsListed(buf: Text, out: Outcome, plan: Plan)
    requires BySlot(buf, out, plan)
    ensures forall i :: 0 <= i < |plan.fragSeq| ==> plan.fragSeq[i] in SlotOrder(plan.commands)
    ensures plan.commands != [] ==> plan.ctype in {MGET, DEL, MSET}
    ensures plan.slotNum < 0 ==> plan.commands == []
  {
    var keys := KeysIn(out);
    if |keys| > 1 && plan.fragSeq != [] {
      var slots, positions := KeySlots(buf, keys, KeySlot.Slot), NotedAll(buf, plan.ctype == MSET, keys);
      forall i | 0 <= i < |plan.fragSeq| ensures plan.fragSeq[i] in SlotOrder(plan.commands) {
        SlotHasKeys(slots, positions, |slots|, i);
        SlotListed(buf, plan.ctype, slots, positions, SLOTS, slots[i]);
      }
    }
  }

  // ---------- the whole command ----------

  /** The text is that of a multi-key command as the formatter writes it, its name spelt in any
      way. */
  predicate Suitable(name: Text, ctype: Command, items: seq<Item>, buf: Text) {
    && ctype in {MGET, DEL, MSET} && items != [] && Lookup(name) == ctype
    && CommandLaws.Fits(ArgvNamed(name, ctype, items)) && buf == Format(ArgvNamed(name, ctype, items))
  }

  function JobOf(name: Text, ctype: Command, items: seq<Item>): Job
    requires items != []
  {
    var argv := ArgvNamed(name, ctype, items);
    Job(Format(argv), ctype, CommandLaws.Spans(argv, 1, Step(ctype)), items, KeySlot.Slot)
  }

  lemma JobIsParsed(name: Text, ctype: Command, items: seq<Item>, buf: Text)
    requires Suitable(name, ctype, items, buf)
    ensures var job := JobOf(name, ctype, items);
      job.Parsed() && Parse(buf).Done? && Parse(buf).cmd.ctype == ctype && Parse(buf).cmd.keys == job.spans
  {
    FormattedIsParsed(name, ctype, items, KeySlot.Slot, JobOf(name, ctype, items).spans);
  }

  /** Without a split the command itself is executed, once. */
  lemma SentWhole(cmd: Text, ctype: Command, items: seq<Item>, store: Store, sent: seq<Sent>, reply: Option<Reply>)
    requires Means(cmd, ctype, items) && reply.Some? && Exchange(sent, cmd, reply)
    requires Honest(store, Effective(sent))
    ensures (After(store, Effective(sent)), reply) == (Serve(ctype, store, items).0, Some(Serve(ctype, store, items).1))
  {
    var n := |sent| - 1;
    RedirectedNothing(sent[..n], cmd);
    assert Effective(sent) == [sent[n]];
    var one: seq<Sent> := [sent[n]];
    assert one[..0] == [];
    ExecuteFormatted(store, cmd, ctype, items);
  }

  /** If the nodes have executed what they did not redirect and there is a reply, that comes to the
      command in one piece exactly if `kept`, and to a refusal otherwise. */
  ghost predicate AsOnePiece(ctype: Command, items: seq<Item>, kept: bool, sent: seq<Sent>, reply: Option<Reply>, granted: bool) {
    forall store: Store :: granted && Honest(store, Effective(sent)) ==>
      if kept then After(store, Effective(sent)) == Serve(ctype, store, items).0 && reply == Some(Serve(ctype, store, items).1)
      else reply == Some(Error([])) != Some(Serve(ctype, store, items).1)
  }

  /** The meaning is kept when the command is not split or when no length announced is stale. */
  predicate Keeps(plan: Plan, job: Job) {
    plan.commands == [] || job.Exact()
  }

  /** The traffic of a plan: nothing without a slot, an exchange of the command itself, or what the
      sub-commands bring together. */
  ghost predicate CarriedOut(buf: Text, plan: Plan, sent: seq<Sent>, replies: seq<Reply>, reply: Option<Reply>, granted: bool) {
    if plan.slotNum < 0 then sent == [] && reply.None?
    else if plan.commands == [] then Exchange(sent, buf, reply) && (granted ==> reply.Some?)
    else granted ==> Gathered(plan.ctype, plan.commands, plan.fragSeq, sent, replies, reply)
  }

  /** There is a reply, or nothing has failed and the redirects are not used up. */
  ghost predicate Granted(cc: Cluster, sent: seq<Sent>, reply: Option<Reply>) {
    reply.Some? || (AlwaysHealthy(cc.world) && |sent| <= cc.maxRedirects)
  }

  /** `redisClusterFormattedCommand` on any command: its bytes, or those of its sub-commands, go out
      at most once for each and once for every redirect allowed. For a formatted MGET, DEL or MSET:
      when nodes execute what they do not redirect, store and reply are those of the command run in
      one piece exactly if it is not split or announces no stale length, and when nothing fails and
      the redirects are not used up there is a reply. */
  method ClusterFormattedCommand(cc: Cluster, buf: Text)
    returns (reply: Option<Reply>, ghost sent: seq<Sent>, ghost plan: Plan, ghost replies: seq<Reply>)
    requires |buf| <= INT_MAX && Usable(buf, Parse(buf)) && cc.retryCount == 0
    modifies cc
    ensures cc.retryCount == 0 && cc.log == old(cc.log) + sent && BySlot(buf, Parse(buf), plan)
    ensures |sent| <= cc.maxRedirects + Max(1, |plan.commands|)
    ensures CarriedOut(buf, plan, sent, replies, reply, Granted(cc, sent, reply))
    ensures forall name, ctype, items :: Suitable(name, ctype, items, buf) ==>
      AsOnePiece(ctype, items, Keeps(plan, JobOf(name, ctype, items)), sent, reply, Granted(cc, sent, reply))
  {
    var p := CommandFormatBySlot(buf);
    plan := p;
    SlotsListed(buf, Parse(buf), plan);
    if p.slotNum < 0 {
      reply, sent, replies := None, [], [];
    } else {
      reply, sent, replies := cc.FormattedCommand(buf, p.ctype, p.commands, p.fragSeq);
    }
    forall name, ctype, items | Suitable(name, ctype, items, buf)
      ensures AsOnePiece(ctype, items, Keeps(plan, JobOf(name, ctype, items)), sent, reply, Granted(cc, sent, reply))
    {
      Whole(name, ctype, items, buf, plan, sent, replies, reply, Granted(cc, sent, reply));
    }
  }

  function Max(a: nat, b: nat): nat { if a < b then b else a }

  /** The plan of a suitable command is that of its job. */
  lemma PlanIsJobs(name: Text, ctype: Command, items: seq<Item>, buf: Text, plan: Plan)
    requires |buf| <= INT_MAX && Suitable(name, ctype, items, buf) && BySlot(buf, Parse(buf), plan)
    ensures var job := JobOf(name, ctype, items);
      && job.Parsed() && plan.ctype == ctype && plan.slotNum >= 0
      && (plan.commands != [] ==> plan.commands == job.CommandsBelow(SLOTS) && plan.fragSeq == SlotsOf(job.slot, items))
  {
    JobIsParsed(name, ctype, items, buf);
    var job := JobOf(name, ctype, items);
    HoldingIsReadable(buf, ctype, job.spans, items, KeySlot.Slot);
  }

  lemma Whole(name: Text, ctype: Command, items: seq<Item>, buf: Text, plan: Plan, sent: seq<Sent>, replies: seq<Reply>,
              reply: Option<Reply>, granted: bool)
    requires |buf| <= INT_MAX && Suitable(name, ctype, items, buf) && BySlot(buf, Parse(buf), plan)
    requires CarriedOut(buf, plan, sent, replies, reply, granted)
    ensures AsOnePiece(ctype, items, Keeps(plan, JobOf(name, ctype, items)), sent, reply, granted)
  {
    PlanIsJobs(name, ctype, items, buf, plan);
    assert Spelt(buf, name, ctype, items);
    WholeJob(JobOf(name, ctype, items), buf, plan, sent, replies, reply, granted);
  }

  lemma WholeJob(job: Job, buf: Text, plan: Plan, sent: seq<Sent>, replies: seq<Reply>, reply: Option<Reply>, granted: bool)
    requires job.Parsed() && Means(buf, job.ctype, job.items) && CarriedOut(buf, plan, sent, replies, reply, granted)
    requires plan.ctype == job.ctype && plan.slotNum >= 0
    requires plan.commands != [] ==> plan.commands == job.CommandsBelow(SLOTS) && plan.fragSeq == SlotsOf(job.slot, job.items)
    ensures AsOnePiece(job.ctype, job.items, Keeps(plan, job), sent, reply, granted)
  {
    forall store: Store | granted && Honest(store, Effective(sent))
      ensures if Keeps(plan, job) then After(store, Effective(sent)) == Serve(job.ctype, store, job.items).0
                && reply == Some(Serve(job.ctype, store, job.items).1)
              else reply == Some(Error([])) != Some(Serve(job.ctype, store, job.items).1)
    {
      if plan.commands == [] {
        SentWhole(buf, job.ctype, job.items, store, sent, reply);
      } else {
        RedirectsDoNotMatter(job, store, sent, replies, reply);
      }
    }
  }

  // ---------- a command that overruns its buffer ----------

  const TEN_ZEROS: Text := [0, 0, 0, 0, 0, 0, 0, 0, 0, 0]

  /** MGET of a key of ten zero bytes and the empty key. */
  const OVERRUN: seq<Text> := [MGET_NAME, TEN_ZEROS, []]

  lemma OverrunItems() returns (items: seq<Item>)
    ensures |items| == 2 && items[0].key == TEN_ZEROS && items[1].key == [] && ArgvOf(MGET, items) == OVERRUN
  {
    items := [Item(TEN_ZEROS, []), Item([], [])];
    var rest: seq<Item> := [Item([], [])];
    assert items[1..] == rest && rest[1..] == [];
    assert ArgsOf(false, rest) == [[]] + ArgsOf(false, rest[1..]);
    assert ArgsOf(false, items) == [TEN_ZEROS] + ArgsOf(false, rest);
  }

  lemma BothInSlot(slots: seq<nat>, keys: seq<KeyPos>)
    requires slots == [0, 0] && |keys| == 2
    ensures OfSlot(slots, keys, 2, 0) == keys
  {
    assert OfSlot(slots, keys, 0, 0) == [];
    assert OfSlot(slots, keys, 1, 0) == [keys[0]];
  }

  lemma OverrunSlots(items: seq<Item>, slot: SlotOf)
    requires |items| == 2 && slot(items[0].key) == 0 && slot(items[1].key) == 0
    ensures SlotsOf(slot, items) == [0, 0]
  {
  }

  /** Both keys are in slot 0. */
  lemma OverrunKeys(items: seq<Item>, buf: Text, spans: seq<Span>, keys: seq<KeyPos>, slot: SlotOf)
    requires |items| == 2 && slot(items[0].key) == 0 && slot(items[1].key) == 0 && |buf| <= INT_MAX
    requires AllHold(buf, false, spans, items) && keys == Positions(false, spans, items)
    ensures AllReadable(buf, false, spans) && KeySlots(buf, spans, slot) == [0, 0]
    ensures keys == NotedAll(buf, false, spans) && OfSlot([0, 0], keys, 2, 0) == keys
  {
    HoldingIsReadable(buf, MGET, spans, items, slot);
    OverrunSlots(items, slot);
    BothInSlot([0, 0], keys);
  }

  lemma OverrunLengths(items: seq<Item>, buf: Text, spans: seq<Span>, keys: seq<KeyPos>)
    requires |items| == 2 && items[0].key == TEN_ZEROS && items[1].key == []
    requires AllHold(buf, false, spans, items) && keys == Positions(false, spans, items)
    ensures KeyLength(keys[0]) == 10 && KeyLength(keys[1]) == 0
  {
    assert Holds(buf, false, spans[0], items[0]) && Holds(buf, false, spans[1], items[1]);
  }

  /** The sub-command of slot 0 is one byte longer than its buffer. */
  ghost predicate Overruns(buf: Text, spans: seq<Span>, slot: SlotOf) {
    && AllReadable(buf, false, spans) && |spans| == 2 && KeySlots(buf, spans, slot) == [0, 0]
    && var keys := OfSlot([0, 0], NotedAll(buf, false, spans), 2, 0);
    && Sound(buf, MGET, keys)
    && var sub := Serialised(buf, MGET, keys, 0);
       |sub.cmd| == sub.clen + 1
  }

  lemma OverrunSpans(items: seq<Item>, buf: Text, spans: seq<Span>, slot: SlotOf)
    requires |items| == 2 && items[0].key == TEN_ZEROS && items[1].key == [] && |buf| <= INT_MAX
    requires AllHold(buf, false, spans, items) && slot(items[0].key) == 0 && slot(items[1].key) == 0
    ensures Overruns(buf, spans, slot)
  {
    var keys := Positions(false, spans, items);
    OverrunKeys(items, buf, spans, keys, slot);
    PositionsSound(buf, MGET, spans, items);
    OverrunLengths(items, buf, spans, keys);
    BufferFilledExactly(buf, MGET, keys, 0);
    StaleAfterTen(keys);
  }

  /** This MGET, which is accepted, makes the splitter write one byte too many: the length of the
      empty key is printed over that of the other. */
  lemma EmptyKeyOverruns()
    ensures var buf := Format(OVERRUN);
      && |buf| <= INT_MAX && Parse(buf).Done? && Parse(buf).cmd.ctype == MGET
      && Overruns(buf, Parse(buf).cmd.keys, KeySlot.Slot)
  {
    var items := OverrunItems();
    OwnNames();
    OverrunSize();
    FormattedIsParsed(MGET_NAME, MGET, items, KeySlot.Slot, JobOf(MGET_NAME, MGET, items).spans);
    OverrunOfZeros(items, Format(OVERRUN), JobOf(MGET_NAME, MGET, items).spans);
  }

  lemma OverrunOfZeros(items: seq<Item>, buf: Text, spans: seq<Span>)
    requires |items| == 2 && items[0].key == TEN_ZEROS && items[1].key == [] && |buf| <= INT_MAX
    requires AllHold(buf, false, spans, items)
    ensures Overruns(buf, spans, KeySlot.Slot)
  {
    var slot := KeySlot.Slot;
    ZeroSlot(slot, items[0].key);
    ZeroSlot(slot, items[1].key);
    OverrunSpans(items, buf, spans, slot);
  }

  predicate AllZero(key: Text) { forall i :: 0 <= i < |key| ==> key[i] == 0 }

  lemma ZeroSlot(slot: SlotOf, key: Text)
    requires slot == KeySlot.Slot && AllZero(key)
    ensures slot(key) == 0
  {
    KeySlot.ZeroKeySlot(key);
  }

  lemma OverrunSize()
    ensures |Format(OVERRUN)| <= INT_MAX && CommandLaws.Fits(OVERRUN)
  {
    var two: seq<Text>, one: seq<Text> := [TEN_ZEROS, []], [[]];
    assert OVERRUN[1..] == two && two[1..] == one && one[1..] == [];
    assert Bulks(OVERRUN) == Bulk(MGET_NAME) + Bulks(two);
    assert Bulks(two) == Bulk(TEN_ZEROS) + Bulks(one);
    assert Bulks(one) == Bulk([]) + [];
    assert Digits(10) == Digits(1) + [48];
  }
}
