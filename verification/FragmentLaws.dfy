/** What the sub-commands of `command_pre_fragment` contain: their buffers are filled to the
    byte, and each is the formatted command for its slot's keys. */
module FragmentLaws {
  import opened Bytes
  import opened DecimalText
  import opened CommandTable
  import opened CommandGrammar
  import opened CommandLaws
  import opened CommandClasses
  import opened Resp
  import opened KeyValue
  import opened Fragments

  // ---------- how far the buffer is filled ----------

  /** How many bytes too many the number texts of these keys take, with `prev` in `num_str`. */
  function Excess(keys: seq<KeyPos>, prev: Text): nat {
    if keys == [] then 0
    else
      var num := NumText(prev, KeyLength(keys[0]));
      (if KeyLength(keys[0]) == 0 && prev != [] then |prev| - 1 else 0) + Excess(keys[1..], num)
  }

  /** No empty key is printed over a number of two or more digits; `width` is the number of
      digits printed last. */
  predicate NoStaleDigits(keys: seq<KeyPos>, width: nat) {
    keys == [] ||
      if KeyLength(keys[0]) == 0 then width == 1 && NoStaleDigits(keys[1..], 1)
      else NoStaleDigits(keys[1..], |Digits(KeyLength(keys[0]))|)
  }

  lemma {:induction false} ExcessIsStale(keys: seq<KeyPos>, prev: Text)
    requires prev != []
    ensures Excess(keys, prev) == 0 <==> NoStaleDigits(keys, |prev|)
  {
    if keys != [] { ExcessIsStale(keys[1..], NumText(prev, KeyLength(keys[0]))); }
  }

  lemma {:induction false} RawLengthCons(keys: seq<KeyPos>)
    requires keys != [] && Ordered(keys)
    ensures Ordered(keys[1..])
    ensures RawLength(keys) == KeyLength(keys[0]) + |Digits(KeyLength(keys[0]))| + keys[0].remain + RawLength(keys[1..])
  {
    var init := keys[..|keys| - 1];
    if |keys| == 1 {
      assert init == [] && keys[1..] == [];
    } else {
      RawLengthCons(init);
      assert keys[1..][..|keys[1..]| - 1] == init[1..];
    }
  }

  predicate NoRemain(keys: seq<KeyPos>) {
    forall i :: 0 <= i < |keys| ==> keys[i].remain == 0
  }

  lemma {:induction false} FillLength(buf: Text, mset: bool, keys: seq<KeyPos>, prev: Text)
    requires Ordered(keys) && Inside(buf, mset, keys) && prev != [] && (!mset ==> NoRemain(keys))
    ensures |FillText(buf, mset, keys, prev)|
         == RawLength(keys) + (if mset then 3 else 5) * |keys| + Excess(keys, prev)
  {
    if keys != [] {
      RawLengthCons(keys);
      var num := NumText(prev, KeyLength(keys[0]));
      FillLength(buf, mset, keys[1..], num);
      EntryLength(buf, mset, keys[0], prev, num);
    }
  }

  lemma EntryLength(buf: Text, mset: bool, kp: KeyPos, prev: Text, num: Text)
    requires Inside(buf, mset, [kp]) && kp.start <= kp.end && prev != [] && num == NumText(prev, KeyLength(kp))
    requires !mset ==> kp.remain == 0
    ensures |EntryText(buf, mset, kp, num)|
         == (if mset then 3 else 5) + KeyLength(kp) + |Digits(KeyLength(kp))| + kp.remain
          + (if KeyLength(kp) == 0 then |prev| - 1 else 0)
  {
    assert [kp][0] == kp;
  }

  /** The fill loop ends exactly at the end of the buffer that was sized for it if and only if
      no empty key is printed over stale digits; otherwise it runs past it. */
  lemma BufferFilledExactly(buf: Text, ctype: Command, keys: seq<KeyPos>, s: nat)
    requires Ordered(keys) && Inside(buf, ctype == MSET, keys) && (ctype != MSET ==> NoRemain(keys))
    ensures var sub := Serialised(buf, ctype, keys, s);
      && |sub.cmd| == sub.clen + Excess(keys, Digits(sub.narg))
      && (|sub.cmd| == sub.clen <==> NoStaleDigits(keys, |Digits(sub.narg)|))
  {
    var narg := ArgCount(ctype, |keys|);
    FillLength(buf, ctype == MSET, keys, Digits(narg));
    ExcessIsStale(keys, Digits(narg));
  }

  lemma {:induction false} NonEmptyKeysNotStale(keys: seq<KeyPos>, width: nat)
    requires forall i :: 0 <= i < |keys| ==> KeyLength(keys[i]) > 0
    ensures NoStaleDigits(keys, width)
  {
    if keys != [] { NonEmptyKeysNotStale(keys[1..], |Digits(KeyLength(keys[0]))|); }
  }

  /** A ten-byte key followed by an empty one leaves one stale digit. */
  lemma StaleAfterTen(keys: seq<KeyPos>)
    requires |keys| == 2 && KeyLength(keys[0]) == 10 && KeyLength(keys[1]) == 0
    ensures Excess(keys, Digits(3)) == 1
  {
    var num := NumText(Digits(3), 10);
    assert Digits(10) == [49, 48] && num == Digits(10);
    assert keys[1..] == [keys[1]] && keys[1..][1..] == [];
    assert Excess(keys[1..], num) == 1 + Excess(keys[1..][1..], NumText(num, 0));
  }

  // ---------- what it is filled with ----------

  /** The arguments a command needs for these items. */
  function ArgsOf(mset: bool, items: seq<Item>): seq<Text> {
    if items == [] then []
    else (if mset then [items[0].key, items[0].value] else [items[0].key]) + ArgsOf(mset, items[1..])
  }

  function ArgvNamed(name: Text, ctype: Command, items: seq<Item>): seq<Text> {
    [name] + ArgsOf(ctype == MSET, items)
  }

  function ArgvOf(ctype: Command, items: seq<Item>): seq<Text> {
    ArgvNamed(NameOf(ctype), ctype, items)
  }

  predicate KeyHolds(buf: Text, mset: bool, kp: KeyPos, item: Item) {
    Holds(buf, mset, Span(kp.start, kp.end), item) && kp.remain == if mset then |Tail(item)| else 0
  }

  predicate KeysHold(buf: Text, mset: bool, keys: seq<KeyPos>, items: seq<Item>) {
    |keys| == |items| && forall i :: 0 <= i < |keys| ==> KeyHolds(buf, mset, keys[i], items[i])
  }

  lemma EntryIsBulks(buf: Text, mset: bool, kp: KeyPos, item: Item, num: Text)
    requires KeyHolds(buf, mset, kp, item) && Inside(buf, mset, [kp]) && num == Digits(|item.key|)
    ensures EntryText(buf, mset, kp, num) == Bulks(if mset then [item.key, item.value] else [item.key])
  {
    assert [kp][0] == kp;
    PayloadHolds(buf, mset, kp, item);
    if mset { BulksTwo(item.key, item.value); } else { BulksOne(item.key); }
  }

  lemma PayloadHolds(buf: Text, mset: bool, kp: KeyPos, item: Item)
    requires KeyHolds(buf, mset, kp, item) && Inside(buf, mset, [kp])
    ensures Payload(buf, mset, kp) == item.key + if mset then Tail(item) else CRLF
  {
    assert [kp][0] == kp;
    if mset { assert buf[kp.start..kp.end + kp.remain] == buf[kp.start..kp.end] + buf[kp.end..kp.end + kp.remain]; }
  }

  lemma {:induction false} FillIsBulks(buf: Text, mset: bool, keys: seq<KeyPos>, items: seq<Item>, prev: Text)
    requires KeysHold(buf, mset, keys, items) && Inside(buf, mset, keys)
    requires prev != [] && NoStaleDigits(keys, |prev|)
    ensures FillText(buf, mset, keys, prev) == Bulks(ArgsOf(mset, items))
  {
    if keys != [] {
      var num := NumText(prev, KeyLength(keys[0]));
      assert KeyHolds(buf, mset, keys[0], items[0]);
      EntryIsBulks(buf, mset, keys[0], items[0], num);
      FillIsBulks(buf, mset, keys[1..], items[1..], num);
      BulksAppend(if mset then [items[0].key, items[0].value] else [items[0].key], ArgsOf(mset, items[1..]));
    }
  }

  lemma {:induction false} ArgsLength(mset: bool, items: seq<Item>)
    ensures |ArgsOf(mset, items)| == if mset then 2 * |items| else |items|
  {
    if items != [] { ArgsLength(mset, items[1..]); }
  }

  /** The sub-command's bytes are the formatted command for its items. */
  lemma SerialisedIsFormat(buf: Text, ctype: Command, keys: seq<KeyPos>, items: seq<Item>, s: nat)
    requires ctype in {MGET, DEL, MSET} && Ordered(keys) && Inside(buf, ctype == MSET, keys)
    requires KeysHold(buf, ctype == MSET, keys, items)
    requires NoStaleDigits(keys, |Digits(ArgCount(ctype, |keys|))|)
    ensures Serialised(buf, ctype, keys, s).cmd == Format(ArgvOf(ctype, items))
  {
    var narg := ArgCount(ctype, |keys|);
    ArgsLength(ctype == MSET, items);
    FillIsBulks(buf, ctype == MSET, keys, items, Digits(narg));
    assert ArgvOf(ctype, items)[1..] == ArgsOf(ctype == MSET, items);
    Associative([STAR] + Digits(narg) + CRLF, Bulk(NameOf(ctype)), Bulks(ArgsOf(ctype == MSET, items)));
  }

  // ---------- which items a slot gets ----------

  lemma {:induction false} SlotGetsFragment(buf: Text, mset: bool, spans: seq<Span>, items: seq<Item>, slot: SlotOf, n: nat, s: nat)
    requires AllHold(buf, mset, spans, items) && n <= |items|
    ensures KeysHold(buf, mset, OfSlot(SlotsOf(slot, items), Positions(mset, spans, items), n, s), Fragment(slot, items[..n], s))
    decreases n
  {
    if n == 0 {
      assert items[..0] == [];
    } else {
      SlotGetsFragment(buf, mset, spans, items, slot, n - 1, s);
      assert items[..n] == items[..n - 1] + [items[n - 1]];
      BetweenAppend(slot, items[..n - 1], [items[n - 1]], s, s + 1);
      OneItem(slot, items[n - 1], s);
      assert Holds(buf, mset, spans[n - 1], items[n - 1]);
    }
  }

  lemma OneItem(slot: SlotOf, item: Item, s: nat)
    ensures Fragment(slot, [item], s) == if slot(item.key) == s then [item] else []
  {
    var one: seq<Item> := [item];
    assert one[1..] == [] && Between(slot, one[1..], s, s + 1) == [];
    assert [one[0]] + Between(slot, one[1..], s, s + 1) == one;
  }

  // ---------- what the parser makes of a sub-command ----------

  lemma {:induction false} ArgsOfAt(mset: bool, items: seq<Item>, i: nat)
    requires i < |items|
    ensures |ArgsOf(mset, items)| == if mset then 2 * |items| else |items|
    ensures ArgsOf(mset, items)[if mset then 2 * i else i] == items[i].key
    ensures mset ==> ArgsOf(mset, items)[2 * i + 1] == items[i].value
  {
    ArgsLength(mset, items);
    if i > 0 { ArgsOfAt(mset, items[1..], i - 1); }
  }

  lemma StepOn(from: nat, step: nat, j: nat)
    requires j > 0
    ensures from + step + (j - 1) * step == from + j * step
  {
  }

  lemma {:induction false} SpansAt(argv: seq<Text>, from: nat, step: nat, j: nat, at: nat)
    requires step > 0 && at == from + j * step < |argv|
    ensures j < |Spans(argv, from, step)| && Spans(argv, from, step)[j] == SpanOf(argv, at)
    decreases j
  {
    if j > 0 {
      StepOn(from, step, j);
      SpansAt(argv, from + step, step, j - 1, at);
    }
  }

  lemma {:induction false} SpansLength(argv: seq<Text>, from: nat, step: nat, n: nat)
    requires step > 0 && n > 0 && from + (n - 1) * step < |argv| <= from + n * step
    ensures |Spans(argv, from, step)| == n
    decreases n
  {
    if n == 1 {
      assert Spans(argv, from + step, step) == [];
    } else {
      assert from + step + (n - 2) * step == from + (n - 1) * step;
      assert from + step + (n - 1) * step == from + n * step;
      SpansLength(argv, from + step, step, n - 1);
    }
  }

  function Step(ctype: Command): (step: nat)
    ensures step > 0
  {
    if ctype == MSET then 2 else 1
  }

  /** The parser recovers from a formatted vector command, its name in upper or lower case,
      the type and the keys of its items, in order. */
  lemma ParseVector(name: Text, ctype: Command, items: seq<Item>)
    requires ctype in {MGET, DEL, MSET} && items != [] && Fits(ArgvNamed(name, ctype, items))
    requires name != [] && Lookup(name) == ctype
    ensures var argv := ArgvNamed(name, ctype, items);
      Parse(Format(argv)) == Done(Cmd(ctype, |argv|, 0, Spans(argv, 1, Step(ctype))))
  {
    ArgsLength(ctype == MSET, items);
    VectorStep(ctype);
    VectorIsParsed(name, ArgvNamed(name, ctype, items), ctype, Step(ctype), |items|);
  }

  lemma VectorStep(ctype: Command)
    requires ctype in {MGET, DEL, MSET}
    ensures ctype.Known? && (if ctype == MSET then ctype.arity == ArgKvx else ctype.arity == ArgX)
  {
  }

  lemma VectorIsParsed(name: Text, argv: seq<Text>, ctype: Command, step: nat, n: nat)
    requires ctype.Known? && |argv| > 1 && Fits(argv) && argv[0] == name != [] && Lookup(name) == ctype
    requires if step == 2 then ctype.arity == ArgKvx && |argv| == 2 * n + 1 else ctype.arity == ArgX && step == 1
    ensures Parse(Format(argv)) == Done(Cmd(ctype, |argv|, 0, Spans(argv, 1, step)))
  {
    FormatThenParse(argv);
    if step == 2 { assert OddLength(argv) by { Powers.Unique(|argv|, 2, n, 1); } }
    VectorAnswer(argv, ctype, step);
  }

  predicate OddLength(argv: seq<Text>) { |argv| % 2 == 1 }

  lemma VectorAnswer(argv: seq<Text>, ctype: Command, step: nat)
    requires ctype.Known? && |argv| > 1
    requires if step == 2 then ctype.arity == ArgKvx && OddLength(argv) else ctype.arity == ArgX && step == 1
    ensures Answer(argv, ctype) == Done(Cmd(ctype, |argv|, 0, Spans(argv, 1, step)))
  {
  }

  lemma VectorSpansHold(name: Text, ctype: Command, items: seq<Item>)
    requires items != []
    ensures var argv := ArgvNamed(name, ctype, items);
      AllHold(Format(argv), ctype == MSET, Spans(argv, 1, Step(ctype)), items)
  {
    var argv := ArgvNamed(name, ctype, items);
    ArgsLength(ctype == MSET, items);
    SpansLength(argv, 1, Step(ctype), |items|);
    forall j | 0 <= j < |items|
      ensures Holds(Format(argv), ctype == MSET, Spans(argv, 1, Step(ctype))[j], items[j])
    {
      VectorSpanHolds(name, ctype, items, j);
    }
  }

  lemma VectorSpanHolds(name: Text, ctype: Command, items: seq<Item>, j: nat)
    requires j < |items|
    ensures var argv := ArgvNamed(name, ctype, items);
      j < |Spans(argv, 1, Step(ctype))| && Holds(Format(argv), ctype == MSET, Spans(argv, 1, Step(ctype))[j], items[j])
  {
    var argv, i := ArgvNamed(name, ctype, items), 1 + j * Step(ctype);
    ArgsOfAt(ctype == MSET, items, j);
    SpansAt(argv, 1, Step(ctype), j, i);
    ArgumentHolds(argv, i, ctype == MSET, items[j]);
  }

  lemma ArgumentHolds(argv: seq<Text>, i: nat, mset: bool, item: Item)
    requires i < |argv| && argv[i] == item.key && (mset ==> i + 1 < |argv| && argv[i + 1] == item.value)
    ensures Holds(Format(argv), mset, SpanOf(argv, i), item)
  {
    SpanHoldsArgument(argv, i);
    if mset { TailFollows(argv, i, item); }
  }

  lemma TailFollows(argv: seq<Text>, i: nat, item: Item)
    requires i + 1 < |argv| && argv[i + 1] == item.value
    ensures SpanOf(argv, i).end + |Tail(item)| <= |Format(argv)|
    ensures Format(argv)[SpanOf(argv, i).end..SpanOf(argv, i).end + |Tail(item)|] == Tail(item)
  {
    SpanHoldsArgument(argv, i);
    BulkAt(argv, i + 1);
    TailAt(Format(argv), SpanOf(argv, i).end, Pos(argv, i + 1), Bulk(item.value));
  }

  lemma TailAt(buf: Text, end: nat, p: nat, bulk: Text)
    requires p == end + 2 && p + |bulk| <= |buf| && buf[end] == CR && buf[end + 1] == LF && buf[p..p + |bulk|] == bulk
    ensures buf[end..p + |bulk|] == CRLF + bulk
  {
    assert buf[end..p + |bulk|] == buf[end..p] + buf[p..p + |bulk|];
  }

  /** Every sub-command parses back to the type of the whole command and to exactly the keys of
      its slot, in their original order. */
  lemma SubCommandParses(buf: Text, ctype: Command, spans: seq<Span>, items: seq<Item>, slot: SlotOf, s: nat)
    requires ctype in {MGET, DEL, MSET} && AllHold(buf, ctype == MSET, spans, items)
    requires Fragment(slot, items, s) != [] && Fits(ArgvOf(ctype, Fragment(slot, items, s)))
    requires var keys := OfSlot(SlotsOf(slot, items), Positions(ctype == MSET, spans, items), |items|, s);
      NoStaleDigits(keys, |Digits(ArgCount(ctype, |keys|))|)
    ensures var keys := OfSlot(SlotsOf(slot, items), Positions(ctype == MSET, spans, items), |items|, s);
      var argv := ArgvOf(ctype, Fragment(slot, items, s));
      && Sound(buf, ctype, keys) && Serialised(buf, ctype, keys, s).cmd == Format(argv)
      && Parse(Serialised(buf, ctype, keys, s).cmd) == Done(Cmd(ctype, |argv|, 0, Spans(argv, 1, Step(ctype))))
      && AllHold(Format(argv), ctype == MSET, Spans(argv, 1, Step(ctype)), Fragment(slot, items, s))
  {
    var slots, positions := SlotsOf(slot, items), Positions(ctype == MSET, spans, items);
    var keys := OfSlot(slots, positions, |items|, s);
    PositionsSound(buf, ctype, spans, items);
    SelectedSound(buf, ctype, slots, positions, |items|, s);
    assert items[..|items|] == items;
    SlotGetsFragment(buf, ctype == MSET, spans, items, slot, |items|, s);
    SerialisedIsFormat(buf, ctype, keys, Fragment(slot, items, s), s);
    OwnNames();
    ParseVector(NameOf(ctype), ctype, Fragment(slot, items, s));
    VectorSpansHold(NameOf(ctype), ctype, Fragment(slot, items, s));
  }
}
