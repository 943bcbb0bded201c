/** `command_pre_fragment` of `hircluster.c`: one freshly serialised sub-command per hash slot,
    its buffer sized first and filled afterwards. */
module Fragments {
  import opened Bytes
  import opened DecimalText
  import opened CommandTable
  import opened CommandGrammar
  import opened Resp
  import opened KeyValue

  /** A key's place in the command text; for MSET also how many bytes after it belong to its
      value. */
  datatype KeyPos = KeyPos(start: nat, end: nat, remain: nat)

  datatype SubCommand = SubCommand(ctype: Command, keys: seq<KeyPos>, narg: nat, clen: nat, slot: nat, cmd: Text) {
    /** The bytes that are sent: as many as `clen` says. */
    function Wire(): Text {
      if clen <= |cmd| then cmd[..clen] else cmd
    }
  }

  // ---------- grouping ----------

  /** The first `n` of `xs` that belong to slot `s`. */
  function OfSlot(slots: seq<nat>, xs: seq<KeyPos>, n: nat, s: nat): seq<KeyPos>
    requires n <= |slots| && n <= |xs|
  {
    if n == 0 then []
    else OfSlot(slots, xs, n - 1, s) + if slots[n - 1] == s then [xs[n - 1]] else []
  }

  /** What the grouping pass adds to `clen` for these keys. */
  function RawLength(keys: seq<KeyPos>): nat
    requires forall i :: 0 <= i < |keys| ==> keys[i].start <= keys[i].end
  {
    if keys == [] then 0
    else
      var last := keys[|keys| - 1];
      RawLength(keys[..|keys| - 1]) + (last.end - last.start) + |Digits(last.end - last.start)| + last.remain
  }

  predicate Ordered(keys: seq<KeyPos>) {
    forall i :: 0 <= i < |keys| ==> keys[i].start <= keys[i].end
  }

  /** The sub-command the grouping pass has built for a slot that `keys` belong to. */
  function Grouped(keys: seq<KeyPos>, s: nat): SubCommand
    requires Ordered(keys)
  {
    SubCommand(Unknown, keys, |keys|, RawLength(keys), s, [])
  }

  /** What the text holds at each key: the key itself and, for MSET, the value's bulk string
      behind it. */
  predicate Holds(buf: Text, mset: bool, span: Span, item: Item) {
    && span.start <= span.end < |buf| && buf[span.start..span.end] == item.key
    && (mset ==> span.end + |Tail(item)| <= |buf| && buf[span.end..span.end + |Tail(item)|] == Tail(item))
  }

  /** What follows a key of MSET up to the end of its value. */
  function Tail(item: Item): Text {
    CRLF + Bulk(item.value)
  }

  /** What `keyHashSlot` computes is a parameter here; every slot it gives is in range. */
  ghost predicate SlotsBelow(slot: SlotOf) {
    forall key: Text :: slot(key) < SLOTS
  }

  // ---------- the scan behind an MSET key ----------

  /** The first digit from `p` on. */
  function FirstDigit(buf: Text, p: nat): (i: nat)
    requires p <= |buf|
    ensures p <= i <= |buf| && (i < |buf| ==> IsDigit(buf[i]))
    decreases |buf| - p
  {
    if p == |buf| || IsDigit(buf[p]) then p else FirstDigit(buf, p + 1)
  }

  /** Behind the digits from `p` on. */
  function DigitsEnd(buf: Text, p: nat): (i: nat)
    requires p <= |buf|
    ensures p <= i <= |buf| && AllDigits(buf[p..i])
    decreases |buf| - p
  {
    if p == |buf| || !IsDigit(buf[p]) then p
    else
      var i := DigitsEnd(buf, p + 1);
      assert buf[p..i] == [buf[p]] + buf[p + 1..i];
      i
  }

  /** The scan finds a number and its end inside the text. */
  predicate Scannable(buf: Text, end: nat) {
    end < |buf| && FirstDigit(buf, end + 1) < |buf| && DigitsEnd(buf, FirstDigit(buf, end + 1)) < |buf|
  }

  /** What the scan makes of the text behind a key, in 32-bit arithmetic: up to the end of the
      number, the line ends, and as many bytes as the number says. */
  function TailLength(buf: Text, end: nat): nat
    requires Scannable(buf, end)
  {
    var from := FirstDigit(buf, end + 1);
    var to := DigitsEnd(buf, from);
    (Value(buf[from..to]) % TWO32 + 2 * |CRLF| + (to - end)) % TWO32
  }

  /** The key is in the text and, for MSET, so is what the scan takes to follow it. */
  predicate Readable(buf: Text, mset: bool, span: Span) {
    && span.start <= span.end < |buf|
    && (mset ==> Scannable(buf, span.end) && span.end + TailLength(buf, span.end) <= |buf|)
  }

  predicate AllReadable(buf: Text, mset: bool, spans: seq<Span>) {
    forall i :: 0 <= i < |spans| ==> Readable(buf, mset, spans[i])
  }

  method RemainLength(buf: Text, end: nat) returns (len: nat)
    requires Scannable(buf, end)
    ensures len == TailLength(buf, end)
  {
    var p := end + 1;
    while !IsDigit(buf[p])
      invariant end + 1 <= p < |buf| && FirstDigit(buf, p) == FirstDigit(buf, end + 1)
      decreases |buf| - p
    {
      p := p + 1;
    }
    len, p := ReadLength(buf, p);
    len := len + |CRLF| * 2;
    len := (len + (p - end)) % TWO32;
  }

  method ReadLength(buf: Text, start: nat) returns (len: nat, p: nat)
    requires start < |buf| && DigitsEnd(buf, start) < |buf|
    ensures p == DigitsEnd(buf, start) && len == Value(buf[start..p]) % TWO32
  {
    p, len := start, 0;
    while IsDigit(buf[p])
      invariant start <= p < |buf| && DigitsEnd(buf, p) == DigitsEnd(buf, start)
      invariant AllDigits(buf[start..p]) && len == Value(buf[start..p]) % TWO32
      decreases |buf| - p
    {
      NextScanned(buf, start, p);
      len := (len * 10 + (buf[p] - ZERO)) % TWO32;
      p := p + 1;
    }
  }

  lemma NextScanned(buf: Text, start: nat, p: nat)
    requires start <= p < |buf| && AllDigits(buf[start..p]) && IsDigit(buf[p])
    ensures AllDigits(buf[start..p + 1])
    ensures Value(buf[start..p + 1]) % TWO32 == (Value(buf[start..p]) % TWO32 * 10 + (buf[p] - ZERO)) % TWO32
  {
    var front, s := buf[start..p], buf[start..p + 1];
    SliceSnoc(buf, start, p);
    assert s[..|front|] == front && s[..|front| + 1] == s;
    NextDigit(s, |front|);
    WrapStep(Value(front), buf[p] - ZERO);
  }

  lemma {:induction false} ScanEnds(buf: Text, p: nat, to: nat)
    requires p <= to < |buf| && !IsDigit(buf[to]) && forall k :: p <= k < to ==> IsDigit(buf[k])
    ensures DigitsEnd(buf, p) == to
    decreases |buf| - p
  {
    if p < to { ScanEnds(buf, p + 1, to); }
  }

  /** Where the scan ends up when a bulk string's header follows the key's line end; `len` is the
      length it says. */
  lemma ScanReads(buf: Text, end: nat, from: nat, to: nat, len: nat)
    requires from == end + 3 < to < |buf| && AllDigits(buf[from..to]) && !IsDigit(buf[to])
    requires !IsDigit(buf[end + 1]) && !IsDigit(buf[end + 2])
    requires len == Value(buf[from..to]) % TWO32 && len + 4 + (to - end) < TWO32
    ensures Scannable(buf, end) && TailLength(buf, end) == len + 4 + (to - end)
  {
    forall k | from <= k < to ensures IsDigit(buf[k]) { assert buf[k] == buf[from..to][k - from]; }
    ScanEnds(buf, from, to);
    assert FirstDigit(buf, end + 2) == from;
    Unwrapped(len + 4 + (to - end));
  }

  lemma Unwrapped(n: nat)
    requires n < TWO32
    ensures n % TWO32 == n
  {
  }

  /** Behind a key that holds, the scan finds the value's bulk string. */
  lemma TailIsScanned(buf: Text, end: nat, item: Item)
    requires end + |Tail(item)| <= |buf| <= INT_MAX && buf[end..end + |Tail(item)|] == Tail(item)
    ensures Scannable(buf, end) && TailLength(buf, end) == |Tail(item)|
  {
    var digits := Digits(|item.value|);
    TailInside(buf, end, item, Tail(item), digits);
    HeaderIsScanned(buf, end, |item.value|, digits);
  }

  lemma HeaderIsScanned(buf: Text, end: nat, n: nat, digits: Text)
    requires end + 2 < |buf| && buf[end + 1] == LF && HeaderAt(buf, end + 2, digits) && digits == Digits(n)
    requires n + 7 + |digits| < TWO32
    ensures Scannable(buf, end) && TailLength(buf, end) == |digits| + n + 7
  {
    var from, to := end + 3, end + 3 + |digits|;
    ValueOfDigits(n);
    Unwrapped(n);
    ScanReads(buf, end, from, to, n);
  }

  lemma TailInside(buf: Text, end: nat, item: Item, tail: Text, digits: Text)
    requires end + |tail| <= |buf| && buf[end..end + |tail|] == tail && tail == Tail(item) && digits == Digits(|item.value|)
    ensures |tail| == |digits| + |item.value| + 7 && buf[end + 1] == LF && HeaderAt(buf, end + 2, digits)
  {
    var bulk := Bulk(item.value);
    BulkParts(item.value);
    SubIndex(buf, end, tail, 1);
    SubSlice(buf, end, tail, 2, |tail|);
    assert tail[2..] == bulk;
    HeaderInside(buf, end + 2, bulk, digits);
  }

  predicate AllHold(buf: Text, mset: bool, spans: seq<Span>, items: seq<Item>) {
    |spans| == |items| && forall i :: 0 <= i < |spans| ==> Holds(buf, mset, spans[i], items[i])
  }

  function Position(mset: bool, span: Span, item: Item): KeyPos {
    KeyPos(span.start, span.end, if mset then |Tail(item)| else 0)
  }

  function Positions(mset: bool, spans: seq<Span>, items: seq<Item>): (ps: seq<KeyPos>)
    requires |spans| == |items|
    ensures |ps| == |spans| && forall i :: 0 <= i < |ps| ==> ps[i] == Position(mset, spans[i], items[i])
  {
    seq(|spans|, i requires 0 <= i < |spans| => Position(mset, spans[i], items[i]))
  }

  function SlotsOf(slot: SlotOf, items: seq<Item>): (ss: seq<nat>)
    ensures |ss| == |items| && forall i :: 0 <= i < |ss| ==> ss[i] == slot(items[i].key)
  {
    seq<nat>(|items|, (i: nat) requires i < |items| => slot(items[i].key))
  }

  /** What the grouping pass has put into the table after `n` keys; a slot without an entry is
      a null pointer in the table. */
  ghost predicate GroupedTo(subs: map<nat, SubCommand>, slots: seq<nat>, positions: seq<KeyPos>, n: nat)
    requires n <= |slots| == |positions|
  {
    forall s :: SlotGrouped(subs, s, OfSlot(slots, positions, n, s))
  }

  predicate SlotGrouped(subs: map<nat, SubCommand>, s: nat, keys: seq<KeyPos>) {
    (s in subs <==> keys != []) && (keys != [] ==> Ordered(keys) && s < SLOTS && subs[s] == Grouped(keys, s))
  }

  lemma RawLengthSnoc(keys: seq<KeyPos>, kp: KeyPos)
    requires Ordered(keys) && kp.start <= kp.end
    ensures Ordered(keys + [kp])
    ensures RawLength(keys + [kp]) == RawLength(keys) + (kp.end - kp.start) + |Digits(kp.end - kp.start)| + kp.remain
  {
    assert (keys + [kp])[..|keys|] == keys;
  }

  /** Counting one more key into a slot's sub-command. */
  method AddKey(sub: SubCommand, s: nat, kp: KeyPos, ghost keys: seq<KeyPos>) returns (sub': SubCommand)
    requires Ordered(keys) && kp.start <= kp.end <= INT_MAX
    requires sub == if keys == [] then FRESH else Grouped(keys, s)
    ensures Ordered(keys + [kp]) && sub' == Grouped(keys + [kp], s)
  {
    var keyLen := kp.end - kp.start;
    var digits := UintLen(keyLen);
    RawLengthSnoc(keys, kp);
    sub' := SubCommand(sub.ctype, sub.keys + [kp], sub.narg + 1, sub.clen + keyLen + digits + kp.remain, s, sub.cmd);
  }

  /** What `command_get` returns. */
  const FRESH := SubCommand(Unknown, [], 0, 0, 0, [])

  /** What the grouping pass notes of a key. */
  function Noted(buf: Text, mset: bool, span: Span): KeyPos
    requires Readable(buf, mset, span)
  {
    KeyPos(span.start, span.end, if mset then TailLength(buf, span.end) else 0)
  }

  /** For MSET also the length of what goes with the key. */
  method NoteKey(buf: Text, mset: bool, span: Span) returns (kp: KeyPos)
    requires Readable(buf, mset, span)
    ensures kp == Noted(buf, mset, span)
  {
    var remain := 0;
    if mset { remain := RemainLength(buf, span.end); }
    kp := KeyPos(span.start, span.end, remain);
  }

  method CountIn(subs: map<nat, SubCommand>, s: nat, kp: KeyPos, ghost slots: seq<nat>, ghost positions: seq<KeyPos>, ghost i: nat)
    returns (subs': map<nat, SubCommand>)
    requires i < |slots| == |positions| && slots[i] == s < SLOTS && positions[i] == kp && kp.start <= kp.end <= INT_MAX
    requires GroupedTo(subs, slots, positions, i)
    ensures GroupedTo(subs', slots, positions, i + 1)
  {
    ghost var keys := OfSlot(slots, positions, i, s);
    assert SlotGrouped(subs, s, keys);
    var sub := AddKey(if s in subs then subs[s] else FRESH, s, kp, keys);
    subs' := subs[s := sub];
    GroupStep(subs, subs', slots, positions, i);
  }

  /** The slot and the position of every key. */
  ghost predicate KeysAre(buf: Text, mset: bool, spans: seq<Span>, slot: SlotOf, slots: seq<nat>, positions: seq<KeyPos>)
    requires AllReadable(buf, mset, spans)
  {
    && |slots| == |positions| == |spans|
    && forall i :: 0 <= i < |slots| ==>
         slots[i] == slot(buf[spans[i].start..spans[i].end]) && positions[i] == Noted(buf, mset, spans[i])
  }

  /** The grouping pass: `sub_commands` and `frag_seq`. A slot seen for the first time gets a
      fresh sub-command, then the key is counted in. */
  method GroupKeys(buf: Text, mset: bool, spans: seq<Span>, slot: SlotOf, ghost slots: seq<nat>, ghost positions: seq<KeyPos>)
    returns (subs: map<nat, SubCommand>, fragSeq: seq<nat>)
    requires SlotsBelow(slot) && |buf| <= INT_MAX && AllReadable(buf, mset, spans)
    requires KeysAre(buf, mset, spans, slot, slots, positions)
    ensures fragSeq == slots && GroupedTo(subs, slots, positions, |spans|)
    ensures forall i :: 0 <= i < |fragSeq| ==> fragSeq[i] < SLOTS
  {
    subs, fragSeq := map[], [];
    var i := 0;
    while i < |spans|
      invariant 0 <= i <= |spans|
      invariant fragSeq == slots[..i] && forall j :: 0 <= j < i ==> fragSeq[j] < SLOTS
      invariant GroupedTo(subs, slots, positions, i)
    {
      assert Readable(buf, mset, spans[i]);
      var s := slot(buf[spans[i].start..spans[i].end]);
      var kp := NoteKey(buf, mset, spans[i]);
      subs := CountIn(subs, s, kp, slots, positions, i);
      assert slots[..i + 1] == slots[..i] + [slots[i]];
      fragSeq := fragSeq + [s];
      i := i + 1;
    }
  }

  lemma GroupStep(subs: map<nat, SubCommand>, subs': map<nat, SubCommand>, slots: seq<nat>, positions: seq<KeyPos>, i: nat)
    requires i < |slots| == |positions| && GroupedTo(subs, slots, positions, i)
    requires SlotGrouped(subs', slots[i], OfSlot(slots, positions, i, slots[i]) + [positions[i]])
    requires subs'.Keys == subs.Keys + {slots[i]} && forall k :: k != slots[i] && k in subs ==> subs'[k] == subs[k]
    ensures GroupedTo(subs', slots, positions, i + 1)
  {
    var n := i + 1;
    forall s: nat ensures SlotGrouped(subs', s, OfSlot(slots, positions, n, s)) {
      assert SlotGrouped(subs, s, OfSlot(slots, positions, i, s));
      assert OfSlot(slots, positions, i, s) + [] == OfSlot(slots, positions, i, s);
    }
  }

  // ---------- serialising ----------

  /** The C string left in `num_str` by `hi_itoa(num_str, n)` when it held `prev` before: a zero
      is stored without a terminator. */
  function NumText(prev: Text, n: nat): Text {
    if n != 0 then Digits(n) else [ZERO] + if prev == [] then [] else prev[1..]
  }

  function KeyLength(kp: KeyPos): nat {
    if kp.start <= kp.end then kp.end - kp.start else 0
  }

  predicate Inside(buf: Text, mset: bool, keys: seq<KeyPos>) {
    forall i :: 0 <= i < |keys| ==>
      keys[i].start <= keys[i].end && keys[i].end + (if mset then keys[i].remain else 0) <= |buf|
  }

  /** What the fill loop copies from the text for one key. */
  function Payload(buf: Text, mset: bool, kp: KeyPos): Text
    requires Inside(buf, mset, [kp])
  {
    assert [kp][0] == kp;
    if mset then buf[kp.start..kp.end + kp.remain] else buf[kp.start..kp.end] + CRLF
  }

  function EntryText(buf: Text, mset: bool, kp: KeyPos, num: Text): Text
    requires Inside(buf, mset, [kp])
  {
    [DOLLAR] + num + CRLF + Payload(buf, mset, kp)
  }

  /** The bytes the fill loop writes for these keys, with `prev` in `num_str`. */
  function FillText(buf: Text, mset: bool, keys: seq<KeyPos>, prev: Text): Text
    requires Inside(buf, mset, keys)
  {
    if keys == [] then []
    else
      var num := NumText(prev, KeyLength(keys[0]));
      assert forall i :: 0 <= i < |keys[1..]| ==> keys[1..][i] == keys[i + 1];
      EntryText(buf, mset, keys[0], num) + FillText(buf, mset, keys[1..], num)
  }

  function NameOf(ctype: Command): Text {
    if ctype == MGET then MGET_NAME else if ctype == DEL then DEL_NAME else MSET_NAME
  }

  function ArgCount(ctype: Command, keys: nat): nat {
    if ctype == MSET then 2 * keys + 1 else keys + 1
  }

  function HeaderText(ctype: Command, narg: nat): Text {
    [STAR] + Digits(narg) + CRLF + Bulk(NameOf(ctype))
  }

  /** The finished sub-command. */
  function Serialised(buf: Text, ctype: Command, keys: seq<KeyPos>, s: nat): SubCommand
    requires Ordered(keys) && Inside(buf, ctype == MSET, keys)
  {
    var narg := ArgCount(ctype, |keys|);
    var clen := RawLength(keys) + (if ctype == MSET then 3 else 5) * |keys| + |HeaderText(ctype, narg)|;
    SubCommand(ctype, keys, narg, clen, s, HeaderText(ctype, narg) + FillText(buf, ctype == MSET, keys, Digits(narg)))
  }

  lemma CStringZero(s: Text)
    requires |s| >= 1 && |CString(s)| >= 1
    ensures CString(s[0 := ZERO]) == [ZERO] + CString(s)[1..]
  {
    assert s[0 := ZERO][1..] == s[1..];
  }

  /** `hi_itoa` followed by `strlen`. */
  method PrintNumber(numStr: array<Byte>, n: nat, ghost prev: Text) returns (num: Text)
    requires numStr.Length == 12 && n <= INT_MAX && (n == 0 ==> prev != [])
    requires CString(numStr[..]) == prev
    modifies numStr
    ensures num == CString(numStr[..]) == NumText(prev, n) && num != []
  {
    if n == 0 { CStringZero(numStr[..]); }
    HiItoa(numStr, n);
    num := CString(numStr[..]);
  }

  /** The loop over the keys of one sub-command; `out` is the part of the buffer written so
      far and `idx` its length. */
  method FillKeys(buf: Text, mset: bool, keys: seq<KeyPos>, header: Text, numStr: array<Byte>, ghost prev: Text)
    returns (out: Text)
    requires Inside(buf, mset, keys) && |buf| <= INT_MAX && numStr.Length == 12
    requires prev != [] && CString(numStr[..]) == prev
    modifies numStr
    ensures out == header + FillText(buf, mset, keys, prev)
  {
    out := header;
    ghost var num := prev;
    var j := 0;
    assert keys[0..] == keys;
    while j < |keys|
      invariant 0 <= j <= |keys| && num != [] && CString(numStr[..]) == num
      invariant Inside(buf, mset, keys[j..])
      invariant out + FillText(buf, mset, keys[j..], num) == header + FillText(buf, mset, keys, prev)
    {
      out, num := FillOne(buf, mset, keys, j, out, numStr, num);
      j := j + 1;
    }
  }

  method FillOne(buf: Text, mset: bool, keys: seq<KeyPos>, j: nat, before: Text, numStr: array<Byte>, ghost prev: Text)
    returns (out: Text, ghost num: Text)
    requires j < |keys| && Inside(buf, mset, keys) && Inside(buf, mset, keys[j..]) && |buf| <= INT_MAX
    requires numStr.Length == 12 && prev != [] && CString(numStr[..]) == prev
    modifies numStr
    ensures num != [] && CString(numStr[..]) == num && Inside(buf, mset, keys[j + 1..])
    ensures out + FillText(buf, mset, keys[j + 1..], num) == before + FillText(buf, mset, keys[j..], prev)
  {
    var kp := keys[j];
    assert keys[j..][0] == kp && keys[j..][1..] == keys[j + 1..];
    var numText := PrintNumber(numStr, kp.end - kp.start, prev);
    num := numText;
    out := WriteEntry(buf, mset, kp, numText, before);
    FillTextCons(buf, mset, keys[j..], prev, before, EntryText(buf, mset, kp, num), num);
  }

  method WriteEntry(buf: Text, mset: bool, kp: KeyPos, num: Text, before: Text) returns (out: Text)
    requires Inside(buf, mset, [kp])
    ensures out == before + EntryText(buf, mset, kp, num)
  {
    assert [kp][0] == kp;
    out := before + [DOLLAR];
    out := out + num;
    out := out + CRLF;
    if mset {
      out := out + buf[kp.start..kp.end + kp.remain];
    } else {
      out := out + buf[kp.start..kp.end];
      out := out + CRLF;
    }
  }

  lemma FillTextCons(buf: Text, mset: bool, keys: seq<KeyPos>, prev: Text, before: Text, entry: Text, num: Text)
    requires keys != [] && Inside(buf, mset, keys) && Inside(buf, mset, [keys[0]])
    requires num == NumText(prev, KeyLength(keys[0])) && entry == EntryText(buf, mset, keys[0], num)
    ensures Inside(buf, mset, keys[1..])
    ensures (before + entry) + FillText(buf, mset, keys[1..], num) == before + FillText(buf, mset, keys, prev)
  {
    assert Inside(buf, mset, keys[1..]);
    Associative(before, entry, FillText(buf, mset, keys[1..], num));
  }

  lemma NameBulks()
    ensures CRLF + Bulk(MGET_NAME) == [13, 10, 36, 52, 13, 10, 109, 103, 101, 116, 13, 10]
    ensures CRLF + Bulk(DEL_NAME) == [13, 10, 36, 51, 13, 10, 100, 101, 108, 13, 10]
    ensures CRLF + Bulk(MSET_NAME) == [13, 10, 36, 52, 13, 10, 109, 115, 101, 116, 13, 10]
  {
  }

  lemma HeaderSplits(ctype: Command, narg: nat)
    ensures HeaderText(ctype, narg) == [STAR] + Digits(narg) + (CRLF + Bulk(NameOf(ctype)))
  {
  }

  /** The size and the header of one sub-command: the three branches of the second pass. The
      literal bytes are those of "mget", "del" and "mset" with their length headers. */
  method SizeAndHeader(ctype: Command, sub: SubCommand, numStr: array<Byte>)
    returns (narg: nat, clen: nat, header: Text)
    requires ctype in {MGET, DEL, MSET} && sub.narg == |sub.keys| && 0 < ArgCount(ctype, sub.narg) <= INT_MAX
    requires numStr.Length == 12
    modifies numStr
    ensures narg == ArgCount(ctype, sub.narg) && header == HeaderText(ctype, narg)
    ensures clen == sub.clen + (if ctype == MSET then 3 else 5) * sub.narg + |header|
    ensures CString(numStr[..]) == Digits(narg)
  {
    NameBulks();
    HeaderSplits(ctype, ArgCount(ctype, sub.narg));
    narg, clen := sub.narg, sub.clen;
    if ctype == MGET {
      clen := clen + 5 * narg;
      narg := narg + 1;
      var num := PrintNumber(numStr, narg, CString(numStr[..]));
      clen := clen + 13 + |num|;
      header := [STAR] + num + [13, 10, 36, 52, 13, 10, 109, 103, 101, 116, 13, 10];
    } else if ctype == DEL {
      clen := clen + 5 * narg;
      narg := narg + 1;
      var num := PrintNumber(numStr, narg, CString(numStr[..]));
      clen := clen + 12 + |num|;
      header := [STAR] + num + [13, 10, 36, 51, 13, 10, 100, 101, 108, 13, 10];
    } else {
      clen := clen + 3 * narg;
      narg := narg * 2;
      narg := narg + 1;
      var num := PrintNumber(numStr, narg, CString(numStr[..]));
      clen := clen + 13 + |num|;
      header := [STAR] + num + [13, 10, 36, 52, 13, 10, 109, 115, 101, 116, 13, 10];
    }
  }

  method Serialise(buf: Text, ctype: Command, sub: SubCommand, numStr: array<Byte>, ghost keys: seq<KeyPos>, ghost s: nat)
    returns (sub': SubCommand)
    requires ctype in {MGET, DEL, MSET} && numStr.Length == 12 && |buf| <= INT_MAX
    requires Ordered(keys) && sub == Grouped(keys, s) && 0 < ArgCount(ctype, |keys|) <= INT_MAX
    requires Inside(buf, ctype == MSET, keys)
    modifies numStr
    ensures sub' == Serialised(buf, ctype, keys, s)
  {
    var narg, clen, header := SizeAndHeader(ctype, sub, numStr);
    var cmd := FillKeys(buf, ctype == MSET, sub.keys, header, numStr, CString(numStr[..]));
    sub' := SubCommand(ctype, sub.keys, narg, clen, sub.slot, cmd);
  }

  /** The list of finished sub-commands for the slots below `n`, in slot order. */
  function Commands(buf: Text, ctype: Command, slots: seq<nat>, positions: seq<KeyPos>, n: nat): seq<SubCommand>
    requires |slots| == |positions| && Sound(buf, ctype, positions)
  {
    if n == 0 then []
    else
      var keys := OfSlot(slots, positions, |slots|, n - 1);
      SelectedSound(buf, ctype, slots, positions, |slots|, n - 1);
      Commands(buf, ctype, slots, positions, n - 1)
        + if keys == [] then [] else [Serialised(buf, ctype, keys, n - 1)]
  }

  predicate Sound(buf: Text, ctype: Command, positions: seq<KeyPos>) {
    Ordered(positions) && Inside(buf, ctype == MSET, positions)
  }

  lemma {:induction false} SelectedSound(buf: Text, ctype: Command, slots: seq<nat>, positions: seq<KeyPos>, n: nat, s: nat)
    requires n <= |slots| == |positions| && Sound(buf, ctype, positions)
    ensures Sound(buf, ctype, OfSlot(slots, positions, n, s)) && |OfSlot(slots, positions, n, s)| <= n
  {
    if n > 0 { SelectedSound(buf, ctype, slots, positions, n - 1, s); }
  }

  lemma PositionsSound(buf: Text, ctype: Command, spans: seq<Span>, items: seq<Item>)
    requires AllHold(buf, ctype == MSET, spans, items)
    ensures Sound(buf, ctype, Positions(ctype == MSET, spans, items))
  {
    forall i | 0 <= i < |spans|
      ensures var p := Position(ctype == MSET, spans[i], items[i]);
        p.start <= p.end && p.end + (if ctype == MSET then p.remain else 0) <= |buf|
    {
      assert Holds(buf, ctype == MSET, spans[i], items[i]);
    }
  }

  /** Keys that hold are readable, and the scan notes what they hold. */
  lemma HoldingIsReadable(buf: Text, ctype: Command, spans: seq<Span>, items: seq<Item>, slot: SlotOf)
    requires |buf| <= INT_MAX && AllHold(buf, ctype == MSET, spans, items)
    ensures AllReadable(buf, ctype == MSET, spans)
    ensures NotedAll(buf, ctype == MSET, spans) == Positions(ctype == MSET, spans, items)
    ensures KeySlots(buf, spans, slot) == SlotsOf(slot, items)
  {
    forall i | 0 <= i < |spans|
      ensures Readable(buf, ctype == MSET, spans[i])
      ensures Noted(buf, ctype == MSET, spans[i]) == Position(ctype == MSET, spans[i], items[i])
      ensures buf[spans[i].start..spans[i].end] == items[i].key
    {
      assert Holds(buf, ctype == MSET, spans[i], items[i]);
      if ctype == MSET { TailIsScanned(buf, spans[i].end, items[i]); }
    }
  }

  function NotedAll(buf: Text, mset: bool, spans: seq<Span>): (ps: seq<KeyPos>)
    requires AllReadable(buf, mset, spans)
    ensures |ps| == |spans| && forall i :: 0 <= i < |ps| ==> ps[i] == Noted(buf, mset, spans[i])
  {
    seq(|spans|, i requires 0 <= i < |spans| => Noted(buf, mset, spans[i]))
  }

  function KeySlots(buf: Text, spans: seq<Span>, slot: SlotOf): (ss: seq<nat>)
    requires forall i :: 0 <= i < |spans| ==> spans[i].start <= spans[i].end <= |buf|
    ensures |ss| == |spans| && forall i :: 0 <= i < |ss| ==> ss[i] == slot(buf[spans[i].start..spans[i].end])
  {
    seq<nat>(|spans|, (i: nat) requires i < |spans| => slot(buf[spans[i].start..spans[i].end]))
  }

  lemma NotedSound(buf: Text, ctype: Command, spans: seq<Span>)
    requires AllReadable(buf, ctype == MSET, spans)
    ensures Sound(buf, ctype, NotedAll(buf, ctype == MSET, spans))
  {
    forall i | 0 <= i < |spans|
      ensures var p := Noted(buf, ctype == MSET, spans[i]);
        p.start <= p.end && p.end + (if ctype == MSET then p.remain else 0) <= |buf|
    {
      assert Readable(buf, ctype == MSET, spans[i]);
    }
  }

  /** The second pass. */
  method SerialiseAll(buf: Text, ctype: Command, subs: map<nat, SubCommand>, ghost slots: seq<nat>, ghost positions: seq<KeyPos>)
    returns (commands: seq<SubCommand>)
    requires ctype in {MGET, DEL, MSET} && |buf| <= INT_MAX && |slots| == |positions| && 2 * |slots| < INT_MAX
    requires Sound(buf, ctype, positions) && GroupedTo(subs, slots, positions, |slots|)
    ensures commands == Commands(buf, ctype, slots, positions, SLOTS)
  {
    var numStr := new Byte[12];
    commands := [];
    var i := 0;
    while i < SLOTS
      invariant 0 <= i <= SLOTS && commands == Commands(buf, ctype, slots, positions, i)
    {
      ghost var keys := OfSlot(slots, positions, |slots|, i);
      SelectedSound(buf, ctype, slots, positions, |slots|, i);
      assert SlotGrouped(subs, i, keys);
      if i in subs {
        var sub := Serialise(buf, ctype, subs[i], numStr, keys, i);
        commands := commands + [sub];
      }
      i := i + 1;
    }
  }

  method SplitKeys(buf: Text, ctype: Command, spans: seq<Span>, slot: SlotOf, ghost slots: seq<nat>, ghost positions: seq<KeyPos>)
    returns (slotNum: nat, commands: seq<SubCommand>, fragSeq: seq<nat>)
    requires SlotsBelow(slot) && ctype in {MGET, DEL, MSET} && |buf| <= INT_MAX
    requires spans != [] && 2 * |spans| < INT_MAX && AllReadable(buf, ctype == MSET, spans)
    requires KeysAre(buf, ctype == MSET, spans, slot, slots, positions) && Sound(buf, ctype, positions)
    ensures (forall i :: 0 <= i < |slots| ==> slots[i] < SLOTS) && slotNum == slots[|slots| - 1]
    ensures Fragmented(Commands(buf, ctype, slots, positions, SLOTS), slots, commands, fragSeq)
  {
    var subs;
    subs, fragSeq := GroupKeys(buf, ctype == MSET, spans, slot, slots, positions);
    slotNum := fragSeq[|fragSeq| - 1];
    commands := SerialiseAll(buf, ctype, subs, slots, positions);
    if |commands| == 1 {
      commands, fragSeq := [], [];
    }
  }

  /** When all keys share one slot no sub-command is left. */
  predicate Fragmented(all: seq<SubCommand>, slots: seq<nat>, commands: seq<SubCommand>, fragSeq: seq<nat>) {
    if |all| == 1 then commands == [] && fragSeq == [] else commands == all && fragSeq == slots
  }

  /** `command_pre_fragment`: the sub-commands in slot order and the slot of every key; when
      all keys share one slot no sub-command is left and the command itself is sent. */
  method PreFragment(buf: Text, ctype: Command, spans: seq<Span>, slot: SlotOf)
    returns (slotNum: nat, commands: seq<SubCommand>, fragSeq: seq<nat>)
    requires SlotsBelow(slot) && ctype in {MGET, DEL, MSET} && |buf| <= INT_MAX
    requires spans != [] && 2 * |spans| < INT_MAX && AllReadable(buf, ctype == MSET, spans)
    ensures var slots, positions := KeySlots(buf, spans, slot), NotedAll(buf, ctype == MSET, spans);
      && (forall i :: 0 <= i < |slots| ==> slots[i] < SLOTS) && slotNum == slots[|slots| - 1]
      && Sound(buf, ctype, positions)
      && Fragmented(Commands(buf, ctype, slots, positions, SLOTS), slots, commands, fragSeq)
  {
    ghost var slots, positions := KeySlots(buf, spans, slot), NotedAll(buf, ctype == MSET, spans);
    NotedSound(buf, ctype, spans);
    slotNum, commands, fragSeq := SplitKeys(buf, ctype, spans, slot, slots, positions);
  }
}
