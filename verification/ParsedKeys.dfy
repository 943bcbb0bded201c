/** What the parser has read of an MSET is what the splitter finds when it scans the text again:
    behind every key of an accepted command with several keys lies the value's bulk string, and
    that is what is copied. */
module ParsedKeys {
  import opened Bytes
  import opened DecimalText
  import opened CommandTable
  import opened CommandGrammar
  import opened CommandLaws
  import opened CommandClasses
  import opened Fragments

  /** The digits of a header and its end. */
  lemma {:induction false} DigitsOfHeader(buf: Text, start: nat, p: nat, len: nat, role: Role, rnarg: nat) returns (q: nat)
    requires 0 < start <= p <= |buf| && AllDigits(buf[start..p]) && len == Value(buf[start..p]) % TWO32
    requires ReadDigits(buf, p, start - 1, len, role, rnarg).Header?
    ensures start <= q && q + 2 <= |buf| && AllDigits(buf[start..q]) && buf[q] == CR && buf[q + 1] == LF
    ensures var h := ReadDigits(buf, p, start - 1, len, role, rnarg);
      h.next == q + 2 && h.len == Value(buf[start..q]) % TWO32 && !BadLength(role, h.len, q - start, rnarg)
    decreases |buf| - p
  {
    if IsDigit(buf[p]) {
      NextScanned(buf, start, p);
      q := DigitsOfHeader(buf, start, p + 1, Push32(len, buf[p]), role, rnarg);
    } else {
      q := p;
    }
  }

  /** Where the parser finds the value behind a key. */
  function ValueSpan(buf: Text, key: Span): Span {
    match ReadHeader(buf, key.end + 2, Arg1Role, 1)
    case Header(len, next) => Span(next, next + len)
    case _ => key
  }

  predicate LineEndAt(buf: Text, p: nat) { p + 2 <= |buf| && buf[p] == CR && buf[p + 1] == LF }

  /** A key, its line end and the bulk string of a value with its line end. */
  predicate PairAt(buf: Text, key: Span, value: Span) {
    && key.start <= key.end && key.end + 5 < value.start <= value.end && value.end + 2 <= |buf|
    && LineEndAt(buf, key.end) && LineEndAt(buf, value.start - 2) && LineEndAt(buf, value.end)
    && buf[key.end + 2] == DOLLAR
    && var number := buf[key.end + 3..value.start - 2];
       AllDigits(number) && Value(number) % TWO32 == value.end - value.start
  }

  /** The parser reads a value behind the key, and the splitter's scan ends right behind it. */
  predicate PairFound(buf: Text, key: Span) {
    && ReadHeader(buf, key.end + 2, Arg1Role, 1).Header? && PairAt(buf, key, ValueSpan(buf, key))
    && Readable(buf, true, key) && key.end + TailLength(buf, key.end) == ValueSpan(buf, key).end + 2
  }

  predicate AllFound(buf: Text, keys: seq<Span>) {
    forall i :: 0 <= i < |keys| ==> PairFound(buf, keys[i])
  }

  /** How many bulk strings are still due does not matter as long as there is one. */
  lemma {:induction false} AnyCount(buf: Text, p: nat, token: nat, len: nat, role: Role, rnarg: nat)
    requires token < p && ReadDigits(buf, p, token, len, role, rnarg).Header?
    ensures ReadDigits(buf, p, token, len, role, 1) == ReadDigits(buf, p, token, len, role, rnarg)
    decreases |buf| - p
  {
    if p < |buf| && IsDigit(buf[p]) { AnyCount(buf, p + 1, token, Push32(len, buf[p]), role, rnarg); }
  }

  /** The value of an MSET pair as the parser reads it, two bytes behind its key. */
  lemma ValueFollows(buf: Text, key: Span, p: nat, c: Cmd)
    requires |buf| <= INT_MAX && key.start <= key.end && LineEndAt(buf, key.end) && p == key.end + 2
    requires c.ctype.Known? && Argument(buf, p, Arg1Role, c).Done?
    ensures PairFound(buf, key)
  {
    var value := ValueRead(buf, key, c);
    ValueSpanIs(buf, key, value, c.rnarg);
    PairIsFound(buf, key, value);
  }

  lemma ValueSpanIs(buf: Text, key: Span, value: Span, rnarg: nat)
    requires value.start <= value.end
    requires ReadHeader(buf, key.end + 2, Arg1Role, rnarg) == Header(value.end - value.start, value.start)
    ensures ReadHeader(buf, key.end + 2, Arg1Role, 1).Header? && ValueSpan(buf, key) == value
  {
    AnyCount(buf, key.end + 3, key.end + 2, 0, Arg1Role, rnarg);
  }

  lemma PairIsFound(buf: Text, key: Span, value: Span)
    requires |buf| <= INT_MAX && value == ValueSpan(buf, key) && PairAt(buf, key, value)
    requires ReadHeader(buf, key.end + 2, Arg1Role, 1).Header?
    ensures PairFound(buf, key)
  {
    PairScanned(buf, key, value);
  }

  /** A value that is read: some digits, and as many bytes as they say behind them. */
  lemma ValueRead(buf: Text, key: Span, c: Cmd) returns (value: Span)
    requires key.start <= key.end && LineEndAt(buf, key.end)
    requires c.ctype.Known? && Argument(buf, key.end + 2, Arg1Role, c).Done?
    ensures PairAt(buf, key, value)
    ensures ReadHeader(buf, key.end + 2, Arg1Role, c.rnarg) == Header(value.end - value.start, value.start)
  {
    var h := ReadHeader(buf, key.end + 2, Arg1Role, c.rnarg);
    var end := DataRead(buf, key.end + 2, h, c);
    ValueHeader(buf, key.end + 2, c.rnarg, h);
    value := Span(h.next, end);
  }

  lemma DataRead(buf: Text, p: nat, h: Header, c: Cmd) returns (end: nat)
    requires c.ctype.Known? && Argument(buf, p, Arg1Role, c).Done? && h == ReadHeader(buf, p, Arg1Role, c.rnarg)
    ensures h.Header? && end == h.next + h.len && LineEndAt(buf, end)
  {
    end := h.next + h.len;
    assert Data(buf, h.next, h.len, Arg1Role, c.(rnarg := c.rnarg - 1)).Done?;
  }

  lemma ValueHeader(buf: Text, p: nat, rnarg: nat, h: Header)
    requires h == ReadHeader(buf, p, Arg1Role, rnarg) && h.Header?
    ensures p + 3 < h.next <= |buf| && buf[p] == DOLLAR && LineEndAt(buf, h.next - 2)
    ensures AllDigits(buf[p + 1..h.next - 2]) && Value(buf[p + 1..h.next - 2]) % TWO32 == h.len
  {
    assert buf[p + 1..p + 1] == [];
    var q := DigitsOfHeader(buf, p + 1, p + 1, 0, Arg1Role, rnarg);
    assert q > p + 1;
  }

  /** The scan ends behind the value. */
  lemma PairScanned(buf: Text, key: Span, value: Span)
    requires |buf| <= INT_MAX && PairAt(buf, key, value)
    ensures Readable(buf, true, key) && key.end + TailLength(buf, key.end) == value.end + 2
  {
    ScanReads(buf, key.end, key.end + 3, value.start - 2, value.end - value.start);
  }

  /** All but the last key are found with their values; the last one has just been read. */
  predicate KeyJustRead(buf: Text, p: nat, keys: seq<Span>) {
    && keys != [] && AllFound(buf, keys[..|keys| - 1])
    && var last := keys[|keys| - 1];
       last.start <= last.end && last.end + 1 == p && last.end < |buf| && buf[last.end] == CR
  }

  /** At the line feed behind a bulk string: the keys whose values have been read are found. */
  predicate KeysSoFar(buf: Text, p: nat, role: Role, keys: seq<Span>) {
    match role
    case TypeRole => keys == []
    case KeyRole => KeyJustRead(buf, p, keys)
    case _ => AllFound(buf, keys)
  }

  /** An accepted command with several keys has all their values. */
  predicate FoundIn(buf: Text, out: Outcome) {
    out.Done? && |out.cmd.keys| > 1 ==> AllFound(buf, out.cmd.keys)
  }

  lemma {:induction false} FoundFrom(buf: Text, p: nat, role: Role, c: Cmd)
    requires |buf| <= INT_MAX && Balanced(role, c) && c.ctype.arity == ArgKvx && role in {TypeRole, KeyRole, Arg1Role}
    requires KeysSoFar(buf, p, role, c.keys)
    ensures FoundIn(buf, LineFeed(buf, p, role, c))
    decreases |buf| - p, 1
  {
    if p < |buf| && buf[p] == LF {
      match Decide(role, c.ctype.arity, c.rnarg, c.narg)
      case Continue(role') =>
        assert LineFeed(buf, p, role, c) == Argument(buf, p + 1, role', c);
        KeyThenValue(role, c, role');
        if Argument(buf, p + 1, role', c).Done? {
          if role == KeyRole { FoundPastValue(buf, p, c); } else { FoundPastKey(buf, p, role, c); }
        }
      case _ =>
    }
  }

  lemma KeyThenValue(role: Role, c: Cmd, role': Role)
    requires c.ctype.Known? && c.ctype.arity == ArgKvx && role in {TypeRole, KeyRole, Arg1Role}
    requires Decide(role, c.ctype.arity, c.rnarg, c.narg) == Continue(role')
    ensures role' == if role == KeyRole then Arg1Role else KeyRole
  {
  }

  /** A value is read. */
  lemma {:induction false} FoundPastValue(buf: Text, p: nat, c: Cmd)
    requires |buf| <= INT_MAX && Balanced(KeyRole, c) && c.ctype.arity == ArgKvx
    requires KeyJustRead(buf, p, c.keys) && p < |buf| && buf[p] == LF
    requires Decide(KeyRole, c.ctype.arity, c.rnarg, c.narg) == Continue(Arg1Role) && Argument(buf, p + 1, Arg1Role, c).Done?
    ensures FoundIn(buf, Argument(buf, p + 1, Arg1Role, c))
    decreases |buf| - p, 0
  {
    var q, c', start := KeyArgumentRead(buf, p + 1, Arg1Role, c);
    var front, last := LastKey(buf, p, c.keys);
    ValueTaken(buf, p + 1, c, front, last);
    BalancedStep(KeyRole, c, Arg1Role, c');
    FoundFrom(buf, q, Arg1Role, c');
  }

  /** A key is read. */
  lemma {:induction false} FoundPastKey(buf: Text, p: nat, role: Role, c: Cmd)
    requires |buf| <= INT_MAX && Balanced(role, c) && c.ctype.arity == ArgKvx && role in {TypeRole, Arg1Role}
    requires AllFound(buf, c.keys) && p < |buf|
    requires Decide(role, c.ctype.arity, c.rnarg, c.narg) == Continue(KeyRole) && Argument(buf, p + 1, KeyRole, c).Done?
    ensures FoundIn(buf, Argument(buf, p + 1, KeyRole, c))
    decreases |buf| - p, 0
  {
    var q, c', start := KeyArgumentRead(buf, p + 1, KeyRole, c);
    KeyTaken(buf, q, c.keys, Span(start, q - 1), c'.keys);
    BalancedStep(role, c, KeyRole, c');
    FoundFrom(buf, q, KeyRole, c');
  }

  lemma LastKey(buf: Text, p: nat, keys: seq<Span>) returns (front: seq<Span>, last: Span)
    requires KeyJustRead(buf, p, keys) && p < |buf| && buf[p] == LF
    ensures keys == front + [last] && AllFound(buf, front)
    ensures last.start <= last.end && p + 1 == last.end + 2 && LineEndAt(buf, last.end)
  {
    front, last := keys[..|keys| - 1], keys[|keys| - 1];
  }

  lemma ValueTaken(buf: Text, p: nat, c: Cmd, front: seq<Span>, last: Span)
    requires |buf| <= INT_MAX && c.ctype.Known? && Argument(buf, p, Arg1Role, c).Done?
    requires last.start <= last.end && p == last.end + 2 && LineEndAt(buf, last.end)
    requires AllFound(buf, front) && c.keys == front + [last]
    ensures AllFound(buf, c.keys)
  {
    ValueFollows(buf, last, p, c);
    AllFoundSnoc(buf, front, last);
  }

  lemma KeyTaken(buf: Text, q: nat, keys: seq<Span>, key: Span, all: seq<Span>)
    requires AllFound(buf, keys) && all == keys + [key]
    requires key.start <= key.end && key.end + 1 == q <= |buf| && buf[key.end] == CR
    ensures KeyJustRead(buf, q, all)
  {
    assert all[..|all| - 1] == keys;
  }

  lemma AllFoundSnoc(buf: Text, keys: seq<Span>, last: Span)
    requires AllFound(buf, keys) && PairFound(buf, last)
    ensures AllFound(buf, keys + [last])
  {
  }

  /** An argument that leads to `done`, with the span recorded for a key. */
  lemma KeyArgumentRead(buf: Text, p: nat, role: Role, c: Cmd) returns (q: nat, c': Cmd, start: nat)
    requires c.ctype.Known? && Argument(buf, p, role, c).Done?
    ensures q >= p + 4 && c.rnarg > 0 && c'.(keys := c.keys) == c.(rnarg := c.rnarg - 1)
    ensures LineFeed(buf, q, role, c') == Argument(buf, p, role, c)
    ensures start < q <= |buf| && buf[q - 1] == CR && c'.keys == c.keys + if role == KeyRole then [Span(start, q - 1)] else []
  {
    var more;
    more, q, c', start := ArgumentTaken(buf, p, role, c);
    assert Argument(buf, p, role, c) != RanOut(c.ctype, c.keys);
  }

  /** An argument that is not refused is read to its line feed, or the text ends before. */
  lemma ArgumentTaken(buf: Text, p: nat, role: Role, c: Cmd) returns (more: bool, q: nat, c': Cmd, start: nat)
    requires c.ctype.Known? && !Argument(buf, p, role, c).Failed?
    ensures !more ==> Argument(buf, p, role, c) == RanOut(c.ctype, c.keys)
    ensures more ==> p + 4 <= q <= |buf| && c.rnarg > 0 && c'.(keys := c.keys) == c.(rnarg := c.rnarg - 1)
    ensures more ==> LineFeed(buf, q, role, c') == Argument(buf, p, role, c)
    ensures more ==> start < q && buf[q - 1] == CR && c'.keys == c.keys + if role == KeyRole then [Span(start, q - 1)] else []
  {
    var h := ReadHeader(buf, p, role, c.rnarg);
    more, q, c', start := h.Header? && h.next < |buf|, 0, c, 0;
    if more {
      assert buf[p + 1..p + 1] == [];
      var digitsEnd := DigitsOfHeader(buf, p + 1, p + 1, 0, role, c.rnarg);
      start := h.next;
      q := h.next + h.len + 1;
      c' := c.(rnarg := c.rnarg - 1);
      if role == KeyRole { c' := c'.(keys := c.keys + [Span(h.next, h.next + h.len)]); }
      assert Argument(buf, p, role, c) == Data(buf, h.next, h.len, role, c.(rnarg := c.rnarg - 1));
    } else {
      var c1 := if c.rnarg > 0 then c.(rnarg := c.rnarg - 1) else c;
      assert Argument(buf, p, role, c) == AfterHeader(buf, p, h, role, c1);
      assert h.Header? ==> AfterHeader(buf, p, h, role, c1) == Data(buf, h.next, h.len, role, c1);
    }
  }

  /** What parsing leaves behind when it does not refuse the text: several keys belong to a vector
      command, and each has taken five bytes. */
  predicate Kept(buf: Text, ctype: Command, out: Outcome) {
    !out.Failed? ==>
      && TypeIn(out) == ctype && 5 * |KeysIn(out)| <= |buf|
      && (|KeysIn(out)| > 1 ==> ctype.Known? && ctype.arity in {ArgX, ArgKvx})
  }

  lemma {:induction false} KeptFrom(buf: Text, p: nat, role: Role, c: Cmd)
    requires Balanced(role, c) && 5 * |c.keys| <= p <= |buf|
    ensures Kept(buf, c.ctype, LineFeed(buf, p, role, c))
    decreases |buf| - p
  {
    if p < |buf| && buf[p] == LF {
      match Decide(role, c.ctype.arity, c.rnarg, c.narg)
      case Continue(role') =>
        assert LineFeed(buf, p, role, c) == Argument(buf, p + 1, role', c);
        if !Argument(buf, p + 1, role', c).Failed? {
          var more, q, c', start := ArgumentTaken(buf, p + 1, role', c);
          if more {
            BalancedStep(role, c, role', c');
            KeptFrom(buf, q, role', c');
          }
        }
      case _ =>
    }
  }

  /** What the splitter is promised. */
  predicate Promising(buf: Text, out: Outcome) {
    !out.Failed? && |KeysIn(out)| > 1 ==>
      && TypeIn(out) in {MGET, DEL, MSET} && 5 * |KeysIn(out)| <= |buf|
      && (out.Done? && TypeIn(out) == MSET ==> AllFound(buf, KeysIn(out)))
  }

  /** A table without other vector commands. */
  ghost predicate VectorTable(table: Table) {
    forall n: nat, m: Text :: OnlyVectors(FindIn(table(n), m, 0))
  }

  lemma {:induction false} PromisedFromCount(table: Table, buf: Text, p: nat, n: nat)
    requires |buf| <= INT_MAX && VectorTable(table)
    ensures Promising(buf, Count(table, buf, p, n))
    decreases |buf| - p
  {
    if p < |buf| && IsDigit(buf[p]) {
      PromisedFromCount(table, buf, p + 1, Push32(n, buf[p]));
    } else if p + 1 < |buf| && buf[p] == CR && n > 0 && buf[p + 1] == LF {
      PromisedFromHeader(table, buf, ReadHeader(buf, p + 2, TypeRole, n), n);
    }
  }

  lemma PromisedFromHeader(table: Table, buf: Text, h: Header, n: nat)
    requires |buf| <= INT_MAX && n > 0 && VectorTable(table) && (h.Header? ==> h.next <= |buf|)
    ensures Promising(buf, AfterNameHeader(table, buf, h, n, n - 1))
  {
    if h.Header? && h.next + h.len < |buf| {
      PromisedFromName(buf, h.next + h.len + 1, FindIn(table(h.len), buf[h.next..h.next + h.len], 0), n);
    }
  }

  lemma PromisedFromName(buf: Text, p: nat, ctype: Command, n: nat)
    requires |buf| <= INT_MAX && n > 0 && OnlyVectors(ctype) && p <= |buf|
    ensures Promising(buf, NameFound(buf, p, ctype, n, n - 1))
  {
    if ctype.Known? {
      var c := Cmd(ctype, n, n - 1, []);
      KeptFrom(buf, p, TypeRole, c);
      if ctype.arity == ArgKvx { FoundFrom(buf, p, TypeRole, c); }
    }
  }

  /** Only MGET, DEL and MSET come out of parsing with several keys, cut short or not. Behind every
      key of an accepted MSET the scan ends where the value ends that the parser has read. */
  lemma SeveralKeysSplit(buf: Text)
    requires |buf| <= INT_MAX && |KeysIn(Parse(buf))| > 1
    ensures var out := Parse(buf);
      && TypeIn(out) in {MGET, DEL, MSET} && 5 * |KeysIn(out)| <= |buf|
      && (out.Done? && TypeIn(out) == MSET ==> AllFound(buf, KeysIn(out)))
  {
    forall n: nat, m: Text ensures OnlyVectors(FindIn(CommandsOfLength(n), m, 0)) { FoundVectors(n, m); }
    PromisedFromCount(CommandsOfLength, buf, 1, 0);
  }

  /** What is copied for a key: the key and, with its line ends and its length as it is spelt, the
      value that the parser has read. */
  predicate Copied(buf: Text, key: Span) {
    && PairFound(buf, key) && Inside(buf, true, [Noted(buf, true, key)])
    && var value := ValueSpan(buf, key);
       Payload(buf, true, Noted(buf, true, key)) == buf[key.start..key.end]
         + (CRLF + [DOLLAR] + buf[key.end + 3..value.start - 2] + CRLF) + buf[value.start..value.end] + CRLF
  }

  lemma PairCopied(buf: Text, key: Span)
    requires PairFound(buf, key)
    ensures Copied(buf, key)
  {
    PayloadIs(buf, Noted(buf, true, key), ValueSpan(buf, key).end + 2);
    PairCut(buf, key, ValueSpan(buf, key));
  }

  lemma PayloadIs(buf: Text, kp: KeyPos, end: nat)
    requires kp.start <= kp.end && kp.end + kp.remain == end <= |buf|
    ensures Inside(buf, true, [kp]) && Payload(buf, true, kp) == buf[kp.start..end]
  {
    assert [kp][0] == kp;
  }

  lemma LineEndIs(buf: Text, p: nat)
    requires LineEndAt(buf, p)
    ensures buf[p..p + 2] == CRLF
  {
  }

  lemma PairCut(buf: Text, key: Span, value: Span)
    requires PairAt(buf, key, value)
    ensures buf[key.start..value.end + 2] == buf[key.start..key.end]
      + (CRLF + [DOLLAR] + buf[key.end + 3..value.start - 2] + CRLF) + buf[value.start..value.end] + CRLF
  {
    HeaderCut(buf, key.end, value.start - 2);
    LineEndIs(buf, value.end);
    PairJoined(buf, key, CRLF + [DOLLAR] + buf[key.end + 3..value.start - 2] + CRLF, value);
  }

  lemma PairJoined(buf: Text, key: Span, header: Text, value: Span)
    requires key.start <= key.end <= value.start <= value.end && value.end + 2 <= |buf|
    requires buf[key.end..value.start] == header && buf[value.end..value.end + 2] == CRLF
    ensures buf[key.start..value.end + 2] == buf[key.start..key.end] + header + buf[value.start..value.end] + CRLF
  {
    var k, v := buf[key.start..key.end], buf[value.start..value.end];
    Adjacent(buf, key.start, key.end, value.start, k, header);
    Adjacent(buf, key.start, value.start, value.end, k + header, v);
    Adjacent(buf, key.start, value.end, value.end + 2, k + header + v, CRLF);
  }

  lemma HeaderCut(buf: Text, e: nat, n: nat)
    requires e + 3 <= n && LineEndAt(buf, e) && LineEndAt(buf, n) && buf[e + 2] == DOLLAR
    ensures buf[e..n + 2] == CRLF + [DOLLAR] + buf[e + 3..n] + CRLF
  {
    LineEndIs(buf, e);
    Adjacent(buf, e, e + 2, e + 3, CRLF, [DOLLAR]);
    Adjacent(buf, e, e + 3, n, CRLF + [DOLLAR], buf[e + 3..n]);
    LineEndIs(buf, n);
    Adjacent(buf, e, n, n + 2, CRLF + [DOLLAR] + buf[e + 3..n], CRLF);
  }

  /** For every accepted MSET with several keys, whatever the spelling of its lengths. */
  lemma AcceptedPairsCopied(buf: Text)
    requires |buf| <= INT_MAX && Parse(buf).Done? && Parse(buf).cmd.ctype == MSET && |Parse(buf).cmd.keys| > 1
    ensures forall i :: 0 <= i < |Parse(buf).cmd.keys| ==> Copied(buf, Parse(buf).cmd.keys[i])
  {
    SeveralKeysSplit(buf);
    var keys := Parse(buf).cmd.keys;
    assert AllFound(buf, keys);
    forall i | 0 <= i < |keys| ensures Copied(buf, keys[i]) {
      assert PairFound(buf, keys[i]);
      PairCopied(buf, keys[i]);
    }
  }
}
