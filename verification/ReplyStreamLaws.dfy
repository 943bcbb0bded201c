/** The two laws of the reply reader: chunk boundaries do not matter, and reading undoes
    encoding at any nesting depth. */
module ReplyStreamLaws {
  import opened Bytes
  import opened DecimalText
  import opened Resp
  import opened Replies
  import opened ReplyStream

  // ---------- chunk independence ----------

  lemma {:induction false} NewlineStays(s: Text, x: Text)
    requires SeekNewline(s).Some?
    ensures SeekNewline(s + x) == SeekNewline(s)
    ensures SeekNewline(s).value + 2 <= |s|
  {
    if !(s[0] == CR && s[1] == LF) {
      NewlineStays(s[1..], x);
      assert (s + x)[1..] == s[1..] + x;
    }
  }

  /** Bytes that arrive later do not change an item that has been decided. */
  lemma ItemStays(cfg: Config, t: Type, s: Text, x: Text)
    requires ReadItem(cfg, t, s) != NeedMore
    ensures ReadItem(cfg, t, s + x) == ReadItem(cfg, t, s)
  {
    NewlineStays(s, x);
    var i := SeekNewline(s).value;
    assert (s + x)[..i] == s[..i];
    if t == StringType || t == VerbatimType { BulkStays(t, s, x, i); }
  }

  lemma SliceStays(s: Text, x: Text, a: nat, b: nat)
    requires a <= b <= |s|
    ensures (s + x)[a..b] == s[a..b]
  {
  }

  lemma BulkStays(t: Type, s: Text, x: Text, i: nat)
    requires i + 2 <= |s| && BulkItem(t, s, i) != NeedMore
    ensures BulkItem(t, s + x, i) == BulkItem(t, s, i)
  {
    SliceStays(s, x, 0, i);
    if Int64Of(s[..i]).Some? && Int64Of(s[..i]).value >= 0 {
      var len := Int64Of(s[..i]).value;
      assert i + 2 + len + 2 <= |s|;
      SliceStays(s, x, i + 2, i + 2 + len);
      if len >= 4 {
        SliceStays(s, x, i + 2, i + 5);
        SliceStays(s, x, i + 6, i + 2 + len);
      }
    }
  }

  function Extend(out: Outcome, cfg: Config, x: Text): Outcome {
    match out
    case Complete(reply, unread) => Complete(reply, unread + x)
    case Failed => Failed
    case Stuck(frames, pending, unread) => Advance(cfg, frames, pending, unread + x)
  }

  /** Reading on after more bytes have arrived comes to the same as having had them all along,
      wherever the cut falls: inside a line, inside a bulk string or right behind a type byte. */
  lemma {:induction false} AdvanceExtends(cfg: Config, frames: Frames, pending: Option<Type>, s: Text, x: Text)
    ensures Advance(cfg, frames, pending, s + x) == Extend(Advance(cfg, frames, pending, s), cfg, x)
    decreases |s|
  {
    match pending
    case None =>
      if s == [] {
        assert s + x == x;
      } else if TypeOf(s[0]).Some? {
        assert (s + x)[1..] == s[1..] + x;
        AdvanceExtends(cfg, frames, TypeOf(s[0]), s[1..], x);
      }
    case Some(t) =>
      ItemUses(cfg, t, s);
      var item := ReadItem(cfg, t, s);
      if item != NeedMore {
        ItemStays(cfg, t, s, x);
        if item.Open? {
          assert (s + x)[item.used..] == s[item.used..] + x;
          AdvanceExtends(cfg, Within(frames, item.kind, item.total, []), None, s[item.used..], x);
        } else if item.Leaf? {
          assert (s + x)[item.used..] == s[item.used..] + x;
          if Deliver(frames, item.reply).Inside? {
            AdvanceExtends(cfg, Deliver(frames, item.reply).frames, None, s[item.used..], x);
          }
        }
      }
  }

  lemma SameReplySameDrain(cfg: Config, a: Session, b: Session)
    requires GetReply(cfg, a) == GetReply(cfg, b)
    ensures Drain(cfg, a) == Drain(cfg, b)
  {
    CompleteShrinks(cfg, a.frames, a.pending, a.unread);
    CompleteShrinks(cfg, b.frames, b.pending, b.unread);
  }

  lemma {:induction false} DrainExtends(cfg: Config, s: Session, x: Text)
    ensures var (mid, first) := Drain(cfg, s);
      var (end, rest) := Drain(cfg, Feed(mid, x));
      Drain(cfg, Feed(s, x)) == (end, first + rest)
    decreases |s.unread|
  {
    CompleteShrinks(cfg, s.frames, s.pending, s.unread);
    var (s', reply) := GetReply(cfg, s);
    AdvanceExtends(cfg, s.frames, s.pending, s.unread, x);
    if reply.None? {
      var rest := Drain(cfg, Feed(s', x)).1;
      assert [] + rest == rest;
      SameReplySameDrain(cfg, Feed(s, x), Feed(s', x));
    } else {
      DrainExtends(cfg, s', x);
      DrainCons(cfg, Feed(s, x), Feed(s', x), reply.value);
      var first', rest := Drain(cfg, s').1, Drain(cfg, Feed(Drain(cfg, s').0, x)).1;
      assert [reply.value] + (first' + rest) == ([reply.value] + first') + rest;
    }
  }

  lemma DrainCons(cfg: Config, s: Session, s': Session, reply: Reply)
    requires GetReply(cfg, s) == (s', Some(reply))
    ensures Drain(cfg, s) == (Drain(cfg, s').0, [reply] + Drain(cfg, s').1)
  {
    CompleteShrinks(cfg, s.frames, s.pending, s.unread);
  }

  /** A drained session has nothing more to give. */
  lemma {:induction false} DrainTwice(cfg: Config, s: Session)
    ensures Drain(cfg, Drain(cfg, s).0) == (Drain(cfg, s).0, [])
    decreases |s.unread|
  {
    CompleteShrinks(cfg, s.frames, s.pending, s.unread);
    var (s', reply) := GetReply(cfg, s);
    if reply.None? {
      StuckTwice(cfg, s.frames, s.pending, s.unread);
    } else {
      DrainTwice(cfg, s');
    }
  }

  lemma {:induction false} StuckTwice(cfg: Config, frames: Frames, pending: Option<Type>, s: Text)
    ensures var out := Advance(cfg, frames, pending, s);
      out.Stuck? ==> Advance(cfg, out.frames, out.pending, out.unread) == out
  {
    AdvanceExtends(cfg, frames, pending, s, []);
    assert s + [] == s;
    var out := Advance(cfg, frames, pending, s);
    if out.Stuck? { assert out.unread + [] == out.unread; }
  }

  /** Chunk independence: however a byte stream is cut, feeding the chunks one by one and
      draining after each gives the same replies in the same order, the same error and the same
      final state as feeding it all at once. */
  lemma {:induction false} ChunkIndependence(cfg: Config, s: Session, chunks: seq<Text>)
    ensures var (mid, first) := Drain(cfg, s);
      var (end, rest) := Run(cfg, mid, chunks);
      Drain(cfg, Feed(s, Concat(chunks))) == (end, first + rest)
    decreases |chunks|
  {
    var mid, first := Drain(cfg, s).0, Drain(cfg, s).1;
    if chunks == [] {
      FeedNothing(s);
      assert first + [] == first;
    } else {
      FeedTwice(s, chunks[0], Concat(chunks[1..]));
      ChunkIndependence(cfg, Feed(s, chunks[0]), chunks[1..]);
      FirstChunk(cfg, s, chunks[0], chunks[1..]);
    }
  }

  lemma FirstChunk(cfg: Config, s: Session, chunk: Text, chunks: seq<Text>)
    ensures var mid, more := Drain(cfg, Feed(s, chunk)).0, Drain(cfg, Feed(s, chunk)).1;
      (Run(cfg, mid, chunks).0, more + Run(cfg, mid, chunks).1)
        == (Run(cfg, Drain(cfg, s).0, [chunk] + chunks).0, Drain(cfg, s).1 + Run(cfg, Drain(cfg, s).0, [chunk] + chunks).1)
  {
    DrainExtends(cfg, s, chunk);
    var mid := Drain(cfg, s).0;
    var fed := Drain(cfg, Feed(mid, chunk));
    assert ([chunk] + chunks)[1..] == chunks;
    Associative(Drain(cfg, s).1, fed.1, Run(cfg, fed.0, chunks).1);
  }

  lemma FeedNothing(s: Session)
    ensures Feed(s, []) == s
  {
    assert s.unread + [] == s.unread;
  }

  lemma FeedTwice(s: Session, a: Text, b: Text)
    ensures Feed(Feed(s, a), b) == Feed(s, a + b)
  {
    assert s.unread + (a + b) == (s.unread + a) + b;
  }

  lemma ChunksFromTheStart(cfg: Config, chunks: seq<Text>)
    ensures Run(cfg, FRESH, chunks) == Drain(cfg, Feed(FRESH, Concat(chunks)))
  {
    ChunkIndependence(cfg, FRESH, chunks);
    assert Drain(cfg, FRESH) == (FRESH, []);
    var rest := Run(cfg, FRESH, chunks).1;
    assert [] + rest == rest;
  }

  // ---------- reading undoes encoding ----------

  function KindByte(kind: Kind): Byte {
    match kind
    case ArrayKind => STAR
    case MapKind => PERCENT
    case SetKind => TILDE
    case PushKind => GREATER
  }

  /** The element count written for an aggregate; maps count pairs. */
  function CountOf(kind: Kind, elements: seq<Reply>): nat {
    if kind == MapKind then |elements| / 2 else |elements|
  }

  /** The protocol text of a reply. */
  function Encode(r: Reply): Text
    decreases r, 1
  {
    match r
    case Status(text) => [PLUS] + text + CRLF
    case Error(text) => [MINUS] + text + CRLF
    case Integer(v) => [COLON] + IntText(v) + CRLF
    case Nil => [DOLLAR] + IntText(-1) + CRLF
    case Bool(truth) => [HASH] + [if truth then 116 else 102] + CRLF
    case Double(text) => [COMMA] + text + CRLF
    case BigNumber(text) => [LEFT_PAREN] + text + CRLF
    case Str(text) => [DOLLAR] + IntText(|text|) + CRLF + (text + CRLF)
    case Verbatim(vtype, text) => [EQUALS] + IntText(|text| + 4) + CRLF + (vtype + [COLON] + text + CRLF)
    case Aggregate(kind, elements) => [KindByte(kind)] + IntText(CountOf(kind, elements)) + CRLF + EncodeAll(elements)
  }

  function EncodeAll(rs: seq<Reply>): Text
    decreases rs, 0
  {
    if rs == [] then [] else Encode(rs[0]) + EncodeAll(rs[1..])
  }

  predicate NoNewline(s: Text) {
    forall i :: 0 <= i < |s| - 1 ==> s[i] != CR || s[i + 1] != LF
  }

  /** The replies a server can send to this reader. */
  predicate Encodable(cfg: Config, r: Reply)
    decreases r, 1
  {
    match r
    case Status(text) => IsSimple(text)
    case Error(text) => IsSimple(text)
    case Integer(v) => Int64(v)
    case Nil => true
    case Bool(_) => true
    case Double(text) => |text| < 326 && cfg.isDouble(text) && NoNewline(text)
    case BigNumber(text) => IsBigNumber(text)
    case Str(text) => |text| < TWO63
    case Verbatim(vtype, text) => |vtype| == 3 && |text| + 4 < TWO63
    case Aggregate(kind, elements) =>
      var n := CountOf(kind, elements);
      && (kind == MapKind ==> |elements| % 2 == 0) && n < TWO63 && (cfg.maxElements > 0 ==> n <= cfg.maxElements)
      && AllEncodable(cfg, elements)
  }

  predicate AllEncodable(cfg: Config, rs: seq<Reply>)
    decreases rs, 0
  {
    rs == [] || (Encodable(cfg, rs[0]) && AllEncodable(cfg, rs[1..]))
  }

  lemma {:induction false} NewlineFound(line: Text, rest: Text)
    requires NoNewline(line)
    ensures SeekNewline(line + CRLF + rest) == Some(|line|)
    decreases |line|
  {
    var s := line + CRLF + rest;
    if line != [] {
      assert s[1..] == line[1..] + CRLF + rest;
      NewlineFound(line[1..], rest);
      assert s[0] == CR ==> s[1] != LF;
    }
  }

  lemma IntTextHasNoNewline(v: int)
    ensures NoNewline(IntText(v))
  {
  }

  /** The type byte, a line and whatever follows. */
  lemma LineIsRead(cfg: Config, frames: Frames, b: Byte, t: Type, line: Text, rest: Text)
    requires TypeOf(b) == Some(t) && NoNewline(line)
    ensures var s := line + CRLF + rest;
      && Advance(cfg, frames, None, [b] + line + CRLF + rest) == Advance(cfg, frames, Some(t), s)
      && SeekNewline(s) == Some(|line|) && s[..|line|] == line && s[|line| + 2..] == rest
  {
    var s, all := line + CRLF + rest, [b] + line + CRLF + rest;
    assert all[0] == b && all[1..] == s;
    NewlineFound(line, rest);
  }

  /** Replies that take one line. */
  lemma OneLiner(cfg: Config, frames: Frames, b: Byte, t: Type, line: Text, r: Reply, rest: Text)
    requires TypeOf(b) == Some(t) && NoNewline(line) && !t.AggregateType? && t != StringType && t != VerbatimType
    requires LineReply(cfg, t, line) == Some(r)
    ensures Advance(cfg, frames, None, [b] + line + CRLF + rest) == AfterReply(cfg, frames, r, rest)
  {
    LineIsRead(cfg, frames, b, t, line, rest);
    ItemUses(cfg, t, line + CRLF + rest);
  }

  lemma NilIsRead(cfg: Config, frames: Frames, rest: Text)
    ensures Advance(cfg, frames, None, [DOLLAR] + IntText(-1) + CRLF + rest) == AfterReply(cfg, frames, Nil, rest)
  {
    IntTextHasNoNewline(-1);
    LineIsRead(cfg, frames, DOLLAR, StringType, IntText(-1), rest);
    Int64OfExact(IntText(-1), -1);
    ItemUses(cfg, StringType, IntText(-1) + CRLF + rest);
  }

  lemma BehindTheLine(line: Text, tail: Text, s: Text, a: nat, b: nat)
    requires s == line + CRLF + tail && a <= b <= |tail|
    ensures |s| == |line| + 2 + |tail| && s[..|line|] == line && s[|line| + 2 + a..|line| + 2 + b] == tail[a..b]
  {
  }

  lemma RestBehindTheLine(line: Text, tail: Text, s: Text, a: nat)
    requires s == line + CRLF + tail && a <= |tail|
    ensures s[|line| + 2 + a..] == tail[a..]
  {
    BehindTheLine(line, tail, s, a, |tail|);
  }

  /** What a bulk item is when its header says `n` and everything is there. */
  lemma StringItem(s: Text, line: Text, tail: Text, n: nat)
    requires s == line + CRLF + tail && Int64Of(line) == Some(n) && n + 2 <= |tail|
    ensures BulkItem(StringType, s, |line|) == Leaf(Str(tail[..n]), |line| + 2 + n + 2)
  {
    BehindTheLine(line, tail, s, 0, n);
  }

  lemma VerbatimItem(s: Text, line: Text, tail: Text, n: nat)
    requires s == line + CRLF + tail && Int64Of(line) == Some(n) && 4 <= n && n + 2 <= |tail| && tail[3] == COLON
    ensures BulkItem(VerbatimType, s, |line|) == Leaf(Verbatim(tail[..3], tail[4..n]), |line| + 2 + n + 2)
  {
    BehindTheLine(line, tail, s, 0, 3);
    BehindTheLine(line, tail, s, 4, n);
    assert s[|line| + 5] == tail[3];
  }

  lemma LeafIsRead(cfg: Config, frames: Frames, t: Type, s: Text, i: nat, r: Reply, used: nat, rest: Text)
    requires SeekNewline(s) == Some(i) && i + 2 <= |s| && (t == StringType || t == VerbatimType)
    requires BulkItem(t, s, i) == Leaf(r, used) && used <= |s| && s[used..] == rest
    ensures Advance(cfg, frames, Some(t), s) == AfterReply(cfg, frames, r, rest)
  {
    ItemUses(cfg, t, s);
  }

  /** Replies that take a header line and a body. */
  lemma BodyIsRead(cfg: Config, frames: Frames, b: Byte, t: Type, n: nat, tail: Text, r: Reply)
    requires TypeOf(b) == Some(t) && (t == StringType || t == VerbatimType) && n < TWO63 && n + 2 <= |tail|
    requires if t == StringType then r == Str(tail[..n])
             else n >= 4 && tail[3] == COLON && r == Verbatim(tail[..3], tail[4..n])
    ensures Advance(cfg, frames, None, [b] + IntText(n) + CRLF + tail) == AfterReply(cfg, frames, r, tail[n + 2..])
  {
    IntTextHasNoNewline(n);
    LineIsRead(cfg, frames, b, t, IntText(n), tail);
    Int64OfExact(IntText(n), n);
    BehindHeader(cfg, frames, t, n, IntText(n), IntText(n) + CRLF + tail, tail, r);
  }

  lemma BehindHeader(cfg: Config, frames: Frames, t: Type, n: nat, line: Text, s: Text, tail: Text, r: Reply)
    requires s == line + CRLF + tail && Int64Of(line) == Some(n) && n + 2 <= |tail|
    requires SeekNewline(s) == Some(|line|) && (t == StringType || t == VerbatimType)
    requires if t == StringType then r == Str(tail[..n])
             else n >= 4 && tail[3] == COLON && r == Verbatim(tail[..3], tail[4..n])
    ensures Advance(cfg, frames, Some(t), s) == AfterReply(cfg, frames, r, tail[n + 2..])
  {
    if t == StringType { StringItem(s, line, tail, n); } else { VerbatimItem(s, line, tail, n); }
    RestBehindTheLine(line, tail, s, n + 2);
    LeafIsRead(cfg, frames, t, s, |line|, r, |line| + 2 + n + 2, tail[n + 2..]);
  }

  lemma StringIsRead(cfg: Config, frames: Frames, text: Text, rest: Text)
    requires |text| < TWO63
    ensures Advance(cfg, frames, None, [DOLLAR] + IntText(|text|) + CRLF + (text + CRLF + rest))
         == AfterReply(cfg, frames, Str(text), rest)
  {
    var tail := text + CRLF + rest;
    assert tail[..|text|] == text && tail[|text| + 2..] == rest;
    BodyIsRead(cfg, frames, DOLLAR, StringType, |text|, tail, Str(text));
  }

  lemma VerbatimIsRead(cfg: Config, frames: Frames, vtype: Text, text: Text, rest: Text)
    requires |vtype| == 3 && |text| + 4 < TWO63
    ensures Advance(cfg, frames, None, [EQUALS] + IntText(|text| + 4) + CRLF + (vtype + [COLON] + text + CRLF + rest))
         == AfterReply(cfg, frames, Verbatim(vtype, text), rest)
  {
    VerbatimTail(vtype, text, rest);
    BodyIsRead(cfg, frames, EQUALS, VerbatimType, |text| + 4, vtype + [COLON] + text + CRLF + rest, Verbatim(vtype, text));
  }

  lemma VerbatimTail(vtype: Text, text: Text, rest: Text)
    requires |vtype| == 3
    ensures var tail, n := vtype + [COLON] + text + CRLF + rest, |text| + 4;
      |tail| >= n + 2 && tail[..3] == vtype && tail[3] == COLON && tail[4..n] == text && tail[n + 2..] == rest
  {
  }

  lemma OpenIsRead(cfg: Config, frames: Frames, kind: Kind, n: nat, total: nat, rest: Text)
    requires n < TWO63 && (cfg.maxElements > 0 ==> n <= cfg.maxElements) && total == if kind == MapKind then 2 * n else n
    ensures Advance(cfg, frames, None, [KindByte(kind)] + IntText(n) + CRLF + rest) ==
      if n == 0 then AfterReply(cfg, frames, Aggregate(kind, []), rest)
      else Advance(cfg, Within(frames, kind, total, []), None, rest)
  {
    IntTextHasNoNewline(n);
    LineIsRead(cfg, frames, KindByte(kind), AggregateType(kind), IntText(n), rest);
    Int64OfExact(IntText(n), n);
    OpenBehindHeader(cfg, frames, kind, n, total, IntText(n) + CRLF + rest, IntText(n), rest);
  }

  lemma OpenBehindHeader(cfg: Config, frames: Frames, kind: Kind, n: nat, total: nat, s: Text, line: Text, rest: Text)
    requires SeekNewline(s) == Some(|line|) && |line| + 2 <= |s| && s[..|line|] == line && s[|line| + 2..] == rest
    requires Int64Of(line) == Some(n) && (cfg.maxElements > 0 ==> n <= cfg.maxElements)
    requires total == if kind == MapKind then 2 * n else n
    ensures Advance(cfg, frames, Some(AggregateType(kind)), s) ==
      if n == 0 then AfterReply(cfg, frames, Aggregate(kind, []), rest)
      else Advance(cfg, Within(frames, kind, total, []), None, rest)
  {
    ItemUses(cfg, AggregateType(kind), s);
  }

  lemma LineRegroup(b: Byte, line: Text, body: Text, rest: Text)
    ensures ([b] + line + CRLF + body) + rest == [b] + line + CRLF + (body + rest)
    ensures ([b] + line + CRLF) + rest == [b] + line + CRLF + rest
  {
  }

  lemma EncodeLine(cfg: Config, r: Reply)
    requires Encodable(cfg, r) && (r.Status? || r.Error? || r.Integer? || r.Bool? || r.Double? || r.BigNumber?)
    ensures exists b: Byte, t: Type, line: Text :: IsLineFor(cfg, b, t, line, r)
  {
    match r
    case Status(text) => assert IsLineFor(cfg, PLUS, StatusType, text, r);
    case Error(text) => assert IsLineFor(cfg, MINUS, ErrorType, text, r);
    case Integer(v) =>
      Int64OfExact(IntText(v), v);
      assert IsLineFor(cfg, COLON, IntegerType, IntText(v), r);
    case Bool(truth) => assert IsLineFor(cfg, HASH, BoolType, [if truth then 116 else 102], r);
    case Double(text) => assert IsLineFor(cfg, COMMA, DoubleType, text, r);
    case BigNumber(text) => assert IsLineFor(cfg, LEFT_PAREN, BigNumberType, text, r);
  }

  predicate IsLineFor(cfg: Config, b: Byte, t: Type, line: Text, r: Reply) {
    && TypeOf(b) == Some(t) && NoNewline(line) && !t.AggregateType? && t != StringType && t != VerbatimType
    && LineReply(cfg, t, line) == Some(r) && Encode(r) == [b] + line + CRLF
  }

  /** Reading a reply's text delivers the reply, whatever is open around it and whatever follows. */
  lemma {:induction false} AdvanceEncode(cfg: Config, frames: Frames, r: Reply, rest: Text)
    requires Encodable(cfg, r)
    ensures Advance(cfg, frames, None, Encode(r) + rest) == AfterReply(cfg, frames, r, rest)
    decreases r, 1
  {
    match r
    case Nil =>
      LineRegroup(DOLLAR, IntText(-1), [], rest);
      NilIsRead(cfg, frames, rest);
    case Str(text) =>
      LineRegroup(DOLLAR, IntText(|text|), text + CRLF, rest);
      StringIsRead(cfg, frames, text, rest);
    case Verbatim(vtype, text) =>
      LineRegroup(EQUALS, IntText(|text| + 4), vtype + [COLON] + text + CRLF, rest);
      VerbatimIsRead(cfg, frames, vtype, text, rest);
    case Aggregate(kind, elements) =>
      var body := EncodeAll(elements);
      LineRegroup(KindByte(kind), IntText(CountOf(kind, elements)), body, rest);
      OpenIsRead(cfg, frames, kind, CountOf(kind, elements), |elements|, body + rest);
      if elements == [] {
        assert body + rest == rest;
      } else {
        AdvanceAll(cfg, frames, kind, |elements|, [], elements, rest);
        assert [] + elements == elements;
      }
    case _ =>
      EncodeLine(cfg, r);
      var b: Byte, t: Type, line: Text :| IsLineFor(cfg, b, t, line, r);
      LineRegroup(b, line, [], rest);
      OneLiner(cfg, frames, b, t, line, r, rest);
  }

  lemma {:induction false} AdvanceAll(cfg: Config, frames: Frames, kind: Kind, total: nat, got: seq<Reply>, els: seq<Reply>, rest: Text)
    requires AllEncodable(cfg, els) && els != [] && |got| + |els| == total
    ensures Advance(cfg, Within(frames, kind, total, got), None, EncodeAll(els) + rest)
         == AfterReply(cfg, frames, Aggregate(kind, got + els), rest)
    decreases els, 0
  {
    var open := Within(frames, kind, total, got);
    var tail := EncodeAll(els[1..]) + rest;
    EncodeAllRegroup(els, rest);
    AdvanceEncode(cfg, open, els[0], tail);
    DeliverOne(cfg, frames, kind, total, got, els[0], tail);
    assert (got + [els[0]]) + els[1..] == got + els;
    if |els| > 1 {
      AdvanceAll(cfg, frames, kind, total, got + [els[0]], els[1..], rest);
    } else {
      assert got + [els[0]] == got + els;
    }
  }

  lemma EncodeAllRegroup(els: seq<Reply>, rest: Text)
    requires els != []
    ensures EncodeAll(els) + rest == Encode(els[0]) + (EncodeAll(els[1..]) + rest)
    ensures |els| == 1 ==> EncodeAll(els[1..]) + rest == rest
  {
    Append(Encode(els[0]), EncodeAll(els[1..]), rest);
    if |els| == 1 {
      assert EncodeAll(els[1..]) == [];
      Append([], [], rest);
    }
  }

  lemma Append(a: Text, b: Text, c: Text)
    ensures (a + b) + c == a + (b + c) && a + [] == a && [] + c == c
  {
  }

  lemma DeliverOne(cfg: Config, frames: Frames, kind: Kind, total: nat, got: seq<Reply>, r: Reply, rest: Text)
    requires |got| < total
    ensures AfterReply(cfg, Within(frames, kind, total, got), r, rest) ==
      if |got| + 1 == total then AfterReply(cfg, frames, Aggregate(kind, got + [r]), rest)
      else Advance(cfg, Within(frames, kind, total, got + [r]), None, rest)
  {
  }

  /** The round trip at any nesting depth. */
  lemma ReadsBack(cfg: Config, r: Reply, rest: Text)
    requires Encodable(cfg, r)
    ensures Advance(cfg, Outside, None, Encode(r) + rest) == Complete(r, rest)
  {
    AdvanceEncode(cfg, Outside, r, rest);
  }

  lemma {:induction false} DrainsBack(cfg: Config, rs: seq<Reply>)
    requires AllEncodable(cfg, rs)
    ensures Drain(cfg, Session(Outside, None, EncodeAll(rs), false)) == (FRESH, rs)
    decreases |rs|
  {
    if rs != [] {
      ReadsBack(cfg, rs[0], EncodeAll(rs[1..]));
      DrainsBack(cfg, rs[1..]);
      DrainCons(cfg, Session(Outside, None, EncodeAll(rs), false), Session(Outside, None, EncodeAll(rs[1..]), false), rs[0]);
      assert [rs[0]] + rs[1..] == rs;
    } else {
      assert EncodeAll(rs) == [];
    }
  }

  /** However the encoding of some replies is cut into chunks, a new reader fed with them gives
      exactly these replies, and is as good as new afterwards. */
  lemma ChunkedRoundTrip(cfg: Config, rs: seq<Reply>, chunks: seq<Text>)
    requires AllEncodable(cfg, rs) && Concat(chunks) == EncodeAll(rs)
    ensures Run(cfg, FRESH, chunks) == (FRESH, rs)
  {
    ChunksFromTheStart(cfg, chunks);
    assert FRESH.unread + Concat(chunks) == Concat(chunks);
    DrainsBack(cfg, rs);
  }

  function StringsOf(argv: seq<Text>): seq<Reply> {
    if argv == [] then [] else [Str(argv[0])] + StringsOf(argv[1..])
  }

  lemma {:induction false} BulksEncode(cfg: Config, argv: seq<Text>)
    requires forall j :: 0 <= j < |argv| ==> |argv[j]| < TWO63
    ensures EncodeAll(StringsOf(argv)) == Bulks(argv) && AllEncodable(cfg, StringsOf(argv))
    ensures |StringsOf(argv)| == |argv|
  {
    if argv != [] {
      BulksEncode(cfg, argv[1..]);
      assert StringsOf(argv)[1..] == StringsOf(argv[1..]);
      assert Encode(Str(argv[0])) == Bulk(argv[0]);
    }
  }

  /** A formatted command reads back as one array of exactly its arguments. */
  lemma CommandReadsBack(cfg: Config, argv: seq<Text>, rest: Text)
    requires |argv| < TWO63 && (cfg.maxElements > 0 ==> |argv| <= cfg.maxElements)
    requires forall j :: 0 <= j < |argv| ==> |argv[j]| < TWO63
    ensures Advance(cfg, Outside, None, Format(argv) + rest) == Complete(Aggregate(ArrayKind, StringsOf(argv)), rest)
  {
    BulksEncode(cfg, argv);
    ReadsBack(cfg, Aggregate(ArrayKind, StringsOf(argv)), rest);
  }
}
