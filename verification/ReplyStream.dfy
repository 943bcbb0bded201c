/** What the incremental reply reader (`hiredis/read.c`) computes: one item at a time from the
    unread bytes, with a stack of the aggregates still open. Feeding the bytes in chunks of
    any size makes no difference, and reading undoes encoding. `Reader` proves that the
    reader object computes `Advance`. */
module ReplyStream {
  import opened Bytes
  import opened DecimalText
  import opened Replies

  /** The reply types a type byte announces. */
  datatype Type =
    | ErrorType | StatusType | IntegerType | DoubleType | NilType | BoolType | BigNumberType
    | StringType | VerbatimType | AggregateType(kind: Kind)

  /** `maxElements` is the reader's limit (none when not positive); `isDouble` says which texts
      the C library's `strtod` and the two spelt-out infinities accept. */
  datatype Config = Config(maxElements: int, isDouble: Text -> bool)

  function TypeOf(b: Byte): Option<Type> {
    if b == MINUS then Some(ErrorType)
    else if b == PLUS then Some(StatusType)
    else if b == COLON then Some(IntegerType)
    else if b == COMMA then Some(DoubleType)
    else if b == UNDERSCORE then Some(NilType)
    else if b == DOLLAR then Some(StringType)
    else if b == STAR then Some(AggregateType(ArrayKind))
    else if b == PERCENT then Some(AggregateType(MapKind))
    else if b == TILDE then Some(AggregateType(SetKind))
    else if b == HASH then Some(BoolType)
    else if b == EQUALS then Some(VerbatimType)
    else if b == GREATER then Some(AggregateType(PushKind))
    else if b == LEFT_PAREN then Some(BigNumberType)
    else None
  }

  /** The position of the first CR LF. */
  function SeekNewline(s: Text): Option<nat> {
    if |s| < 2 then None
    else if s[0] == CR && s[1] == LF then Some(0)
    else
      match SeekNewline(s[1..])
      case None => None
      case Some(i) => Some(i + 1)
  }

  /** One item: not all there yet, malformed, a reply that is complete in itself, or the opening
      of an aggregate with at least one element. `used` counts the bytes it takes. */
  datatype Item = NeedMore | Bad | Leaf(reply: Reply, used: nat) | Open(kind: Kind, total: nat, used: nat)

  predicate IsBigNumber(line: Text) {
    forall i :: 0 <= i < |line| ==> IsDigit(line[i]) || (i == 0 && line[0] == MINUS)
  }

  predicate IsSimple(line: Text) {
    forall i :: 0 <= i < |line| ==> line[i] != CR && line[i] != LF
  }

  /** The bytes `strchr("tTfF", b)` finds, which include the terminator. */
  predicate IsTruth(b: Byte) {
    b == 116 || b == 84 || b == 102 || b == 70 || b == NUL
  }

  function LineReply(cfg: Config, t: Type, line: Text): Option<Reply> {
    match t
    case IntegerType => (
      match Int64Of(line)
      case None => None
      case Some(v) => Some(Integer(v)))
    case DoubleType => if |line| < 326 && cfg.isDouble(line) then Some(Double(line)) else None
    case NilType => if line == [] then Some(Nil) else None
    case BoolType => if |line| == 1 && IsTruth(line[0]) then Some(Bool(line[0] == 116 || line[0] == 84)) else None
    case BigNumberType => if IsBigNumber(line) then Some(BigNumber(line)) else None
    case StatusType => if IsSimple(line) then Some(Status(line)) else None
    case ErrorType => if IsSimple(line) then Some(Error(line)) else None
    case _ => None
  }

  /** A bulk string whose header line ends at `i`; the two bytes behind the data are skipped. */
  function BulkItem(t: Type, s: Text, i: nat): Item
    requires i + 2 <= |s|
  {
    match Int64Of(s[..i])
    case None => Bad
    case Some(len) =>
      if len < -1 then Bad
      else if len == -1 then Leaf(Nil, i + 2)
      else if i + 2 + len + 2 > |s| then NeedMore
      else if t == VerbatimType then
        if len < 4 || s[i + 5] != COLON then Bad
        else Leaf(Verbatim(s[i + 2..i + 5], s[i + 6..i + 2 + len]), i + 2 + len + 2)
      else Leaf(Str(s[i + 2..i + 2 + len]), i + 2 + len + 2)
  }

  function AggregateItem(cfg: Config, kind: Kind, line: Text): Item {
    match Int64Of(line)
    case None => Bad
    case Some(n) =>
      if n < -1 || (cfg.maxElements > 0 && n > cfg.maxElements) then Bad
      else if n == -1 then Leaf(Nil, |line| + 2)
      else if n == 0 then Leaf(Aggregate(kind, []), |line| + 2)
      else Open(kind, if kind == MapKind then 2 * n else n, |line| + 2)
  }

  /** The item of type `t` at the start of `s`, the type byte already taken. */
  function ReadItem(cfg: Config, t: Type, s: Text): Item {
    match SeekNewline(s)
    case None => NeedMore
    case Some(i) =>
      if i + 2 > |s| then NeedMore
      else if t.AggregateType? then AggregateItem(cfg, t.kind, s[..i])
      else if t == StringType || t == VerbatimType then BulkItem(t, s, i)
      else
        match LineReply(cfg, t, s[..i])
        case None => Bad
        case Some(reply) => Leaf(reply, i + 2)
  }

  // ---------- the stack of open aggregates ----------

  /** The aggregates still open, the innermost first, each with the elements it has got. */
  datatype Frames = Outside | Within(outer: Frames, kind: Kind, total: nat, got: seq<Reply>)

  /** A finished reply goes to the innermost open aggregate and may finish that one, and so on
      outwards. */
  datatype Delivery = Whole(reply: Reply) | Inside(frames: Frames)

  function Deliver(frames: Frames, reply: Reply): Delivery {
    match frames
    case Outside => Whole(reply)
    case Within(outer, kind, total, got) =>
      var got' := got + [reply];
      if |got'| >= total then Deliver(outer, Aggregate(kind, got')) else Inside(Within(outer, kind, total, got'))
  }

  /** Where reading stops: short of bytes, at an error, or at the end of a whole reply. */
  datatype Outcome =
    | Stuck(frames: Frames, pending: Option<Type>, unread: Text)
    | Failed
    | Complete(reply: Reply, unread: Text)

  lemma ItemUses(cfg: Config, t: Type, s: Text)
    ensures var item := ReadItem(cfg, t, s);
      (item.Leaf? ==> 0 < item.used <= |s|) && (item.Open? ==> 0 < item.used <= |s|)
  {
  }

  function Advance(cfg: Config, frames: Frames, pending: Option<Type>, s: Text): Outcome
    decreases |s|, 0
  {
    match pending
    case None => (
      if s == [] then Stuck(frames, None, s)
      else
        match TypeOf(s[0])
        case None => Failed
        case Some(t) => Advance(cfg, frames, Some(t), s[1..]))
    case Some(t) =>
      ItemUses(cfg, t, s);
      match ReadItem(cfg, t, s)
      case NeedMore => Stuck(frames, pending, s)
      case Bad => Failed
      case Leaf(reply, used) => AfterReply(cfg, frames, reply, s[used..])
      case Open(kind, total, used) => Advance(cfg, Within(frames, kind, total, []), None, s[used..])
  }

  function AfterReply(cfg: Config, frames: Frames, reply: Reply, s: Text): Outcome
    decreases |s|, 1
  {
    match Deliver(frames, reply)
    case Whole(whole) => Complete(whole, s)
    case Inside(frames') => Advance(cfg, frames', None, s)
  }

  // ---------- sessions ----------

  /** Everything that matters of a reader between calls. */
  datatype Session = Session(frames: Frames, pending: Option<Type>, unread: Text, failed: bool)

  const FRESH := Session(Outside, None, [], false)
  const DEAD := Session(Outside, None, [], true)

  function Feed(s: Session, chunk: Text): Session {
    if s.failed then s else s.(unread := s.unread + chunk)
  }

  /** One call for a reply. */
  function GetReply(cfg: Config, s: Session): (Session, Option<Reply>) {
    if s.failed then (s, None)
    else
      match Advance(cfg, s.frames, s.pending, s.unread)
      case Stuck(frames, pending, unread) => (Session(frames, pending, unread, false), None)
      case Failed => (DEAD, None)
      case Complete(reply, unread) => (Session(Outside, None, unread, false), Some(reply))
  }

  lemma {:induction false} CompleteShrinks(cfg: Config, frames: Frames, pending: Option<Type>, s: Text)
    ensures var out := Advance(cfg, frames, pending, s);
      out.Complete? ==> |out.unread| < |s|
    decreases |s|
  {
    match pending
    case None =>
      if s != [] && TypeOf(s[0]).Some? { CompleteShrinks(cfg, frames, TypeOf(s[0]), s[1..]); }
    case Some(t) =>
      ItemUses(cfg, t, s);
      match ReadItem(cfg, t, s)
      case Leaf(reply, used) =>
        if Deliver(frames, reply).Inside? { CompleteShrinks(cfg, Deliver(frames, reply).frames, None, s[used..]); }
      case Open(kind, total, used) => CompleteShrinks(cfg, Within(frames, kind, total, []), None, s[used..]);
      case _ =>
  }

  /** Calls for replies until there is none. */
  function Drain(cfg: Config, s: Session): (Session, seq<Reply>)
    decreases |s.unread|
  {
    CompleteShrinks(cfg, s.frames, s.pending, s.unread);
    var (s', reply) := GetReply(cfg, s);
    if reply.None? then (s', [])
    else
      var (end, replies) := Drain(cfg, s');
      (end, [reply.value] + replies)
  }

  /** Feeds the chunks one by one and drains the replies after each. */
  function Run(cfg: Config, s: Session, chunks: seq<Text>): (Session, seq<Reply>)
    decreases |chunks|
  {
    if chunks == [] then (s, [])
    else
      var (s1, replies) := Drain(cfg, Feed(s, chunks[0]));
      var (end, more) := Run(cfg, s1, chunks[1..]);
      (end, replies + more)
  }

  function Concat(chunks: seq<Text>): Text {
    if chunks == [] then [] else chunks[0] + Concat(chunks[1..])
  }
}
