/** What the reader makes of every form an item may take on the wire, byte by byte as the protocol
    spells them, including those no encoding produces: null aggregates, the two spellings of a truth
    value, and all that is refused. */
module ReplyForms {
  import opened Bytes
  import opened DecimalText
  import opened Replies
  import opened ReplyStream
  import opened ReplyStreamLaws

  /** The letter of the protocol that announces an aggregate. */
  function LetterOf(kind: Kind): char {
    match kind
    case ArrayKind => '*'
    case MapKind => '%'
    case SetKind => '~'
    case PushKind => '>'
  }

  /** The text is no 64-bit integer. */
  ghost predicate NoInteger(line: Text) {
    forall v: int :: Int64(v) ==> line != IntText(v)
  }

  lemma NoIntegerIs(line: Text)
    requires NoInteger(line)
    ensures Int64Of(line) == None
  {
    if Int64Of(line).Some? {
      Int64OfExact(line, Int64Of(line).value);
      assert false;
    }
  }

  lemma IntegerIs(v: int)
    requires Int64(v)
    ensures Int64Of(IntText(v)) == Some(v)
  {
    Int64OfExact(IntText(v), v);
  }

  // ---------- aggregates ----------

  /** Reading goes on behind an item that is all there. */
  function Onwards(cfg: Config, frames: Frames, item: Item, rest: Text): Outcome {
    match item
    case Leaf(reply, _) => AfterReply(cfg, frames, reply, rest)
    case Open(kind, total, _) => Advance(cfg, Within(frames, kind, total, []), None, rest)
    case _ => Failed
  }

  lemma AggregateIsRead(cfg: Config, frames: Frames, kind: Kind, line: Text, rest: Text)
    requires NoNewline(line)
    ensures Advance(cfg, frames, None, [LetterOf(kind) as int] + line + CRLF + rest)
         == Onwards(cfg, frames, AggregateItem(cfg, kind, line), rest)
  {
    LineIsRead(cfg, frames, LetterOf(kind) as int, AggregateType(kind), line, rest);
    AggregateTaken(cfg, frames, kind, line, line + CRLF + rest, rest);
  }

  lemma AggregateTaken(cfg: Config, frames: Frames, kind: Kind, line: Text, s: Text, rest: Text)
    requires SeekNewline(s) == Some(|line|) && |line| + 2 <= |s| && s[..|line|] == line && s[|line| + 2..] == rest
    ensures Advance(cfg, frames, Some(AggregateType(kind)), s) == Onwards(cfg, frames, AggregateItem(cfg, kind, line), rest)
  {
    ItemUses(cfg, AggregateType(kind), s);
  }

  /** A count of elements: -1 stands for nil, smaller ones and those above the limit are refused,
      none is an empty aggregate, and a map holds twice as many. */
  lemma AggregateForms(cfg: Config, frames: Frames, kind: Kind, v: int, rest: Text)
    requires Int64(v)
    ensures var read := Advance(cfg, frames, None, [LetterOf(kind) as int] + IntText(v) + CRLF + rest);
      && (v == -1 ==> read == AfterReply(cfg, frames, Nil, rest))
      && (v < -1 ==> read == Failed)
      && (0 < cfg.maxElements < v ==> read == Failed)
      && (v == 0 ==> read == AfterReply(cfg, frames, Aggregate(kind, []), rest))
      && (v > 0 && (cfg.maxElements <= 0 || v <= cfg.maxElements) ==>
            read == Advance(cfg, Within(frames, kind, if kind == MapKind then v + v else v, []), None, rest))
  {
    IntTextHasNoNewline(v);
    IntegerIs(v);
    AggregateIsRead(cfg, frames, kind, IntText(v), rest);
  }

  lemma AggregateRefused(cfg: Config, frames: Frames, kind: Kind, line: Text, rest: Text)
    requires NoNewline(line) && NoInteger(line)
    ensures Advance(cfg, frames, None, [LetterOf(kind) as int] + line + CRLF + rest) == Failed
  {
    NoIntegerIs(line);
    AggregateIsRead(cfg, frames, kind, line, rest);
  }

  // ---------- bulk strings ----------

  lemma BulkHeaderIsRead(cfg: Config, frames: Frames, c: char, line: Text, rest: Text)
    requires (c == '$' || c == '=') && NoNewline(line)
    requires Int64Of(line).None? || Int64Of(line).value < 0
    ensures Advance(cfg, frames, None, [c as int] + line + CRLF + rest) ==
      if Int64Of(line) == Some(-1) then AfterReply(cfg, frames, Nil, rest) else Failed
  {
    var t := if c == '$' then StringType else VerbatimType;
    LineIsRead(cfg, frames, c as int, t, line, rest);
    ItemUses(cfg, t, line + CRLF + rest);
  }

  /** A length of -1 stands for nil, any other negative one is refused. */
  lemma BulkForms(cfg: Config, frames: Frames, c: char, v: int, rest: Text)
    requires (c == '$' || c == '=') && Int64(v) && v < 0
    ensures Advance(cfg, frames, None, [c as int] + IntText(v) + CRLF + rest) ==
      if v == -1 then AfterReply(cfg, frames, Nil, rest) else Failed
  {
    IntTextHasNoNewline(v);
    IntegerIs(v);
    BulkHeaderIsRead(cfg, frames, c, IntText(v), rest);
  }

  lemma BulkRefused(cfg: Config, frames: Frames, c: char, line: Text, rest: Text)
    requires (c == '$' || c == '=') && NoNewline(line) && NoInteger(line)
    ensures Advance(cfg, frames, None, [c as int] + line + CRLF + rest) == Failed
  {
    NoIntegerIs(line);
    BulkHeaderIsRead(cfg, frames, c, line, rest);
  }

  /** A verbatim string without a type of three bytes and a colon is refused. */
  lemma VerbatimRefused(cfg: Config, frames: Frames, body: Text, rest: Text)
    requires |body| < TWO63 && (|body| < 4 || body[3] != ':' as int)
    ensures Advance(cfg, frames, None, ['=' as int] + IntText(|body|) + CRLF + (body + CRLF + rest)) == Failed
  {
    var line, tail := IntText(|body|), body + CRLF + rest;
    var s := line + CRLF + tail;
    IntTextHasNoNewline(|body|);
    IntegerIs(|body|);
    LineIsRead(cfg, frames, '=' as int, VerbatimType, line, tail);
    if |body| >= 4 { assert s[|line| + 5] == body[3]; }
    ItemUses(cfg, VerbatimType, s);
  }

  // ---------- lines ----------

  lemma ShortIsRead(cfg: Config, frames: Frames, b: Byte, t: Type, line: Text, rest: Text)
    requires TypeOf(b) == Some(t) && NoNewline(line) && !t.AggregateType? && t != StringType && t != VerbatimType
    ensures Advance(cfg, frames, None, [b] + line + CRLF + rest) ==
      if LineReply(cfg, t, line).None? then Failed else AfterReply(cfg, frames, LineReply(cfg, t, line).value, rest)
  {
    LineIsRead(cfg, frames, b, t, line, rest);
    ItemUses(cfg, t, line + CRLF + rest);
  }

  /** The null type takes an empty line only. */
  lemma NullForms(cfg: Config, frames: Frames, line: Text, rest: Text)
    requires NoNewline(line)
    ensures Advance(cfg, frames, None, ['_' as int] + line + CRLF + rest) ==
      if line == [] then AfterReply(cfg, frames, Nil, rest) else Failed
  {
    ShortIsRead(cfg, frames, '_' as int, NilType, line, rest);
  }

  /** A truth value is one letter in either case; the zero byte passes for "false". */
  lemma TruthForms(cfg: Config, frames: Frames, line: Text, rest: Text)
    requires NoNewline(line)
    ensures Advance(cfg, frames, None, ['#' as int] + line + CRLF + rest) ==
      if line == ['t' as int] || line == ['T' as int] then AfterReply(cfg, frames, Bool(true), rest)
      else if line == ['f' as int] || line == ['F' as int] || line == [0] then AfterReply(cfg, frames, Bool(false), rest)
      else Failed
  {
    ShortIsRead(cfg, frames, '#' as int, BoolType, line, rest);
    if |line| == 1 { assert line == [line[0]]; }
  }

  lemma IntegerRefused(cfg: Config, frames: Frames, line: Text, rest: Text)
    requires NoNewline(line) && NoInteger(line)
    ensures Advance(cfg, frames, None, [':' as int] + line + CRLF + rest) == Failed
  {
    NoIntegerIs(line);
    ShortIsRead(cfg, frames, ':' as int, IntegerType, line, rest);
  }

  /** A byte that is no digit refuses a big number, but for a minus in front. */
  lemma BigNumberRefused(cfg: Config, frames: Frames, line: Text, rest: Text, i: nat)
    requires NoNewline(line) && i < |line| && !('0' as int <= line[i] <= '9' as int) && (i > 0 || line[0] != '-' as int)
    ensures Advance(cfg, frames, None, ['(' as int] + line + CRLF + rest) == Failed
  {
    ShortIsRead(cfg, frames, '(' as int, BigNumberType, line, rest);
  }

  /** Status and error lines hold no CR and no LF of their own. */
  lemma SimpleRefused(cfg: Config, frames: Frames, c: char, line: Text, rest: Text, i: nat)
    requires (c == '+' || c == '-') && NoNewline(line) && i < |line| && (line[i] == 13 || line[i] == 10)
    ensures Advance(cfg, frames, None, [c as int] + line + CRLF + rest) == Failed
  {
    ShortIsRead(cfg, frames, c as int, if c == '+' then StatusType else ErrorType, line, rest);
  }

  lemma DoubleRefused(cfg: Config, frames: Frames, line: Text, rest: Text)
    requires NoNewline(line) && (|line| >= 326 || !cfg.isDouble(line))
    ensures Advance(cfg, frames, None, [',' as int] + line + CRLF + rest) == Failed
  {
    ShortIsRead(cfg, frames, ',' as int, DoubleType, line, rest);
  }

  // ---------- the first byte ----------

  function LetterFor(r: Reply): char {
    match r
    case Status(_) => '+'
    case Error(_) => '-'
    case Integer(_) => ':'
    case Nil => '$'
    case Bool(_) => '#'
    case Double(_) => ','
    case BigNumber(_) => '('
    case Str(_) => '$'
    case Verbatim(_, _) => '='
    case Aggregate(kind, _) => LetterOf(kind)
  }

  /** The text of a reply, which reads back as that reply, starts with the letter of the protocol. */
  lemma EncodedLetter(r: Reply)
    ensures Encode(r) != [] && Encode(r)[0] == LetterFor(r) as int
  {
  }

  const LETTERS: string := "+-:,_$*%~#=>("

  /** Any other first byte is refused; behind these, reading waits for the end of a line. */
  lemma FirstByte(cfg: Config, frames: Frames, b: Byte, rest: Text)
    ensures (forall i :: 0 <= i < |LETTERS| ==> b != LETTERS[i] as int) ==> Advance(cfg, frames, None, [b] + rest) == Failed
    ensures (exists i :: 0 <= i < |LETTERS| && b == LETTERS[i] as int) && SeekNewline(rest).None? ==>
      exists t :: Advance(cfg, frames, None, [b] + rest) == Stuck(frames, Some(t), rest)
  {
    var s := [b] + rest;
    assert s[0] == b && s[1..] == rest;
    assert |LETTERS| == 13;
    if forall i :: 0 <= i < |LETTERS| ==> b != LETTERS[i] as int {
      Letters(b);
    } else if SeekNewline(rest).None? {
      Letters(b);
      var t := TypeOf(b).value;
      assert Advance(cfg, frames, None, s) == Advance(cfg, frames, Some(t), rest) == Stuck(frames, Some(t), rest);
    }
  }

  lemma Letters(b: Byte)
    ensures TypeOf(b).Some? <==> exists i :: 0 <= i < |LETTERS| && b == LETTERS[i] as int
  {
    assert LETTERS[0] == '+' && LETTERS[1] == '-' && LETTERS[2] == ':' && LETTERS[3] == ',' && LETTERS[4] == '_';
    assert LETTERS[5] == '$' && LETTERS[6] == '*' && LETTERS[7] == '%' && LETTERS[8] == '~' && LETTERS[9] == '#';
    assert LETTERS[10] == '=' && LETTERS[11] == '>' && LETTERS[12] == '(';
  }
}
