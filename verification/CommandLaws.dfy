/** What `redis_parse_cmd` makes of every formatted command, and what holds of every text it
    accepts. */
module CommandLaws {
  import opened Bytes
  import opened DecimalText
  import opened CommandTable
  import opened CommandGrammar
  import opened Resp

  // ---------- every accepted text ----------

  /** The bookkeeping at the line feed after a bulk string of each role: how many bulk strings
      have been read and how many keys recorded. */
  predicate Balanced(role: Role, c: Cmd) {
    && c.ctype.Known?
    && var used, k := c.narg - c.rnarg, |c.keys|;
       match role
       case TypeRole => used == 1 && k == 0
       case KeyRole => (
         match c.ctype.arity
         case ArgX => used == 1 + k && k >= 1
         case ArgKvx => used == 2 * k && k >= 1 && (k >= 2 ==> c.narg % 2 == 1)
         case ArgEval => used == 4 && k == 1
         case _ => used == 2 && k == 1)
       case Arg1Role => (
         match c.ctype.arity
         case ArgEval => used == 2 && k == 0
         case ArgKvx => used == 2 * k + 1 && k >= 1 && c.narg % 2 == 1
         case _ => used == 3 && k == 1)
       case Arg2Role => if c.ctype.arity == ArgEval then used == 3 && k == 0 else used == 4 && k == 1
       case Arg3Role => used == 5 && k == 1
       case ArgNRole => used >= 4 && k == 1
  }

  /** What `done` promises about the argument count and the number of keys. */
  predicate Complete(c: Cmd) {
    && c.ctype.Known?
    && (c.ctype.arity != ArgZ ==> c.rnarg == 0)
    && var k := |c.keys|;
       match c.ctype.arity
       case ArgZ => k == 0 && c.rnarg == c.narg - 1
       case Arg0 => k == 1 && c.narg == 2
       case Arg1 => k == 1 && c.narg == 3
       case Arg2 => k == 1 && c.narg == 4
       case Arg3 => k == 1 && c.narg == 5
       case ArgN => k == 1 && c.narg >= 2
       case ArgX => k >= 1 && c.narg == k + 1
       case ArgKvx => k >= 1 && (c.narg == 2 * k + 1 || (k == 1 && c.narg == 2))
       case ArgEval => k == 1 && c.narg >= 4
  }

  /** One argument more keeps the balance. */
  lemma BalancedStep(role: Role, c: Cmd, role': Role, c': Cmd)
    requires Balanced(role, c) && Decide(role, c.ctype.arity, c.rnarg, c.narg) == Continue(role')
    requires c.rnarg > 0 && c'.(keys := c.keys) == c.(rnarg := c.rnarg - 1)
    requires |c'.keys| == |c.keys| + if role' == KeyRole then 1 else 0
    ensures Balanced(role', c')
  {
  }

  /** An argument that leads to `done` is read to its line feed. */
  lemma ArgumentRead(buf: Text, p: nat, role: Role, c: Cmd) returns (q: nat, c': Cmd)
    requires c.ctype.Known? && Argument(buf, p, role, c).Done?
    ensures q > p && c.rnarg > 0 && c'.(keys := c.keys) == c.(rnarg := c.rnarg - 1)
    ensures LineFeed(buf, q, role, c') == Argument(buf, p, role, c)
    ensures |c'.keys| == |c.keys| + if role == KeyRole then 1 else 0
  {
    var h := ReadHeader(buf, p, role, c.rnarg);
    assert h.Header?;
    q := h.next + h.len + 1;
    c' := c.(rnarg := c.rnarg - 1);
    if role == KeyRole { c' := c'.(keys := c.keys + [Span(h.next, h.next + h.len)]); }
    assert Data(buf, h.next, h.len, role, c.(rnarg := c.rnarg - 1)) == LineFeed(buf, q, role, c');
  }

  lemma {:induction false} DoneFromLineFeed(buf: Text, p: nat, role: Role, c: Cmd)
    requires Balanced(role, c) && LineFeed(buf, p, role, c).Done?
    ensures Complete(LineFeed(buf, p, role, c).cmd)
    decreases |buf| - p
  {
    match Decide(role, c.ctype.arity, c.rnarg, c.narg)
    case Continue(role') =>
      assert LineFeed(buf, p, role, c) == Argument(buf, p + 1, role', c);
      var q, c' := ArgumentRead(buf, p + 1, role', c);
      BalancedStep(role, c, role', c');
      DoneFromLineFeed(buf, q, role', c');
    case _ =>
  }

  lemma {:induction false} DoneFromCount(table: Table, buf: Text, p: nat, n: nat)
    requires Count(table, buf, p, n).Done?
    ensures Complete(Count(table, buf, p, n).cmd)
    decreases |buf| - p
  {
    if IsDigit(buf[p]) {
      DoneFromCount(table, buf, p + 1, Push32(n, buf[p]));
    } else {
      var h := ReadHeader(buf, p + 2, TypeRole, n);
      assert Count(table, buf, p, n) == NameData(table, buf, h.next, h.len, n, n - 1);
      var ctype := FindIn(table(h.len), buf[h.next..h.next + h.len], 0);
      DoneFromLineFeed(buf, h.next + h.len + 1, TypeRole, Cmd(ctype, n, n - 1, []));
    }
  }

  /** On `done` the argument count is exactly what the command's arity asks for, with nothing
      left over (but for PING and QUIT, which stop at the name), and MSET has two arguments a
      key, the one exception being a lone key without a value. */
  lemma DoneIsComplete(buf: Text)
    requires Parse(buf).Done?
    ensures Complete(Parse(buf).cmd)
  {
    DoneFromCount(CommandsOfLength, buf, 1, 0);
  }

  // ---------- every formatted command ----------

  /** Where the bulk string of argument `i` starts in the formatted command. */
  function Pos(argv: seq<Text>, i: nat): nat
    requires i <= |argv|
  {
    1 + |Digits(|argv|)| + 2 + |Bulks(argv[..i])|
  }

  function SpanOf(argv: seq<Text>, i: nat): Span
    requires i < |argv|
  {
    var start := Pos(argv, i) + 1 + |Digits(|argv[i]|)| + 2;
    Span(start, start + |argv[i]|)
  }

  predicate Fits(argv: seq<Text>) {
    |argv| < TWO32 && forall i :: 0 <= i < |argv| ==> |argv[i]| < TWO32
  }

  lemma BulkAt(argv: seq<Text>, i: nat)
    requires i < |argv|
    ensures Pos(argv, i + 1) == Pos(argv, i) + |Bulk(argv[i])| <= |Format(argv)|
    ensures Format(argv)[Pos(argv, i)..Pos(argv, i + 1)] == Bulk(argv[i])
  {
    var head := [STAR] + Digits(|argv|) + [CR, LF];
    BulksSnoc(argv, i);
    Middle(head, Bulks(argv[..i]), Bulk(argv[i]), Bulks(argv[i + 1..]), Bulks(argv), Format(argv));
  }

  lemma Middle(head: Text, a: Text, b: Text, c: Text, body: Text, all: Text)
    requires body == a + b + c && all == head + body
    ensures |head| + |a| + |b| <= |all| && all[|head| + |a|..|head| + |a| + |b|] == b
  {
  }

  /** The span recorded for argument `i` holds that argument's bytes. */
  lemma SpanHoldsArgument(argv: seq<Text>, i: nat)
    requires i < |argv|
    ensures SpanOf(argv, i).end + 2 == Pos(argv, i + 1) <= |Format(argv)|
    ensures Format(argv)[SpanOf(argv, i).start..SpanOf(argv, i).end] == argv[i]
    ensures Format(argv)[SpanOf(argv, i).end] == CR && Format(argv)[SpanOf(argv, i).end + 1] == LF
  {
    BulkAt(argv, i);
    BulkData(Format(argv), Pos(argv, i), Bulk(argv[i]), argv[i], SpanOf(argv, i).start);
  }

  lemma BulkData(buf: Text, p: nat, bulk: Text, arg: Text, start: nat)
    requires p + |bulk| <= |buf| && buf[p..p + |bulk|] == bulk && bulk == Bulk(arg) && start == p + |Digits(|arg|)| + 3
    ensures DataAt(buf, start, arg) && start + |arg| + 2 == p + |bulk|
  {
    BulkParts(arg);
    DataInside(buf, p, bulk, arg, start - p);
  }

  lemma DataInside(buf: Text, p: nat, bulk: Text, arg: Text, d: nat)
    requires p + |bulk| <= |buf| && buf[p..p + |bulk|] == bulk && DataAt(bulk, d, arg)
    ensures DataAt(buf, p + d, arg)
  {
    SubSlice(buf, p, bulk, d, d + |arg|);
    SubIndex(buf, p, bulk, d + |arg|);
    SubIndex(buf, p, bulk, d + |arg| + 1);
  }

  /** A run of digits is read as its value, cut to 32 bits. */
  lemma {:induction false} DigitsPassed(buf: Text, start: nat, digits: Text, i: nat, role: Role, rnarg: nat)
    requires 0 < start && start + |digits| <= |buf| && buf[start..start + |digits|] == digits && AllDigits(digits)
    requires i <= |digits| && AllDigits(digits[..i])
    ensures ReadDigits(buf, start + i, start - 1, Value(digits[..i]) % TWO32, role, rnarg)
         == ReadDigits(buf, start + |digits|, start - 1, Value(digits) % TWO32, role, rnarg)
    decreases |digits| - i
  {
    if i < |digits| {
      assert buf[start + i] == digits[i];
      NextDigit(digits, i);
      WrapStep(Value(digits[..i]), digits[i] - ZERO);
      DigitIsRead(buf, start + i, start - 1, Value(digits[..i]) % TWO32, Value(digits[..i + 1]) % TWO32, role, rnarg);
      DigitsPassed(buf, start, digits, i + 1, role, rnarg);
    } else {
      assert digits[..i] == digits;
    }
  }

  lemma DigitIsRead(buf: Text, p: nat, token: nat, len: nat, len': nat, role: Role, rnarg: nat)
    requires token < p < |buf| && IsDigit(buf[p]) && len' == Push32(len, buf[p])
    ensures ReadDigits(buf, p, token, len, role, rnarg) == ReadDigits(buf, p + 1, token, len', role, rnarg)
  {
  }

  lemma AllDigitsPassed(buf: Text, start: nat, digits: Text, role: Role, rnarg: nat)
    requires 0 < start && start + |digits| <= |buf| && buf[start..start + |digits|] == digits && AllDigits(digits)
    ensures ReadDigits(buf, start, start - 1, 0, role, rnarg)
         == ReadDigits(buf, start + |digits|, start - 1, Value(digits) % TWO32, role, rnarg)
  {
    assert digits[..0] == [];
    DigitsPassed(buf, start, digits, 0, role, rnarg);
  }

  lemma HeaderDigits(buf: Text, p: nat, digits: Text, n: nat, role: Role, rnarg: nat)
    requires p + 1 + |digits| <= |buf| && buf[p] == DOLLAR && buf[p + 1..p + 1 + |digits|] == digits
    requires AllDigits(digits) && n == Value(digits) % TWO32
    ensures ReadHeader(buf, p, role, rnarg) == ReadDigits(buf, p + 1 + |digits|, p, n, role, rnarg)
  {
    AllDigitsPassed(buf, p + 1, digits, role, rnarg);
  }

  lemma LengthEnds(buf: Text, p: nat, digits: Text, n: nat, role: Role, rnarg: nat)
    requires HeaderAt(buf, p, digits) && ReadHeader(buf, p, role, rnarg) == ReadDigits(buf, p + 1 + |digits|, p, n, role, rnarg)
    ensures ReadHeader(buf, p, role, rnarg) == HeaderOf(p, |digits|, n, role, rnarg)
  {
  }

  /** What a length of `d` digits that stands for `n` gives. */
  function HeaderOf(p: nat, d: nat, n: nat, role: Role, rnarg: nat): Header {
    if BadLength(role, n, d, rnarg) then HeaderBad else Header(n, p + d + 3)
  }

  lemma HeaderRead(buf: Text, p: nat, digits: Text, n: nat, role: Role, rnarg: nat)
    requires HeaderAt(buf, p, digits) && AllDigits(digits) && n == Value(digits) % TWO32
    ensures ReadHeader(buf, p, role, rnarg) == HeaderOf(p, |digits|, n, role, rnarg)
  {
    HeaderDigits(buf, p, digits, n, role, rnarg);
    LengthEnds(buf, p, digits, n, role, rnarg);
  }

  lemma HeaderIsRead(argv: seq<Text>, i: nat, role: Role, rnarg: nat)
    requires Fits(argv) && i < |argv|
    ensures ReadHeader(Format(argv), Pos(argv, i), role, rnarg)
         == if BadLength(role, |argv[i]|, 1, rnarg) then HeaderBad else Header(|argv[i]|, SpanOf(argv, i).start)
  {
    BulkAt(argv, i);
    BulkHeader(Format(argv), Pos(argv, i), Bulk(argv[i]), argv[i]);
    HeaderFromParts(Format(argv), Pos(argv, i), Digits(|argv[i]|), |argv[i]|, role, rnarg);
  }

  lemma BulkHeader(buf: Text, p: nat, bulk: Text, arg: Text)
    requires p + |bulk| <= |buf| && buf[p..p + |bulk|] == bulk && bulk == Bulk(arg)
    ensures HeaderAt(buf, p, Digits(|arg|))
  {
    BulkParts(arg);
    HeaderInside(buf, p, bulk, Digits(|arg|));
  }

  lemma HeaderFromParts(buf: Text, p: nat, digits: Text, n: nat, role: Role, rnarg: nat)
    requires HeaderAt(buf, p, digits) && digits == Digits(n) && n < TWO32
    ensures ReadHeader(buf, p, role, rnarg)
         == if BadLength(role, n, 1, rnarg) then HeaderBad else Header(n, p + |digits| + 3)
  {
    ValueOfDigits(n);
    HeaderRead(buf, p, digits, n, role, rnarg);
  }

  // The same walk, argument by argument.

  /** The part of parsing that looks only at the arguments. */
  function Walk(argv: seq<Text>, i: nat, role: Role, c: Cmd): Outcome
    requires c.ctype.Known?
    decreases |argv| - i
  {
    if i >= |argv| then RanOut(c.ctype, c.keys)
    else if Refused(argv[i], role, c) then Failed
    else
      var keys := if role == KeyRole then c.keys + [SpanOf(argv, i)] else c.keys;
      var c' := c.(rnarg := c.rnarg - 1, keys := keys);
      match Decide(role, c.ctype.arity, c'.rnarg, c.narg)
      case Finish => Done(c')
      case Reject => Failed
      case Continue(role') => Walk(argv, i + 1, role', c')
  }

  /** An argument too many, or a key count of EVAL that is not taken. */
  predicate Refused(arg: Text, role: Role, c: Cmd)
    requires c.ctype.Known?
  {
    c.rnarg == 0 || (role == Arg2Role && c.ctype.arity == ArgEval && !KeyCountOk(arg))
  }

  /** One step of the walk. */
  function WalkFrom(argv: seq<Text>, i: nat, next: Next, c: Cmd): Outcome
    requires i < |argv| && c.ctype.Known?
  {
    match next
    case Finish => Done(c)
    case Reject => Failed
    case Continue(role) => Walk(argv, i + 1, role, c)
  }

  /** The bulk string at `p` of a text says `arg` and puts it into `span`. */
  ghost predicate BulkWritten(buf: Text, p: nat, arg: Text, span: Span) {
    && span.end == span.start + |arg| && span.end + 2 <= |buf| && p < span.start
    && buf[span.start..span.end] == arg && buf[span.end] == CR && buf[span.end + 1] == LF
    && forall role, rnarg: nat :: ReadHeader(buf, p, role, rnarg)
         == if BadLength(role, |arg|, 1, rnarg) then HeaderBad else Header(|arg|, span.start)
  }

  /** All that the walk needs to know of a text: it holds these arguments where formatting
      would put them. */
  ghost predicate Written(buf: Text, argv: seq<Text>) {
    && Pos(argv, |argv|) == |buf|
    && forall i :: 0 <= i < |argv| ==>
         BulkWritten(buf, Pos(argv, i), argv[i], SpanOf(argv, i)) && SpanOf(argv, i).end + 2 == Pos(argv, i + 1)
  }

  lemma FormatIsWritten(argv: seq<Text>)
    requires Fits(argv)
    ensures Written(Format(argv), argv)
  {
    BulkAtEnd(argv);
    forall i | 0 <= i < |argv|
      ensures BulkWritten(Format(argv), Pos(argv, i), argv[i], SpanOf(argv, i)) && SpanOf(argv, i).end + 2 == Pos(argv, i + 1)
    {
      ArgumentIsWritten(argv, i, Format(argv), Pos(argv, i), argv[i], SpanOf(argv, i));
    }
  }

  lemma BulkAtEnd(argv: seq<Text>)
    ensures Pos(argv, |argv|) == |Format(argv)|
  {
    assert argv[..|argv|] == argv;
  }

  lemma ArgumentIsWritten(argv: seq<Text>, i: nat, buf: Text, p: nat, arg: Text, span: Span)
    requires Fits(argv) && i < |argv| && buf == Format(argv) && p == Pos(argv, i) && arg == argv[i] && span == SpanOf(argv, i)
    ensures BulkWritten(buf, p, arg, span) && span.end + 2 == Pos(argv, i + 1)
  {
    SpanHoldsArgument(argv, i);
    forall role, rnarg: nat
      ensures ReadHeader(buf, p, role, rnarg)
           == if BadLength(role, |arg|, 1, rnarg) then HeaderBad else Header(|arg|, span.start)
    {
      HeaderIsRead(argv, i, role, rnarg);
    }
  }

  lemma ArgumentToLineFeed(buf: Text, p: nat, arg: Text, span: Span, role: Role, c: Cmd)
    requires BulkWritten(buf, p, arg, span) && c.ctype.Known? && role != TypeRole && !Refused(arg, role, c)
    ensures Argument(buf, p, role, c) == LineFeed(buf, span.end + 1, role,
      c.(rnarg := c.rnarg - 1, keys := if role == KeyRole then c.keys + [span] else c.keys))
  {
    assert Argument(buf, p, role, c) == Data(buf, span.start, |arg|, role, c.(rnarg := c.rnarg - 1));
  }

  lemma ArgumentRefused(buf: Text, p: nat, arg: Text, span: Span, role: Role, c: Cmd)
    requires BulkWritten(buf, p, arg, span) && c.ctype.Known? && role != TypeRole
    requires Refused(arg, role, c)
    ensures Argument(buf, p, role, c) == Failed
  {
    if c.rnarg > 0 {
      assert Argument(buf, p, role, c) == Data(buf, span.start, |arg|, role, c.(rnarg := c.rnarg - 1));
    }
  }

  lemma ArgumentStep(buf: Text, p: nat, arg: Text, span: Span, role: Role, c: Cmd, c': Cmd, next: Next)
    requires BulkWritten(buf, p, arg, span) && c.ctype.Known? && role != TypeRole && !Refused(arg, role, c)
    requires c' == c.(rnarg := c.rnarg - 1, keys := if role == KeyRole then c.keys + [span] else c.keys)
    requires next == Decide(role, c.ctype.arity, c'.rnarg, c.narg)
    ensures next == Finish ==> Argument(buf, p, role, c) == Done(c')
    ensures next == Reject ==> Argument(buf, p, role, c) == Failed
    ensures next.Continue? ==> next.role != TypeRole && Argument(buf, p, role, c) == Argument(buf, span.end + 2, next.role, c')
  {
    ArgumentToLineFeed(buf, p, arg, span, role, c);
    LineFeedDecides(buf, span.end + 1, role, c');
  }

  lemma WalkAlike(buf: Text, argv: seq<Text>, i: nat, p: nat, span: Span, role: Role, c: Cmd, c': Cmd, next: Next)
    requires i < |argv| && BulkWritten(buf, p, argv[i], span) && span == SpanOf(argv, i)
    requires c.ctype.Known? && role != TypeRole && !Refused(argv[i], role, c)
    requires c' == c.(rnarg := c.rnarg - 1, keys := if role == KeyRole then c.keys + [span] else c.keys)
    requires next == Decide(role, c.ctype.arity, c'.rnarg, c.narg)
    requires next.Continue? && next.role != TypeRole ==> Argument(buf, span.end + 2, next.role, c') == Walk(argv, i + 1, next.role, c')
    ensures Argument(buf, p, role, c) == Walk(argv, i, role, c)
  {
    ArgumentStep(buf, p, argv[i], span, role, c, c', next);
    WalkStep(argv, i, role, c, c', next);
  }

  lemma WalkRefused(buf: Text, argv: seq<Text>, i: nat, p: nat, span: Span, role: Role, c: Cmd)
    requires i < |argv| && BulkWritten(buf, p, argv[i], span) && c.ctype.Known? && role != TypeRole
    requires Refused(argv[i], role, c)
    ensures Argument(buf, p, role, c) == Walk(argv, i, role, c)
  {
    ArgumentRefused(buf, p, argv[i], span, role, c);
  }

  lemma {:induction false} ArgumentsWalk(buf: Text, argv: seq<Text>, i: nat, role: Role, c: Cmd)
    requires Written(buf, argv) && i <= |argv| && c.ctype.Known? && role != TypeRole
    ensures Argument(buf, Pos(argv, i), role, c) == Walk(argv, i, role, c)
    decreases |argv| - i, 1
  {
    if i < |argv| {
      var p, span := Pos(argv, i), SpanOf(argv, i);
      assert BulkWritten(buf, p, argv[i], span) && span.end + 2 == Pos(argv, i + 1);
      if Refused(argv[i], role, c) {
        WalkRefused(buf, argv, i, p, span, role, c);
      } else {
        WalkTaken(buf, argv, i, p, span, role, c, c.(rnarg := c.rnarg - 1, keys := if role == KeyRole then c.keys + [span] else c.keys));
      }
    }
  }

  lemma {:induction false} WalkTaken(buf: Text, argv: seq<Text>, i: nat, p: nat, span: Span, role: Role, c: Cmd, c': Cmd)
    requires i < |argv| && Written(buf, argv) && BulkWritten(buf, p, argv[i], span)
    requires span == SpanOf(argv, i) && span.end + 2 == Pos(argv, i + 1)
    requires c.ctype.Known? && role != TypeRole && !Refused(argv[i], role, c)
    requires c' == c.(rnarg := c.rnarg - 1, keys := if role == KeyRole then c.keys + [span] else c.keys)
    ensures Argument(buf, p, role, c) == Walk(argv, i, role, c)
    decreases |argv| - i, 0
  {
    var next := Decide(role, c.ctype.arity, c'.rnarg, c.narg);
    if next.Continue? && next.role != TypeRole { ArgumentsWalk(buf, argv, i + 1, next.role, c'); }
    WalkAlike(buf, argv, i, p, span, role, c, c', next);
  }

  lemma WalkStep(argv: seq<Text>, i: nat, role: Role, c: Cmd, c': Cmd, next: Next)
    requires i < |argv| && c.ctype.Known? && !Refused(argv[i], role, c)
    requires c' == c.(rnarg := c.rnarg - 1, keys := if role == KeyRole then c.keys + [SpanOf(argv, i)] else c.keys)
    requires next == Decide(role, c.ctype.arity, c'.rnarg, c.narg)
    ensures Walk(argv, i, role, c) == WalkFrom(argv, i, next, c')
  {
  }

  lemma LineFeedDecides(buf: Text, p: nat, role: Role, c: Cmd)
    requires c.ctype.Known? && p < |buf| && buf[p] == LF
    ensures LineFeed(buf, p, role, c) == match Decide(role, c.ctype.arity, c.rnarg, c.narg)
      case Finish => Done(c)
      case Reject => Failed
      case Continue(role') => Argument(buf, p + 1, role', c)
    ensures Decide(role, c.ctype.arity, c.rnarg, c.narg) != Continue(TypeRole)
  {
  }

  // The header and the command name.

  lemma {:induction false} CountPassed(table: Table, buf: Text, digits: Text, i: nat)
    requires 1 + |digits| <= |buf| && buf[1..1 + |digits|] == digits && AllDigits(digits)
    requires i <= |digits| && AllDigits(digits[..i])
    ensures Count(table, buf, 1 + i, Value(digits[..i]) % TWO32) == Count(table, buf, 1 + |digits|, Value(digits) % TWO32)
    decreases |digits| - i
  {
    if i < |digits| {
      assert buf[1 + i] == digits[i];
      NextDigit(digits, i);
      WrapStep(Value(digits[..i]), digits[i] - ZERO);
      CountTakesDigit(table, buf, 1 + i, Value(digits[..i]) % TWO32, Value(digits[..i + 1]) % TWO32);
      CountPassed(table, buf, digits, i + 1);
    } else {
      assert digits[..i] == digits;
    }
  }

  lemma AllCountPassed(table: Table, buf: Text, digits: Text, none: Text, n: nat)
    requires 1 + |digits| <= |buf| && buf[0] == STAR && buf[1..1 + |digits|] == digits && AllDigits(digits)
    requires none == digits[..0] && n == Value(digits) % TWO32
    ensures ParseWith(table, buf) == Count(table, buf, 1 + |digits|, n)
  {
    assert none == [] && Value(none) == 0;
    CountPassed(table, buf, digits, 0);
  }

  lemma CountEnds(table: Table, buf: Text, p: nat, n: nat)
    requires p + 2 <= |buf| && buf[p] == CR && buf[p + 1] == LF
    ensures Count(table, buf, p, n) == AfterCount(table, buf, p + 2, n)
  {
  }

  lemma CountTakesDigit(table: Table, buf: Text, p: nat, sofar: nat, more: nat)
    requires p < |buf| && IsDigit(buf[p]) && more == Push32(sofar, buf[p])
    ensures Count(table, buf, p, sofar) == Count(table, buf, p + 1, more)
  {
  }

  function AfterCount(table: Table, buf: Text, p: nat, n: nat): Outcome {
    if n == 0 then Failed else AfterNameHeader(table, buf, ReadHeader(buf, p, TypeRole, n), n, n - 1)
  }

  lemma FormatHeader(argv: seq<Text>)
    ensures var d := |Digits(|argv|)|;
      && Pos(argv, 0) == d + 3 <= |Format(argv)|
      && Format(argv)[0] == STAR && Format(argv)[1..1 + d] == Digits(|argv|)
      && Format(argv)[1 + d] == CR && Format(argv)[2 + d] == LF
  {
    assert argv[..0] == [];
    StarHeader(Digits(|argv|), Bulks(argv), Format(argv));
  }

  lemma StarHeader(digits: Text, rest: Text, all: Text)
    requires all == [STAR] + digits + CRLF + rest
    ensures var d := |digits|;
      d + 3 <= |all| && all[0] == STAR && all[1..1 + d] == digits && all[1 + d] == CR && all[2 + d] == LF
  {
  }

  lemma NameIsRead(table: Table, argv: seq<Text>)
    requires Fits(argv)
    ensures ParseWith(table, Format(argv)) ==
      if argv == [] || argv[0] == [] then Failed
      else NameFound(Format(argv), SpanOf(argv, 0).end + 1, FindIn(table(|argv[0]|), argv[0], 0), |argv|, |argv| - 1)
  {
    FormatHeader(argv);
    CountHeaderIsRead(table, Format(argv), |argv|, Digits(|argv|));
    if argv != [] {
      FormatIsWritten(argv);
      NameHeaderIsRead(table, argv, Format(argv), Pos(argv, 0), SpanOf(argv, 0));
    }
  }

  lemma CountHeaderIsRead(table: Table, buf: Text, n: nat, digits: Text)
    requires n < TWO32 && digits == Digits(n) && |digits| + 3 <= |buf|
    requires buf[0] == STAR && buf[1..1 + |digits|] == digits
    requires buf[1 + |digits|] == CR && buf[2 + |digits|] == LF
    ensures ParseWith(table, buf) == AfterCount(table, buf, |digits| + 3, n)
  {
    ValueOfDigits(n);
    AllCountPassed(table, buf, digits, digits[..0], n);
    CountEnds(table, buf, 1 + |digits|, n);
  }

  lemma NameHeaderIsRead(table: Table, argv: seq<Text>, buf: Text, p: nat, span: Span)
    requires argv != [] && BulkWritten(buf, p, argv[0], span)
    ensures AfterCount(table, buf, p, |argv|) ==
      if argv[0] == [] then Failed
      else NameFound(buf, span.end + 1, FindIn(table(|argv[0]|), argv[0], 0), |argv|, |argv| - 1)
  {
    NameAfterHeader(table, buf, p, span.start, argv[0], |argv|);
  }

  lemma NameAfterHeader(table: Table, buf: Text, p: nat, start: nat, name: Text, n: nat)
    requires n > 0
    requires ReadHeader(buf, p, TypeRole, n) == if BadLength(TypeRole, |name|, 1, n) then HeaderBad else Header(|name|, start)
    requires start + |name| < |buf| && buf[start..start + |name|] == name && buf[start + |name|] == CR
    ensures AfterCount(table, buf, p, n) ==
      if name == [] then Failed else NameFound(buf, start + |name| + 1, FindIn(table(|name|), name, 0), n, n - 1)
  {
    if name != [] { NameDataFound(table, buf, start, name, n); }
  }

  lemma NameDataFound(table: Table, buf: Text, start: nat, name: Text, n: nat)
    requires start + |name| < |buf| && buf[start..start + |name|] == name && buf[start + |name|] == CR && n > 0
    ensures AfterNameHeader(table, buf, Header(|name|, start), n, n - 1)
         == NameFound(buf, start + |name| + 1, FindIn(table(|name|), name, 0), n, n - 1)
  {
  }

  // The answer, arity by arity.

  /** The spans of arguments i, i + step, i + 2 * step, ... */
  function Spans(argv: seq<Text>, i: nat, step: nat): seq<Span>
    requires step > 0
    decreases |argv| - i
  {
    if i >= |argv| then [] else [SpanOf(argv, i)] + Spans(argv, i + step, step)
  }

  /** What parsing a formatted command has to come to once its name is known: every argument
      of MGET and DEL is a key, every other one of MSET, the fourth word of EVAL and the first
      argument of any other command; and a wrong number of arguments is an error. A name on
      its own runs off the end of the text. */
  function Answer(argv: seq<Text>, t: Command): Outcome
    requires argv != [] && t.Known?
  {
    var n := |argv|;
    if t.arity == ArgZ then Done(Cmd(t, n, n - 1, []))
    else if n == 1 then RanOut(t, [])
    else
      var firstKey := Done(Cmd(t, n, 0, [SpanOf(argv, 1)]));
      match t.arity
      case Arg0 => if n == 2 then firstKey else Failed
      case Arg1 => if n == 3 then firstKey else Failed
      case Arg2 => if n == 4 then firstKey else Failed
      case Arg3 => if n == 5 then firstKey else Failed
      case ArgN => firstKey
      case ArgX => Done(Cmd(t, n, 0, Spans(argv, 1, 1)))
      case ArgKvx => if n == 2 || n % 2 == 1 then Done(Cmd(t, n, 0, Spans(argv, 1, 2))) else Failed
      case ArgEval => if n >= 4 && KeyCountOk(argv[2]) then Done(Cmd(t, n, 0, [SpanOf(argv, 3)])) else Failed
      case ArgZ => Failed
  }

  lemma {:induction false} WalkKeys(argv: seq<Text>, i: nat, c: Cmd)
    requires i < |argv| && c.ctype.Known? && c.ctype.arity == ArgX && c.rnarg == |argv| - i
    ensures Walk(argv, i, KeyRole, c) == Done(c.(rnarg := 0, keys := c.keys + Spans(argv, i, 1)))
    decreases |argv| - i
  {
    var keys := c.keys + [SpanOf(argv, i)];
    if i + 1 < |argv| {
      WalkKeys(argv, i + 1, c.(rnarg := c.rnarg - 1, keys := keys));
    }
    assert c.keys + Spans(argv, i, 1) == keys + Spans(argv, i + 1, 1);
  }

  lemma {:induction false} WalkPairs(argv: seq<Text>, i: nat, c: Cmd)
    requires i < |argv| && i % 2 == 1 && c.ctype.Known? && c.ctype.arity == ArgKvx
    requires c.rnarg == |argv| - i && c.narg == |argv| && |argv| % 2 == 1
    ensures Walk(argv, i, KeyRole, c) == Done(c.(rnarg := 0, keys := c.keys + Spans(argv, i, 2)))
    decreases |argv| - i
  {
    var c2 := c.(rnarg := c.rnarg - 2, keys := c.keys + [SpanOf(argv, i)]);
    WalkPair(argv, i, c, c2);
    if i + 2 < |argv| { WalkPairs(argv, i + 2, c2); }
    Associative(c.keys, [SpanOf(argv, i)], Spans(argv, i + 2, 2));
  }

  /** A key and its value. */
  lemma WalkPair(argv: seq<Text>, i: nat, c: Cmd, c2: Cmd)
    requires i + 1 < |argv| && c.ctype.Known? && c.ctype.arity == ArgKvx
    requires c.rnarg == |argv| - i && c.narg == |argv| && |argv| % 2 == 1
    requires c2 == c.(rnarg := c.rnarg - 2, keys := c.keys + [SpanOf(argv, i)])
    ensures Walk(argv, i, KeyRole, c) == if i + 2 < |argv| then Walk(argv, i + 2, KeyRole, c2) else Done(c2)
  {
    var c1 := c2.(rnarg := c.rnarg - 1);
    WalkStep(argv, i, KeyRole, c, c1, Continue(Arg1Role));
    WalkStep(argv, i + 1, Arg1Role, c1, c2, if i + 2 < |argv| then Continue(KeyRole) else Finish);
  }

  lemma {:induction false} WalkRest(argv: seq<Text>, i: nat, c: Cmd)
    requires i < |argv| && c.ctype.Known? && c.ctype.arity in {ArgN, ArgEval} && c.rnarg == |argv| - i
    ensures Walk(argv, i, ArgNRole, c) == Done(c.(rnarg := 0))
    decreases |argv| - i
  {
    if i + 1 < |argv| { WalkRest(argv, i + 1, c.(rnarg := c.rnarg - 1)); }
  }

  lemma WalkAnswer(argv: seq<Text>, t: Command, c: Cmd)
    requires |argv| > 1 && t.Known? && t.arity != ArgZ && c == Cmd(t, |argv|, |argv| - 1, [])
    ensures Walk(argv, 1, if t.arity == ArgEval then Arg1Role else KeyRole, c) == Answer(argv, t)
  {
    var n := |argv|;
    if t.arity == ArgX {
      WalkKeys(argv, 1, c);
    } else if t.arity == ArgKvx {
      WalkMset(argv, c);
    } else if t.arity == ArgN {
      WalkAny(argv, c);
    } else if t.arity == ArgEval {
      WalkEval(argv, c);
    } else {
      WalkFixed(argv, c, Cmd(t, n, n - 2, [SpanOf(argv, 1)]));
    }
  }

  lemma WalkMset(argv: seq<Text>, c: Cmd)
    requires |argv| > 1 && c.ctype.Known? && c.ctype.arity == ArgKvx && c == Cmd(c.ctype, |argv|, |argv| - 1, [])
    ensures Walk(argv, 1, KeyRole, c) == Answer(argv, c.ctype)
  {
    if |argv| % 2 == 1 {
      WalkPairs(argv, 1, c);
    } else {
      assert |argv| == 2 ==> Spans(argv, 1, 2) == [SpanOf(argv, 1)];
    }
  }

  lemma WalkAny(argv: seq<Text>, c: Cmd)
    requires |argv| > 1 && c.ctype.Known? && c.ctype.arity == ArgN && c == Cmd(c.ctype, |argv|, |argv| - 1, [])
    ensures Walk(argv, 1, KeyRole, c) == Done(Cmd(c.ctype, |argv|, 0, [SpanOf(argv, 1)]))
  {
    var n := |argv|;
    var c1 := Cmd(c.ctype, n, n - 2, [SpanOf(argv, 1)]);
    WalkStep(argv, 1, KeyRole, c, c1, if n == 2 then Finish else Continue(Arg1Role));
    if n > 2 {
      WalkStep(argv, 2, Arg1Role, c1, c1.(rnarg := n - 3), if n == 3 then Finish else Continue(ArgNRole));
      if n > 3 { WalkRest(argv, 3, c1.(rnarg := n - 3)); }
    }
  }

  lemma WalkFixed(argv: seq<Text>, c: Cmd, c1: Cmd)
    requires |argv| > 1 && c.ctype.Known? && c.ctype.arity in {Arg0, Arg1, Arg2, Arg3}
    requires c == Cmd(c.ctype, |argv|, |argv| - 1, []) && c1 == Cmd(c.ctype, |argv|, |argv| - 2, [SpanOf(argv, 1)])
    ensures Walk(argv, 1, KeyRole, c) == Answer(argv, c.ctype)
  {
    WalkStep(argv, 1, KeyRole, c, c1, Decide(KeyRole, c.ctype.arity, c1.rnarg, c.narg));
    WalkFixedArguments(argv, c1);
  }

  lemma WalkFixedArguments(argv: seq<Text>, c1: Cmd)
    requires |argv| > 2 ==> c1.ctype.Known? && c1.ctype.arity in {Arg0, Arg1, Arg2, Arg3}
    requires |argv| > 1 && c1.narg == |argv| && c1.rnarg == |argv| - 2
    ensures |argv| == 3 && c1.ctype == Known(c1.ctype.name, Arg1) ==> Walk(argv, 2, Arg1Role, c1) == Done(c1.(rnarg := 0))
    ensures |argv| == 4 && c1.ctype == Known(c1.ctype.name, Arg2) ==> Walk(argv, 2, Arg1Role, c1) == Done(c1.(rnarg := 0))
    ensures |argv| == 5 && c1.ctype == Known(c1.ctype.name, Arg3) ==> Walk(argv, 2, Arg1Role, c1) == Done(c1.(rnarg := 0))
  {
    var n := |argv|;
    if n == 3 && c1.ctype.arity == Arg1 {
      WalkStep(argv, 2, Arg1Role, c1, c1.(rnarg := 0), Finish);
    } else if n == 4 && c1.ctype.arity == Arg2 {
      WalkStep(argv, 2, Arg1Role, c1, c1.(rnarg := 1), Continue(Arg2Role));
      WalkStep(argv, 3, Arg2Role, c1.(rnarg := 1), c1.(rnarg := 0), Finish);
    } else if n == 5 && c1.ctype.arity == Arg3 {
      WalkStep(argv, 2, Arg1Role, c1, c1.(rnarg := 2), Continue(Arg2Role));
      WalkStep(argv, 3, Arg2Role, c1.(rnarg := 2), c1.(rnarg := 1), Continue(Arg3Role));
      WalkStep(argv, 4, Arg3Role, c1.(rnarg := 1), c1.(rnarg := 0), Finish);
    }
  }

  lemma WalkEval(argv: seq<Text>, c: Cmd)
    requires |argv| > 1 && c.ctype.Known? && c.ctype.arity == ArgEval && c == Cmd(c.ctype, |argv|, |argv| - 1, [])
    ensures Walk(argv, 1, Arg1Role, c) == Answer(argv, c.ctype)
  {
    var n := |argv|;
    WalkStep(argv, 1, Arg1Role, c, c.(rnarg := n - 2), if n < 4 then Reject else Continue(Arg2Role));
    if n >= 4 && KeyCountOk(argv[2]) {
      WalkStep(argv, 2, Arg2Role, c.(rnarg := n - 2), c.(rnarg := n - 3), Continue(KeyRole));
      WalkEvalKey(argv, c.(rnarg := n - 3), c.(rnarg := n - 4, keys := [SpanOf(argv, 3)]));
    }
  }

  lemma WalkEvalKey(argv: seq<Text>, c: Cmd, c': Cmd)
    requires |argv| >= 4 && c.ctype.Known? && c.ctype.arity == ArgEval && c.rnarg == |argv| - 3 && c.keys == []
    requires c' == c.(rnarg := |argv| - 4, keys := [SpanOf(argv, 3)])
    ensures Walk(argv, 3, KeyRole, c) == Done(c'.(rnarg := 0))
  {
    WalkStep(argv, 3, KeyRole, c, c', if |argv| == 4 then Finish else Continue(ArgNRole));
    if |argv| > 4 { WalkRest(argv, 4, c'); }
  }

  /** Formatting a command and parsing it: the whole answer, for every list of arguments. */
  lemma FormatThenParse(argv: seq<Text>)
    requires Fits(argv)
    ensures Parse(Format(argv)) ==
      if argv == [] || argv[0] == [] || Lookup(argv[0]) == Unknown then Failed
      else Answer(argv, Lookup(argv[0]))
  {
    NameIsRead(CommandsOfLength, argv);
    FormatIsWritten(argv);
    if argv != [] && argv[0] != [] {
      AnswerOfWritten(CommandsOfLength, Format(argv), argv, FindIn(CommandsOfLength(|argv[0]|), argv[0], 0));
    }
  }

  lemma AnswerOfWritten(table: Table, buf: Text, argv: seq<Text>, t: Command)
    requires Written(buf, argv) && argv != []
    requires ParseWith(table, buf) == NameFound(buf, SpanOf(argv, 0).end + 1, t, |argv|, |argv| - 1)
    ensures ParseWith(table, buf) == if t == Unknown then Failed else Answer(argv, t)
  {
    if t != Unknown { AnswerFollows(buf, argv, SpanOf(argv, 0), t, Cmd(t, |argv|, |argv| - 1, [])); }
  }

  lemma AnswerFollows(buf: Text, argv: seq<Text>, span: Span, t: Command, c: Cmd)
    requires argv != [] && Written(buf, argv) && span == SpanOf(argv, 0)
    requires t.Known? && c == Cmd(t, |argv|, |argv| - 1, [])
    ensures NameFound(buf, span.end + 1, t, |argv|, |argv| - 1) == Answer(argv, t)
  {
    assert BulkWritten(buf, Pos(argv, 0), argv[0], span);
    LineFeedDecides(buf, span.end + 1, TypeRole, c);
    if t.arity != ArgZ {
      ArgumentsWalk(buf, argv, 1, if t.arity == ArgEval then Arg1Role else KeyRole, c);
      if |argv| > 1 { WalkAnswer(argv, t, c); }
    }
  }
}
