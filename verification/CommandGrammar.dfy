/** What `redis_parse_cmd` (`hiredis-vip/command.c`) accepts, as a grammar: a header, then
    bulk strings, each with a role that decides what may follow it. `CommandParser` proves
    that the byte-at-a-time machine computes `Parse`. */
module CommandGrammar {
  import opened Bytes
  import opened DecimalText
  import opened CommandTable

  /** The role of the bulk string being read. */
  datatype Role = TypeRole | KeyRole | Arg1Role | Arg2Role | Arg3Role | ArgNRole

  datatype Span = Span(start: nat, end: nat)

  /** The parts of `struct cmd` that parsing fills in; `rnarg` counts the bulk strings still
      to come. */
  datatype Cmd = Cmd(ctype: Command, narg: nat, rnarg: nat, keys: seq<Span>)

  /** How parsing ends: at `done`, at `error`, or by running off the end of the text, which
      leaves the initial OK result standing. */
  datatype Outcome = Done(cmd: Cmd) | RanOut(ctype: Command, keys: seq<Span>) | Failed

  /** The keys a parsed text goes on with; a text that is cut short keeps those read. */
  function KeysIn(out: Outcome): seq<Span> {
    match out
    case Done(cmd) => cmd.keys
    case RanOut(_, keys) => keys
    case Failed => []
  }

  function TypeIn(out: Outcome): Command {
    match out
    case Done(cmd) => cmd.ctype
    case RanOut(ctype, _) => ctype
    case Failed => Unknown
  }

  datatype Next = Finish | Reject | Continue(role: Role)

  /** The decision taken at the line feed that ends a bulk string. */
  function Decide(role: Role, arity: Arity, rnarg: nat, narg: nat): Next {
    match role
    case TypeRole =>
      if arity == ArgZ then Finish else if arity == ArgEval then Continue(Arg1Role) else Continue(KeyRole)
    case KeyRole => (
      match arity
      case Arg0 => if rnarg != 0 then Reject else Finish
      case Arg1 => if rnarg != 1 then Reject else Continue(Arg1Role)
      case Arg2 => if rnarg != 2 then Reject else Continue(Arg1Role)
      case Arg3 => if rnarg != 3 then Reject else Continue(Arg1Role)
      case ArgN => if rnarg == 0 then Finish else Continue(Arg1Role)
      case ArgX => if rnarg == 0 then Finish else Continue(KeyRole)
      case ArgKvx => if rnarg == 0 then Finish else if narg % 2 == 0 then Reject else Continue(Arg1Role)
      case ArgEval => if rnarg == 0 then Finish else Continue(ArgNRole)
      case ArgZ => Reject)
    case Arg1Role => (
      match arity
      case Arg1 => if rnarg != 0 then Reject else Finish
      case Arg2 => if rnarg != 1 then Reject else Continue(Arg2Role)
      case Arg3 => if rnarg != 2 then Reject else Continue(Arg2Role)
      case ArgN => if rnarg == 0 then Finish else Continue(ArgNRole)
      case ArgEval => if rnarg < 2 then Reject else Continue(Arg2Role)
      case ArgKvx => if rnarg == 0 then Finish else Continue(KeyRole)
      case _ => Reject)
    case Arg2Role => (
      match arity
      case Arg2 => if rnarg != 0 then Reject else Finish
      case Arg3 => if rnarg != 1 then Reject else Continue(Arg3Role)
      case ArgN => if rnarg == 0 then Finish else Continue(ArgNRole)
      case ArgEval => if rnarg < 1 then Reject else Continue(KeyRole)
      case _ => Reject)
    case Arg3Role => (
      match arity
      case Arg3 => if rnarg != 0 then Reject else Finish
      case ArgN => if rnarg == 0 then Finish else Continue(ArgNRole)
      case _ => Reject)
    case ArgNRole =>
      if arity != ArgN && arity != ArgEval then Reject else if rnarg == 0 then Finish else Continue(ArgNRole)
  }

  // ---------- length headers ----------

  /** A header `$<digits> CR LF`: the length and where the data starts. */
  datatype Header = Header(len: nat, next: nat) | HeaderEnd | HeaderBad

  /** A `uint32_t` accumulating decimal digits. */
  function Push32(n: nat, digit: Byte): nat
    requires IsDigit(digit)
  {
    (n * 10 + (digit - ZERO)) % TWO32
  }

  /** What the carriage return of a length header is refused for: no bulk string left, and
      a zero length for the command name or no digit at all for an argument. */
  predicate BadLength(role: Role, len: nat, digits: nat, rnarg: nat) {
    || rnarg == 0
    || (role == TypeRole && len == 0)
    || (role != TypeRole && role != KeyRole && digits == 0)
  }

  function ReadHeader(buf: Text, p: nat, role: Role, rnarg: nat): (h: Header)
    ensures h.Header? ==> p < h.next <= |buf| && rnarg > 0
  {
    if p >= |buf| then HeaderEnd
    else if buf[p] != DOLLAR then HeaderBad
    else ReadDigits(buf, p + 1, p, 0, role, rnarg)
  }

  function ReadDigits(buf: Text, p: nat, token: nat, len: nat, role: Role, rnarg: nat): (h: Header)
    requires token < p
    ensures h.Header? ==> p < h.next <= |buf| && rnarg > 0
    decreases |buf| - p
  {
    if p >= |buf| then HeaderEnd
    else if IsDigit(buf[p]) then ReadDigits(buf, p + 1, token, Push32(len, buf[p]), role, rnarg)
    else if buf[p] != CR || BadLength(role, len, p - token - 1, rnarg) then HeaderBad
    else ReadLineFeed(buf, p + 1, len)
  }

  function ReadLineFeed(buf: Text, p: nat, len: nat): (h: Header)
    ensures h.Header? ==> h.next == p + 1 <= |buf|
  {
    if p >= |buf| then HeaderEnd else if buf[p] != LF then HeaderBad else Header(len, p + 1)
  }

  // ---------- bulk strings after the command name ----------

  /** The key count of EVAL and EVALSHA: digits only and not zero as a `uint32_t`. */
  predicate KeyCountOk(s: Text) {
    s != [] && AllDigits(s) && Value(s) % TWO32 != 0
  }

  function Argument(buf: Text, p: nat, role: Role, c: Cmd): Outcome
    requires c.ctype.Known?
    decreases |buf| - p, 3
  {
    var h := ReadHeader(buf, p, role, c.rnarg);
    AfterHeader(buf, p, h, role, if c.rnarg > 0 then c.(rnarg := c.rnarg - 1) else c)
  }

  function AfterHeader(buf: Text, ghost p: nat, h: Header, role: Role, c: Cmd): Outcome
    requires c.ctype.Known? && (h.Header? ==> p < h.next <= |buf|)
    decreases |buf| - p, 2
  {
    match h
    case HeaderEnd => RanOut(c.ctype, c.keys)
    case HeaderBad => Failed
    case Header(len, next) => Data(buf, next, len, role, c)
  }

  function Data(buf: Text, p: nat, len: nat, role: Role, c: Cmd): Outcome
    requires c.ctype.Known?
    decreases |buf| - p, 1
  {
    if p >= |buf| then RanOut(c.ctype, c.keys)
    else if p + len >= |buf| || buf[p + len] != CR then Failed
    else if role == Arg2Role && c.ctype.arity == ArgEval && !KeyCountOk(buf[p..p + len]) then Failed
    else LineFeed(buf, p + len + 1, role, if role == KeyRole then c.(keys := c.keys + [Span(p, p + len)]) else c)
  }

  function LineFeed(buf: Text, p: nat, role: Role, c: Cmd): Outcome
    requires c.ctype.Known?
    decreases |buf| - p, 0
  {
    if p >= |buf| then RanOut(c.ctype, c.keys)
    else if buf[p] != LF then Failed
    else
      match Decide(role, c.ctype.arity, c.rnarg, c.narg)
      case Finish => Done(c)
      case Reject => Failed
      case Continue(role') => Argument(buf, p + 1, role', c)
  }

  // ---------- the argument count and the command name ----------

  /** The names of each length. */
  type Table = nat -> seq<Command>

  function Parse(buf: Text): Outcome {
    ParseWith(CommandsOfLength, buf)
  }

  function ParseWith(table: Table, buf: Text): Outcome {
    if buf == [] then RanOut(Unknown, [])
    else if buf[0] != STAR then Failed
    else Count(table, buf, 1, 0)
  }

  function Count(table: Table, buf: Text, p: nat, n: nat): Outcome
    decreases |buf| - p
  {
    if p >= |buf| then RanOut(Unknown, [])
    else if IsDigit(buf[p]) then Count(table, buf, p + 1, Push32(n, buf[p]))
    else if buf[p] != CR || n == 0 then Failed
    else CountLineFeed(table, buf, p + 1, n)
  }

  function CountLineFeed(table: Table, buf: Text, p: nat, n: nat): Outcome
    requires n > 0
  {
    if p >= |buf| then RanOut(Unknown, [])
    else if buf[p] != LF then Failed
    else AfterNameHeader(table, buf, ReadHeader(buf, p + 1, TypeRole, n), n, n - 1)
  }

  function AfterNameHeader(table: Table, buf: Text, h: Header, narg: nat, rnarg: nat): Outcome {
    match h
    case HeaderEnd => RanOut(Unknown, [])
    case HeaderBad => Failed
    case Header(len, next) => NameData(table, buf, next, len, narg, rnarg)
  }

  function NameData(table: Table, buf: Text, p: nat, len: nat, narg: nat, rnarg: nat): Outcome {
    if p >= |buf| then RanOut(Unknown, [])
    else if p + len >= |buf| || buf[p + len] != CR then Failed
    else NameFound(buf, p + len + 1, FindIn(table(len), buf[p..p + len], 0), narg, rnarg)
  }

  function NameFound(buf: Text, p: nat, ctype: Command, narg: nat, rnarg: nat): Outcome {
    if ctype == Unknown then Failed else LineFeed(buf, p, TypeRole, Cmd(ctype, narg, rnarg, []))
  }
}
