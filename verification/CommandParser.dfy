/** `redis_parse_cmd` of `hiredis-vip/command.c`, the byte-at-a-time machine. Its 27 states
    are three for the argument count and four for each of the six bulk string roles. */
module CommandParser {
  import opened Bytes
  import opened DecimalText
  import opened CommandTable
  import opened CommandGrammar

  datatype State =
    | NArg                   // SW_START and SW_NARG
    | NArgLf                 // SW_NARG_LF
    | Len(role: Role)        // SW_REQ_TYPE_LEN, SW_KEY_LEN, SW_ARG1_LEN, ...
    | LenLf(role: Role)      // SW_..._LEN_LF
    | Body(role: Role)       // SW_REQ_TYPE, SW_KEY, SW_ARG1, ...
    | BodyLf(role: Role)     // SW_..._LF

  /** The local variables of the function and the fields of `struct cmd` it fills in;
      `accepted` counts the bulk string headers accepted so far. */
  datatype Machine = Machine(
    state: State, p: nat, token: Option<nat>, rlen: nat, rnarg: nat,
    ctype: Command, narg: nat, keys: seq<Span>, accepted: nat)

  const START := Machine(NArg, 0, None, 0, 0, Unknown, 0, [], 0)

  /** What one turn of the loop ends in. */
  datatype Turn = Running | ToDone | ToError

  /** Which variables are meaningful in which state; the count of accepted headers and the
      count of those to come always add up to the announced number of arguments. */
  predicate Valid(m: Machine) {
    match m.state
    case NArg => m.token.Some? || m.p == 0
    case NArgLf => m.token == None && m.narg > 0 && m.rnarg == m.narg && m.accepted == 0
    case Len(role) => Counted(m, role) && (m.token.Some? ==> m.token.value < m.p)
    case LenLf(role) => Counted(m, role) && m.token == None
    case Body(role) => Counted(m, role) && m.token == None
    case BodyLf(role) => Counted(m, ArgNRole) && m.token == None
  }

  predicate Counted(m: Machine, role: Role) {
    m.accepted + m.rnarg == m.narg > 0 && (role == TypeRole ==> m.ctype == Unknown && m.keys == []) && (role != TypeRole ==> m.ctype.Known?)
  }

  /** Every recorded key span lies inside the text and stops at a carriage return. */
  predicate KeysInside(buf: Text, keys: seq<Span>) {
    forall i :: 0 <= i < |keys| ==> keys[i].start <= keys[i].end < |buf| && buf[keys[i].end] == CR
  }

  function Here(m: Machine): Cmd {
    Cmd(m.ctype, m.narg, m.rnarg, m.keys)
  }

  function Spent(m: Machine): Cmd {
    if m.rnarg > 0 then Cmd(m.ctype, m.narg, m.rnarg - 1, m.keys) else Here(m)
  }

  /** What the grammar makes of the rest of the text. */
  function Rest(table: Table, buf: Text, m: Machine): Outcome
    requires Valid(m)
  {
    match m.state
    case NArg => if m.token == None then ParseWith(table, buf) else Count(table, buf, m.p, m.rnarg)
    case NArgLf => CountLineFeed(table, buf, m.p, m.narg)
    case Len(role) => RestOfHeader(table, buf, m, role)
    case LenLf(role) =>
      if role == TypeRole then AfterNameHeader(table, buf, ReadLineFeed(buf, m.p, m.rlen), m.narg, m.rnarg)
      else AfterHeader(buf, m.p, ReadLineFeed(buf, m.p, m.rlen), role, Here(m))
    case Body(role) =>
      if role == TypeRole then NameData(table, buf, m.p, m.rlen, m.narg, m.rnarg)
      else Data(buf, m.p, m.rlen, role, Here(m))
    case BodyLf(role) => LineFeed(buf, m.p, role, Here(m))
  }

  function RestOfHeader(table: Table, buf: Text, m: Machine, role: Role): Outcome
    requires Counted(m, role) && (m.token.Some? ==> m.token.value < m.p)
  {
    var h := if m.token == None then ReadHeader(buf, m.p, role, m.rnarg)
             else ReadDigits(buf, m.p, m.token.value, m.rlen, role, m.rnarg);
    if role == TypeRole then AfterNameHeader(table, buf, h, m.narg, Spent(m).rnarg)
    else AfterHeader(buf, m.p, h, role, Spent(m))
  }

  predicate Ready(buf: Text, m: Machine) {
    Valid(m) && KeysInside(buf, m.keys) && (m.state.NArg? || m.state.NArgLf? ==> m.ctype == Unknown && m.keys == [])
  }

  /** A turn moves on without changing what the grammar makes of the text, or stops where the
      grammar does. */
  predicate Sound(table: Table, buf: Text, m: Machine, turn: Turn, m': Machine)
    requires Valid(m)
  {
    match turn
    case Running => Ready(buf, m') && m'.p > m.p && Rest(table, buf, m') == Rest(table, buf, m)
    case ToError => Rest(table, buf, m) == Failed
    case ToDone => m' == m && m.state.BodyLf? && Rest(table, buf, m) == Done(Here(m))
  }

  /** States SW_START and SW_NARG. */
  method CountStep(table: Table, buf: Text, m: Machine) returns (turn: Turn, m': Machine)
    requires m.state == NArg && Ready(buf, m) && m.p < |buf|
    ensures Sound(table, buf, m, turn, m')
  {
    var ch := buf[m.p];
    m' := m;
    if m.token == None {
      if ch != STAR { return ToError, m; }
      m' := m'.(token := Some(m.p), rnarg := 0);
    } else if IsDigit(ch) {
      m' := m'.(rnarg := Push32(m.rnarg, ch));
    } else if ch == CR {
      if m.rnarg == 0 { return ToError, m; }
      m' := m'.(narg := m.rnarg, accepted := 0, token := None, state := NArgLf);
    } else {
      return ToError, m;
    }
    m' := m'.(p := m.p + 1);
    turn := Running;
  }

  /** State SW_NARG_LF. */
  method CountLfStep(table: Table, buf: Text, m: Machine) returns (turn: Turn, m': Machine)
    requires m.state == NArgLf && Ready(buf, m) && m.p < |buf|
    ensures Sound(table, buf, m, turn, m')
  {
    if buf[m.p] != LF { return ToError, m; }
    m' := m.(state := Len(TypeRole), p := m.p + 1);
    turn := Running;
  }

  /** The SW_..._LEN states. */
  method LenStep(table: Table, buf: Text, m: Machine) returns (turn: Turn, m': Machine)
    requires m.state.Len? && Ready(buf, m) && m.p < |buf|
    ensures Sound(table, buf, m, turn, m')
  {
    var ch, role := buf[m.p], m.state.role;
    m' := m;
    if m.token == None {
      if ch != DOLLAR { return ToError, m; }
      m' := m'.(token := Some(m.p), rlen := 0);
    } else if IsDigit(ch) {
      m' := m'.(rlen := Push32(m.rlen, ch));
    } else if ch == CR {
      if BadLength(role, m.rlen, m.p - m.token.value - 1, m.rnarg) { return ToError, m; }
      m' := m'.(rnarg := m.rnarg - 1, accepted := m.accepted + 1, token := None, state := LenLf(role));
    } else {
      return ToError, m;
    }
    m' := m'.(p := m.p + 1);
    turn := Running;
  }

  /** The SW_..._LEN_LF states. */
  method LenLfStep(table: Table, buf: Text, m: Machine) returns (turn: Turn, m': Machine)
    requires m.state.LenLf? && Ready(buf, m) && m.p < |buf|
    ensures Sound(table, buf, m, turn, m')
  {
    if buf[m.p] != LF { return ToError, m; }
    m' := m.(state := Body(m.state.role), p := m.p + 1);
    turn := Running;
  }

  /** State SW_REQ_TYPE. */
  method NameStep(table: Table, buf: Text, m: Machine) returns (turn: Turn, m': Machine)
    requires m.state == Body(TypeRole) && Ready(buf, m) && m.p < |buf|
    ensures Sound(table, buf, m, turn, m')
  {
    var end := m.p + m.rlen;
    if end >= |buf| || buf[end] != CR { return ToError, m; }
    var ctype := FindIn(table(m.rlen), buf[m.p..end], 0);
    if ctype == Unknown { return ToError, m; }
    m' := m.(rlen := 0, ctype := ctype, state := BodyLf(TypeRole), p := end + 1);
    turn := Running;
  }

  /** States SW_KEY, SW_ARG1, SW_ARG2, SW_ARG3 and SW_ARGN. */
  method BodyStep(table: Table, buf: Text, m: Machine) returns (turn: Turn, m': Machine)
    requires m.state.Body? && m.state.role != TypeRole && Ready(buf, m) && m.p < |buf|
    ensures Sound(table, buf, m, turn, m')
  {
    var role, end := m.state.role, m.p + m.rlen;
    if end >= |buf| || buf[end] != CR { return ToError, m; }
    m' := m.(rlen := 0, state := BodyLf(role), p := end + 1);
    if role == KeyRole {
      m' := m'.(keys := m.keys + [Span(m.p, end)]);
    } else if role == Arg2Role && m.ctype.arity == ArgEval {
      var ok := CheckKeyCount(buf[m.p..end]);
      if !ok { return ToError, m; }
    }
    turn := Running;
  }

  /** The loop in state SW_ARG2 that reads the key count of EVAL and EVALSHA. */
  method CheckKeyCount(s: Text) returns (ok: bool)
    ensures ok == KeyCountOk(s)
  {
    if |s| < 1 { return false; }
    var nkey, chp := 0, 0;
    while chp < |s|
      invariant 0 <= chp <= |s| && AllDigits(s[..chp]) && nkey == Value(s[..chp]) % TWO32
    {
      if !IsDigit(s[chp]) { return false; }
      NextDigit(s, chp);
      WrapStep(Value(s[..chp]), s[chp] - ZERO);
      nkey := Push32(nkey, s[chp]);
      chp := chp + 1;
    }
    assert s[..chp] == s;
    ok := nkey != 0;
  }

  /** The SW_..._LF states that end a bulk string. */
  method BodyLfStep(table: Table, buf: Text, m: Machine) returns (turn: Turn, m': Machine)
    requires m.state.BodyLf? && Ready(buf, m) && m.p < |buf|
    ensures Sound(table, buf, m, turn, m')
  {
    if buf[m.p] != LF { return ToError, m; }
    match Decide(m.state.role, m.ctype.arity, m.rnarg, m.narg)
    case Finish => return ToDone, m;
    case Reject => return ToError, m;
    case Continue(role) =>
      assert role != TypeRole && Rest(table, buf, m) == Argument(buf, m.p + 1, role, Here(m));
      m' := m.(state := Len(role), p := m.p + 1);
      turn := Running;
  }

  /** One turn of the loop. */
  method Step(table: Table, buf: Text, m: Machine) returns (turn: Turn, m': Machine)
    requires Ready(buf, m) && m.p < |buf|
    ensures Sound(table, buf, m, turn, m')
  {
    match m.state
    case NArg => turn, m' := CountStep(table, buf, m);
    case NArgLf => turn, m' := CountLfStep(table, buf, m);
    case Len(_) => turn, m' := LenStep(table, buf, m);
    case LenLf(_) => turn, m' := LenLfStep(table, buf, m);
    case Body(role) =>
      if role == TypeRole { turn, m' := NameStep(table, buf, m); } else { turn, m' := BodyStep(table, buf, m); }
    case BodyLf(_) => turn, m' := BodyLfStep(table, buf, m);
  }

  lemma RestAtEnd(table: Table, buf: Text, m: Machine)
    requires Ready(buf, m) && m.p >= |buf|
    ensures Rest(table, buf, m) == RanOut(m.ctype, m.keys)
  {
  }

  /** `redis_parse_cmd`. At `done` the headers accepted and the bulk strings still to come add
      up to the announced count, and every key span is inside the text with CR at its end. */
  method ParseCmd(buf: Text) returns (out: Outcome)
    ensures out == Parse(buf)
    ensures out.Done? ==> KeysInside(buf, out.cmd.keys)
    ensures out.RanOut? ==> KeysInside(buf, out.keys)
  {
    var m := START;
    var turn := Running;
    while m.p < |buf|
      invariant Ready(buf, m) && m.p >= 0
      invariant Rest(CommandsOfLength, buf, m) == ParseWith(CommandsOfLength, buf)
      decreases |buf| - m.p
    {
      turn, m := Step(CommandsOfLength, buf, m);
      if turn == ToDone { return Done(Here(m)); }
      if turn == ToError { return Failed; }
    }
    RestAtEnd(CommandsOfLength, buf, m);
    out := RanOut(m.ctype, m.keys);
  }
}
