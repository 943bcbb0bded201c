/** Quoting and splitting of argument lines (`hiredis/sds.c`): what `sdscatrepr` writes,
    `sdssplitargs` reads back. A pointer into a line is the text from there on. */
module SdsArgs {
  import opened Bytes

  /** What a pointer sees at distance `k`; the terminator behind the end. */
  function At(p: Text, k: nat): Byte {
    if k < |p| then p[k] else NUL
  }

  predicate IsSpace(b: Byte) { b == SPACE || 9 <= b <= 13 }

  predicate IsPrint(b: Byte) { 32 <= b <= 126 }

  predicate IsHexDigit(b: Byte) { IsDigit(b) || 97 <= b <= 102 || 65 <= b <= 70 }

  function HexValue(b: Byte): nat {
    if IsDigit(b) then b - 48 else if 97 <= b <= 102 then b - 87 else if 65 <= b <= 70 then b - 55 else 0
  }

  function HexDigit(n: nat): Byte
    requires n < 16
  {
    if n < 10 then 48 + n else 87 + n
  }

  const LETTER_A: Byte := 97
  const LETTER_B: Byte := 98
  const LETTER_N: Byte := 110
  const LETTER_R: Byte := 114
  const LETTER_T: Byte := 116
  const LETTER_X: Byte := 120

  // ---------- quoting ----------

  function Escape(b: Byte): Text {
    if b == BACKSLASH || b == QUOTE then [BACKSLASH, b]
    else if b == LF then [BACKSLASH, LETTER_N]
    else if b == CR then [BACKSLASH, LETTER_R]
    else if b == TAB then [BACKSLASH, LETTER_T]
    else if b == BELL then [BACKSLASH, LETTER_A]
    else if b == BACKSPACE then [BACKSLASH, LETTER_B]
    else if IsPrint(b) then [b]
    else [BACKSLASH, LETTER_X, HexDigit(b / 16), HexDigit(b % 16)]
  }

  function Escaped(arg: Text): Text {
    if arg == [] then [] else Escape(arg[0]) + Escaped(arg[1..])
  }

  function Repr(arg: Text): Text {
    [QUOTE] + Escaped(arg) + [QUOTE]
  }

  /** The quoted arguments, one space between two. */
  function Line(args: seq<Text>): Text {
    if args == [] then []
    else if |args| == 1 then Repr(args[0])
    else Repr(args[0]) + [SPACE] + Line(args[1..])
  }

  /** `sdscatrepr`. */
  method CatRepr(s: Text, arg: Text) returns (r: Text)
    ensures r == s + Repr(arg)
  {
    r := s + [QUOTE];
    assert Escaped(arg[|arg|..]) == [];
    var p := arg;
    while p != []
      invariant r + Escaped(p) == s + [QUOTE] + Escaped(arg)
      decreases |p|
    {
      ghost var before := r;
      r := r + Escape(p[0]);
      assert r + Escaped(p[1..]) == before + (Escape(p[0]) + Escaped(p[1..]));
      p := p[1..];
    }
    assert r == s + [QUOTE] + Escaped(arg);
    r := r + [QUOTE];
  }

  // ---------- splitting ----------

  datatype Mode = Plain | Quoted | SingleQuoted

  /** An argument and the rest of the line, or unbalanced quotes. */
  datatype Scanned = Unbalanced | Token(arg: Text, rest: Text)

  function Unescape(b: Byte): Byte {
    if b == LETTER_N then LF
    else if b == LETTER_R then CR
    else if b == LETTER_T then TAB
    else if b == LETTER_B then BACKSPACE
    else if b == LETTER_A then BELL
    else b
  }

  predicate IsHexEscape(p: Text) {
    At(p, 0) == BACKSLASH && At(p, 1) == LETTER_X && IsHexDigit(At(p, 2)) && IsHexDigit(At(p, 3))
  }

  predicate EndsWord(b: Byte) {
    b == SPACE || b == LF || b == CR || b == TAB || b == NUL
  }

  predicate MayFollowQuote(b: Byte) { b == NUL || IsSpace(b) }

  /** One step of the scan: go on with more text, or stop. */
  datatype Step = More(mode: Mode, add: Text, used: nat) | End(used: nat) | Err

  function StepOf(mode: Mode, p: Text): (s: Step)
    ensures s.More? ==> 0 < s.used <= |p|
    ensures s.End? ==> s.used <= |p| && (At(p, 0) != NUL ==> s.used > 0)
  {
    var b := At(p, 0);
    match mode
    case Quoted =>
      if IsHexEscape(p) then More(Quoted, [(HexValue(At(p, 2)) * 16 + HexValue(At(p, 3))) % 256], 4)
      else if b == BACKSLASH && At(p, 1) != NUL then More(Quoted, [Unescape(At(p, 1))], 2)
      else if b == QUOTE then (if MayFollowQuote(At(p, 1)) then End(1) else Err)
      else if b == NUL then Err
      else More(Quoted, [b], 1)
    case SingleQuoted =>
      if b == BACKSLASH && At(p, 1) == APOSTROPHE then More(SingleQuoted, [APOSTROPHE], 2)
      else if b == APOSTROPHE then (if MayFollowQuote(At(p, 1)) then End(1) else Err)
      else if b == NUL then Err
      else More(SingleQuoted, [b], 1)
    case Plain =>
      if EndsWord(b) then End(if b == NUL then 0 else 1)
      else if b == QUOTE then More(Quoted, [], 1)
      else if b == APOSTROPHE then More(SingleQuoted, [], 1)
      else More(Plain, [b], 1)
  }

  function Scan(mode: Mode, p: Text, current: Text): (r: Scanned)
    ensures r.Token? ==> |r.rest| <= |p| && (At(p, 0) != NUL ==> |r.rest| < |p|)
    decreases |p|
  {
    match StepOf(mode, p)
    case Err => Unbalanced
    case End(used) => Token(current, p[used..])
    case More(mode', add, used) => Scan(mode', p[used..], current + add)
  }

  function SkipBlanks(p: Text): (r: Text)
    ensures |r| <= |p| && (At(r, 0) == NUL || !IsSpace(At(r, 0)))
  {
    if p != [] && IsSpace(p[0]) then SkipBlanks(p[1..]) else p
  }

  function Args(p: Text): Option<seq<Text>>
    decreases |p|
  {
    var q := SkipBlanks(p);
    if At(q, 0) == NUL then Some([])
    else
      match Scan(Plain, q, [])
      case Unbalanced => None
      case Token(arg, rest) =>
        match Args(rest)
        case None => None
        case Some(args) => Some([arg] + args)
  }

  function ModeOf(inq: bool, insq: bool): Mode {
    if inq then Quoted else if insq then SingleQuoted else Plain
  }

  /** The inner loop of `sdssplitargs`: one argument. */
  method GetToken(start: Text) returns (r: Scanned)
    ensures r == Scan(Plain, start, [])
  {
    var p, current: Text := start, [];
    var inq, insq, done := false, false, false;
    while !done
      invariant if done then Scan(Plain, start, []) == Token(current, p)
                else Scan(Plain, start, []) == Scan(ModeOf(inq, insq), p, current)
      decreases !done, |p|
    {
      ghost var mode, was, had := ModeOf(inq, insq), p, current;
      if inq {
        if IsHexEscape(p) {
          current := current + [(HexValue(At(p, 2)) * 16 + HexValue(At(p, 3))) % 256];
          p := p[3..];
        } else if At(p, 0) == BACKSLASH && At(p, 1) != NUL {
          p := p[1..];
          current := current + [Unescape(At(p, 0))];
        } else if At(p, 0) == QUOTE {
          if At(p, 1) != NUL && !IsSpace(At(p, 1)) { return Unbalanced; }
          done := true;
        } else if At(p, 0) == NUL {
          return Unbalanced;
        } else {
          current := current + [At(p, 0)];
        }
      } else if insq {
        if At(p, 0) == BACKSLASH && At(p, 1) == APOSTROPHE {
          p := p[1..];
          current := current + [APOSTROPHE];
        } else if At(p, 0) == APOSTROPHE {
          if At(p, 1) != NUL && !IsSpace(At(p, 1)) { return Unbalanced; }
          done := true;
        } else if At(p, 0) == NUL {
          return Unbalanced;
        } else {
          current := current + [At(p, 0)];
        }
      } else {
        if EndsWord(At(p, 0)) {
          done := true;
        } else if At(p, 0) == QUOTE {
          inq := true;
        } else if At(p, 0) == APOSTROPHE {
          insq := true;
        } else {
          current := current + [At(p, 0)];
        }
      }
      if At(p, 0) != NUL { p := p[1..]; }
      StepTaken(mode, was, had, p, current, ModeOf(inq, insq), done);
    }
    r := Token(current, p);
  }

  /** The loop has done what the step says. */
  predicate Taken(step: Step, was: Text, had: Text, p: Text, current: Text, mode: Mode, done: bool) {
    match step
    case Err => false
    case End(used) => used <= |was| && done && p == was[used..] && current == had
    case More(m, add, used) => used <= |was| && !done && m == mode && p == was[used..] && current == had + add
  }

  /** One round of the loop is one step of the scan. */
  lemma StepTaken(mode: Mode, was: Text, had: Text, p: Text, current: Text, mode': Mode, done: bool)
    requires Taken(StepOf(mode, was), was, had, p, current, mode', done)
    ensures if done then Scan(mode, was, had) == Token(current, p) else Scan(mode, was, had) == Scan(mode', p, current)
    ensures !done ==> |p| < |was|
  {
  }

  /** `sdssplitargs`. */
  method SplitArgs(line: Text) returns (vector: Option<seq<Text>>)
    ensures vector == Args(line)
  {
    var p, args: seq<Text> := line, [];
    PrependNothing(Args(line));
    while true
      invariant Args(line) == Prepend(args, Args(p))
      decreases |p|
    {
      ghost var was := p;
      while p != [] && IsSpace(p[0])
        invariant SkipBlanks(p) == SkipBlanks(was) && |p| <= |was|
        decreases |p|
      {
        p := p[1..];
      }
      if At(p, 0) == NUL {
        assert args + [] == args;
        return Some(args);
      }
      var token := GetToken(p);
      if token.Unbalanced? { return None; }
      PrependSnoc(args, token.arg, Args(token.rest));
      args := args + [token.arg];
      p := token.rest;
    }
  }

  function Prepend(args: seq<Text>, more: Option<seq<Text>>): Option<seq<Text>> {
    if more.None? then None else Some(args + more.value)
  }

  lemma PrependNothing(more: Option<seq<Text>>)
    ensures Prepend([], more) == more
  {
    if more.Some? { assert [] + more.value == more.value; }
  }

  lemma PrependSnoc(args: seq<Text>, arg: Text, more: Option<seq<Text>>)
    ensures Prepend(args + [arg], more) == Prepend(args, Prepend([arg], more))
  {
    if more.Some? { assert args + ([arg] + more.value) == (args + [arg]) + more.value; }
  }

  // ---------- splitting undoes quoting ----------

  lemma HexPair(b: Byte)
    ensures IsHexDigit(HexDigit(b / 16)) && IsHexDigit(HexDigit(b % 16))
    ensures HexValue(HexDigit(b / 16)) * 16 + HexValue(HexDigit(b % 16)) == b
  {
  }

  lemma HexStep(b: Byte, p: Text)
    requires |p| >= 4 && p[..4] == [BACKSLASH, LETTER_X, HexDigit(b / 16), HexDigit(b % 16)]
    ensures StepOf(Quoted, p) == More(Quoted, [b], 4)
  {
    HexPair(b);
    assert p[0] == p[..4][0] && p[1] == p[..4][1] && p[2] == p[..4][2] && p[3] == p[..4][3];
  }

  lemma PairStep(b: Byte, c: Byte, p: Text)
    requires |p| >= 2 && p[..2] == [BACKSLASH, c] && c != NUL && c != LETTER_X && Unescape(c) == b
    ensures StepOf(Quoted, p) == More(Quoted, [b], 2)
  {
    assert p[0] == p[..2][0] && p[1] == p[..2][1];
  }

  /** Every escape is read as one step that gives the byte back. */
  lemma EscapeStep(b: Byte, x: Text)
    ensures StepOf(Quoted, Escape(b) + x) == More(Quoted, [b], |Escape(b)|)
  {
    var e := Escape(b);
    var p := e + x;
    assert p[..|e|] == e;
    if |e| == 4 {
      HexStep(b, p);
    } else if |e| == 2 {
      PairStep(b, e[1], p);
    } else {
      assert p[0] == b;
    }
  }

  lemma EscapeScan(b: Byte, x: Text, current: Text)
    ensures Scan(Quoted, Escape(b) + x, current) == Scan(Quoted, x, current + [b])
  {
    EscapeStep(b, x);
    var e := Escape(b);
    assert (e + x)[|e|..] == x;
  }

  lemma EscapedTakes(arg: Text, x: Text, current: Text)
    requires arg != []
    ensures Scan(Quoted, Escaped(arg) + x, current) == Scan(Quoted, Escaped(arg[1..]) + x, current + [arg[0]])
  {
    var e, more := Escape(arg[0]), Escaped(arg[1..]);
    assert Escaped(arg) + x == e + (more + x);
    EscapeScan(arg[0], more + x, current);
  }

  lemma {:induction false} EscapedScan(arg: Text, current: Text, tail: Text)
    requires MayFollowQuote(At(tail, 0))
    ensures Scan(Quoted, Escaped(arg) + ([QUOTE] + tail), current) == Token(current + arg, tail)
    decreases |arg|
  {
    var x: Text := [QUOTE] + tail;
    if arg == [] {
      QuoteEnds(current, tail);
      assert [] + x == x && current + [] == current;
    } else {
      calc {
        Scan(Quoted, Escaped(arg) + x, current);
        { EscapedTakes(arg, x, current); }
        Scan(Quoted, Escaped(arg[1..]) + x, current + [arg[0]]);
        { EscapedScan(arg[1..], current + [arg[0]], tail); }
        Token((current + [arg[0]]) + arg[1..], tail);
        { assert (current + [arg[0]]) + arg[1..] == current + arg; }
        Token(current + arg, tail);
      }
    }
  }

  lemma QuoteEnds(current: Text, tail: Text)
    requires MayFollowQuote(At(tail, 0))
    ensures Scan(Quoted, [QUOTE] + tail, current) == Token(current, tail)
  {
    var p := [QUOTE] + tail;
    assert p[1..] == tail;
  }

  lemma OpeningQuote(body: Text)
    ensures Scan(Plain, [QUOTE] + body, []) == Scan(Quoted, body, [])
  {
    var p: Text, none: Text := [QUOTE] + body, [];
    assert p[1..] == body && StepOf(Plain, p) == More(Quoted, [], 1) && none + none == none;
  }

  lemma ReprScan(arg: Text, tail: Text)
    requires MayFollowQuote(At(tail, 0))
    ensures Scan(Plain, Repr(arg) + tail, []) == Token(arg, tail)
  {
    ReprParts(Escaped(arg), tail);
    QuotedScan(arg, Repr(arg) + tail, tail);
  }

  lemma QuotedScan(arg: Text, p: Text, tail: Text)
    requires MayFollowQuote(At(tail, 0)) && p == [QUOTE] + (Escaped(arg) + ([QUOTE] + tail))
    ensures Scan(Plain, p, []) == Token(arg, tail)
  {
    OpeningQuote(Escaped(arg) + ([QUOTE] + tail));
    EscapedScan(arg, [], tail);
    assert [] + arg == arg;
  }

  lemma ReprParts(escaped: Text, tail: Text)
    ensures [QUOTE] + escaped + [QUOTE] + tail == [QUOTE] + (escaped + ([QUOTE] + tail))
  {
  }

  /** Quoting any list of byte strings and splitting the line gives exactly that list: empty
      strings, quotes, backslashes and zero bytes included. */
  lemma {:induction false} SplitUndoesQuoting(args: seq<Text>)
    ensures Args(Line(args)) == Some(args)
  {
    if args != [] {
      var tail: Text := if |args| == 1 then [] else [SPACE] + Line(args[1..]);
      var p := Line(args);
      assert p == Repr(args[0]) + tail;
      assert p[0] == QUOTE;
      ReprScan(args[0], tail);
      SplitUndoesQuoting(args[1..]);
      if |args| > 1 {
        assert tail[1..] == Line(args[1..]);
        SkipOne(tail);
      }
      assert [args[0]] + args[1..] == args;
    }
  }

  lemma SkipOne(tail: Text)
    requires tail != [] && tail[0] == SPACE
    ensures Args(tail) == Args(tail[1..])
  {
    assert SkipBlanks(tail) == SkipBlanks(tail[1..]);
  }

  // ---------- cutting out a range ----------

  /** Positions count from the end when negative; both ends belong to the range. */
  function FromEnd(i: int, len: nat): nat {
    if i >= 0 then i else if len + i < 0 then 0 else len + i
  }

  function Range(s: Text, start: int, end: int): Text {
    var a, b := FromEnd(start, |s|), FromEnd(end, |s|);
    var stop := if b + 1 > |s| then |s| else b + 1;
    if a >= stop then [] else s[a..stop]
  }

  /** `sdsrange`. */
  method SdsRange(s: Text, start: int, end: int) returns (r: Text)
    ensures r == Range(s, start, end)
  {
    var len := |s|;
    if len == 0 { return s; }
    var a, b := start, end;
    if a < 0 {
      a := len + a;
      if a < 0 { a := 0; }
    }
    if b < 0 {
      b := len + b;
      if b < 0 { b := 0; }
    }
    var newlen := if a > b then 0 else b - a + 1;
    if newlen != 0 {
      if a >= len {
        newlen := 0;
      } else if b >= len {
        b := len - 1;
        newlen := if a > b then 0 else b - a + 1;
      }
    } else {
      a := 0;
    }
    r := if newlen == 0 then [] else s[a..a + newlen];
  }

  /** Cutting off what has been read leaves the rest, nothing when all has been read. */
  lemma RangeDropsFront(s: Text, pos: nat)
    requires pos <= |s|
    ensures Range(s, pos, -1) == s[pos..]
  {
  }
}
