/** What splitting makes of the spellings that quoting does not produce: bare words, single quotes,
    hexadecimal in capitals, other escapes, runs of blanks, and lines that are refused. */
module SdsForms {
  import opened Bytes
  import opened SdsArgs

  // ---------- one step ----------

  lemma StepScan(mode: Mode, chunk: Text, x: Text, current: Text, mode': Mode, add: Text)
    requires StepOf(mode, chunk + x) == More(mode', add, |chunk|)
    ensures Scan(mode, chunk + x, current) == Scan(mode', x, current + add)
  {
    assert (chunk + x)[|chunk|..] == x;
  }

  predicate Blank(b: Byte) { b == 32 || 9 <= b <= 13 }

  /** Blanks in front of an argument do not matter. */
  lemma BlankSkipped(b: Byte, p: Text)
    requires Blank(b)
    ensures Args([b] + p) == Args(p)
  {
    assert ([b] + p)[1..] == p;
    assert SkipBlanks([b] + p) == SkipBlanks(p);
  }

  // ---------- bare words ----------

  /** A word that can stand without quotes: no blank, no quote and no zero byte; the vertical tab and
      the form feed do not end a word either. */
  predicate Bare(arg: Text) {
    && arg != [] && !Blank(arg[0])
    && forall i :: 0 <= i < |arg| ==> arg[i] !in {0, 32, 9, 10, 13, '"' as int, '\'' as int}
  }

  lemma {:induction false} BareScan(arg: Text, tail: Text, current: Text)
    requires forall i :: 0 <= i < |arg| ==> arg[i] !in {0, 32, 9, 10, 13, '"' as int, '\'' as int}
    requires tail == [] || tail[0] in {32, 9, 10, 13}
    ensures Scan(Plain, arg + tail, current) == Token(current + arg, if tail == [] then [] else tail[1..])
    decreases |arg|
  {
    if arg == [] {
      assert arg + tail == tail && current + arg == current;
      assert tail[0..] == tail;
    } else {
      assert arg + tail == [arg[0]] + (arg[1..] + tail);
      StepScan(Plain, [arg[0]], arg[1..] + tail, current, Plain, [arg[0]]);
      BareScan(arg[1..], tail, current + [arg[0]]);
      assert current + [arg[0]] + arg[1..] == current + arg;
    }
  }

  // ---------- single quotes ----------

  function SingleEscaped(arg: Text): Text {
    if arg == [] then []
    else (if arg[0] == '\'' as int then ['\\' as int, '\'' as int] else [arg[0]]) + SingleEscaped(arg[1..])
  }

  function Single(arg: Text): Text { ['\'' as int] + SingleEscaped(arg) + ['\'' as int] }

  /** No zero byte, and no backslash right before the closing quote. */
  predicate SingleFits(arg: Text) {
    && (forall i :: 0 <= i < |arg| ==> arg[i] != 0)
    && (arg != [] ==> arg[|arg| - 1] != '\\' as int)
  }

  lemma SingleNext(arg: Text, x: Text)
    requires SingleFits(arg) && arg != [] && arg[0] == '\\' as int
    ensures At(SingleEscaped(arg[1..]) + x, 0) != '\'' as int
  {
    assert arg[1..] != [];
  }

  lemma {:induction false} SingleScan(arg: Text, tail: Text, current: Text)
    requires SingleFits(arg) && (tail == [] || Blank(tail[0]))
    ensures Scan(SingleQuoted, SingleEscaped(arg) + (['\'' as int] + tail), current) == Token(current + arg, tail)
    decreases |arg|
  {
    var x: Text := ['\'' as int] + tail;
    if arg == [] {
      assert SingleEscaped(arg) + x == x && x[1..] == tail && current + arg == current;
    } else {
      calc {
        Scan(SingleQuoted, SingleEscaped(arg) + x, current);
        { SingleTakes(arg, x, current); }
        Scan(SingleQuoted, SingleEscaped(arg[1..]) + x, current + [arg[0]]);
        { SingleScan(arg[1..], tail, current + [arg[0]]); }
        Token(current + [arg[0]] + arg[1..], tail);
        { assert current + [arg[0]] + arg[1..] == current + arg; }
        Token(current + arg, tail);
      }
    }
  }

  lemma SingleTakes(arg: Text, x: Text, current: Text)
    requires SingleFits(arg) && arg != []
    ensures Scan(SingleQuoted, SingleEscaped(arg) + x, current) == Scan(SingleQuoted, SingleEscaped(arg[1..]) + x, current + [arg[0]])
  {
    var chunk: Text := if arg[0] == '\'' as int then ['\\' as int, '\'' as int] else [arg[0]];
    var more := SingleEscaped(arg[1..]) + x;
    assert SingleEscaped(arg) + x == chunk + more;
    SingleStep(arg, x, chunk, more);
    StepScan(SingleQuoted, chunk, more, current, SingleQuoted, [arg[0]]);
  }

  lemma SingleStep(arg: Text, x: Text, chunk: Text, more: Text)
    requires SingleFits(arg) && arg != [] && more == SingleEscaped(arg[1..]) + x
    requires chunk == if arg[0] == '\'' as int then ['\\' as int, '\'' as int] else [arg[0]]
    ensures StepOf(SingleQuoted, chunk + more) == More(SingleQuoted, [arg[0]], |chunk|)
  {
    var p := chunk + more;
    assert p[0] == chunk[0];
    if arg[0] == '\'' as int {
      assert p[1] == chunk[1];
    } else if arg[0] == '\\' as int {
      SingleNext(arg, x);
      assert At(p, 1) == At(more, 0);
    }
  }

  // ---------- any mixture ----------

  datatype Style = BareStyle | DoubleStyle | SingleStyle

  predicate Writable(arg: Text, style: Style) {
    match style
    case BareStyle => Bare(arg)
    case DoubleStyle => true
    case SingleStyle => SingleFits(arg)
  }

  function Written(arg: Text, style: Style): Text {
    match style
    case BareStyle => arg
    case DoubleStyle => Repr(arg)
    case SingleStyle => Single(arg)
  }

  function MixedLine(args: seq<Text>, styles: seq<Style>): Text
    requires |args| == |styles|
  {
    if args == [] then []
    else Written(args[0], styles[0]) + if |args| == 1 then [] else [SPACE] + MixedLine(args[1..], styles[1..])
  }

  /** What is left of the line behind a word: the blank that ends it is taken with a bare one. */
  function Behind(style: Style, tail: Text): Text {
    if style.BareStyle? && tail != [] then tail[1..] else tail
  }

  lemma WrittenScan(arg: Text, style: Style, tail: Text)
    requires Writable(arg, style) && (tail == [] || tail[0] == 32)
    ensures Scan(Plain, Written(arg, style) + tail, []) == Token(arg, Behind(style, tail))
    ensures Written(arg, style) != [] && !Blank(Written(arg, style)[0]) && Written(arg, style)[0] != 0
  {
    match style
    case BareStyle =>
      BareScan(arg, tail, []);
      assert [] + arg == arg;
    case DoubleStyle => ReprScan(arg, tail);
    case SingleStyle =>
      var body: Text := SingleEscaped(arg) + (['\'' as int] + tail);
      assert Single(arg) + tail == ['\'' as int] + body;
      StepScan(Plain, ['\'' as int], body, [], SingleQuoted, []);
      SingleScan(arg, tail, [] + []);
      assert [] + [] + arg == arg;
  }

  /** A line of arguments each written bare, in double or in single quotes splits into exactly these
      arguments. */
  lemma {:induction false} MixedSplits(args: seq<Text>, styles: seq<Style>)
    requires |args| == |styles| && forall i :: 0 <= i < |args| ==> Writable(args[i], styles[i])
    ensures Args(MixedLine(args, styles)) == Some(args)
    decreases |args|
  {
    if args != [] {
      var tail: Text := if |args| == 1 then [] else [SPACE] + MixedLine(args[1..], styles[1..]);
      WrittenScan(args[0], styles[0], tail);
      MixedSplits(args[1..], styles[1..]);
      RestSplits(args, styles, tail);
      FirstSplit(Written(args[0], styles[0]) + tail, args[0], Behind(styles[0], tail), args);
    }
  }

  lemma RestSplits(args: seq<Text>, styles: seq<Style>, tail: Text)
    requires args != [] && |args| == |styles|
    requires tail == if |args| == 1 then [] else [SPACE] + MixedLine(args[1..], styles[1..])
    requires Args(MixedLine(args[1..], styles[1..])) == Some(args[1..])
    ensures Args(Behind(styles[0], tail)) == Some(args[1..])
  {
    var more := MixedLine(args[1..], styles[1..]);
    if |args| == 1 {
      assert args[1..] == [] && Args([]) == Some([]);
    } else {
      assert tail[1..] == more;
      BlankSkipped(SPACE, more);
    }
  }

  lemma FirstSplit(line: Text, arg: Text, rest: Text, args: seq<Text>)
    requires line != [] && !Blank(line[0]) && line[0] != 0 && Scan(Plain, line, []) == Token(arg, rest)
    requires args != [] && arg == args[0] && Args(rest) == Some(args[1..])
    ensures Args(line) == Some(args)
  {
    assert SkipBlanks(line) == line;
    assert [arg] + args[1..] == args;
  }

  // ---------- escapes ----------

  /** The value of a hexadecimal digit, small or capital. */
  predicate HexIs(b: Byte, v: nat) {
    || ('0' as int <= b <= '9' as int && v == b - '0' as int)
    || ('a' as int <= b <= 'f' as int && v == 10 + b - 'a' as int)
    || ('A' as int <= b <= 'F' as int && v == 10 + b - 'A' as int)
  }

  /** "\x" and two hexadecimal digits, small or capital, stand for one byte. */
  lemma HexForm(h: Byte, l: Byte, m: nat, n: nat, x: Text, current: Text)
    requires HexIs(h, m) && HexIs(l, n)
    ensures Scan(Quoted, ['\\' as int, 'x' as int, h, l] + x, current) == Scan(Quoted, x, current + [16 * m + n])
  {
    var chunk: Text := ['\\' as int, 'x' as int, h, l];
    var p := chunk + x;
    assert p[0] == chunk[0] && p[1] == chunk[1] && p[2] == h && p[3] == l;
    StepScan(Quoted, chunk, x, current, Quoted, [16 * m + n]);
  }

  function Meant(b: Byte): Byte {
    if b == 'n' as int then 10 else if b == 'r' as int then 13 else if b == 't' as int then 9
    else if b == 'b' as int then 8 else if b == 'a' as int then 7 else b
  }

  /** A backslash and any other byte. */
  lemma EscapeForm(b: Byte, x: Text, current: Text)
    requires b != 0 && b != 'x' as int
    ensures Scan(Quoted, ['\\' as int, b] + x, current) == Scan(Quoted, x, current + [Meant(b)])
  {
    var chunk: Text := ['\\' as int, b];
    var p := chunk + x;
    assert p[0] == chunk[0] && p[1] == b;
    StepScan(Quoted, chunk, x, current, Quoted, [Meant(b)]);
  }

  /** How quoting writes each byte. */
  lemma EscapeWritten(b: Byte)
    ensures b in {'\\' as int, '"' as int} ==> Escape(b) == ['\\' as int, b]
    ensures b in {10, 13, 9, 7, 8} ==> |Escape(b)| == 2 && Escape(b)[0] == '\\' as int && Meant(Escape(b)[1]) == b && Escape(b)[1] != b
    ensures 32 <= b <= 126 && b !in {'\\' as int, '"' as int} ==> Escape(b) == [b]
    ensures (b > 126 || (b < 32 && b !in {10, 13, 9, 7, 8})) ==>
      |Escape(b)| == 4 && Escape(b)[..2] == ['\\' as int, 'x' as int] && HexIs(Escape(b)[2], b / 16) && HexIs(Escape(b)[3], b % 16)
      && Escape(b)[2] !in {65, 66, 67, 68, 69, 70} && Escape(b)[3] !in {65, 66, 67, 68, 69, 70}
  {
  }

  // ---------- refused lines ----------

  lemma OpenRefused(c: Byte, mode: Mode, body: Text)
    requires (c == '"' as int && mode == Quoted) || (c == '\'' as int && mode == SingleQuoted)
    requires Scan(mode, body, []) == Unbalanced
    ensures Args([c] + body) == None
  {
    var p, none: Text := [c] + body, [];
    StepScan(Plain, [c], body, none, mode, none);
    assert none + none == none;
    assert SkipBlanks(p) == p;
  }

  /** A quote that is not closed refuses the line. */
  lemma Unclosed(arg: Text)
    ensures Args(['"' as int] + Escaped(arg)) == None
    ensures SingleFits(arg) ==> Args(['\'' as int] + SingleEscaped(arg)) == None
  {
    UnclosedDouble(arg, []);
    OpenRefused('"' as int, Quoted, Escaped(arg));
    if SingleFits(arg) {
      UnclosedSingle(arg, []);
      OpenRefused('\'' as int, SingleQuoted, SingleEscaped(arg));
    }
  }

  lemma {:induction false} UnclosedDouble(arg: Text, current: Text)
    ensures Scan(Quoted, Escaped(arg), current) == Unbalanced
    decreases |arg|
  {
    if arg != [] {
      EscapedTakes(arg, [], current);
      assert Escaped(arg) + [] == Escaped(arg) && Escaped(arg[1..]) + [] == Escaped(arg[1..]);
      UnclosedDouble(arg[1..], current + [arg[0]]);
    }
  }

  lemma {:induction false} UnclosedSingle(arg: Text, current: Text)
    requires SingleFits(arg)
    ensures Scan(SingleQuoted, SingleEscaped(arg), current) == Unbalanced
    decreases |arg|
  {
    if arg != [] {
      SingleTakes(arg, [], current);
      assert SingleEscaped(arg) + [] == SingleEscaped(arg) && SingleEscaped(arg[1..]) + [] == SingleEscaped(arg[1..]);
      UnclosedSingle(arg[1..], current + [arg[0]]);
    }
  }

  /** Right behind a closing quote only a blank or the end may follow. */
  lemma GluedRefused(arg: Text, b: Byte, rest: Text)
    requires !Blank(b) && b != 0
    ensures Args(['"' as int] + (Escaped(arg) + (['"' as int] + ([b] + rest)))) == None
  {
    var tail: Text := [b] + rest;
    var body: Text := Escaped(arg) + (['"' as int] + tail);
    GluedDouble(arg, tail, []);
    OpenRefused('"' as int, Quoted, body);
  }

  lemma {:induction false} GluedDouble(arg: Text, tail: Text, current: Text)
    requires tail != [] && !Blank(tail[0]) && tail[0] != 0
    ensures Scan(Quoted, Escaped(arg) + (['"' as int] + tail), current) == Unbalanced
    decreases |arg|
  {
    var x: Text := ['"' as int] + tail;
    if arg == [] {
      assert Escaped(arg) + x == x && x[0] == QUOTE && x[1] == tail[0];
    } else {
      EscapedTakes(arg, x, current);
      GluedDouble(arg[1..], tail, current + [arg[0]]);
    }
  }

  // ---------- ranges ----------

  /** Positions from the front, from the back, past the end, and ranges that are empty. */
  lemma RangeForms(s: Text, a: nat, b: nat)
    ensures a <= b < |s| ==> Range(s, a, b) == s[a..b + 1]
    ensures a <= b && a < |s| <= b ==> Range(s, a, b) == s[a..]
    ensures a > b || a >= |s| ==> Range(s, a, b) == []
    ensures 0 < b <= a <= |s| ==> Range(s, 0 - a, 0 - b) == s[|s| - a..|s| - b + 1]
    ensures 0 < b <= |s| < a ==> Range(s, 0 - a, 0 - b) == s[..|s| - b + 1]
  {
  }
}
