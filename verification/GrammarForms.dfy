/** What `redis_parse_cmd` (`hiredis-vip/command.c`) makes of texts that no client formats: lengths
    and counts with leading zeros, too long or missing, other bytes in the place of a marker or a
    line end, texts cut short, and the key counts of EVAL. */
module GrammarForms {
  import opened Bytes
  import opened DecimalText
  import opened CommandTable
  import opened CommandGrammar
  import opened CommandLaws
  import opened CommandClasses
  import opened Resp

  /** A decimal number with `k` zeros in front. */
  function Padded(k: nat, n: nat): Text {
    if k == 0 then Digits(n) else [ZERO] + Padded(k - 1, n)
  }

  lemma {:induction false} PaddedValue(k: nat, n: nat)
    ensures Padded(k, n) != [] && AllDigits(Padded(k, n)) && Value(Padded(k, n)) == n
  {
    if k == 0 {
      ValueOfDigits(n);
    } else {
      PaddedValue(k - 1, n);
      ZeroInFront(Padded(k - 1, n));
    }
  }

  lemma {:induction false} ZeroInFront(s: Text)
    requires AllDigits(s)
    ensures AllDigits([ZERO] + s) && Value([ZERO] + s) == Value(s)
  {
    if s == [] {
      assert Value([]) == 0;
      assert [ZERO] + s == [ZERO] && [ZERO][..0] == [];
    } else {
      ZeroInFront(s[..|s| - 1]);
      assert ([ZERO] + s)[..|s|] == [ZERO] + s[..|s| - 1];
    }
  }

  // ---------- the key count of EVAL and EVALSHA ----------

  /** A written number is taken unless it is a multiple of 2^32. */
  lemma KeyCountTaken(k: nat, n: nat)
    ensures KeyCountOk(Padded(k, n)) <==> n % 0x1_0000_0000 != 0
  {
    PaddedValue(k, n);
  }

  /** Nothing at all, or any byte but a digit, is refused. */
  lemma KeyCountRefused(s: Text)
    requires s == [] || exists i :: 0 <= i < |s| && !(48 <= s[i] <= 57)
    ensures !KeyCountOk(s)
  {
  }

  /** EVAL and EVALSHA take their one key from the fourth word, behind a written key count; the
      count is not compared with the number of words behind it. */
  lemma EvalParsed(argv: seq<Text>, w: string, k: nat, n: nat)
    requires Fits(argv) && |argv| >= 4 && w in ["eval", "evalsha"] && Matches(argv[0], w) && argv[2] == Padded(k, n)
    ensures Parse(Format(argv)) ==
      if n % 0x1_0000_0000 == 0 then Failed else Done(Cmd(Known(w, ArgEval), |argv|, 0, [SpanOf(argv, 3)]))
  {
    KeyCountTaken(k, n);
    ParsedByClass(argv, w, ArgEval);
  }

  /** Too few words, or a third word that is no number, are refused. */
  lemma EvalRefused(argv: seq<Text>, w: string)
    requires Fits(argv) && |argv| >= 2 && w in ["eval", "evalsha"] && Matches(argv[0], w)
    requires |argv| < 4 || argv[2] == [] || exists i :: 0 <= i < |argv[2]| && !(48 <= argv[2][i] <= 57)
    ensures Parse(Format(argv)) == Failed
  {
    if |argv| >= 4 { KeyCountRefused(argv[2]); }
    ParsedByClass(argv, w, ArgEval);
  }

  // ---------- what each class takes ----------

  /** A command with `a` arguments behind its key takes exactly those. */
  lemma FixedParsed(argv: seq<Text>, w: string, a: nat)
    requires Fits(argv) && |argv| >= 2 && a <= 3 && InClass(w, [Arg0, Arg1, Arg2, Arg3][a]) && Matches(argv[0], w)
    ensures Parse(Format(argv)).Done? <==> |argv| == 2 + a
    ensures Parse(Format(argv)).Failed? <==> |argv| != 2 + a
    ensures Parse(Format(argv)).Done? ==> KeysIn(Parse(Format(argv))) == [SpanOf(argv, 1)]
  {
    ParsedByClass(argv, w, [Arg0, Arg1, Arg2, Arg3][a]);
  }

  /** A command with any number of arguments has its first one as the key. */
  lemma AnyParsed(argv: seq<Text>, w: string)
    requires Fits(argv) && |argv| >= 2 && InClass(w, ArgN) && Matches(argv[0], w)
    ensures Parse(Format(argv)).Done? && KeysIn(Parse(Format(argv))) == [SpanOf(argv, 1)]
  {
    ParsedByClass(argv, w, ArgN);
  }

  lemma {:induction false} SpansAre(argv: seq<Text>, i: nat, step: nat, j: nat)
    requires step > 0 && i + j * step < |argv|
    ensures j < |Spans(argv, i, step)| && Spans(argv, i, step)[j] == SpanOf(argv, i + j * step)
    decreases j
  {
    if j > 0 {
      assert i + step + (j - 1) * step == i + j * step;
      SpansAre(argv, i + step, step, j - 1);
    }
  }

  lemma {:induction false} SpansUpTo(argv: seq<Text>, i: nat, step: nat, n: nat)
    requires step > 0 && n > 0 && i + (n - 1) * step < |argv| <= i + n * step
    ensures |Spans(argv, i, step)| == n
    decreases n
  {
    if n > 1 {
      assert i + step + (n - 2) * step == i + (n - 1) * step && i + step + (n - 1) * step == i + n * step;
      SpansUpTo(argv, i + step, step, n - 1);
    }
  }

  /** MGET and DEL take every word behind the name as a key. */
  lemma KeysParsed(argv: seq<Text>, w: string, j: nat)
    requires Fits(argv) && j + 1 < |argv| && w in ["mget", "del"] && Matches(argv[0], w)
    ensures Parse(Format(argv)).Done?
    ensures var keys := KeysIn(Parse(Format(argv))); |keys| == |argv| - 1 && keys[j] == SpanOf(argv, 1 + j)
  {
    ParsedByClass(argv, w, ArgX);
    SpansUpTo(argv, 1, 1, |argv| - 1);
    SpansAre(argv, 1, 1, j);
  }

  lemma PairSpans(argv: seq<Text>, j: nat)
    requires 1 + 2 * j < |argv| && (|argv| == 2 || |argv| % 2 == 1)
    ensures |Spans(argv, 1, 2)| == |argv| / 2 && Spans(argv, 1, 2)[j] == SpanOf(argv, 1 + 2 * j)
  {
    SpansUpTo(argv, 1, 2, |argv| / 2);
    SpansAre(argv, 1, 2, j);
  }

  /** MSET takes pairs, the first word of each being a key, or a single key alone. */
  lemma PairsParsed(argv: seq<Text>, j: nat)
    requires Fits(argv) && 1 + 2 * j < |argv| && Matches(argv[0], "mset")
    ensures Parse(Format(argv)).Done? <==> |argv| == 2 || |argv| % 2 == 1
    ensures Parse(Format(argv)).Failed? <==> |argv| != 2 && |argv| % 2 == 0
    ensures
      var keys := KeysIn(Parse(Format(argv)));
      Parse(Format(argv)).Done? ==> |keys| == |argv| / 2 && keys[j] == SpanOf(argv, 1 + 2 * j)
  {
    ParsedByClass(argv, "mset", ArgKvx);
    if |argv| == 2 || |argv| % 2 == 1 { PairSpans(argv, j); }
  }

  // ---------- lengths ----------

  /** A digit run is read as its value in 32 bits, whatever its length; it is refused when no bulk
      string is left, when it is zero for the name, and when it is empty for anything but a name or
      a key. */
  lemma LengthForms(buf: Text, p: nat, digits: Text, role: Role, rnarg: nat)
    requires HeaderAt(buf, p, digits) && AllDigits(digits)
    ensures
      var n := Value(digits) % 0x1_0000_0000;
      var taken := rnarg > 0 && (role == TypeRole ==> n > 0) && (role !in {TypeRole, KeyRole} ==> digits != []);
      ReadHeader(buf, p, role, rnarg) == if taken then Header(n, p + 3 + |digits|) else HeaderBad
  {
    var n := Value(digits) % TWO32;
    HeaderRead(buf, p, digits, n, role, rnarg);
  }

  /** Another byte than `$` in front, than CR behind the digits, or than LF behind CR is an error. */
  lemma LengthRefused(buf: Text, p: nat, digits: Text, role: Role, rnarg: nat)
    requires p + 1 + |digits| < |buf| && buf[p + 1..p + 1 + |digits|] == digits && AllDigits(digits)
    requires var q := p + 1 + |digits|;
      buf[p] != 36 || (!(48 <= buf[q] <= 57) && buf[q] != 13) || (buf[q] == 13 && q + 1 < |buf| && buf[q + 1] != 10)
    ensures ReadHeader(buf, p, role, rnarg) == HeaderBad
  {
    if buf[p] == DOLLAR {
      HeaderDigits(buf, p, digits, Value(digits) % TWO32, role, rnarg);
    }
  }

  /** A text that ends inside a length is not refused. */
  lemma LengthCut(buf: Text, p: nat, digits: Text, role: Role, rnarg: nat)
    requires p >= |buf| || (p + 1 + |digits| == |buf| && buf[p] == 36 && buf[p + 1..] == digits && AllDigits(digits))
    ensures ReadHeader(buf, p, role, rnarg) == HeaderEnd
  {
    if p < |buf| { HeaderDigits(buf, p, digits, Value(digits) % TWO32, role, rnarg); }
  }

  // ---------- the count line ----------

  /** The number of words is read in 32 bits too; none at all is an error, and so is another byte
      than CR behind the digits or than LF behind CR. */
  lemma CountForms(digits: Text, rest: Text, buf: Text)
    requires AllDigits(digits) && buf == [STAR] + digits + rest && rest != [] && !(48 <= rest[0] <= 57)
    requires rest[0] != 13 || Value(digits) % 0x1_0000_0000 == 0 || (|rest| > 1 && rest[1] != 10)
    ensures Parse(buf) == Failed
  {
    assert buf[1..1 + |digits|] == digits;
    AllCountPassed(CommandsOfLength, buf, digits, digits[..0], Value(digits) % TWO32);
  }

  /** Only a star starts a command. */
  lemma StarNeeded(buf: Text)
    requires buf != [] && buf[0] != 42
    ensures Parse(buf) == Failed
  {
  }

  /** A text that ends inside the count leaves the result as it was: no type, no keys, no error. */
  lemma CountCut(digits: Text, buf: Text)
    requires AllDigits(digits) && (buf == [] || buf == [STAR] + digits)
    ensures Parse(buf) == RanOut(Unknown, [])
  {
    if buf != [] {
      assert buf[1..1 + |digits|] == digits;
      AllCountPassed(CommandsOfLength, buf, digits, digits[..0], Value(digits) % TWO32);
    }
  }

  // ---------- the data of an argument ----------

  /** The announced length is held to: the byte behind the data has to be there and be CR, and LF
      has to come next. */
  lemma DataRefused(buf: Text, p: nat, digits: Text, role: Role, c: Cmd)
    requires c.ctype.Known? && role != TypeRole && HeaderAt(buf, p, digits) && AllDigits(digits)
    requires
      var start := p + 3 + |digits|;
      var end := start + Value(digits) % 0x1_0000_0000;
      start < |buf| && (end >= |buf| || buf[end] != 13 || (end + 1 < |buf| && buf[end + 1] != 10))
    ensures Argument(buf, p, role, c) == Failed
  {
    var n := Value(digits) % TWO32;
    HeaderRead(buf, p, digits, n, role, c.rnarg);
    if c.rnarg > 0 { DataFails(buf, p + 3 + |digits|, n, role, c.(rnarg := c.rnarg - 1)); }
    HeaderThenFails(buf, p, ReadHeader(buf, p, role, c.rnarg), role, c);
  }

  lemma DataFails(buf: Text, start: nat, n: nat, role: Role, c: Cmd)
    requires c.ctype.Known? && start < |buf|
    requires var end := start + n; end >= |buf| || buf[end] != CR || (end + 1 < |buf| && buf[end + 1] != LF)
    ensures Data(buf, start, n, role, c) == Failed
  {
  }

  lemma HeaderThenFails(buf: Text, p: nat, h: Header, role: Role, c: Cmd)
    requires c.ctype.Known? && h == ReadHeader(buf, p, role, c.rnarg) && h != HeaderEnd
    requires h.Header? ==> c.rnarg > 0 && Data(buf, h.next, h.len, role, c.(rnarg := c.rnarg - 1)) == Failed
    ensures Argument(buf, p, role, c) == Failed
  {
  }
}
