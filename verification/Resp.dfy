/** The command side of the Redis serialization protocol: `redisFormatCommandArgv` of
    `hiredis/hiredis.c` (and its copy in `hiredis-vip/hiredis.c`). */
module Resp {
  import opened Bytes
  import opened DecimalText

  /** A bulk string: `$<length> CR LF <data> CR LF`. */
  function Bulk(arg: Text): Text {
    [DOLLAR] + Digits(|arg|) + CRLF + arg + CRLF
  }

  function Bulks(args: seq<Text>): Text {
    if args == [] then [] else Bulk(args[0]) + Bulks(args[1..])
  }

  /** A command: an array of bulk strings. */
  function Format(argv: seq<Text>): Text {
    [STAR] + Digits(|argv|) + CRLF + Bulks(argv)
  }

  lemma {:induction false} BulksAppend(a: seq<Text>, b: seq<Text>)
    ensures Bulks(a + b) == Bulks(a) + Bulks(b)
  {
    if a == [] {
      assert a + b == b;
    } else {
      assert (a + b)[1..] == a[1..] + b;
      BulksAppend(a[1..], b);
    }
  }

  lemma BulksTwo(first: Text, second: Text)
    ensures Bulks([first, second]) == Bulk(first) + Bulk(second)
  {
    assert [first, second] == [first] + [second];
    BulksAppend([first], [second]);
    BulksOne(first);
    BulksOne(second);
  }

  lemma BulksAround(args: seq<Text>, a: seq<Text>, arg: Text, b: seq<Text>)
    requires args == a + [arg] + b
    ensures Bulks(args) == Bulks(a) + Bulk(arg) + Bulks(b)
    ensures Bulks(a + [arg]) == Bulks(a) + Bulk(arg)
  {
    BulksAppend(a + [arg], b);
    BulksAppend(a, [arg]);
    BulksOne(arg);
  }

  lemma BulksOne(arg: Text)
    ensures Bulks([arg]) == Bulk(arg)
  {
    assert [arg][1..] == [];
  }

  lemma Around<T>(s: seq<T>, j: nat)
    requires j < |s|
    ensures s[..j] + [s[j]] == s[..j + 1] && s == s[..j] + [s[j]] + s[j + 1..]
  {
  }

  lemma BulksSnoc(args: seq<Text>, j: nat)
    requires j < |args|
    ensures Bulks(args) == Bulks(args[..j]) + Bulk(args[j]) + Bulks(args[j + 1..])
    ensures Bulks(args[..j + 1]) == Bulks(args[..j]) + Bulk(args[j])
  {
    Around(args, j);
    BulksAround(args, args[..j], args[j], args[j + 1..]);
  }

  lemma SubSlice(buf: Text, a: nat, t: Text, x: nat, y: nat)
    requires a + |t| <= |buf| && buf[a..a + |t|] == t && x <= y <= |t|
    ensures buf[a + x..a + y] == t[x..y]
  {
    forall k | 0 <= k < y - x ensures buf[a + x..a + y][k] == t[x..y][k] {
      assert t[x + k] == buf[a..a + |t|][x + k];
    }
  }

  lemma SubIndex(buf: Text, a: nat, t: Text, x: nat)
    requires a + |t| <= |buf| && buf[a..a + |t|] == t && x < |t|
    ensures buf[a + x] == t[x]
  {
    assert t[x] == buf[a..a + |t|][x];
  }

  /** The header line of a bulk string at `p`. */
  predicate HeaderAt(buf: Text, p: nat, digits: Text) {
    && p + |digits| + 3 <= |buf| && buf[p] == DOLLAR && buf[p + 1..p + 1 + |digits|] == digits
    && buf[p + 1 + |digits|] == CR && buf[p + 2 + |digits|] == LF
  }

  /** Its bytes and the line end behind them. */
  predicate DataAt(buf: Text, p: nat, arg: Text) {
    p + |arg| + 2 <= |buf| && buf[p..p + |arg|] == arg && buf[p + |arg|] == CR && buf[p + |arg| + 1] == LF
  }

  lemma BulkParts(arg: Text)
    ensures var d := |Digits(|arg|)|;
      |Bulk(arg)| == d + |arg| + 5 && HeaderAt(Bulk(arg), 0, Digits(|arg|)) && DataAt(Bulk(arg), d + 3, arg)
  {
  }

  lemma HeaderInside(buf: Text, p: nat, bulk: Text, digits: Text)
    requires p + |bulk| <= |buf| && buf[p..p + |bulk|] == bulk && HeaderAt(bulk, 0, digits)
    ensures HeaderAt(buf, p, digits)
  {
    SubIndex(buf, p, bulk, 0);
    SubSlice(buf, p, bulk, 1, 1 + |digits|);
    SubIndex(buf, p, bulk, 1 + |digits|);
    SubIndex(buf, p, bulk, 2 + |digits|);
  }

  /** `bulklen`. */
  method BulkLen(len: nat) returns (n: nat)
    requires len < TWO64
    ensures forall arg: Text | |arg| == len :: n == |Bulk(arg)|
  {
    var digits := CountDigits(len);
    n := 1 + digits + 2 + len + 2;
  }

  /** `memcpy` into the command buffer; also stands for the `sprintf` calls, whose output is
      passed in as `text`. */
  method WriteAt(cmd: array<Byte>, pos: nat, text: Text) returns (next: nat)
    requires pos + |text| <= cmd.Length
    modifies cmd
    ensures next == pos + |text|
    ensures cmd[..next] == old(cmd[..pos]) + text
    ensures cmd[next..] == old(cmd[next..])
  {
    var i := 0;
    while i < |text|
      invariant 0 <= i <= |text|
      invariant forall k :: 0 <= k < pos || pos + i <= k < cmd.Length ==> cmd[k] == old(cmd[k])
      invariant forall k :: 0 <= k < i ==> cmd[pos + k] == text[k]
    {
      cmd[pos + i] := text[i];
      i := i + 1;
    }
    next := pos + |text|;
    assert cmd[pos..next] == text;
    assert cmd[..pos] == old(cmd[..pos]);
    assert cmd[..next] == cmd[..pos] + cmd[pos..next];
  }

  method WriteBulk(cmd: array<Byte>, pos: nat, arg: Text) returns (next: nat)
    requires pos + |Bulk(arg)| <= cmd.Length
    modifies cmd
    ensures next == pos + |Bulk(arg)|
    ensures cmd[..next] == old(cmd[..pos]) + Bulk(arg)
  {
    next := WriteAt(cmd, pos, [DOLLAR] + Digits(|arg|) + CRLF);
    next := WriteAt(cmd, next, arg);
    next := WriteAt(cmd, next, CRLF);
  }

  lemma BulkIsNext(header: Text, args: seq<Text>, j: nat)
    requires j < |args|
    ensures header + Bulks(args[..j]) + Bulk(args[j]) == header + Bulks(args[..j + 1])
    ensures |Bulks(args[..j])| + |Bulk(args[j])| <= |Bulks(args)|
  {
    BulksSnoc(args, j);
    Associative(header, Bulks(args[..j]), Bulk(args[j]));
  }

  /** `redisFormatCommandArgv`: the buffer is filled to exactly the length computed for it. */
  method FormatCommandArgv(argv: seq<Text>) returns (cmd: array<Byte>, totlen: nat)
    requires |argv| < 0x8000_0000 && forall j :: 0 <= j < |argv| ==> |argv[j]| < TWO64
    ensures fresh(cmd) && cmd.Length == totlen + 1
    ensures cmd[..totlen] == Format(argv) && cmd[totlen] == NUL
  {
    totlen := TotalLength(argv);
    cmd := new Byte[totlen + 1];
    ghost var header := [STAR] + Digits(|argv|) + CRLF;
    var pos := WriteAt(cmd, 0, [STAR] + Digits(|argv|) + CRLF);
    ghost var written := header;
    assert argv[..0] == [];
    var j := 0;
    while j < |argv|
      invariant 0 <= j <= |argv| && written == header + Bulks(argv[..j])
      invariant pos == |written| <= totlen == |header| + |Bulks(argv)| && cmd[..pos] == written
    {
      BulkIsNext(header, argv, j);
      pos := WriteBulk(cmd, pos, argv[j]);
      written := written + Bulk(argv[j]);
      j := j + 1;
    }
    assert argv[..j] == argv;
    cmd[pos] := NUL;
  }

  method TotalLength(argv: seq<Text>) returns (totlen: nat)
    requires |argv| < 0x8000_0000 && forall j :: 0 <= j < |argv| ==> |argv[j]| < TWO64
    ensures totlen == |Format(argv)|
  {
    var digits := CountDigits(|argv|);
    totlen := 1 + digits + 2;
    var j := 0;
    assert argv[..0] == [];
    while j < |argv|
      invariant 0 <= j <= |argv| && totlen == 3 + |Digits(|argv|)| + |Bulks(argv[..j])|
    {
      BulksSnoc(argv, j);
      var n := BulkLen(|argv[j]|);
      totlen := totlen + n;
      j := j + 1;
    }
    assert argv[..j] == argv;
  }
}
