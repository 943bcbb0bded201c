/** Cutting a node's file into blocks and putting a task's file together again from the blocks of
    all nodes (`_read_csv/read_csv.cpp`, `_file_recovery/re_file.cpp`). */
module Recovery {
  import opened Bytes
  import opened DecimalText
  import opened Sorting
  import opened Merge

  const MAX_BLOCK_SIZE := 55000
  const MAX_LINE_SIZE := 40
  const NODE_NUM := 5

  // ---------- lines ----------

  /** The number of a line, up to the first comma from `from` on. */
  function NumberAt(l: Text, from: nat): nat
    requires from <= |l|
  {
    var digits := l[from..FirstIndex(l, COMMA, from)];
    if AllDigits(digits) then Value(digits) else 0
  }

  /** A line without its task id: a comma, the line number, a comma and so on to the end of the
      line. It fits the buffers and survives being part of a command. */
  predicate IsStored(l: Text) {
    && 1 < |l| < MAX_LINE_SIZE && l[0] == COMMA && l[|l| - 1] == LF && LF !in l[..|l| - 1]
    && SPACE !in l && PERCENT !in l && NUL !in l
    && var e := FirstIndex(l, COMMA, 1);
       1 < e < |l| && e - 1 < 20 && AllDigits(l[1..e]) && Value(l[1..e]) <= INT_MAX
  }

  /** The line number of a stored line. */
  function Num(l: Text): nat {
    if l == [] then 0 else NumberAt(l, 1)
  }

  /** A line of a node's file: a task id below a hundred without leading zeros, then the rest. */
  predicate IsInput(l: Text) {
    var e := FirstIndex(l, COMMA, 0);
    0 < e <= 2 && e < |l| && AllDigits(l[..e]) && l[..e] == Digits(Value(l[..e])) && IsStored(l[e..])
  }

  /** What the insertion loop can handle: a line with a first field of at most two bytes and more
      than the comma behind it, whether it ends in a line feed or not. */
  predicate IsLine(l: Text) {
    var e := FirstIndex(l, COMMA, 0);
    e <= 2 && e < |l| && 1 < |l| < 200 && NUL !in l
  }

  predicate AreLines(file: seq<Text>) {
    forall i :: 0 <= i < |file| ==> IsLine(file[i])
  }

  predicate IsNodeFile(file: seq<Text>) {
    forall i :: 0 <= i < |file| ==> IsInput(file[i])
  }

  // ---------- task ids ----------

  predicate IsBlank(b: Byte) { b == SPACE || 9 <= b <= 13 }

  function Leading(t: Text): (digits: Text)
    ensures AllDigits(digits) && |digits| <= |t|
  {
    if t == [] || !IsDigit(t[0]) then [] else [t[0]] + Leading(t[1..])
  }

  /** `atoi`: blanks, a sign, and the digits up to the first byte that is none. */
  function Atoi(t: Text): int {
    if t != [] && IsBlank(t[0]) then Atoi(t[1..])
    else if t != [] && t[0] == MINUS then 0 - Value(Leading(t[1..]))
    else if t != [] && t[0] == PLUS then Value(Leading(t[1..]))
    else Value(Leading(t))
  }

  /** The id of a line: the number in its first field. */
  function TaskOf(l: Text): int { Atoi(l[..FirstIndex(l, COMMA, 0)]) }

  lemma {:induction false} LeadingAll(t: Text)
    requires AllDigits(t)
    ensures Leading(t) == t
  {
    if t != [] { LeadingAll(t[1..]); }
  }

  lemma AtoiDigits(t: Text)
    requires AllDigits(t)
    ensures Atoi(t) == Value(t)
  {
    LeadingAll(t);
  }

  lemma {:induction false} LeadingRun(digits: Text, x: Text)
    requires AllDigits(digits) && (x == [] || !IsDigit(x[0]))
    ensures Leading(digits + x) == digits
  {
    if digits == [] {
      assert digits + x == x;
    } else {
      assert (digits + x)[1..] == digits[1..] + x;
      LeadingRun(digits[1..], x);
    }
  }

  /** A number, behind a sign or not, is read up to the first byte that is no digit; blanks in front
      do not matter, and anything else in front stands for zero. */
  lemma AtoiForms(n: nat, x: Text, b: Byte, t: Text)
    requires x == [] || !IsDigit(x[0])
    ensures Atoi(Digits(n) + x) == n
    ensures Atoi(['-' as int] + (Digits(n) + x)) == -(n as int)
    ensures Atoi(['+' as int] + (Digits(n) + x)) == n
    ensures b == 32 || 9 <= b <= 13 ==> Atoi([b] + t) == Atoi(t)
    ensures b != 32 && !(9 <= b <= 13) && !('0' as int <= b <= '9' as int) && b != '-' as int && b != '+' as int ==> Atoi([b] + t) == 0
    ensures Atoi([]) == 0
  {
    var d: Text := Digits(n);
    ValueOfDigits(n);
    LeadingRun(d, x);
    assert (['-' as int] + (d + x))[1..] == d + x && (['+' as int] + (d + x))[1..] == d + x;
    assert ([b] + t)[1..] == t;
  }

  lemma {:induction false} ValueBound(digits: Text)
    requires AllDigits(digits)
    ensures Value(digits) < Pow10(|digits|)
  {
    if digits != [] { ValueBound(digits[..|digits| - 1]); }
  }

  lemma {:induction false} AtoiBound(t: Text)
    ensures Atoi(t) < Pow10(|t|)
    decreases |t|
  {
    if t != [] {
      var rest, digits := t[1..], Leading(t[1..]);
      PowGrows(|rest|, |t|);
      if IsBlank(t[0]) {
        AtoiBound(rest);
      } else {
        ValueBound(digits);
        ValueBound(Leading(t));
        PowGrows(|digits|, |t|);
        PowGrows(|Leading(t)|, |t|);
      }
    }
  }

  lemma {:induction false} PowGrows(a: nat, b: nat)
    requires a <= b
    ensures 1 <= Pow10(a) <= Pow10(b)
    decreases b
  {
    if a < b { PowGrows(a, b - 1); } else if a > 0 { PowGrows(a - 1, a - 1); }
  }

  function LineNumber(l: Text): nat { Num(l[FirstIndex(l, COMMA, 0)..]) }

  /** The line without as many bytes as the task's id is written with. */
  function Cut(l: Text, task: nat): Text {
    if |Digits(task)| <= |l| then l[|Digits(task)|..] else []
  }

  /** The line from the first comma on. */
  function Rest(l: Text): Text { l[FirstIndex(l, COMMA, 0)..] }

  /** Taking the task id off a line of the task and putting it back. */
  lemma CutAndRestore(l: Text, task: nat)
    requires IsInput(l) && TaskOf(l) == task
    ensures var cut := Cut(l, task);
      cut == Rest(l) && IsStored(cut) && Digits(task) + cut == l && Num(cut) == LineNumber(l)
  {
    var e := FirstIndex(l, COMMA, 0);
    AtoiDigits(l[..e]);
    assert Digits(task) == l[..e] && l[..e] + l[e..] == l;
  }

  /** The id of a line's own task is never the whole line. */
  lemma CutLeaves(l: Text, task: nat)
    requires IsLine(l) && TaskOf(l) == task
    ensures |Digits(task)| < |l| && Cut(l, task) != []
  {
    var e := FirstIndex(l, COMMA, 0);
    AtoiBound(l[..e]);
    var k := if e == 0 then 1 else e;
    PowGrows(e, k);
    DigitsBound(task, k);
  }

  lemma InputIsLine(file: seq<Text>)
    requires IsNodeFile(file)
    ensures AreLines(file)
  {
    forall i | 0 <= i < |file| ensures IsLine(file[i]) {
      assert IsInput(file[i]);
      var l, e := file[i], FirstIndex(file[i], COMMA, 0);
      assert l[e..][|l[e..]| - 1] == l[|l| - 1];
    }
  }

  /** What a node has of a task, in the order of its file, the ids cut off. */
  function Mine(file: seq<Text>, task: nat): seq<Text> {
    if file == [] then []
    else
      var l := file[|file| - 1];
      Mine(file[..|file| - 1], task) + if TaskOf(l) == task then [Cut(l, task)] else []
  }

  lemma {:induction false} MineStored(file: seq<Text>, task: nat)
    requires IsNodeFile(file)
    ensures AllStored(Mine(file, task))
  {
    if file != [] {
      MineStored(file[..|file| - 1], task);
      if TaskOf(file[|file| - 1]) == task { CutAndRestore(file[|file| - 1], task); }
    }
  }

  function Concat(lines: seq<Text>): Text {
    if lines == [] then [] else Concat(lines[..|lines| - 1]) + lines[|lines| - 1]
  }

  function Flat(parts: seq<seq<Text>>): seq<Text> {
    if parts == [] then [] else Flat(parts[..|parts| - 1]) + parts[|parts| - 1]
  }

  predicate AllStored(lines: seq<Text>) {
    forall i :: 0 <= i < |lines| ==> IsStored(lines[i])
  }

  // ---------- cutting into blocks ----------

  predicate NoneEmpty(lines: seq<Text>) {
    forall i :: 0 <= i < |lines| ==> lines[i] != []
  }

  /** `blocks` holds the lines, in order, in full blocks of `m` lines and a last one that is not
      empty. */
  ghost predicate BlocksOf(blocks: seq<Text>, parts: seq<seq<Text>>, lines: seq<Text>, m: nat) {
    && |blocks| == |parts| && Flat(parts) == lines
    && (forall i :: 0 <= i < |parts| ==> blocks[i] == Concat(parts[i]) && 0 < |parts[i]| <= m && NoneEmpty(parts[i]))
    && (forall i :: 0 <= i < |parts| - 1 ==> |parts[i]| == m)
  }

  ghost predicate CutInto(blocks: seq<Text>, lines: seq<Text>, m: nat) {
    exists parts :: BlocksOf(blocks, parts, lines, m)
  }

  /** The parts of stored lines are stored lines. */
  lemma {:induction false} PartsStored(parts: seq<seq<Text>>)
    requires AllStored(Flat(parts))
    ensures forall i :: 0 <= i < |parts| ==> AllStored(parts[i])
  {
    if parts != [] {
      var n := |parts| - 1;
      var front, last := Flat(parts[..n]), parts[n];
      forall k | 0 <= k < |front| ensures IsStored(front[k]) { assert front[k] == Flat(parts)[k]; }
      forall k | 0 <= k < |last| ensures IsStored(last[k]) { assert last[k] == Flat(parts)[|front| + k]; }
      PartsStored(parts[..n]);
    }
  }

  /** `redis_insert` under the next block number; the command without a value is refused. */
  method Store(blocks: seq<Text>, str: Text) returns (blocks': seq<Text>)
    ensures blocks' == if str == [] then blocks else blocks + [str]
  {
    blocks' := if str == [] then blocks else blocks + [str];
  }

  /** The blocks stored so far, and the text and the number of lines collected for the next one. */
  datatype Cutter = Cutter(blocks: seq<Text>, str: Text, index: nat)

  /** The lines in the stored blocks, all full, and those collected. */
  datatype Lines = Lines(parts: seq<seq<Text>>, current: seq<Text>)

  ghost predicate Collecting(c: Cutter, t: Lines, lines: seq<Text>, m: nat) {
    && BlocksOf(c.blocks, t.parts, Flat(t.parts), m) && (forall i :: 0 <= i < |t.parts| ==> |t.parts[i]| == m)
    && Flat(t.parts) + t.current == lines && c.str == Concat(t.current) && c.index == |t.current| <= m && NoneEmpty(t.current)
  }

  lemma FlushFull(c: Cutter, t: Lines, lines: seq<Text>, m: nat)
    requires m > 0 && Collecting(c, t, lines, m) && c.index == m
    ensures c.str != [] && Collecting(Cutter(c.blocks + [c.str], [], 0), Lines(t.parts + [t.current], []), lines, m)
  {
    var parts := t.parts + [t.current];
    NotEmpty(t.current);
    FlatSnoc(t.parts, t.current, parts);
    BlocksSnoc(c.blocks, t.parts, c.str, t.current, m);
    assert lines + [] == lines;
  }

  lemma FlatSnoc(parts: seq<seq<Text>>, current: seq<Text>, more: seq<seq<Text>>)
    requires more == parts + [current]
    ensures Flat(more) == Flat(parts) + current
  {
    assert more[..|more| - 1] == parts;
  }

  lemma NotEmpty(current: seq<Text>)
    requires NoneEmpty(current) && current != []
    ensures Concat(current) != []
  {
    assert current[|current| - 1] != [];
  }

  lemma FlushLast(c: Cutter, t: Lines, lines: seq<Text>, m: nat)
    requires m > 0 && Collecting(c, t, lines, m)
    ensures t.current == [] <==> c.str == []
    ensures if c.str == [] then BlocksOf(c.blocks, t.parts, lines, m)
            else BlocksOf(c.blocks + [c.str], t.parts + [t.current], lines, m)
  {
    if t.current == [] {
      assert Flat(t.parts) + t.current == Flat(t.parts);
    } else {
      NotEmpty(t.current);
      BlocksSnoc(c.blocks, t.parts, c.str, t.current, m);
    }
  }

  lemma BlocksSnoc(blocks: seq<Text>, parts: seq<seq<Text>>, str: Text, current: seq<Text>, m: nat)
    requires BlocksOf(blocks, parts, Flat(parts), m) && forall i :: 0 <= i < |parts| ==> |parts[i]| == m
    requires str == Concat(current) && 0 < |current| <= m && NoneEmpty(current)
    ensures BlocksOf(blocks + [str], parts + [current], Flat(parts) + current, m)
  {
    assert (parts + [current])[..|parts|] == parts;
  }

  lemma CollectOne(c: Cutter, t: Lines, lines: seq<Text>, m: nat, l: Text)
    requires Collecting(c, t, lines, m) && c.index < m && l != []
    ensures Collecting(Cutter(c.blocks, c.str + l, c.index + 1), t.(current := t.current + [l]), lines + [l], m)
  {
    assert (t.current + [l])[..|t.current|] == t.current;
    assert Flat(t.parts) + (t.current + [l]) == (Flat(t.parts) + t.current) + [l];
  }

  lemma MineSnoc(file: seq<Text>, i: nat, task: nat)
    requires i < |file|
    ensures Mine(file[..i + 1], task) == Mine(file[..i], task) + if TaskOf(file[i]) == task then [Cut(file[i], task)] else []
  {
    assert file[..i + 1][..i] == file[..i];
  }

  /** Stores a full block before the next line is looked at. */
  method FlushIfFull(c: Cutter, m: nat, ghost t: Lines, ghost lines: seq<Text>) returns (c': Cutter, ghost t': Lines)
    requires m > 0 && Collecting(c, t, lines, m)
    ensures Collecting(c', t', lines, m) && c'.index < m
  {
    c', t' := c, t;
    if c.index == m {
      FlushFull(c, t, lines, m);
      var blocks := Store(c.blocks, c.str);
      c', t' := Cutter(blocks, [], 0), Lines(t.parts + [t.current], []);
    }
  }

  /** Takes a line if it is one of the task. */
  method TakeLine(c: Cutter, buf: Text, task: nat, m: nat, ghost t: Lines, ghost lines: seq<Text>)
    returns (c': Cutter, ghost t': Lines)
    requires Collecting(c, t, lines, m) && c.index < m && IsLine(buf)
    ensures Collecting(c', t', lines + if TaskOf(buf) == task then [Cut(buf, task)] else [], m)
  {
    c', t' := c, t;
    assert lines + [] == lines;
    if TaskOf(buf) == task {
      CutLeaves(buf, task);
      var size := |Digits(task)|;
      CollectOne(c, t, lines, m, buf[size..]);
      c', t' := Cutter(c.blocks, c.str + buf[size..], c.index + 1), t.(current := t.current + [buf[size..]]);
    }
  }

  /** One round of the loop. */
  method ReadLine(c: Cutter, buf: Text, task: nat, m: nat, ghost t: Lines, ghost lines: seq<Text>)
    returns (c': Cutter, ghost t': Lines)
    requires m > 0 && Collecting(c, t, lines, m) && IsLine(buf)
    ensures Collecting(c', t', lines + if TaskOf(buf) == task then [Cut(buf, task)] else [], m)
  {
    c', t' := FlushIfFull(c, m, t, lines);
    c', t' := TakeLine(c', buf, task, m, t', lines);
  }

  /** `insert_to_redis`. */
  method InsertToRedis(file: seq<Text>, task: nat, m: nat) returns (blocks: seq<Text>, ghost parts: seq<seq<Text>>)
    requires m > 0 && AreLines(file)
    ensures BlocksOf(blocks, parts, Mine(file, task), m) && CutInto(blocks, Mine(file, task), m)
  {
    var c := Cutter([], [], 0);
    ghost var t := Lines([], []);
    for i := 0 to |file|
      invariant Collecting(c, t, Mine(file[..i], task), m)
    {
      MineSnoc(file, i, task);
      c, t := ReadLine(c, file[i], task, m, t, Mine(file[..i], task));
    }
    assert file[..|file|] == file;
    blocks, parts := StoreLast(c, m, t, Mine(file, task));
  }

  /** What is left goes into the last block; nothing left is refused. */
  method StoreLast(c: Cutter, m: nat, ghost t: Lines, ghost lines: seq<Text>) returns (blocks: seq<Text>, ghost parts: seq<seq<Text>>)
    requires m > 0 && Collecting(c, t, lines, m)
    ensures BlocksOf(blocks, parts, lines, m)
  {
    FlushLast(c, t, lines, m);
    blocks := Store(c.blocks, c.str);
    parts := if c.str == [] then t.parts else t.parts + [t.current];
  }

  // ---------- sorting the blocks of a node ----------

  /** The lines of a text, each with its line end; what is behind the last one is dropped. */
  function SplitLines(text: Text): seq<Text>
    decreases |text|
  {
    var end := FirstIndex(text, LF, 0);
    if end == |text| then [] else [text[..end + 1]] + SplitLines(text[end + 1..])
  }

  /** Stored lines run together come apart again. */
  lemma {:induction false} SplitUndoesConcat(lines: seq<Text>, tail: Text)
    requires AllStored(lines)
    ensures SplitLines(Concat(lines) + tail) == lines + SplitLines(tail)
    decreases |lines|
  {
    if lines == [] {
      assert [] + tail == tail && [] + SplitLines(tail) == SplitLines(tail);
    } else {
      var front, l := lines[..|lines| - 1], lines[|lines| - 1];
      Associative(Concat(front), l, tail);
      Associative(front, [l], SplitLines(tail));
      assert front + [l] == lines;
      SplitUndoesConcat(front, l + tail);
      SplitFirst(l, tail);
    }
  }

  lemma SplitFirst(l: Text, tail: Text)
    requires IsStored(l)
    ensures SplitLines(l + tail) == [l] + SplitLines(tail)
  {
    var text, n := l + tail, |l| - 1;
    assert text[..n + 1] == l && text[n + 1..] == tail;
    assert forall k :: 0 <= k < n ==> l[..n][k] != LF;
    FirstIs(text, LF, n);
  }

  lemma FirstIs(s: Text, b: Byte, n: nat)
    requires n < |s| && s[n] == b && forall k :: 0 <= k < n ==> s[k] != b
    ensures FirstIndex(s, b, 0) == n
  {
    FirstFrom(s, b, 0, n);
  }

  lemma {:induction false} FirstFrom(s: Text, b: Byte, from: nat, n: nat)
    requires from <= n < |s| && s[n] == b && forall k :: from <= k < n ==> s[k] != b
    ensures FirstIndex(s, b, from) == n
    decreases n - from
  {
    if from < n { FirstFrom(s, b, from + 1, n); }
  }

  /** The loop of `sort_blocks` that copies the lines of a block into the line buffers; `rest` is
      the block from `beg` on. */
  method SplitBlock(block: Text, ghost lines: seq<Text>) returns (buf: seq<Text>)
    requires AllStored(lines) && |lines| <= MAX_BLOCK_SIZE && block == Concat(lines)
    ensures buf == lines
  {
    buf := [];
    var rest := block;
    SplitUndoesConcat(lines, []);
    assert Concat(lines) + [] == block && lines + SplitLines([]) == lines;
    while true
      invariant lines == buf + SplitLines(rest)
      decreases |rest|
    {
      var end := FirstIndex(rest, LF, 0);
      if end == |rest| { break; }
      SplitStep(buf, rest, lines, end);
      assert |buf| < MAX_BLOCK_SIZE && |rest[..end + 1]| < MAX_LINE_SIZE;
      buf, rest := buf + [rest[..end + 1]], rest[end + 1..];
    }
    assert SplitLines(rest) == [];
  }

  lemma SplitStep(buf: seq<Text>, rest: Text, lines: seq<Text>, end: nat)
    requires AllStored(lines) && lines == buf + SplitLines(rest) && end == FirstIndex(rest, LF, 0) < |rest|
    ensures |buf| < |lines| && |rest[..end + 1]| < MAX_LINE_SIZE
    ensures lines == buf + [rest[..end + 1]] + SplitLines(rest[end + 1..])
  {
    var line, more := rest[..end + 1], SplitLines(rest[end + 1..]);
    assert SplitLines(rest) == [line] + more;
    Associative(buf, [line], more);
    assert lines == buf + [line] + more && lines[|buf|] == line;
  }

  const BY_NUMBER: Text -> int := (l: Text) => Num(l)

  /** The sorted files of a node stand for the parts its lines were cut into. */
  ghost predicate SortedBlocks(files: seq<seq<Text>>, parts: seq<seq<Text>>, maxLine: nat) {
    && |files| == |parts|
    && forall i :: 0 <= i < |files| ==> SortedBlock(files[i], parts[i], maxLine)
  }

  ghost predicate SortedBlock(file: seq<Text>, part: seq<Text>, maxLine: nat) {
    && multiset(file) == multiset(part) && SortedBy(file, BY_NUMBER) && file != []
    && forall j :: 0 <= j < |file| ==> Num(file[j]) <= maxLine
  }

  predicate HasNumber(lines: seq<Text>, n: int) {
    exists k :: 0 <= k < |lines| && Num(lines[k]) == n
  }

  /** Some file has a line with this number. */
  predicate Reached(files: seq<seq<Text>>, n: int) {
    exists i :: 0 <= i < |files| && HasNumber(files[i], n)
  }

  lemma ReachedSnoc(files: seq<seq<Text>>, file: seq<Text>, n: int)
    requires Reached(files, n) || HasNumber(file, n)
    ensures Reached(files + [file], n)
  {
    var all := files + [file];
    if HasNumber(file, n) {
      assert HasNumber(all[|files|], n);
    } else {
      var i :| 0 <= i < |files| && HasNumber(files[i], n);
      assert HasNumber(all[i], n);
    }
  }

  /** The running maximum, which starts at zero. */
  predicate Highest(files: seq<seq<Text>>, maxLine: nat) {
    if files == [] then maxLine == 0 else Reached(files, maxLine)
  }

  lemma HighestSnoc(files: seq<seq<Text>>, file: seq<Text>, maxLine: nat, last: nat)
    requires Highest(files, maxLine) && HasNumber(file, last)
    ensures Highest(files + [file], if last > maxLine then last else maxLine)
  {
    ReachedSnoc(files, file, if last > maxLine then last else maxLine);
  }

  lemma ReachedUnion(files: seq<seq<Text>>, out: seq<Text>, n: int)
    requires Reached(files, n) && multiset(out) == Union(files)
    ensures HasNumber(out, n)
  {
    var i :| 0 <= i < |files| && HasNumber(files[i], n);
    var k :| 0 <= k < |files[i]| && Num(files[i][k]) == n;
    InUnion(files, files[i][k]);
    assert files[i][k] in out;
  }

  method SortBlock(block: Text, ghost part: seq<Text>) returns (file: seq<Text>, last: nat)
    requires AllStored(part) && 0 < |part| <= MAX_BLOCK_SIZE && block == Concat(part)
    ensures SortedBlock(file, part, last) && HasNumber(file, last)
  {
    var buf := SplitBlock(block, part);
    file := Sort(buf, BY_NUMBER);
    SameLength(file, part);
    last := Num(file[|file| - 1]);
    forall j | 0 <= j < |file| ensures Num(file[j]) <= last {
      assert BY_NUMBER(file[j]) <= BY_NUMBER(file[|file| - 1]);
    }
  }

  lemma SortedSnoc(files: seq<seq<Text>>, parts: seq<seq<Text>>, n: nat, maxLine: nat, file: seq<Text>, last: nat)
    requires n < |parts| && SortedBlocks(files, parts[..n], maxLine) && SortedBlock(file, parts[n], last)
    ensures SortedBlocks(files + [file], parts[..n + 1], if last > maxLine then last else maxLine)
  {
    forall i | 0 <= i < n ensures SortedBlock(files[i], parts[i], if last > maxLine then last else maxLine) {
      assert SortedBlock(files[i], parts[..n][i], maxLine);
    }
  }

  lemma BlockAt(blocks: seq<Text>, parts: seq<seq<Text>>, m: nat, i: nat)
    requires BlocksOf(blocks, parts, Flat(parts), m) && i < |parts| && AllStored(Flat(parts))
    ensures AllStored(parts[i]) && 0 < |parts[i]| <= m && blocks[i] == Concat(parts[i])
  {
    PartsStored(parts);
  }

  /** `sort_blocks`: block after block until there is none, each sorted into a file of its own;
      also the greatest line number. */
  method SortBlocks(blocks: seq<Text>, ghost parts: seq<seq<Text>>, ghost m: nat) returns (files: seq<seq<Text>>, maxLine: nat)
    requires BlocksOf(blocks, parts, Flat(parts), m) && m <= MAX_BLOCK_SIZE && AllStored(Flat(parts))
    ensures SortedBlocks(files, parts, maxLine) && Highest(files, maxLine)
  {
    files, maxLine := [], 0;
    var blockId := 1;
    while blockId - 1 < |blocks|
      invariant 1 <= blockId <= |blocks| + 1 && SortedBlocks(files, parts[..blockId - 1], maxLine)
      invariant Highest(files, maxLine)
    {
      BlockAt(blocks, parts, m, blockId - 1);
      var file, last := SortBlock(blocks[blockId - 1], parts[blockId - 1]);
      SortedSnoc(files, parts, blockId - 1, maxLine, file, last);
      HighestSnoc(files, file, maxLine, last);
      files := files + [file];
      if last > maxLine { maxLine := last; }
      blockId := blockId + 1;
    }
    assert parts[..blockId - 1] == parts;
  }

  // ---------- merging the blocks of a node ----------

  /** Sorted, and nothing that is left comes before it. */
  ghost predicate Merged(out: seq<Text>, runs: seq<seq<Text>>) {
    SortedBy(out, BY_NUMBER) && (out != [] ==> AllFrom(Num(out[|out| - 1]), runs, BY_NUMBER))
  }

  lemma SortedAppend(out: seq<Text>, l: Text)
    requires SortedBy(out, BY_NUMBER) && (out != [] ==> Num(out[|out| - 1]) <= Num(l))
    ensures SortedBy(out + [l], BY_NUMBER)
  {
    var n := |out| - 1;
    forall k | 0 <= k < |out| ensures BY_NUMBER(out[k]) <= BY_NUMBER(l) {
      assert BY_NUMBER(out[k]) <= BY_NUMBER(out[n]);
    }
  }

  lemma RunsWithout(runs: seq<seq<Text>>, i: nat, n: int)
    requires SortedRuns(runs, BY_NUMBER) && i < |runs| && runs[i] != [] && AllFrom(n, runs, BY_NUMBER)
    ensures var runs' := runs[i := runs[i][1..]]; SortedRuns(runs', BY_NUMBER) && AllFrom(n, runs', BY_NUMBER)
  {
    var runs' := runs[i := runs[i][1..]];
    forall k, j | 0 <= k < |runs'| && 0 <= j < |runs'[k]| ensures n <= BY_NUMBER(runs'[k][j]) {
      if k == i { assert runs'[k][j] == runs[i][j + 1]; }
    }
  }

  lemma MergeStep(out: seq<Text>, runs: seq<seq<Text>>, i: nat)
    requires Merged(out, runs) && SortedRuns(runs, BY_NUMBER) && i < |runs| && runs[i] != [] && AllFrom(Num(runs[i][0]), runs, BY_NUMBER)
    ensures var runs' := runs[i := runs[i][1..]];
      && Merged(out + [runs[i][0]], runs') && SortedRuns(runs', BY_NUMBER)
      && Union(runs) == Union(runs') + multiset{runs[i][0]}
  {
    UnionTake(runs, i);
    RunsWithout(runs, i, Num(runs[i][0]));
    if out != [] { assert Num(out[|out| - 1]) <= BY_NUMBER(runs[i][0]); }
    SortedAppend(out, runs[i][0]);
  }

  /** `sort_nodes`: merges the sorted blocks of a node. */
  method SortNodes(files: seq<seq<Text>>) returns (out: seq<Text>)
    requires SortedRuns(files, BY_NUMBER) && forall i :: 0 <= i < |files| ==> files[i] != []
    ensures multiset(out) == Union(files) && SortedBy(out, BY_NUMBER)
  {
    var h := Open(files, BY_NUMBER);
    ghost var runs := files;
    out := [];
    while h.queue != map[]
      invariant Stands(h, runs, BY_NUMBER) && SortedRuns(runs, BY_NUMBER) && Merged(out, runs)
      invariant multiset(out) + Union(runs) == Union(files)
      decreases |Union(runs)|
    {
      var i := Top(h.queue);
      TopFirst(h, runs, BY_NUMBER, i);
      MergeStep(out, runs, i);
      out := out + [h.buf[i]];
      h := Next(h, i, BY_NUMBER, runs);
      runs := runs[i := runs[i][1..]];
    }
    AllRead(h, runs);
  }

  lemma AllRead(h: Heads<Text>, runs: seq<seq<Text>>)
    requires Stands(h, runs, BY_NUMBER) && h.queue == map[]
    ensures Union(runs) == multiset{}
  {
    forall i | 0 <= i < |runs| ensures runs[i] == [] { assert StandsAt(h, runs[i], i, BY_NUMBER); }
    UnionEmpty(runs);
  }

  // ---------- merging the nodes ----------

  predicate Increasing(lines: seq<Text>) {
    forall i, j :: 0 <= i < j < |lines| ==> Num(lines[i]) < Num(lines[j])
  }

  /** One line for every number among those `taken`, in order; the flags say which numbers. */
  ghost predicate Deduped(lines: seq<Text>, taken: seq<Text>, flags: seq<bool>) {
    && Increasing(lines) && (forall k :: 0 <= k < |lines| ==> lines[k] in taken)
    && (forall n :: 0 <= n < |flags| ==> (flags[n] <==> HasNumber(taken, n)) && (flags[n] <==> HasNumber(lines, n)))
  }

  lemma NumberSnoc(lines: seq<Text>, l: Text, n: int)
    ensures HasNumber(lines + [l], n) <==> HasNumber(lines, n) || Num(l) == n
  {
    var all := lines + [l];
    assert all[|lines|] == l;
    if k :| 0 <= k < |lines| && Num(lines[k]) == n { assert all[k] == lines[k]; }
  }

  lemma DedupeSkip(lines: seq<Text>, taken: seq<Text>, flags: seq<bool>, l: Text)
    requires Deduped(lines, taken, flags) && Num(l) < |flags| && flags[Num(l)]
    ensures Deduped(lines, taken + [l], flags)
  {
    forall n | 0 <= n < |flags| ensures HasNumber(taken + [l], n) <==> HasNumber(taken, n) { NumberSnoc(taken, l, n); }
  }

  lemma DedupeWrite(lines: seq<Text>, taken: seq<Text>, flags: seq<bool>, l: Text)
    requires Deduped(lines, taken, flags) && Num(l) < |flags| && !flags[Num(l)]
    requires forall k :: 0 <= k < |taken| ==> Num(taken[k]) <= Num(l)
    ensures Deduped(lines + [l], taken + [l], flags[Num(l) := true])
  {
    forall k | 0 <= k < |lines| ensures Num(lines[k]) < Num(l) {
      assert lines[k] in taken;
      assert !HasNumber(lines, Num(l));
    }
    var taken', lines' := taken + [l], lines + [l];
    forall n | 0 <= n < |flags| ensures HasNumber(taken', n) <==> HasNumber(taken, n) || Num(l) == n { NumberSnoc(taken, l, n); }
    forall n | 0 <= n < |flags| ensures HasNumber(lines', n) <==> HasNumber(lines, n) || Num(l) == n { NumberSnoc(lines, l, n); }
  }

  /** What is taken from the runs: sorted, and with what is left it makes up the files. */
  ghost predicate Taken(taken: seq<Text>, runs: seq<seq<Text>>, files: seq<seq<Text>>) {
    Merged(taken, runs) && SortedRuns(runs, BY_NUMBER) && multiset(taken) + Union(runs) == Union(files)
  }

  lemma TakenBelow(taken: seq<Text>, runs: seq<seq<Text>>, i: nat)
    requires Merged(taken, runs) && i < |runs| && runs[i] != []
    ensures forall k :: 0 <= k < |taken| ==> Num(taken[k]) <= Num(runs[i][0])
  {
    forall k | 0 <= k < |taken| ensures Num(taken[k]) <= Num(runs[i][0]) {
      var n := |taken| - 1;
      assert BY_NUMBER(taken[k]) <= BY_NUMBER(taken[n]) <= BY_NUMBER(runs[i][0]);
    }
  }

  ghost predicate NumbersUpTo(files: seq<seq<Text>>, maxLine: nat) {
    forall x :: x in Union(files) ==> Num(x) <= maxLine
  }

  /** The lines written, their task id put back. */
  function Restored(lines: seq<Text>, task: nat): seq<Text> {
    if lines == [] then []
    else Restored(lines[..|lines| - 1], task) + [Digits(task) + lines[|lines| - 1]]
  }

  /** Writes the line unless its number has been written. */
  method WriteOnce(out: seq<Text>, line: Text, task: nat, flags: array<bool>, ghost lines: seq<Text>, ghost taken: seq<Text>)
    returns (out': seq<Text>, ghost lines': seq<Text>)
    requires Deduped(lines, taken, flags[..]) && out == Restored(lines, task) && Num(line) < flags.Length
    requires forall k :: 0 <= k < |taken| ==> Num(taken[k]) <= Num(line)
    modifies flags
    ensures Deduped(lines', taken + [line], flags[..]) && out' == Restored(lines', task)
  {
    out', lines' := out, lines;
    ghost var was := flags[..];
    if !flags[Num(line)] {
      DedupeWrite(lines, taken, was, line);
      RestoredSnoc(lines, line, task);
      out' := out + [Digits(task) + line];
      lines' := lines + [line];
      flags[Num(line)] := true;
      assert flags[..] == was[Num(line) := true];
    } else {
      DedupeSkip(lines, taken, was, line);
    }
  }

  lemma TakeStep(taken: seq<Text>, runs: seq<seq<Text>>, files: seq<seq<Text>>, maxLine: nat, i: nat, line: Text)
    requires Taken(taken, runs, files) && NumbersUpTo(files, maxLine)
    requires i < |runs| && runs[i] != [] && line == runs[i][0] && AllFrom(Num(line), runs, BY_NUMBER)
    ensures Num(line) <= maxLine && forall k :: 0 <= k < |taken| ==> Num(taken[k]) <= Num(line)
    ensures var runs' := runs[i := runs[i][1..]];
      Taken(taken + [line], runs', files) && |Union(runs')| < |Union(runs)|
  {
    MergeStep(taken, runs, i);
    TakenBelow(taken, runs, i);
    assert line in Union(files);
  }

  /** The next line of the merge. */
  method TakeTop(h: Heads<Text>, ghost runs: seq<seq<Text>>, ghost taken: seq<Text>, ghost files: seq<seq<Text>>, ghost maxLine: nat)
    returns (line: Text, h': Heads<Text>, ghost runs': seq<seq<Text>>)
    requires Stands(h, runs, BY_NUMBER) && Taken(taken, runs, files) && NumbersUpTo(files, maxLine) && h.queue != map[]
    ensures Stands(h', runs', BY_NUMBER) && Taken(taken + [line], runs', files) && |Union(runs')| < |Union(runs)|
    ensures Num(line) <= maxLine && forall k :: 0 <= k < |taken| ==> Num(taken[k]) <= Num(line)
  {
    var i := Top(h.queue);
    TopFirst(h, runs, BY_NUMBER, i);
    line := h.buf[i];
    TakeStep(taken, runs, files, maxLine, i, line);
    h' := Next(h, i, BY_NUMBER, runs);
    runs' := runs[i := runs[i][1..]];
  }

  /** `sort_file`: merges the nodes and writes the first line with each number. */
  method SortFile(files: seq<seq<Text>>, task: nat, maxLine: nat) returns (out: seq<Text>, ghost lines: seq<Text>)
    requires SortedRuns(files, BY_NUMBER) && NumbersUpTo(files, maxLine)
    requires forall i :: 0 <= i < |files| ==> files[i] != []
    ensures out == Restored(lines, task) && OneEach(lines, Union(files)) && OncePerNumber(out, Union(files), task)
  {
    var flags := new bool[maxLine + 1](i => false);
    var h := Open(files, BY_NUMBER);
    ghost var runs, taken: seq<Text> := files, [];
    out, lines := [], [];
    NothingTaken(flags[..], files);
    while h.queue != map[]
      invariant Stands(h, runs, BY_NUMBER) && Taken(taken, runs, files)
      invariant Deduped(lines, taken, flags[..]) && out == Restored(lines, task)
      decreases |Union(runs)|
    {
      var line;
      line, h, runs := TakeTop(h, runs, taken, files, maxLine);
      out, lines := WriteOnce(out, line, task, flags, lines, taken);
      taken := taken + [line];
    }
    AllRead(h, runs);
    DedupedAll(lines, taken, flags[..], Union(files), maxLine);
  }

  lemma NothingTaken(flags: seq<bool>, files: seq<seq<Text>>)
    requires SortedRuns(files, BY_NUMBER) && forall n :: 0 <= n < |flags| ==> !flags[n]
    ensures Deduped([], [], flags) && Taken([], files, files)
  {
  }

  lemma RestoredSnoc(lines: seq<Text>, l: Text, task: nat)
    ensures Restored(lines + [l], task) == Restored(lines, task) + [Digits(task) + l]
  {
    assert (lines + [l])[..|lines|] == lines;
  }

  /** Strictly increasing numbers, only lines there are, and one for every number there is. */
  ghost predicate OneEach(lines: seq<Text>, all: multiset<Text>) {
    && Increasing(lines) && (forall k :: 0 <= k < |lines| ==> lines[k] in all)
    && forall x :: x in all ==> HasNumber(lines, Num(x))
  }

  /** The file written from such lines. */
  ghost predicate OncePerNumber(out: seq<Text>, all: multiset<Text>, task: nat) {
    exists lines :: out == Restored(lines, task) && OneEach(lines, all)
  }

  lemma DedupedAll(lines: seq<Text>, taken: seq<Text>, flags: seq<bool>, all: multiset<Text>, maxLine: nat)
    requires Deduped(lines, taken, flags) && multiset(taken) == all && |flags| == maxLine + 1
    requires forall x :: x in all ==> Num(x) <= maxLine
    ensures OneEach(lines, all)
  {
    forall k | 0 <= k < |lines| ensures lines[k] in all { assert lines[k] in taken; }
    forall x | x in all ensures HasNumber(lines, Num(x)) {
      assert x in taken;
      var k :| 0 <= k < |taken| && taken[k] == x;
      assert HasNumber(taken, Num(x)) && flags[Num(x)];
    }
  }

  // ---------- the whole way ----------

  lemma {:induction false} BlocksUnion(files: seq<seq<Text>>, parts: seq<seq<Text>>, maxLine: nat)
    requires SortedBlocks(files, parts, maxLine)
    ensures Union(files) == multiset(Flat(parts))
    ensures NumbersUpTo(files, maxLine) && SortedRuns(files, BY_NUMBER)
  {
    if files != [] {
      var n := |files| - 1;
      BlocksUnion(files[..n], parts[..n], maxLine);
      assert SortedBlock(files[n], parts[n], maxLine);
    }
  }

  /** What a node contributes: its lines, sorted, none numbered higher than `maxLine`. */
  ghost predicate NodeFile(file: seq<Text>, lines: seq<Text>, maxLine: nat) {
    && SortedBy(file, BY_NUMBER) && multiset(file) == multiset(lines)
    && forall x :: x in multiset(file) ==> Num(x) <= maxLine
  }

  /** `create_block`. */
  method CreateBlock(blocks: seq<Text>, ghost parts: seq<seq<Text>>, ghost lines: seq<Text>, ghost m: nat)
    returns (file: seq<Text>, maxLine: nat)
    requires BlocksOf(blocks, parts, lines, m) && m <= MAX_BLOCK_SIZE && AllStored(lines)
    ensures NodeFile(file, lines, maxLine) && (lines != [] ==> HasNumber(file, maxLine))
  {
    var files;
    files, maxLine := SortBlocks(blocks, parts, m);
    BlocksUnion(files, parts, maxLine);
    forall i | 0 <= i < |files| ensures files[i] != [] { assert SortedBlock(files[i], parts[i], maxLine); }
    file := SortNodes(files);
    if lines != [] {
      assert files != [];
      ReachedUnion(files, file, maxLine);
    }
  }

  /** What the nodes have stored of a task. */
  ghost predicate StoredBy(stores: seq<seq<Text>>, cuts: seq<seq<seq<Text>>>, mine: seq<seq<Text>>, m: nat) {
    && |stores| == |cuts| == |mine|
    && forall n :: 0 <= n < |stores| ==> BlocksOf(stores[n], cuts[n], mine[n], m) && mine[n] != [] && AllStored(mine[n])
  }

  ghost predicate NodeFiles(files: seq<seq<Text>>, mine: seq<seq<Text>>, maxLine: nat) {
    |files| == |mine| && forall n :: 0 <= n < |files| ==> NodeFile(files[n], mine[n], maxLine)
  }

  lemma {:induction false} NodesUnion(files: seq<seq<Text>>, mine: seq<seq<Text>>, maxLine: nat)
    requires NodeFiles(files, mine, maxLine)
    ensures Union(files) == Union(mine) && NumbersUpTo(files, maxLine) && SortedRuns(files, BY_NUMBER)
  {
    if files != [] {
      var n := |files| - 1;
      NodesUnion(files[..n], mine[..n], maxLine);
      assert NodeFile(files[n], mine[n], maxLine);
    }
  }

  lemma NodeFilesSnoc(files: seq<seq<Text>>, mine: seq<seq<Text>>, node: nat, maxLine: nat, file: seq<Text>, last: nat)
    requires node < |mine| && |files| == node && NodeFiles(files, mine[..node], maxLine) && NodeFile(file, mine[node], last)
    ensures NodeFiles(files + [file], mine[..node + 1], if last > maxLine then last else maxLine)
  {
    assert mine[..node + 1] == mine[..node] + [mine[node]];
    forall n | 0 <= n < node ensures NodeFile(files[n], mine[n], if last > maxLine then last else maxLine) {
      assert NodeFile(files[n], mine[..node][n], maxLine);
    }
  }

  lemma StoredNode(stores: seq<seq<Text>>, cuts: seq<seq<seq<Text>>>, mine: seq<seq<Text>>, m: nat, n: nat)
    requires StoredBy(stores, cuts, mine, m) && n < |stores|
    ensures BlocksOf(stores[n], cuts[n], mine[n], m) && mine[n] != [] && AllStored(mine[n])
  {
  }

  /** One node: its file and the greatest number so far. */
  method CreateOne(blocks: seq<Text>, ghost parts: seq<seq<Text>>, ghost mine: seq<seq<Text>>, node: nat, ghost m: nat,
                   files: seq<seq<Text>>, maxLine: nat)
    returns (files': seq<seq<Text>>, maxLine': nat)
    requires node < |mine| && |files| == node && NodeFiles(files, mine[..node], maxLine) && Highest(files, maxLine)
    requires BlocksOf(blocks, parts, mine[node], m) && m <= MAX_BLOCK_SIZE && mine[node] != [] && AllStored(mine[node])
    ensures |files'| == node + 1 && NodeFiles(files', mine[..node + 1], maxLine') && Highest(files', maxLine')
  {
    var file, last := CreateBlock(blocks, parts, mine[node], m);
    NodeFilesSnoc(files, mine, node, maxLine, file, last);
    HighestSnoc(files, file, maxLine, last);
    files', maxLine' := files + [file], if last > maxLine then last else maxLine;
  }

  /** The loop of `csv_recovery` over the nodes. */
  method CreateBlocks(stores: seq<seq<Text>>, ghost cuts: seq<seq<seq<Text>>>, ghost mine: seq<seq<Text>>, ghost m: nat)
    returns (files: seq<seq<Text>>, maxLine: nat)
    requires StoredBy(stores, cuts, mine, m) && m <= MAX_BLOCK_SIZE
    ensures NodeFiles(files, mine, maxLine) && Highest(files, maxLine)
  {
    files, maxLine := [], 0;
    for node := 0 to |stores|
      invariant |files| == node && NodeFiles(files, mine[..node], maxLine)
      invariant Highest(files, maxLine)
    {
      StoredNode(stores, cuts, mine, m, node);
      files, maxLine := CreateOne(stores[node], cuts[node], mine, node, m, files, maxLine);
    }
    assert mine[..|stores|] == mine;
  }

  /** `csv_recovery`: from the stored blocks of all nodes to the task's file. The flags have to
      reach up to the greatest line number, which is always written. */
  method CsvRecovery(stores: seq<seq<Text>>, ghost cuts: seq<seq<seq<Text>>>, ghost mine: seq<seq<Text>>, task: nat, ghost m: nat)
    returns (out: seq<Text>, ghost lines: seq<Text>, maxLine: nat)
    requires |stores| == NODE_NUM && StoredBy(stores, cuts, mine, m) && m <= MAX_BLOCK_SIZE
    ensures out == Restored(lines, task) && OneEach(lines, Union(mine)) && OncePerNumber(out, Union(mine), task)
    ensures HasNumber(lines, maxLine) && forall k :: 0 <= k < |lines| ==> Num(lines[k]) <= maxLine
  {
    var files;
    files, maxLine := CreateBlocks(stores, cuts, mine, m);
    NodesUnion(files, mine, maxLine);
    forall n | 0 <= n < |files| ensures files[n] != [] {
      assert NodeFile(files[n], mine[n], maxLine);
      SameLength(files[n], mine[n]);
    }
    out, lines := SortFile(files, task, maxLine);
    GreatestWritten(lines, files, maxLine);
  }

  /** The greatest number is itself written, so its flag is used. */
  lemma GreatestWritten(lines: seq<Text>, files: seq<seq<Text>>, maxLine: nat)
    requires OneEach(lines, Union(files)) && Reached(files, maxLine) && NumbersUpTo(files, maxLine)
    ensures HasNumber(lines, maxLine) && forall k :: 0 <= k < |lines| ==> Num(lines[k]) <= maxLine
  {
    var i :| 0 <= i < |files| && HasNumber(files[i], maxLine);
    var k :| 0 <= k < |files[i]| && Num(files[i][k]) == maxLine;
    InUnion(files, files[i][k]);
    assert files[i][k] in Union(files);
  }

  /** A line of the task that some node has. */
  ghost predicate Had(files: seq<seq<Text>>, task: nat, l: Text) {
    exists n :: 0 <= n < |files| && l in files[n] && TaskOf(l) == task
  }

  predicate IsNumbered(l: Text, id: Text, digits: Text, rest: Text) {
    l == id + [COMMA] + digits + [COMMA] + rest && COMMA !in id && digits != [] && AllDigits(digits)
  }

  /** The second field of the line is this number. */
  ghost predicate Shows(l: Text, n: nat) {
    exists id, digits, rest :: IsNumbered(l, id, digits, rest) && Value(digits) == n
  }

  lemma NumberedNumber(l: Text, id: Text, digits: Text, rest: Text)
    requires IsNumbered(l, id, digits, rest)
    ensures LineNumber(l) == Value(digits)
  {
    var e, n := |id|, 1 + |digits|;
    assert forall k :: 0 <= k < e ==> l[k] == id[k];
    FirstIs(l, COMMA, e);
    assert l[e..] == [COMMA] + digits + [COMMA] + rest;
    assert forall k :: 1 <= k < n ==> l[e..][k] == digits[k - 1];
    FirstFrom(l[e..], COMMA, 1, n);
    assert l[e..][1..n] == digits;
  }

  /** The number that lines are compared by is the one they show. */
  lemma ShowsNumber(l: Text, n: nat)
    requires Shows(l, n)
    ensures LineNumber(l) == n
  {
    var id, digits, rest :| IsNumbered(l, id, digits, rest) && Value(digits) == n;
    NumberedNumber(l, id, digits, rest);
  }

  lemma InputShows(l: Text)
    requires IsInput(l)
    ensures Shows(l, LineNumber(l))
  {
    var e := FirstIndex(l, COMMA, 0);
    var tail := l[e..];
    var n := FirstIndex(tail, COMMA, 1);
    assert l[0..e] == l[..e];
    TailNumbered(l, l[..e], tail, n);
    NumberedNumber(l, l[..e], tail[1..n], tail[n + 1..]);
  }

  lemma TailNumbered(l: Text, id: Text, tail: Text, n: nat)
    requires l == id + tail && COMMA !in id && 1 < n < |tail| && tail[0] == COMMA && tail[n] == COMMA && AllDigits(tail[1..n])
    ensures IsNumbered(l, id, tail[1..n], tail[n + 1..])
  {
    assert tail == [COMMA] + tail[1..n] + [COMMA] + tail[n + 1..];
  }

  /** The recovered file: the numbers its lines show are strictly increasing, every line is an
      original one of the task, and there is one for every number that some node's line shows. */
  ghost predicate Recovered(out: seq<Text>, files: seq<seq<Text>>, task: nat) {
    && (forall i, j, m, n :: 0 <= i < j < |out| && Shows(out[i], m) && Shows(out[j], n) ==> m < n)
    && (forall i :: 0 <= i < |out| ==> Had(files, task, out[i]))
    && forall l, n :: Had(files, task, l) && Shows(l, n) ==> Shown(out, n)
  }

  ghost predicate Shown(out: seq<Text>, n: nat) {
    exists i :: 0 <= i < |out| && Shows(out[i], n)
  }

  lemma {:induction false} MineIs(file: seq<Text>, task: nat, x: Text)
    requires IsNodeFile(file)
    ensures x in Mine(file, task) <==> HasCut(file, task, x)
  {
    if file != [] {
      MineIs(file[..|file| - 1], task, x);
      HasCutSnoc(file[..|file| - 1], file[|file| - 1], file, task, x);
    }
  }

  /** Some line of the task's is `x` without its id. */
  predicate HasCut(file: seq<Text>, task: nat, x: Text)
    requires IsNodeFile(file)
  {
    exists l :: l in file && TaskOf(l) == task && Cut(l, task) == x
  }

  lemma HasCutSnoc(front: seq<Text>, last: Text, file: seq<Text>, task: nat, x: Text)
    requires IsNodeFile(file) && file == front + [last]
    ensures IsNodeFile(front) && (HasCut(file, task, x) <==> HasCut(front, task, x) || (TaskOf(last) == task && Cut(last, task) == x))
  {
    forall i | 0 <= i < |front| ensures IsInput(front[i]) { assert front[i] == file[i]; }
    if HasCut(file, task, x) {
      var l :| l in file && TaskOf(l) == task && Cut(l, task) == x;
      assert l in front || l == last;
    }
    if HasCut(front, task, x) {
      var l :| l in front && TaskOf(l) == task && Cut(l, task) == x;
      assert l in file;
    }
    if TaskOf(last) == task && Cut(last, task) == x { assert last in file; }
  }

  predicate AreNodeFiles(files: seq<seq<Text>>) {
    forall n :: 0 <= n < |files| ==> IsNodeFile(files[n])
  }

  function AllMine(files: seq<seq<Text>>, task: nat): (mine: seq<seq<Text>>)
    ensures |mine| == |files| && forall n :: 0 <= n < |files| ==> mine[n] == Mine(files[n], task)
  {
    if files == [] then [] else AllMine(files[..|files| - 1], task) + [Mine(files[|files| - 1], task)]
  }

  /** A line without its id is among what the nodes have exactly if the line is. */
  lemma MineOfAll(files: seq<seq<Text>>, task: nat, x: Text)
    requires AreNodeFiles(files)
    ensures x in Union(AllMine(files, task)) ==> Had(files, task, Digits(task) + x) && LineNumber(Digits(task) + x) == Num(x)
  {
    var mine := AllMine(files, task);
    InUnion(mine, x);
    if x in Union(mine) {
      var n :| 0 <= n < |mine| && x in mine[n];
      MineIs(files[n], task, x);
      var l :| l in files[n] && TaskOf(l) == task && Cut(l, task) == x;
      CutAndRestore(l, task);
      assert Digits(task) + x == l;
    }
  }

  lemma HadIsMine(files: seq<seq<Text>>, task: nat, l: Text)
    requires AreNodeFiles(files) && Had(files, task, l)
    ensures Rest(l) in Union(AllMine(files, task)) && Num(Rest(l)) == LineNumber(l)
  {
    var n :| 0 <= n < |files| && l in files[n] && TaskOf(l) == task;
    var mine := AllMine(files, task);
    CutAndRestore(l, task);
    MineIs(files[n], task, Rest(l));
    InUnion(mine, Rest(l));
    assert Rest(l) in mine[n];
  }

  lemma {:induction false} RestoredAt(lines: seq<Text>, task: nat)
    ensures |Restored(lines, task)| == |lines|
    ensures forall i :: 0 <= i < |lines| ==> Restored(lines, task)[i] == Digits(task) + lines[i]
  {
    if lines != [] { RestoredAt(lines[..|lines| - 1], task); }
  }

  lemma RestoredLines(out: seq<Text>, lines: seq<Text>, files: seq<seq<Text>>, task: nat)
    requires AreNodeFiles(files) && out == Restored(lines, task)
    requires forall k :: 0 <= k < |lines| ==> lines[k] in Union(AllMine(files, task))
    ensures |out| == |lines|
    ensures forall i :: 0 <= i < |out| ==> LineNumber(out[i]) == Num(lines[i]) && Had(files, task, out[i])
  {
    RestoredAt(lines, task);
    forall i | 0 <= i < |out| ensures LineNumber(out[i]) == Num(lines[i]) && Had(files, task, out[i]) {
      MineOfAll(files, task, lines[i]);
    }
  }

  /** Some line of the file has this number. */
  ghost predicate Listed(out: seq<Text>, n: nat) {
    exists i :: 0 <= i < |out| && LineNumber(out[i]) == n
  }

  lemma EveryNumberListed(out: seq<Text>, lines: seq<Text>, files: seq<seq<Text>>, task: nat, l: Text)
    requires AreNodeFiles(files) && Had(files, task, l) && OneEach(lines, Union(AllMine(files, task)))
    requires |out| == |lines| && forall i :: 0 <= i < |out| ==> LineNumber(out[i]) == Num(lines[i])
    ensures Listed(out, LineNumber(l))
  {
    HadIsMine(files, task, l);
    assert HasNumber(lines, Num(Rest(l)));
    var i :| 0 <= i < |lines| && Num(lines[i]) == Num(Rest(l));
    assert LineNumber(out[i]) == LineNumber(l);
  }

  lemma HadIsInput(files: seq<seq<Text>>, task: nat, l: Text)
    requires AreNodeFiles(files) && Had(files, task, l)
    ensures IsInput(l)
  {
    var n :| 0 <= n < |files| && l in files[n] && TaskOf(l) == task;
    assert IsNodeFile(files[n]);
  }

  lemma ListedShown(out: seq<Text>, files: seq<seq<Text>>, task: nat, n: nat)
    requires AreNodeFiles(files) && (forall i :: 0 <= i < |out| ==> Had(files, task, out[i])) && Listed(out, n)
    ensures Shown(out, n)
  {
    var i :| 0 <= i < |out| && LineNumber(out[i]) == n;
    HadIsInput(files, task, out[i]);
    InputShows(out[i]);
  }

  /** From "one line for every number" to what that means for the nodes' files. */
  lemma RecoveredFrom(out: seq<Text>, lines: seq<Text>, files: seq<seq<Text>>, task: nat)
    requires AreNodeFiles(files)
    requires out == Restored(lines, task) && OneEach(lines, Union(AllMine(files, task)))
    ensures Recovered(out, files, task)
  {
    RestoredLines(out, lines, files, task);
    forall i, j, m, n | 0 <= i < j < |out| && Shows(out[i], m) && Shows(out[j], n) ensures m < n {
      ShowsNumber(out[i], m);
      ShowsNumber(out[j], n);
    }
    forall l, n | Had(files, task, l) && Shows(l, n) ensures Shown(out, n) {
      ShowsNumber(l, n);
      EveryNumberListed(out, lines, files, task, l);
      ListedShown(out, files, task, n);
    }
  }

  lemma StoredSnoc(stores: seq<seq<Text>>, cuts: seq<seq<seq<Text>>>, mine: seq<seq<Text>>, n: nat, m: nat,
                   blocks: seq<Text>, parts: seq<seq<Text>>)
    requires n < |mine| && StoredBy(stores, cuts, mine[..n], m) && BlocksOf(blocks, parts, mine[n], m) && mine[n] != []
    requires AllStored(mine[n])
    ensures StoredBy(stores + [blocks], cuts + [parts], mine[..n + 1], m)
  {
    assert mine[..n + 1] == mine[..n] + [mine[n]];
  }

  /** Every node inserts its part of the task. */
  method InsertAll(files: seq<seq<Text>>, task: nat, m: nat, ghost mine: seq<seq<Text>>)
    returns (stores: seq<seq<Text>>, ghost cuts: seq<seq<seq<Text>>>)
    requires m > 0 && AreNodeFiles(files) && mine == AllMine(files, task) && forall n :: 0 <= n < |mine| ==> mine[n] != []
    ensures StoredBy(stores, cuts, mine, m)
  {
    stores, cuts := [], [];
    for n := 0 to |files|
      invariant StoredBy(stores, cuts, mine[..n], m)
    {
      var blocks;
      ghost var parts;
      InputIsLine(files[n]);
      MineStored(files[n], task);
      blocks, parts := InsertToRedis(files[n], task, m);
      StoredSnoc(stores, cuts, mine, n, m, blocks, parts);
      stores, cuts := stores + [blocks], cuts + [parts];
    }
    assert mine[..|files|] == mine;
  }

  /** From the nodes' files to the recovered file of a task. */
  method Pipeline(files: seq<seq<Text>>, task: nat, m: nat) returns (out: seq<Text>)
    requires |files| == NODE_NUM && 1 <= m <= MAX_BLOCK_SIZE
    requires AreNodeFiles(files) && forall n :: 0 <= n < |files| ==> Mine(files[n], task) != []
    ensures Recovered(out, files, task)
  {
    ghost var mine := AllMine(files, task);
    var stores;
    ghost var cuts, lines;
    stores, cuts := InsertAll(files, task, m, mine);
    var maxLine;
    out, lines, maxLine := CsvRecovery(stores, cuts, mine, task, m);
    RecoveredFrom(out, lines, files, task);
  }
}
