/** What a server can make of the bytes it receives: a formatted command can be read in one way
    only, and a sub-command with a stale length is none at all. */
module Decoding {
  import opened Bytes
  import opened DecimalText
  import opened CommandTable
  import opened Resp
  import opened KeyValue
  import opened Fragments
  import opened FragmentLaws

  // ---------- one way only ----------

  /** The first byte that is no digit ends the number. */
  lemma LineEnd(digits: Text, x: Text)
    requires AllDigits(digits)
    ensures var s := digits + CRLF + x;
      !IsDigit(s[|digits|]) && forall i :: 0 <= i < |digits| ==> IsDigit(s[i])
  {
  }

  lemma HeaderLineUnique(m: nat, n: nat, x: Text, y: Text)
    requires Digits(m) + CRLF + x == Digits(n) + CRLF + y
    ensures m == n && x == y
  {
    var a, b := Digits(m) + CRLF + x, Digits(n) + CRLF + y;
    LineEnd(Digits(m), x);
    LineEnd(Digits(n), y);
    assert a[..|Digits(m)|] == Digits(m) && b[..|Digits(n)|] == Digits(n);
    ValueOfDigits(m);
    ValueOfDigits(n);
    assert a[|Digits(m)| + 2..] == x && b[|Digits(n)| + 2..] == y;
  }

  lemma BulkEnds(a: Text, b: Text, x: Text, y: Text)
    requires Bulk(a) + x == Bulk(b) + y
    ensures a == b && x == y
  {
    BodyLines(Digits(|a|), a, x, Digits(|b|), b, y);
    HeaderLineUnique(|a|, |b|, a + CRLF + x, b + CRLF + y);
    BodyEnd(a, x);
    BodyEnd(b, y);
  }

  lemma BodyLines(d: Text, a: Text, x: Text, e: Text, b: Text, y: Text)
    requires [DOLLAR] + d + CRLF + a + CRLF + x == [DOLLAR] + e + CRLF + b + CRLF + y
    ensures d + CRLF + (a + CRLF + x) == e + CRLF + (b + CRLF + y)
  {
    assert [DOLLAR] + d + CRLF + a + CRLF + x == [DOLLAR] + (d + CRLF + (a + CRLF + x));
    assert [DOLLAR] + e + CRLF + b + CRLF + y == [DOLLAR] + (e + CRLF + (b + CRLF + y));
    HeadGone(DOLLAR, d + CRLF + (a + CRLF + x), e + CRLF + (b + CRLF + y));
  }

  lemma HeadGone(b: Byte, x: Text, y: Text)
    requires [b] + x == [b] + y
    ensures x == y
  {
    assert ([b] + x)[1..] == x && ([b] + y)[1..] == y;
  }

  lemma BodyEnd(a: Text, x: Text)
    ensures (a + CRLF + x)[..|a|] == a && (a + CRLF + x)[|a| + 2..] == x
  {
  }

  lemma {:induction false} BulksInjective(a: seq<Text>, b: seq<Text>)
    requires |a| == |b| && Bulks(a) == Bulks(b)
    ensures a == b
  {
    if a != [] {
      BulkEnds(a[0], b[0], Bulks(a[1..]), Bulks(b[1..]));
      BulksInjective(a[1..], b[1..]);
    }
  }

  /** A formatted command can be read in one way only. */
  lemma FormatInjective(a: seq<Text>, b: seq<Text>)
    requires Format(a) == Format(b)
    ensures a == b
  {
    CountLines(Digits(|a|), Bulks(a), Digits(|b|), Bulks(b));
    HeaderLineUnique(|a|, |b|, Bulks(a), Bulks(b));
    BulksInjective(a, b);
  }

  lemma CountLines(d: Text, x: Text, e: Text, y: Text)
    requires [STAR] + d + CRLF + x == [STAR] + e + CRLF + y
    ensures d + CRLF + x == e + CRLF + y
  {
    assert [STAR] + d + CRLF + x == [STAR] + (d + CRLF + x);
    assert [STAR] + e + CRLF + y == [STAR] + (e + CRLF + y);
    HeadGone(STAR, d + CRLF + x, e + CRLF + y);
  }

  // ---------- stale lengths ----------

  lemma {:induction false} PeelBulks(first: seq<Text>, x: Text, args: seq<Text>)
    requires Bulks(first) + x == Bulks(args)
    ensures |first| <= |args| && x == Bulks(args[|first|..])
    decreases |first|
  {
    if first == [] {
      assert [] + x == x && args[0..] == args;
    } else {
      PeelOne(first[0], Bulks(first[1..]), x, args);
      PeelBulks(first[1..], x, args[1..]);
      assert args[1..][|first| - 1..] == args[|first|..];
    }
  }

  lemma PeelOne(arg: Text, more: Text, x: Text, args: seq<Text>)
    requires Bulk(arg) + more + x == Bulks(args)
    ensures args != [] && more + x == Bulks(args[1..])
  {
    assert |Bulk(arg) + more + x| > 0;
    Associative(Bulk(arg), more, x);
    BulkEnds(arg, args[0], more + x, Bulks(args[1..]));
  }

  lemma {:induction false} LeadingZero(n: nat)
    ensures Digits(n)[0] == ZERO ==> n == 0
  {
    if n >= 10 { LeadingZero(n / 10); }
  }

  /** No bulk string announces a length of two digits that starts with zero. */
  lemma BulksStart(args: seq<Text>)
    requires args != []
    ensures var p := Bulks(args); |p| >= 3 && (p[1] == ZERO ==> p[2] == CR)
  {
    var d, bulk := Digits(|args[0]|), Bulk(args[0]);
    BulkParts(args[0]);
    assert bulk[1] == bulk[1..1 + |d|][0] == d[0];
    LeadingZero(|args[0]|);
    assert Bulks(args) == bulk + Bulks(args[1..]);
  }

  /** What the fill loop has written, cut to the length it was sized for. */
  function Cut(buf: Text, mset: bool, keys: seq<KeyPos>, prev: Text): Text
    requires Ordered(keys) && Inside(buf, mset, keys) && prev != [] && (!mset ==> NoRemain(keys))
  {
    FillLength(buf, mset, keys, prev);
    FillText(buf, mset, keys, prev)[..|FillText(buf, mset, keys, prev)| - Excess(keys, prev)]
  }

  lemma StaleEntry(buf: Text, mset: bool, keys: seq<KeyPos>, prev: Text, args: seq<Text>)
    requires Ordered(keys) && Inside(buf, mset, keys) && AllDigits(prev) && (!mset ==> NoRemain(keys))
    requires keys != [] && KeyLength(keys[0]) == 0 && |prev| > 1
    ensures Cut(buf, mset, keys, prev) != Bulks(args)
  {
    var num := NumText(prev, 0);
    var entry, rest := EntryText(buf, mset, keys[0], num), FillText(buf, mset, keys[1..], num);
    EntryLength(buf, mset, keys[0], prev, num);
    RawLengthCons(keys);
    FillLength(buf, mset, keys[1..], num);
    StaleHead(prev, Payload(buf, mset, keys[0]), entry);
    var p := Cut(buf, mset, keys, prev);
    assert FillText(buf, mset, keys, prev) == entry + rest;
    assert |p| >= 3 && p[0] == entry[0] && p[1] == entry[1] && p[2] == entry[2];
    if args != [] { BulksStart(args); }
  }

  /** Cutting bytes off the end leaves the front alone. */
  lemma CutBehind(all: Text, a: Text, b: Text, n: nat, k: nat)
    requires all == a + b && n == |a| + k && k <= |b|
    ensures n <= |all| && all[..n] == a + b[..k]
  {
  }

  lemma StaleHead(prev: Text, payload: Text, entry: Text)
    requires |prev| > 1 && AllDigits(prev) && entry == [DOLLAR] + NumText(prev, 0) + CRLF + payload
    ensures |entry| >= 3 && entry[0] == DOLLAR && entry[1] == ZERO && IsDigit(entry[2])
  {
    assert entry[2] == prev[1];
  }

  lemma KeysBehind(buf: Text, mset: bool, keys: seq<KeyPos>)
    requires keys != [] && Ordered(keys) && Inside(buf, mset, keys) && (!mset ==> NoRemain(keys))
    ensures Inside(buf, mset, [keys[0]])
    ensures Ordered(keys[1..]) && Inside(buf, mset, keys[1..]) && (!mset ==> NoRemain(keys[1..]))
  {
  }

  /** An entry that is not stale is not cut. */
  lemma CutCons(buf: Text, mset: bool, keys: seq<KeyPos>, more: seq<KeyPos>, prev: Text, num: Text, entry: Text)
    requires Ordered(keys) && Inside(buf, mset, keys) && prev != [] && (!mset ==> NoRemain(keys))
    requires keys != [] && (KeyLength(keys[0]) == 0 ==> |prev| == 1) && num == NumText(prev, KeyLength(keys[0])) != []
    requires Inside(buf, mset, [keys[0]]) && entry == EntryText(buf, mset, keys[0], num) && more == keys[1..]
    requires Ordered(more) && Inside(buf, mset, more) && (!mset ==> NoRemain(more))
    ensures Cut(buf, mset, keys, prev) == entry + Cut(buf, mset, more, num)
  {
    FillLength(buf, mset, more, num);
    var all, rest := FillText(buf, mset, keys, prev), FillText(buf, mset, more, num);
    CutBehind(all, entry, rest, |all| - Excess(keys, prev), |rest| - Excess(more, num));
  }

  /** With a stale length somewhere, what is sent of the entries is no list of bulk strings. */
  lemma {:induction false} StaleFill(buf: Text, mset: bool, keys: seq<KeyPos>, items: seq<Item>, prev: Text, args: seq<Text>)
    requires Ordered(keys) && Inside(buf, mset, keys) && KeysHold(buf, mset, keys, items)
    requires prev != [] && AllDigits(prev) && (!mset ==> NoRemain(keys)) && !NoStaleDigits(keys, |prev|)
    ensures Cut(buf, mset, keys, prev) != Bulks(args)
  {
    if KeyLength(keys[0]) == 0 && |prev| > 1 {
      StaleEntry(buf, mset, keys, prev, args);
    } else {
      var num := NumText(prev, KeyLength(keys[0]));
      assert KeyHolds(buf, mset, keys[0], items[0]);
      EntryIsBulks(buf, mset, keys[0], items[0], num);
      KeysBehind(buf, mset, keys);
      CutCons(buf, mset, keys, keys[1..], prev, num, EntryText(buf, mset, keys[0], num));
      var first := if mset then [items[0].key, items[0].value] else [items[0].key];
      if Cut(buf, mset, keys, prev) == Bulks(args) {
        PeelBulks(first, Cut(buf, mset, keys[1..], num), args);
        StaleFill(buf, mset, keys[1..], items[1..], num, args[|first|..]);
      }
    }
  }

  lemma KeysRemain(buf: Text, mset: bool, keys: seq<KeyPos>, items: seq<Item>)
    requires !mset && KeysHold(buf, mset, keys, items)
    ensures NoRemain(keys)
  {
    forall i | 0 <= i < |keys| ensures keys[i].remain == 0 { assert KeyHolds(buf, mset, keys[i], items[i]); }
  }

  lemma WireIsCut(buf: Text, ctype: Command, keys: seq<KeyPos>, s: nat)
    requires Sound(buf, ctype, keys) && (ctype != MSET ==> NoRemain(keys))
    ensures var narg := ArgCount(ctype, |keys|);
      Serialised(buf, ctype, keys, s).Wire() == HeaderText(ctype, narg) + Cut(buf, ctype == MSET, keys, Digits(narg))
  {
    var sub := Serialised(buf, ctype, keys, s);
    BufferFilledExactly(buf, ctype, keys, s);
    SizedForCut(buf, ctype == MSET, keys, Digits(sub.narg), HeaderText(ctype, sub.narg), sub.cmd, sub.clen);
  }

  lemma SizedForCut(buf: Text, mset: bool, keys: seq<KeyPos>, prev: Text, header: Text, cmd: Text, clen: nat)
    requires Ordered(keys) && Inside(buf, mset, keys) && prev != [] && (!mset ==> NoRemain(keys))
    requires cmd == header + FillText(buf, mset, keys, prev) && |cmd| == clen + Excess(keys, prev)
    ensures clen <= |cmd| && cmd[..clen] == header + Cut(buf, mset, keys, prev)
  {
    FillLength(buf, mset, keys, prev);
    var fill := FillText(buf, mset, keys, prev);
    CutBehind(cmd, header, fill, clen, |fill| - Excess(keys, prev));
  }

  /** A sub-command without stale lengths is sent whole. */
  lemma WireIsWhole(buf: Text, ctype: Command, keys: seq<KeyPos>, items: seq<Item>, s: nat)
    requires Sound(buf, ctype, keys) && KeysHold(buf, ctype == MSET, keys, items)
    requires NoStaleDigits(keys, |Digits(ArgCount(ctype, |keys|))|)
    ensures Serialised(buf, ctype, keys, s).Wire() == Serialised(buf, ctype, keys, s).cmd
  {
    if ctype != MSET { KeysRemain(buf, ctype == MSET, keys, items); }
    BufferFilledExactly(buf, ctype, keys, s);
  }

  /** What is sent of a sub-command with a stale length is no formatted command. */
  lemma StaleIsNoCommand(buf: Text, ctype: Command, keys: seq<KeyPos>, items: seq<Item>, s: nat, argv: seq<Text>)
    requires Sound(buf, ctype, keys) && KeysHold(buf, ctype == MSET, keys, items)
    requires !NoStaleDigits(keys, |Digits(ArgCount(ctype, |keys|))|)
    ensures Serialised(buf, ctype, keys, s).Wire() != Format(argv)
  {
    var narg := ArgCount(ctype, |keys|);
    if ctype != MSET { KeysRemain(buf, ctype == MSET, keys, items); }
    WireIsCut(buf, ctype, keys, s);
    var cut := Cut(buf, ctype == MSET, keys, Digits(narg));
    if HeaderText(ctype, narg) + cut == Format(argv) {
      NameTaken(NameOf(ctype), narg, cut, argv);
      StaleFill(buf, ctype == MSET, keys, items, Digits(narg), argv[1..]);
    }
  }

  lemma NameTaken(name: Text, narg: nat, rest: Text, argv: seq<Text>)
    requires [STAR] + Digits(narg) + CRLF + Bulk(name) + rest == Format(argv) && narg > 0
    ensures argv != [] && rest == Bulks(argv[1..])
  {
    Associative([STAR] + Digits(narg) + CRLF, Bulk(name), rest);
    CountLines(Digits(narg), Bulk(name) + rest, Digits(|argv|), Bulks(argv));
    HeaderLineUnique(narg, |argv|, Bulk(name) + rest, Bulks(argv));
    BulkEnds(name, argv[0], rest, Bulks(argv[1..]));
  }
}
