/** The classes of the commands as `redis_argz` to `redis_argeval` (`hiredis-vip/command.c`) list
    them, and what they make of a name: the command table has these names and no others, each in
    its class. */
module CommandClasses {
  import opened Bytes
  import opened CommandTable
  import opened CommandGrammar
  import opened CommandLaws
  import opened Resp

  // ---------- the lists, group by group ----------

  const KEY_ARG0: seq<string> := ["exists", "persist", "sort"]
  const TIME_ARG0: seq<string> := ["pttl", "ttl", "type", "dump"]
  const STRING_ARG0: seq<string> := ["decr", "get", "incr", "strlen"]
  const HASH_ARG0: seq<string> := ["hgetall", "hkeys", "hlen", "hvals"]
  const LIST_ARG0: seq<string> := ["llen", "lpop", "rpop"]
  const SET_ARG0: seq<string> := ["scard", "smembers", "spop"]
  const ZSET_ARG0: seq<string> := ["zcard", "pfcount", "auth"]

  const KEY_ARG1: seq<string> := ["expire", "expireat"]
  const TIME_ARG1: seq<string> := ["pexpire", "pexpireat"]
  const STRING_ARG1: seq<string> := ["append", "decrby", "getbit", "getset"]
  const NUMBER_ARG1: seq<string> := ["incrby", "incrbyfloat", "setnx"]
  const HASH_ARG1: seq<string> := ["hexists", "hget"]
  const LIST_ARG1: seq<string> := ["lindex", "lpushx", "rpoplpush", "rpushx"]
  const SET_ARG1: seq<string> := ["sismember", "zrank", "zrevrank", "zscore"]

  const STRING_ARG2: seq<string> := ["getrange", "psetex", "setbit"]
  const RANGE_ARG2: seq<string> := ["setex", "setrange"]
  const HASH_ARG2: seq<string> := ["hincrby", "hincrbyfloat", "hset", "hsetnx"]
  const LIST_ARG2: seq<string> := ["lrange", "lrem", "lset", "ltrim", "smove"]
  const ZSET_ARG2: seq<string> := ["zcount", "zlexcount", "zincrby", "zremrangebylex"]
  const REMOVE_ARG2: seq<string> := ["zremrangebyrank", "zremrangebyscore", "restore"]

  const STRING_ARGN: seq<string> := ["bitcount", "set", "hdel", "hmget"]
  const LIST_ARGN: seq<string> := ["hmset", "hscan", "lpush", "rpush"]
  const SET_ARGN: seq<string> := ["sadd", "sdiff", "sdiffstore"]
  const INTER_ARGN: seq<string> := ["sinter", "sinterstore", "srem"]
  const UNION_ARGN: seq<string> := ["sunion", "sunionstore", "srandmember"]
  const SCAN_ARGN: seq<string> := ["sscan", "pfadd", "pfmerge"]
  const ZSET_ARGN: seq<string> := ["zadd", "zinterstore", "zrange", "zrangebyscore"]
  const RANGE_ARGN: seq<string> := ["zrem", "zrevrange", "zrangebylex"]
  const SCORE_ARGN: seq<string> := ["zrevrangebyscore", "zunionstore", "zscan"]

  /** The names of a class. */
  predicate InClass(w: string, a: Arity) {
    match a
    case ArgZ => w in ["ping", "quit"]
    case Arg0 => (
      || w in KEY_ARG0 || w in TIME_ARG0 || w in STRING_ARG0 || w in HASH_ARG0
      || w in LIST_ARG0 || w in SET_ARG0 || w in ZSET_ARG0)
    case Arg1 => (
      || w in KEY_ARG1 || w in TIME_ARG1 || w in STRING_ARG1 || w in NUMBER_ARG1 || w in HASH_ARG1
      || w in LIST_ARG1 || w in SET_ARG1)
    case Arg2 => (
      || w in STRING_ARG2 || w in RANGE_ARG2 || w in HASH_ARG2 || w in LIST_ARG2
      || w in ZSET_ARG2 || w in REMOVE_ARG2)
    case Arg3 => w in ["linsert"]
    case ArgN => (
      || w in STRING_ARGN || w in LIST_ARGN || w in SET_ARGN || w in INTER_ARGN
      || w in UNION_ARGN || w in SCAN_ARGN || w in ZSET_ARGN || w in RANGE_ARGN
      || w in SCORE_ARGN)
    case ArgX => w in ["mget", "del"]
    case ArgKvx => w in ["mset"]
    case ArgEval => w in ["eval", "evalsha"]
  }

  // ---------- every name of a class is in the table ----------

  predicate Has(w: string, a: Arity) { Known(w, a) in CommandsOfLength(|w|) }

  predicate AllHad(ws: seq<string>, a: Arity) { forall i :: 0 <= i < |ws| ==> Has(ws[i], a) }

  lemma KeyArg0() ensures AllHad(KEY_ARG0, Arg0) { }
  lemma TimeArg0() ensures AllHad(TIME_ARG0, Arg0) { }
  lemma StringArg0() ensures AllHad(STRING_ARG0, Arg0) { }
  lemma HashArg0() ensures AllHad(HASH_ARG0, Arg0) { }
  lemma ListArg0() ensures AllHad(LIST_ARG0, Arg0) { }
  lemma SetArg0() ensures AllHad(SET_ARG0, Arg0) { }
  lemma ZsetArg0() ensures AllHad(ZSET_ARG0, Arg0) { }
  lemma KeyArg1() ensures AllHad(KEY_ARG1, Arg1) { }
  lemma TimeArg1() ensures AllHad(TIME_ARG1, Arg1) { }
  lemma StringArg1() ensures AllHad(STRING_ARG1, Arg1) { }
  lemma NumberArg1() ensures AllHad(NUMBER_ARG1, Arg1) { }
  lemma HashArg1() ensures AllHad(HASH_ARG1, Arg1) { }
  lemma ListArg1() ensures AllHad(LIST_ARG1, Arg1) { }
  lemma SetArg1() ensures AllHad(SET_ARG1, Arg1) { }
  lemma StringArg2() ensures AllHad(STRING_ARG2, Arg2) { }
  lemma RangeArg2() ensures AllHad(RANGE_ARG2, Arg2) { }
  lemma HashArg2() ensures AllHad(HASH_ARG2, Arg2) { }
  lemma ListArg2() ensures AllHad(LIST_ARG2, Arg2) { }
  lemma ZsetArg2() ensures AllHad(ZSET_ARG2, Arg2) { }
  lemma RemoveArg2() ensures AllHad(REMOVE_ARG2, Arg2) { }
  lemma StringArgN() ensures AllHad(STRING_ARGN, ArgN) { }
  lemma ListArgN() ensures AllHad(LIST_ARGN, ArgN) { }
  lemma SetArgN() ensures AllHad(SET_ARGN, ArgN) { }
  lemma InterArgN() ensures AllHad(INTER_ARGN, ArgN) { }
  lemma UnionArgN() ensures AllHad(UNION_ARGN, ArgN) { }
  lemma ScanArgN() ensures AllHad(SCAN_ARGN, ArgN) { }
  lemma ZsetArgN() ensures AllHad(ZSET_ARGN, ArgN) { }
  lemma RangeArgN() ensures AllHad(RANGE_ARGN, ArgN) { }
  lemma ScoreArgN() ensures AllHad(SCORE_ARGN, ArgN) { }

  lemma SmallClasses(w: string, a: Arity)
    requires InClass(w, a) && a in {ArgZ, Arg3, ArgX, ArgKvx, ArgEval}
    ensures Has(w, a)
  {
  }

  lemma ClassArg0(w: string)
    requires InClass(w, Arg0)
    ensures Has(w, Arg0)
  {
    KeyArg0();
    TimeArg0();
    StringArg0();
    HashArg0();
    ListArg0();
    SetArg0();
    ZsetArg0();
  }

  lemma ClassArg1(w: string)
    requires InClass(w, Arg1)
    ensures Has(w, Arg1)
  {
    KeyArg1();
    TimeArg1();
    StringArg1();
    NumberArg1();
    HashArg1();
    ListArg1();
    SetArg1();
  }

  lemma ClassArg2(w: string)
    requires InClass(w, Arg2)
    ensures Has(w, Arg2)
  {
    StringArg2();
    RangeArg2();
    HashArg2();
    ListArg2();
    ZsetArg2();
    RemoveArg2();
  }

  lemma ClassArgN(w: string)
    requires InClass(w, ArgN)
    ensures Has(w, ArgN)
  {
    StringArgN();
    ListArgN();
    SetArgN();
    InterArgN();
    UnionArgN();
    ScanArgN();
    ZsetArgN();
    RangeArgN();
    ScoreArgN();
  }

  lemma ClassHad(w: string, a: Arity)
    requires InClass(w, a)
    ensures Has(w, a)
  {
    match a
    case Arg0 => ClassArg0(w);
    case Arg1 => ClassArg1(w);
    case Arg2 => ClassArg2(w);
    case ArgN => ClassArgN(w);
    case _ => SmallClasses(w, a);
  }

  // ---------- the table has no other names ----------

  predicate Lower(w: string) { forall i :: 0 <= i < |w| ==> 'a' <= w[i] <= 'z' }

  /** The table puts the name into its class; names are written in lower case. */
  predicate Classed(c: Command) { c.Known? && InClass(c.name, c.arity) && Lower(c.name) }

  predicate ClassedFrom(commands: seq<Command>, lo: nat, hi: nat) {
    hi <= |commands| && forall i :: lo <= i < hi ==> Classed(commands[i])
  }

  lemma ThreeClassed() ensures ClassedFrom(CommandsOfLength(3), 0, 4) && |CommandsOfLength(3)| == 4 { }
  lemma FourClassed0() ensures ClassedFrom(CommandsOfLength(4), 0, 4) { }
  lemma FourClassed1() ensures ClassedFrom(CommandsOfLength(4), 4, 8) { }
  lemma FourClassed2() ensures ClassedFrom(CommandsOfLength(4), 8, 12) { }
  lemma FourClassed3() ensures ClassedFrom(CommandsOfLength(4), 12, 16) { }
  lemma FourClassed4() ensures ClassedFrom(CommandsOfLength(4), 16, 21) { }
  lemma FourClassed5() ensures ClassedFrom(CommandsOfLength(4), 21, 26) && |CommandsOfLength(4)| == 26 { }
  lemma FiveClassed0() ensures ClassedFrom(CommandsOfLength(5), 0, 5) { }
  lemma FiveClassed1() ensures ClassedFrom(CommandsOfLength(5), 5, 10) { }
  lemma FiveClassed2() ensures ClassedFrom(CommandsOfLength(5), 10, 14) { }
  lemma FiveClassed3() ensures ClassedFrom(CommandsOfLength(5), 14, 18) && |CommandsOfLength(5)| == 18 { }
  lemma SixClassed0() ensures ClassedFrom(CommandsOfLength(6), 0, 3) { }
  lemma SixClassed1() ensures ClassedFrom(CommandsOfLength(6), 3, 6) { }
  lemma SixClassed2() ensures ClassedFrom(CommandsOfLength(6), 6, 9) { }
  lemma SixClassed3() ensures ClassedFrom(CommandsOfLength(6), 9, 12) { }
  lemma SixClassed4() ensures ClassedFrom(CommandsOfLength(6), 12, 16) { }
  lemma SixClassed5() ensures ClassedFrom(CommandsOfLength(6), 16, 20) && |CommandsOfLength(6)| == 20 { }
  lemma SevenClassed0() ensures ClassedFrom(CommandsOfLength(7), 0, 3) { }
  lemma SevenClassed1() ensures ClassedFrom(CommandsOfLength(7), 3, 6) { }
  lemma SevenClassed2() ensures ClassedFrom(CommandsOfLength(7), 6, 9) { }
  lemma SevenClassed3() ensures ClassedFrom(CommandsOfLength(7), 9, 11) && |CommandsOfLength(7)| == 11 { }
  lemma EightClassed0() ensures ClassedFrom(CommandsOfLength(8), 0, 3) { }
  lemma EightClassed1() ensures ClassedFrom(CommandsOfLength(8), 3, 6) && |CommandsOfLength(8)| == 6 { }
  lemma NineClassed0() ensures ClassedFrom(CommandsOfLength(9), 0, 3) { }
  lemma NineClassed1() ensures ClassedFrom(CommandsOfLength(9), 3, 5) && |CommandsOfLength(9)| == 5 { }
  lemma ElevenClassed0() ensures ClassedFrom(CommandsOfLength(11), 0, 2) { }
  lemma ElevenClassed1() ensures ClassedFrom(CommandsOfLength(11), 2, 4) { }
  lemma ElevenClassed2() ensures ClassedFrom(CommandsOfLength(11), 4, 6) { }
  lemma ElevenClassed3() ensures ClassedFrom(CommandsOfLength(11), 6, 7) && |CommandsOfLength(11)| == 7 { }
  lemma SixteenClassed() ensures ClassedFrom(CommandsOfLength(16), 0, 2) && |CommandsOfLength(16)| == 2 { }

  lemma SingleClassed(n: nat)
    requires n in {10, 12, 13}
    ensures ClassedFrom(CommandsOfLength(n), 0, |CommandsOfLength(n)|)
  {
  }

  lemma LongClassed(n: nat)
    requires n < 3 || n == 14 || n == 15 || n > 16
    ensures ClassedFrom(CommandsOfLength(n), 0, |CommandsOfLength(n)|)
  {
  }

  lemma ShortClassed(n: nat)
    requires n in {3, 4, 5, 6}
    ensures ClassedFrom(CommandsOfLength(n), 0, |CommandsOfLength(n)|)
  {
    if n == 3 {
      ThreeClassed();
    } else if n == 4 {
      FourClassed0();
      FourClassed1();
      FourClassed2();
      FourClassed3();
      FourClassed4();
      FourClassed5();
    } else if n == 5 {
      FiveClassed0();
      FiveClassed1();
      FiveClassed2();
      FiveClassed3();
    } else {
      SixClassed0();
      SixClassed1();
      SixClassed2();
      SixClassed3();
      SixClassed4();
      SixClassed5();
    }
  }

  lemma MiddleClassed(n: nat)
    requires n in {7, 8, 9, 11}
    ensures ClassedFrom(CommandsOfLength(n), 0, |CommandsOfLength(n)|)
  {
    if n == 7 {
      SevenClassed0();
      SevenClassed1();
      SevenClassed2();
      SevenClassed3();
    } else if n == 8 {
      EightClassed0();
      EightClassed1();
    } else if n == 9 {
      NineClassed0();
      NineClassed1();
    } else {
      ElevenClassed0();
      ElevenClassed1();
      ElevenClassed2();
      ElevenClassed3();
    }
  }

  lemma TableClassed(n: nat)
    ensures ClassedFrom(CommandsOfLength(n), 0, |CommandsOfLength(n)|)
  {
    if n in {3, 4, 5, 6} {
      ShortClassed(n);
    } else if n in {7, 8, 9, 11} {
      MiddleClassed(n);
    } else if n == 16 {
      SixteenClassed();
    } else if n in {10, 12, 13} {
      SingleClassed(n);
    } else {
      LongClassed(n);
    }
  }

  // ---------- no two names match one text ----------

  predicate Distinct(commands: seq<Command>) {
    forall i, j :: 0 <= i < j < |commands| && commands[i].Known? && commands[j].Known? ==> commands[i].name != commands[j].name
  }

  lemma ThreeDistinct()
    ensures forall i, j :: 0 <= i < j < |CommandsOfLength(3)| ==> CommandsOfLength(3)[i].name != CommandsOfLength(3)[j].name
  {
  }

  lemma FourDistinct()
    ensures forall i, j :: 0 <= i < j < |CommandsOfLength(4)| ==> CommandsOfLength(4)[i].name != CommandsOfLength(4)[j].name
  {
  }

  lemma FiveDistinct()
    ensures forall i, j :: 0 <= i < j < |CommandsOfLength(5)| ==> CommandsOfLength(5)[i].name != CommandsOfLength(5)[j].name
  {
  }

  lemma SixDistinct()
    ensures forall i, j :: 0 <= i < j < |CommandsOfLength(6)| ==> CommandsOfLength(6)[i].name != CommandsOfLength(6)[j].name
  {
  }

  lemma SevenDistinct()
    ensures forall i, j :: 0 <= i < j < |CommandsOfLength(7)| ==> CommandsOfLength(7)[i].name != CommandsOfLength(7)[j].name
  {
  }

  lemma EightDistinct()
    ensures forall i, j :: 0 <= i < j < |CommandsOfLength(8)| ==> CommandsOfLength(8)[i].name != CommandsOfLength(8)[j].name
  {
  }

  lemma NineDistinct()
    ensures forall i, j :: 0 <= i < j < |CommandsOfLength(9)| ==> CommandsOfLength(9)[i].name != CommandsOfLength(9)[j].name
  {
  }

  lemma ElevenDistinct()
    ensures forall i, j :: 0 <= i < j < |CommandsOfLength(11)| ==> CommandsOfLength(11)[i].name != CommandsOfLength(11)[j].name
  {
  }

  lemma SixteenDistinct()
    ensures forall i, j :: 0 <= i < j < |CommandsOfLength(16)| ==> CommandsOfLength(16)[i].name != CommandsOfLength(16)[j].name
  {
  }

  lemma TableDistinct(n: nat)
    ensures Distinct(CommandsOfLength(n))
  {
    match n
    case 3 => ThreeDistinct();
    case 4 => FourDistinct();
    case 5 => FiveDistinct();
    case 6 => SixDistinct();
    case 7 => SevenDistinct();
    case 8 => EightDistinct();
    case 9 => NineDistinct();
    case 11 => ElevenDistinct();
    case 16 => SixteenDistinct();
    case _ =>
  }

  /** A text spells at most one name in lower case. */
  lemma OneSpelt(m: Text, v: string, w: string)
    requires Matches(m, v) && Matches(m, w) && Lower(v) && Lower(w)
    ensures v == w
  {
    forall i | 0 <= i < |m| ensures v[i] == w[i] {
      assert (m[i] == v[i] as int || m[i] == v[i] as int - 32) && (m[i] == w[i] as int || m[i] == w[i] as int - 32);
      assert 'a' <= v[i] <= 'z' && 'a' <= w[i] <= 'z';
    }
  }

  /** An entry that matches is found. */
  lemma {:induction false} EntryFound(commands: seq<Command>, m: Text, i: nat, j: nat)
    requires i <= j < |commands| && Distinct(commands) && ClassedFrom(commands, 0, |commands|)
    requires Matches(m, commands[j].name)
    ensures FindIn(commands, m, i) == commands[j]
    decreases j - i
  {
    assert Classed(commands[i]) && Classed(commands[j]);
    if i < j {
      if Matches(m, commands[i].name) {
        OneSpelt(m, commands[i].name, commands[j].name);
        assert false;
      }
      EntryFound(commands, m, i + 1, j);
    }
  }

  lemma {:induction false} FoundIsEntry(commands: seq<Command>, m: Text, i: nat)
    ensures FindIn(commands, m, i).Known? ==> FindIn(commands, m, i) in commands
    decreases |commands| - i
  {
    if i < |commands| { FoundIsEntry(commands, m, i + 1); }
  }

  /** A name stands for a command exactly if the class lists have that command and the name is its
      letters in either case. */
  lemma ClassOf(m: Text, w: string, a: Arity)
    ensures Lookup(m) == Known(w, a) <==> InClass(w, a) && Matches(m, w)
  {
    var table := CommandsOfLength(|m|);
    TableClassed(|m|);
    TableDistinct(|m|);
    FoundMatches(table, m, 0);
    FoundIsEntry(table, m, 0);
    if Lookup(m) == Known(w, a) {
      var i :| 0 <= i < |table| && table[i] == Known(w, a);
      assert Classed(table[i]);
    }
    if InClass(w, a) && Matches(m, w) {
      ClassHad(w, a);
      var j :| 0 <= j < |table| && table[j] == Known(w, a);
      EntryFound(table, m, 0, j);
    }
  }

  /** Writing a command's name in any case and parsing the formatted text gives the answer for that
      command's class. */
  lemma ParsedByClass(argv: seq<Text>, w: string, a: Arity)
    requires Fits(argv) && argv != [] && InClass(w, a) && Matches(argv[0], w)
    ensures Parse(Format(argv)) == Answer(argv, Known(w, a))
  {
    FormatThenParse(argv);
    ClassOf(argv[0], w, a);
    ClassHad(w, a);
    assert CommandsOfLength(0) == [];
  }

  /** Any other name is refused. */
  lemma OthersRefused(argv: seq<Text>)
    requires Fits(argv) && argv != []
    requires forall w, a :: InClass(w, a) ==> !Matches(argv[0], w)
    ensures Parse(Format(argv)) == Failed
  {
    FormatThenParse(argv);
    var c := Lookup(argv[0]);
    if c.Known? { ClassOf(argv[0], c.name, c.arity); }
  }

  function Folded(b: Byte): Byte { if 65 <= b <= 90 then b + 32 else b }

  /** A name in lower case is matched exactly by its own letters, small or capital. */
  lemma MatchesFolded(m: Text, w: string)
    requires Lower(w)
    ensures Matches(m, w) <==> |m| == |w| && forall i :: 0 <= i < |m| ==> Folded(m[i]) == w[i] as int
  {
    if |m| == |w| && forall i :: 0 <= i < |m| ==> Folded(m[i]) == w[i] as int {
      forall i | 0 <= i < |m| ensures m[i] == w[i] as int || m[i] == w[i] as int - 32 { assert Folded(m[i]) == w[i] as int; }
    }
    if Matches(m, w) {
      forall i | 0 <= i < |m| ensures Folded(m[i]) == w[i] as int { assert 'a' <= w[i] <= 'z'; }
    }
  }

  // ---------- the commands with several keys ----------

  /** A name stands for one of the three multi-key commands exactly if it is that command's name
      up to the case of its letters. */
  lemma VectorCommands(name: Text)
    ensures Lookup(name) == MGET <==> Matches(name, "mget")
    ensures Lookup(name) == DEL <==> Matches(name, "del")
    ensures Lookup(name) == MSET <==> Matches(name, "mset")
  {
    ClassOf(name, "mget", ArgX);
    ClassOf(name, "del", ArgX);
    ClassOf(name, "mset", ArgKvx);
  }

  predicate OnlyVectors(c: Command) {
    c.Known? ==> (c.arity == ArgX ==> c == MGET || c == DEL) && (c.arity == ArgKvx ==> c == MSET)
  }

  /** MGET and DEL alone take several keys, and MSET alone takes pairs. */
  lemma FoundVectors(n: nat, m: Text)
    ensures OnlyVectors(FindIn(CommandsOfLength(n), m, 0))
  {
    TableClassed(n);
    FoundIsEntry(CommandsOfLength(n), m, 0);
  }

  /** The names the client itself writes. */
  lemma OwnNames()
    ensures Lookup(MGET_NAME) == MGET && Lookup(DEL_NAME) == DEL && Lookup(MSET_NAME) == MSET
  {
    VectorCommands(MGET_NAME);
    VectorCommands(DEL_NAME);
    VectorCommands(MSET_NAME);
  }
}
