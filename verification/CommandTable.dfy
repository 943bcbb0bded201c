/** The commands `redis_parse_cmd` recognises and the arity class that `redis_argz` to
    `redis_argeval` put each of them in (`hiredis-vip/command.c`). */
module CommandTable {
  import opened Bytes

  datatype Arity =
    | ArgZ     // no key
    | Arg0     // a key and nothing else
    | Arg1     // a key and one argument
    | Arg2     // a key and two arguments
    | Arg3     // a key and three arguments
    | ArgN     // a key and any number of arguments
    | ArgX     // one or more keys
    | ArgKvx   // one or more key-value pairs
    | ArgEval  // script, key count, keys and arguments

  datatype Command = Unknown | Known(name: string, arity: Arity)

  const MGET := Known("mget", ArgX)
  const DEL := Known("del", ArgX)
  const MSET := Known("mset", ArgKvx)

  /** The names of one length, in alphabetical order; they differ from each other, so the order in
      which they are tried is immaterial. */
  function CommandsOfLength(n: nat): seq<Command> {
    match n
    case 3 => [
        Known("del", ArgX), Known("get", Arg0), Known("set", ArgN), Known("ttl", Arg0)]
    case 4 => [
        Known("auth", Arg0), Known("decr", Arg0), Known("dump", Arg0), Known("eval", ArgEval),
        Known("hdel", ArgN), Known("hget", Arg1), Known("hlen", Arg0), Known("hset", Arg2),
        Known("incr", Arg0), Known("llen", Arg0), Known("lpop", Arg0), Known("lrem", Arg2),
        Known("lset", Arg2), Known("mget", ArgX), Known("mset", ArgKvx), Known("ping", ArgZ),
        Known("pttl", Arg0), Known("quit", ArgZ), Known("rpop", Arg0), Known("sadd", ArgN),
        Known("sort", Arg0), Known("spop", Arg0), Known("srem", ArgN), Known("type", Arg0),
        Known("zadd", ArgN), Known("zrem", ArgN)]
    case 5 => [
        Known("hkeys", Arg0), Known("hmget", ArgN), Known("hmset", ArgN), Known("hscan", ArgN),
        Known("hvals", Arg0), Known("lpush", ArgN), Known("ltrim", Arg2), Known("pfadd", ArgN),
        Known("rpush", ArgN), Known("scard", Arg0), Known("sdiff", ArgN), Known("setex", Arg2),
        Known("setnx", Arg1), Known("smove", Arg2), Known("sscan", ArgN), Known("zcard", Arg0),
        Known("zrank", Arg1), Known("zscan", ArgN)]
    case 6 => [
        Known("append", Arg1), Known("decrby", Arg1), Known("exists", Arg0), Known("expire", Arg1),
        Known("getbit", Arg1), Known("getset", Arg1), Known("hsetnx", Arg2), Known("incrby", Arg1),
        Known("lindex", Arg1), Known("lpushx", Arg1), Known("lrange", Arg2), Known("psetex", Arg2),
        Known("rpushx", Arg1), Known("setbit", Arg2), Known("sinter", ArgN), Known("strlen", Arg0),
        Known("sunion", ArgN), Known("zcount", Arg2), Known("zrange", ArgN), Known("zscore", Arg1)]
    case 7 => [
        Known("evalsha", ArgEval), Known("hexists", Arg1), Known("hgetall", Arg0),
        Known("hincrby", Arg2), Known("linsert", Arg3), Known("persist", Arg0),
        Known("pexpire", Arg1), Known("pfcount", Arg0), Known("pfmerge", ArgN),
        Known("restore", Arg2), Known("zincrby", Arg2)]
    case 8 => [
        Known("bitcount", ArgN), Known("expireat", Arg1), Known("getrange", Arg2),
        Known("setrange", Arg2), Known("smembers", Arg0), Known("zrevrank", Arg1)]
    case 9 => [
        Known("pexpireat", Arg1), Known("rpoplpush", Arg1), Known("sismember", Arg1),
        Known("zlexcount", Arg2), Known("zrevrange", ArgN)]
    case 10 => [
        Known("sdiffstore", ArgN)]
    case 11 => [
        Known("incrbyfloat", Arg1), Known("sinterstore", ArgN), Known("srandmember", ArgN),
        Known("sunionstore", ArgN), Known("zinterstore", ArgN), Known("zrangebylex", ArgN),
        Known("zunionstore", ArgN)]
    case 12 => [
        Known("hincrbyfloat", Arg2)]
    case 13 => [
        Known("zrangebyscore", ArgN)]
    case 14 => [
        Known("zremrangebylex", Arg2)]
    case 15 => [
        Known("zremrangebyrank", Arg2)]
    case 16 => [
        Known("zremrangebyscore", Arg2), Known("zrevrangebyscore", ArgN)]
    case _ => []
  }

  /** `strNicmp`: equality up to the case bit of each letter. */
  predicate Matches(m: Text, name: string) {
    |m| == |name| && forall i :: 0 <= i < |m| ==> m[i] == name[i] as int || m[i] == name[i] as int - 32
  }

  function FindIn(commands: seq<Command>, m: Text, i: nat): Command
    decreases |commands| - i
  {
    if i >= |commands| then Unknown
    else if commands[i].Known? && Matches(m, commands[i].name) then commands[i]
    else FindIn(commands, m, i + 1)
  }

  /** The command a name stands for. */
  function Lookup(m: Text): Command {
    FindIn(CommandsOfLength(|m|), m, 0)
  }

  const MGET_NAME: Text := [109, 103, 101, 116]
  const DEL_NAME: Text := [100, 101, 108]
  const MSET_NAME: Text := [109, 115, 101, 116]

  /** Whatever is found matches. */
  lemma {:induction false} FoundMatches(commands: seq<Command>, m: Text, i: nat)
    ensures FindIn(commands, m, i).Known? ==> Matches(m, FindIn(commands, m, i).name)
    decreases |commands| - i
  {
    if i < |commands| { FoundMatches(commands, m, i + 1); }
  }
}
