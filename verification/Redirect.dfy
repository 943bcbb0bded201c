/** Sending a command to a cluster with bounded redirection (`redis_cluster_command_execute` and
    `redisClusterFormattedCommand` of `hiredis-vip/hircluster.c`). What the network and the nodes
    answer is arbitrary. */
module Redirect {
  import opened Bytes
  import opened CommandTable
  import opened Fragments
  import opened KeyValue
  import opened Replies
  import opened Gather
  import opened ScatterGather

  // ---------- error classes ----------

  const MOVED: Text := [77, 79, 86, 69, 68]
  const ASK: Text := [65, 83, 75]
  const TRYAGAIN: Text := [84, 82, 89, 65, 71, 65, 73, 78]
  const CROSSSLOT: Text := [67, 82, 79, 83, 83, 83, 76, 79, 84]
  const CLUSTERDOWN: Text := [67, 76, 85, 83, 84, 69, 82, 68, 79, 87, 78]

  datatype ErrorType = NoReply | NotError | Moved | Ask | TryAgain | CrossSlot | ClusterDown | OtherError

  /** The text starts with the word and goes on behind it. */
  predicate Announces(text: Text, word: Text) {
    |word| < |text| && text[..|word|] == word
  }

  /** `cluster_reply_error_type`. */
  function Classify(reply: Option<Reply>): ErrorType {
    if reply.None? then NoReply
    else if !reply.value.Error? then NotError
    else
      var text := reply.value.text;
      if Announces(text, MOVED) then Moved
      else if Announces(text, ASK) then Ask
      else if Announces(text, TRYAGAIN) then TryAgain
      else if Announces(text, CROSSSLOT) then CrossSlot
      else if Announces(text, CLUSTERDOWN) then ClusterDown
      else OtherError
  }

  /** The classes that make the client try again. */
  predicate Redirects(reply: Option<Reply>) {
    Classify(reply) in {Moved, Ask, TryAgain, CrossSlot, ClusterDown}
  }

  /** At most one of the words fits, so the order of the tests does not matter. */
  lemma OneWordFits(text: Text)
    ensures Classify(Some(Error(text))) == Moved <==> Announces(text, MOVED)
    ensures Classify(Some(Error(text))) == Ask <==> Announces(text, ASK)
    ensures Classify(Some(Error(text))) == TryAgain <==> Announces(text, TRYAGAIN)
    ensures Classify(Some(Error(text))) == CrossSlot <==> Announces(text, CROSSSLOT)
    ensures Classify(Some(Error(text))) == ClusterDown <==> Announces(text, CLUSTERDOWN)
  {
    forall word: Text | Announces(text, word) && |word| > 1 ensures text[0] == word[0] && text[1] == word[1] {
      assert text[..|word|][0] == text[0] && text[..|word|][1] == text[1];
    }
  }

  predicate Says(text: Text, word: string) {
    |text| == |word| && forall i :: 0 <= i < |text| ==> text[i] == word[i] as int
  }

  lemma Words()
    ensures Says(MOVED, "MOVED") && Says(ASK, "ASK") && Says(TRYAGAIN, "TRYAGAIN") && Says(CROSSSLOT, "CROSSSLOT")
    ensures Says(CLUSTERDOWN, "CLUSTERDOWN")
  {
  }

  /** A word is announced by a text that goes on behind it. */
  lemma AnnouncesMeans(text: Text, word: Text)
    ensures Announces(text, word) <==> exists rest :: rest != [] && text == word + rest
  {
    if Announces(text, word) {
      assert text == word + text[|word|..];
    }
    if rest :| rest != [] && text == word + rest {
      assert text[..|word|] == word;
    }
  }

  /** Tried again is exactly after an error that announces one of the five words. */
  lemma RedirectsMeans(reply: Option<Reply>)
    ensures Redirects(reply) <==>
      exists word, rest :: word in {MOVED, ASK, TRYAGAIN, CROSSSLOT, CLUSTERDOWN} && rest != [] && reply == Some(Error(word + rest))
  {
    if reply.Some? && reply.value.Error? {
      var text := reply.value.text;
      OneWordFits(text);
      forall word ensures Announces(text, word) <==> exists rest :: rest != [] && text == word + rest {
        AnnouncesMeans(text, word);
      }
      if Redirects(reply) {
        var word :| word in {MOVED, ASK, TRYAGAIN, CROSSSLOT, CLUSTERDOWN} && Announces(text, word);
        var rest :| rest != [] && text == word + rest;
        assert reply == Some(Error(word + rest));
      }
    }
  }

  // ---------- one command ----------

  datatype Ctx = NullCtx | BrokenCtx | GoodCtx

  /** What the world does in one round: the look-ups, the connections, the answers. */
  datatype Round = Round(hasNode: bool, ctx: Ctx, anyNode: bool, spare: Ctx, appended: bool, answer: Option<Reply>,
                         updated: bool, askNode: bool, askCtx: Ctx, asking: bool)

  /** One sending of command bytes and the answer to it. */
  datatype Sent = Sent(cmd: Text, answer: Option<Reply>)

  /** The traffic of one command: it is sent again only after a redirect, and the reply given
      back is the answer to the last sending and no redirect. */
  predicate Exchange(entries: seq<Sent>, cmd: Text, reply: Option<Reply>) {
    && (forall i :: 0 <= i < |entries| ==> entries[i].cmd == cmd)
    && (forall i :: 0 <= i < |entries| - 1 ==> Redirects(entries[i].answer))
    && (reply.Some? ==> entries != [] && entries[|entries| - 1].answer == reply && !Redirects(reply))
  }

  /** Sent so far without success. */
  predicate Redirected(entries: seq<Sent>, cmd: Text) {
    forall i :: 0 <= i < |entries| ==> entries[i].cmd == cmd && Redirects(entries[i].answer)
  }

  lemma GivenUp(entries: seq<Sent>, cmd: Text)
    requires Redirected(entries, cmd)
    ensures Exchange(entries, cmd, None)
  {
  }

  lemma AnsweredNow(entries: seq<Sent>, cmd: Text, answer: Option<Reply>)
    requires Redirected(entries, cmd)
    ensures var all := entries + [Sent(cmd, answer)];
      if Redirects(answer) then Redirected(all, cmd) else Exchange(all, cmd, answer)
  {
  }

  // ---------- how each sending comes about ----------

  /** A fresh attempt finds a node with a connection, or another node when the connection is broken. */
  predicate LookedUp(r: Round) {
    r.hasNode && (r.ctx == GoodCtx || (r.ctx == BrokenCtx && r.anyNode && r.spare == GoodCtx))
  }

  /** The class of the last answer. */
  function LastClass(sent: seq<Sent>): ErrorType {
    if sent == [] then NotError else Classify(sent[|sent| - 1].answer)
  }

  /** What the next sending needs: behind ASK that the node named has been connected and told so, and
      no look-up; behind MOVED that the route has been updated; and otherwise a look-up. */
  predicate Ready(last: ErrorType, prev: Round, now: Round) {
    if last == Ask then prev.askNode && prev.askCtx == GoodCtx && prev.asking
    else (last == Moved ==> prev.updated) && LookedUp(now)
  }

  /** The redirect could be followed. */
  predicate Followed(last: ErrorType, prev: Round) {
    (last == Moved ==> prev.updated) && (last == Ask ==> prev.askNode && prev.askCtx == GoodCtx && prev.asking)
  }

  /** The rounds from `c` on let sending `n` go out. */
  predicate Prepared(world: nat -> Round, c: nat, n: nat, last: ErrorType) {
    if n == 0 then LookedUp(world(c)) else Ready(last, world(c + n - 1), world(c + n))
  }

  /** Every sending was let out by its round and answered in it. */
  predicate Traced(world: nat -> Round, c: nat, sent: seq<Sent>) {
    if sent == [] then true
    else
      var n := |sent| - 1;
      && Traced(world, c, sent[..n])
      && Prepared(world, c, n, LastClass(sent[..n]))
      && world(c + n).appended && sent[n].answer == world(c + n).answer
  }

  /** Sending by sending: behind ASK the named node was connected and told so; otherwise a node was
      found whose connection was good, or broken with another node's good one in its place; and behind
      MOVED the route was updated before. */
  lemma {:induction false} TracedMeans(world: nat -> Round, c: nat, sent: seq<Sent>, i: nat)
    requires Traced(world, c, sent) && i < |sent|
    ensures var now, asked := world(c + i), i > 0 && Classify(sent[i - 1].answer) == Ask;
      && now.appended && now.answer == sent[i].answer
      && (asked ==> var r := world(c + i - 1); r.askNode && r.askCtx == GoodCtx && r.asking)
      && (!asked ==> now.hasNode && now.ctx != NullCtx && (now.ctx == BrokenCtx ==> now.anyNode && now.spare == GoodCtx))
      && (i > 0 && Classify(sent[i - 1].answer) == Moved ==> world(c + i - 1).updated)
  {
    var n := |sent| - 1;
    if i < n {
      TracedMeans(world, c, sent[..n], i);
    } else {
      assert i > 0 ==> LastClass(sent[..n]) == Classify(sent[i - 1].answer);
    }
  }

  /** Behind a sending in `round`, the next one depends on the answer to it. */
  predicate Continued(world: nat -> Round, c: nat, sent: seq<Sent>, round: Round) {
    var last := Classify(round.answer);
    && Traced(world, c, sent) && sent != [] && sent[|sent| - 1].answer == round.answer
    && (Prepared(world, c, |sent|, last) <==> Ready(last, round, world(c + |sent|)))
  }

  lemma TracedSnoc(world: nat -> Round, c: nat, before: seq<Sent>, sent: seq<Sent>, n: nat, round: Round)
    requires |sent| == n + 1 && sent[..n] == before && Traced(world, c, before) && Prepared(world, c, n, LastClass(before))
    requires round == world(c + n) && round.appended && sent[n].answer == round.answer
    ensures Continued(world, c, sent, round)
  {
  }

  /** What a sending in `round` leaves: a redirect goes on, any other answer ends the exchange. */
  predicate AnsweredIn(world: nat -> Round, c: nat, sent: seq<Sent>, cmd: Text, round: Round) {
    && Continued(world, c, sent, round)
    && Exchange(sent, cmd, if Redirects(round.answer) then None else round.answer)
    && (Redirects(round.answer) ==> Redirected(sent, cmd))
  }

  /** Why nothing is given back: the redirects are used up, a sending was not answered, or the next
      one could not go out. */
  predicate Hindered(world: nat -> Round, c: nat, sent: seq<Sent>, usedUp: bool) {
    || usedUp
    || (sent != [] && sent[|sent| - 1].answer.None?)
    || !Prepared(world, c, |sent|, LastClass(sent))
    || !world(c + |sent|).appended
  }

  /** Before a round: all was redirected so far, and `asked` skips the look-up. */
  predicate Route(world: nat -> Round, c: nat, sent: seq<Sent>, cmd: Text, asked: bool) {
    && Traced(world, c, sent) && Redirected(sent, cmd)
    && (Prepared(world, c, |sent|, LastClass(sent)) <==> asked || LookedUp(world(c + |sent|)))
  }

  lemma OneMore(world: nat -> Round, c: nat, sent: seq<Sent>, cmd: Text, asked: bool)
    requires Route(world, c, sent, cmd, asked)
    requires world(c + |sent|).appended && (asked || LookedUp(world(c + |sent|)))
    ensures var round := world(c + |sent|); AnsweredIn(world, c, sent + [Sent(cmd, round.answer)], cmd, round)
  {
    TracedSnoc(world, c, sent, sent + [Sent(cmd, world(c + |sent|).answer)], |sent|, world(c + |sent|));
    AnsweredNow(sent, cmd, world(c + |sent|).answer);
    if Redirects(world(c + |sent|).answer) { GivenUp(sent + [Sent(cmd, world(c + |sent|).answer)], cmd); }
  }

  lemma Onward(world: nat -> Round, c: nat, sent: seq<Sent>, cmd: Text, round: Round, asked: bool)
    requires AnsweredIn(world, c, sent, cmd, round) && Redirects(round.answer)
    ensures
      var now := world(c + |sent|);
      var ready := Ready(Classify(round.answer), round, now);
      if ready <==> asked || LookedUp(now) then Route(world, c, sent, cmd, asked)
      else !ready ==> Hindered(world, c, sent, false)
  {
  }

  /** Nothing is given back. */
  predicate StoppedIn(world: nat -> Round, c: nat, sent: seq<Sent>, cmd: Text, usedUp: bool) {
    Exchange(sent, cmd, None) && Hindered(world, c, sent, usedUp)
  }

  lemma NoneMore(world: nat -> Round, c: nat, sent: seq<Sent>, cmd: Text, asked: bool, usedUp: bool)
    requires Route(world, c, sent, cmd, asked)
    requires usedUp || !world(c + |sent|).appended || (!asked && !LookedUp(world(c + |sent|)))
    ensures StoppedIn(world, c, sent, cmd, usedUp)
  {
    GivenUp(sent, cmd);
  }

  const LATER: Text := TRYAGAIN + [SPACE]

  /** A healthy round in which the node says "try again". */
  predicate Stubborn(r: Round) {
    r.hasNode && r.ctx == GoodCtx && r.appended && r.answer == Some(Error(LATER))
  }

  /** A round in which nothing fails. */
  predicate Healthy(r: Round) {
    r.hasNode && r.ctx == GoodCtx && r.appended && r.answer.Some? && r.updated && r.askNode && r.askCtx == GoodCtx && r.asking
  }

  ghost predicate AlwaysHealthy(world: nat -> Round) {
    forall n: nat :: Healthy(world(n))
  }

  ghost predicate AlwaysStubborn(world: nat -> Round) {
    forall n: nat :: Stubborn(world(n))
  }

  lemma StubbornClass(world: nat -> Round, n: nat)
    requires AlwaysStubborn(world)
    ensures Stubborn(world(n)) && Classify(world(n).answer) == TryAgain
  {
    assert Stubborn(world(n));
    assert LATER[..|TRYAGAIN|] == TRYAGAIN;
    OneWordFits(LATER);
  }

  class Cluster {
    /** What happens in each round. */
    const world: nat -> Round
    const maxRedirects: nat
    var clock: nat
    var retryCount: nat
    var log: seq<Sent>

    constructor (world: nat -> Round, maxRedirects: nat)
      ensures this.world == world && this.maxRedirects == maxRedirects && retryCount == 0 && log == []
    {
      this.world, this.maxRedirects := world, maxRedirects;
      clock, retryCount, log := 0, 0, [];
    }

    /** Finds a connection for a fresh attempt. */
    method Connect(round: Round) returns (ok: bool)
      requires retryCount <= maxRedirects
      modifies this`retryCount
      ensures old(retryCount) <= retryCount <= old(retryCount) + 1
      ensures ok ==> retryCount <= maxRedirects && LookedUp(round)
      ensures !ok ==> !LookedUp(round) || retryCount > maxRedirects
      ensures round.hasNode && round.ctx == GoodCtx ==> ok && retryCount == old(retryCount)
    {
      if !round.hasNode || round.ctx == NullCtx { return false; }
      if round.ctx == BrokenCtx {
        if !round.anyNode { return false; }
        retryCount := retryCount + 1;
        if retryCount > maxRedirects || round.spare != GoodCtx { return false; }
      }
      ok := true;
    }

    /** One round: a node is looked up unless one was named, and the command is sent to it. */
    method Attempt(cmd: Text, asked: bool, ghost c: nat, ghost before: seq<Sent>, ghost sent: seq<Sent>)
      returns (went: bool, round: Round, ghost more: seq<Sent>)
      requires retryCount <= maxRedirects && clock == c + |sent| && log == before + sent
      requires Route(world, c, sent, cmd, asked)
      modifies this`clock, this`retryCount, this`log
      ensures round == world(old(clock)) && clock == old(clock) + 1 && log == before + more
      ensures old(retryCount) <= retryCount <= old(retryCount) + 1
      ensures !went ==> more == sent && StoppedIn(world, c, sent, cmd, retryCount > maxRedirects)
      ensures went ==> |more| == |sent| + 1 && retryCount <= maxRedirects && AnsweredIn(world, c, more, cmd, round)
      ensures round.hasNode && round.ctx == GoodCtx && round.appended ==> went && retryCount == old(retryCount)
    {
      round, more := world(clock), sent;
      clock := clock + 1;
      went := true;
      if !asked { went := Connect(round); }
      went := went && round.appended;
      if !went {
        NoneMore(world, c, sent, cmd, asked, retryCount > maxRedirects);
      } else {
        OneMore(world, c, sent, cmd, asked);
        Associative(before, sent, [Sent(cmd, round.answer)]);
        log, more := log + [Sent(cmd, round.answer)], sent + [Sent(cmd, round.answer)];
      }
    }

    /** `redis_cluster_command_execute`. `sent` is the traffic of this command. */
    method Execute(cmd: Text) returns (reply: Option<Reply>, ghost sent: seq<Sent>)
      requires retryCount <= maxRedirects
      modifies this`clock, this`retryCount, this`log
      ensures log == old(log) + sent && Exchange(sent, cmd, reply)
      ensures old(retryCount) <= retryCount && |sent| <= 1 + maxRedirects - old(retryCount)
      ensures reply.Some? ==> retryCount <= maxRedirects && |sent| <= 1 + retryCount - old(retryCount)
      ensures AlwaysHealthy(world) ==> |sent| == 1 + retryCount - old(retryCount) - if reply.Some? then 0 else 1
      ensures AlwaysHealthy(world) && reply.None? ==> retryCount == maxRedirects + 1
      ensures AlwaysStubborn(world) ==> reply.None? && |sent| == 1 + maxRedirects - old(retryCount)
      ensures Traced(world, old(clock), sent)
      ensures reply.None? ==> Hindered(world, old(clock), sent, retryCount > maxRedirects)
    {
      var asked := false;
      sent := [];
      while true
        invariant old(retryCount) <= retryCount <= maxRedirects && |sent| <= retryCount - old(retryCount)
        invariant log == old(log) + sent
        invariant AlwaysHealthy(world) ==> |sent| == retryCount - old(retryCount)
        invariant AlwaysStubborn(world) ==> !asked && |sent| == retryCount - old(retryCount)
        invariant clock == old(clock) + |sent| && Route(world, old(clock), sent, cmd, asked)
        decreases maxRedirects - retryCount
      {
        if AlwaysStubborn(world) { StubbornClass(world, clock); }
        assert AlwaysHealthy(world) ==> Healthy(world(clock));
        var went, round;
        went, round, sent := Attempt(cmd, asked, old(clock), old(log), sent);
        if !went { return None, sent; }
        if !Redirects(round.answer) { return round.answer, sent; }
        retryCount := retryCount + 1;
        if retryCount > maxRedirects { return None, sent; }
        var ok;
        ok, asked := Follow(round);
        Onward(world, old(clock), sent, cmd, round, asked);
        if !ok { return None, sent; }
      }
    }

    /** What is done behind a redirect: `asked` when the next sending goes to the node named. */
    method Follow(round: Round) returns (ok: bool, asked: bool)
      ensures ok <==> Followed(Classify(round.answer), round)
      ensures asked ==> Classify(round.answer) == Ask
      ensures ok ==> forall now :: Ready(Classify(round.answer), round, now) <==> asked || LookedUp(now)
      ensures !ok ==> forall now :: !Ready(Classify(round.answer), round, now)
    {
      match Classify(round.answer)
      case Moved =>
        return round.updated, false;
      case Ask =>
        ok := round.askNode && round.askCtx == GoodCtx && round.asking;
        return ok, ok;
      case _ =>
        return true, false;
    }

    /** One sub-command: its reply is kept. */
    method ExecuteNext(commands: seq<SubCommand>, i: nat, filed: SubReplies, ghost sent: seq<Sent>, ghost replies: seq<Reply>)
      returns (reply: Option<Reply>, filed': SubReplies, ghost more: seq<Sent>, ghost replies': seq<Reply>)
      requires retryCount <= maxRedirects && i == |replies| < |commands|
      requires Progress(sent, commands, replies, filed) && ErrorFree(replies)
      modifies this`clock, this`retryCount, this`log
      ensures log == old(log) + more && old(retryCount) <= retryCount && |more| <= 1 + maxRedirects - old(retryCount)
      ensures reply.Some? ==> Progress(sent + more, commands, replies', filed') && replies' == replies + [reply.value]
      ensures reply.Some? ==> retryCount <= maxRedirects && |more| <= 1 + retryCount - old(retryCount)
      ensures AlwaysHealthy(world) ==>
        |more| == 1 + (if reply.Some? then retryCount else maxRedirects) - old(retryCount)
    {
      reply, more := Execute(commands[i].Wire());
      filed', replies' := filed, replies;
      if reply.Some? {
        ProgressSnoc(sent, more, commands, replies, filed, reply.value);
        filed', replies' := filed[commands[i].slot := reply], replies + [reply.value];
      }
    }

    /** The loop of `redisClusterFormattedCommand` over the sub-commands. */
    method ExecuteAll(commands: seq<SubCommand>)
      returns (reply: Option<Reply>, filed: SubReplies, ghost sent: seq<Sent>, ghost replies: seq<Reply>)
      requires retryCount <= maxRedirects && commands != []
      modifies this`clock, this`retryCount, this`log
      ensures log == old(log) + sent && |sent| <= |commands| + maxRedirects - old(retryCount)
      ensures reply.Some? ==> Progress(sent, commands, replies, filed) && replies != [] && reply == Some(replies[|replies| - 1])
      ensures reply.Some? && !reply.value.Error? ==> |replies| == |commands|
      ensures AlwaysHealthy(world) && reply.None? ==> |sent| > maxRedirects - old(retryCount)
    {
      reply, sent, replies, filed := None, [], [], map[];
      ghost var healthy := AlwaysHealthy(world);
      var i := 0;
      while i < |commands|
        invariant 0 <= i <= |commands| && |replies| == i && old(retryCount) <= retryCount <= maxRedirects
        invariant |sent| <= i + retryCount - old(retryCount) && log == old(log) + sent
        invariant healthy ==> |sent| == i + retryCount - old(retryCount)
        invariant Progress(sent, commands, replies, filed) && ErrorFree(replies)
        invariant i > 0 ==> reply == Some(replies[i - 1])
      {
        ghost var more;
        reply, filed, more, replies := ExecuteNext(commands, i, filed, sent, replies);
        sent := sent + more;
        if reply.None? || reply.value.Error? { return; }
        i := i + 1;
      }
    }

    /** `redisClusterFormattedCommand`, the command split already: with no sub-commands the
        command goes out whole. `sent` is all its traffic, `replies` are those kept. */
    method FormattedCommand(cmd: Text, ctype: Command, commands: seq<SubCommand>, fragSeq: seq<nat>)
      returns (reply: Option<Reply>, ghost sent: seq<Sent>, ghost replies: seq<Reply>)
      requires retryCount == 0 && (commands != [] ==> ctype in {MGET, DEL, MSET})
      requires forall i :: 0 <= i < |fragSeq| ==> fragSeq[i] in SlotOrder(commands)
      modifies this`clock, this`retryCount, this`log
      ensures retryCount == 0 && log == old(log) + sent
      ensures |sent| <= maxRedirects + if commands == [] then 1 else |commands|
      ensures commands == [] ==> Exchange(sent, cmd, reply)
      ensures commands != [] ==> reply.None? || Gathered(ctype, commands, fragSeq, sent, replies, reply)
      ensures AlwaysHealthy(world) && |sent| <= maxRedirects ==>
        if commands == [] then reply.Some? else Gathered(ctype, commands, fragSeq, sent, replies, reply)
    {
      replies := [];
      if commands == [] {
        reply, sent := Execute(cmd);
        retryCount := 0;
        return;
      }
      var filed;
      reply, filed, sent, replies := ExecuteAll(commands);
      if reply.Some? && !reply.value.Error? {
        assert commands[..|commands|] == commands;
        FiledAll(commands, replies);
        reply := PostFragment(ctype, SlotOrder(commands), filed, fragSeq);
      }
      retryCount := 0;
    }
  }

  // ---------- a split command ----------

  /** The traffic of several commands, one after the other, and the reply kept for each. */
  ghost predicate Runs(sent: seq<Sent>, commands: seq<SubCommand>, replies: seq<Reply>)
    requires |commands| == |replies|
    decreases |commands|
  {
    if commands == [] then sent == []
    else exists k :: 0 <= k <= |sent| && EndsWith(sent, k, commands, replies)
  }

  /** The traffic of the last command starts at `k`. */
  ghost predicate EndsWith(sent: seq<Sent>, k: nat, commands: seq<SubCommand>, replies: seq<Reply>)
    requires 0 < |commands| == |replies| && k <= |sent|
    decreases |commands|, 0
  {
    var n := |commands| - 1;
    Runs(sent[..k], commands[..n], replies[..n]) && Exchange(sent[k..], commands[n].Wire(), Some(replies[n]))
  }

  predicate ErrorFree(replies: seq<Reply>) {
    forall i :: 0 <= i < |replies| ==> !replies[i].Error?
  }

  /** As many sub-commands have been run as there are replies, and only the last of these may be
      an error. */
  ghost predicate Progress(sent: seq<Sent>, commands: seq<SubCommand>, replies: seq<Reply>, filed: SubReplies) {
    && |replies| <= |commands| && Runs(sent, commands[..|replies|], replies) && filed == Filed(commands[..|replies|], replies)
    && (replies != [] ==> ErrorFree(replies[..|replies| - 1]))
  }

  function Filed(commands: seq<SubCommand>, replies: seq<Reply>): SubReplies
    requires |commands| == |replies|
  {
    if commands == [] then map[]
    else
      var n := |commands| - 1;
      Filed(commands[..n], replies[..n])[commands[n].slot := Some(replies[n])]
  }

  lemma ProgressSnoc(sent: seq<Sent>, more: seq<Sent>, commands: seq<SubCommand>, replies: seq<Reply>,
                     filed: SubReplies, reply: Reply)
    requires Progress(sent, commands, replies, filed) && ErrorFree(replies) && |replies| < |commands|
    requires Exchange(more, commands[|replies|].Wire(), Some(reply))
    ensures Progress(sent + more, commands, replies + [reply], filed[commands[|replies|].slot := Some(reply)])
  {
    var i := |replies|;
    assert commands[..i + 1][..i] == commands[..i];
    assert (replies + [reply])[..i] == replies;
    assert (sent + more)[..|sent|] == sent && (sent + more)[|sent|..] == more;
    assert EndsWith(sent + more, |sent|, commands[..i + 1], replies + [reply]);
  }

  lemma {:induction false} FiledAll(commands: seq<SubCommand>, replies: seq<Reply>)
    requires |commands| == |replies|
    ensures forall i :: 0 <= i < |SlotOrder(commands)| ==> SlotOrder(commands)[i] in Filed(commands, replies)
  {
    if commands != [] { FiledAll(commands[..|commands| - 1], replies[..|commands| - 1]); }
  }

  /** A reply comes of the sub-commands run so far: the first error among their replies, or what
      all the replies put together make. */
  ghost predicate Gathered(ctype: Command, commands: seq<SubCommand>, fragSeq: seq<nat>, sent: seq<Sent>,
                           replies: seq<Reply>, reply: Option<Reply>)
  {
    && 0 < |replies| <= |commands| && Runs(sent, commands[..|replies|], replies) && ErrorFree(replies[..|replies| - 1])
    && if replies[|replies| - 1].Error? then reply == Some(replies[|replies| - 1])
       else |replies| == |commands| && FiledFor(commands, replies)
            && Assembled(ctype, SlotOrder(commands), Filed(commands, replies), fragSeq, reply)
  }

  predicate FiledFor(commands: seq<SubCommand>, replies: seq<Reply>)
    requires |commands| == |replies|
  {
    forall i :: 0 <= i < |SlotOrder(commands)| ==> SlotOrder(commands)[i] in Filed(commands, replies)
  }

  // ---------- what takes effect ----------

  /** What is left of the traffic without the redirects. */
  function Effective(sent: seq<Sent>): seq<Sent> {
    if sent == [] then []
    else
      var n := |sent| - 1;
      Effective(sent[..n]) + if Redirects(sent[n].answer) then [] else [sent[n]]
  }

  function Answered(commands: seq<SubCommand>, replies: seq<Reply>): seq<Sent>
    requires |commands| == |replies|
  {
    if commands == [] then []
    else
      var n := |commands| - 1;
      Answered(commands[..n], replies[..n]) + [Sent(commands[n].Wire(), Some(replies[n]))]
  }

  lemma {:induction false} EffectiveAppend(a: seq<Sent>, b: seq<Sent>)
    ensures Effective(a + b) == Effective(a) + Effective(b)
  {
    if b == [] {
      assert a + b == a;
    } else {
      var n := |b| - 1;
      assert (a + b)[..|a + b| - 1] == a + b[..n];
      EffectiveAppend(a, b[..n]);
    }
  }

  lemma {:induction false} RedirectedNothing(sent: seq<Sent>, cmd: Text)
    requires Redirected(sent, cmd)
    ensures Effective(sent) == []
  {
    if sent != [] { RedirectedNothing(sent[..|sent| - 1], cmd); }
  }

  /** Whatever is redirected and sent again on the way, every sub-command takes effect exactly
      once, in slot order, with the reply kept for it. */
  lemma {:induction false} EachOnce(sent: seq<Sent>, commands: seq<SubCommand>, replies: seq<Reply>)
    requires |commands| == |replies| && Runs(sent, commands, replies)
    ensures Effective(sent) == Answered(commands, replies)
    decreases |commands|
  {
    if commands != [] {
      var n := |commands| - 1;
      var k :| 0 <= k <= |sent| && EndsWith(sent, k, commands, replies);
      EachOnce(sent[..k], commands[..n], replies[..n]);
      LastOnce(sent[k..], commands[n].Wire(), replies[n]);
      assert sent == sent[..k] + sent[k..];
      EffectiveAppend(sent[..k], sent[k..]);
    }
  }

  lemma LastOnce(traffic: seq<Sent>, cmd: Text, reply: Reply)
    requires Exchange(traffic, cmd, Some(reply))
    ensures Effective(traffic) == [Sent(cmd, Some(reply))]
  {
    RedirectedNothing(traffic[..|traffic| - 1], cmd);
  }

  /** The store behind the nodes when the sendings that are not redirected are executed. */
  ghost function After(store: Store, effective: seq<Sent>): Store {
    if effective == [] then store
    else
      var n := |effective| - 1;
      ScatterGather.Execute(After(store, effective[..n]), effective[n].cmd).0
  }

  /** Every answer is what execution gives at that moment. */
  ghost predicate Honest(store: Store, effective: seq<Sent>) {
    if effective == [] then true
    else
      var n := |effective| - 1;
      && Honest(store, effective[..n])
      && effective[n].answer == Some(ScatterGather.Execute(After(store, effective[..n]), effective[n].cmd).1)
  }

  lemma {:induction false} RunsAreRun(store: Store, commands: seq<SubCommand>, replies: seq<Reply>)
    requires |commands| == |replies| && Honest(store, Answered(commands, replies))
    ensures RunCommands(store, commands) == (After(store, Answered(commands, replies)), Filed(commands, replies))
  {
    if commands != [] {
      var n := |commands| - 1;
      assert Answered(commands, replies)[..n] == Answered(commands[..n], replies[..n]) by { AnsweredLength(commands[..n], replies[..n]); }
      AnsweredLength(commands, replies);
      RunsAreRun(store, commands[..n], replies[..n]);
    }
  }

  lemma {:induction false} AnsweredLength(commands: seq<SubCommand>, replies: seq<Reply>)
    requires |commands| == |replies|
    ensures |Answered(commands, replies)| == |commands|
  {
    if commands != [] { AnsweredLength(commands[..|commands| - 1], replies[..|replies| - 1]); }
  }

  ghost predicate IsFormatted(c: SubCommand, ctype: Command) {
    exists items :: Means(c.Wire(), ctype, items)
  }

  lemma FormattedSnoc(ctype: Command, commands: seq<SubCommand>, more: seq<SubCommand>)
    requires forall i :: 0 <= i < |commands| ==> IsFormatted(commands[i], ctype)
    requires forall i :: 0 <= i < |more| ==> IsFormatted(more[i], ctype)
    ensures forall i :: 0 <= i < |commands + more| ==> IsFormatted((commands + more)[i], ctype)
  {
  }

  /** Without stale lengths every sub-command of a split goes out as a formatted command. */
  lemma {:induction false} CommandsMean(job: Job, n: nat)
    requires job.Valid() && n <= SLOTS
    ensures AllFormatted(job.CommandsBelow(n), job.ctype)
    decreases n
  {
    if n > 0 {
      var s := n - 1;
      PartOfSlot(job, s);
      var sub := Serialised(job.buf, job.ctype, job.KeysOf(s), s);
      PartFormatted(job, s, sub);
      CommandsStep(job, s, sub);
      CommandsMean(job, s);
      FormattedSnoc(job.ctype, job.CommandsBelow(s), if job.Part(s) == [] then [] else [sub]);
    }
  }

  lemma PartFormatted(job: Job, s: nat, sub: SubCommand)
    requires job.Parsed() && s < SLOTS && !job.Stale(s) && Sound(job.buf, job.ctype, job.KeysOf(s))
    requires sub == Serialised(job.buf, job.ctype, job.KeysOf(s), s)
    ensures IsFormatted(sub, job.ctype)
  {
    PartOfSlot(job, s);
    WireOfPart(job.buf, job.ctype, job.KeysOf(s), job.Part(s), s);
  }

  ghost predicate AllFormatted(commands: seq<SubCommand>, ctype: Command) {
    forall i :: 0 <= i < |commands| ==> IsFormatted(commands[i], ctype)
  }

  /** So the nodes have no error to answer with. */
  lemma NoError(ctype: Command, store: Store, commands: seq<SubCommand>, replies: seq<Reply>)
    requires 0 < |replies| == |commands| && AllFormatted(commands, ctype)
    requires Honest(store, Answered(commands, replies))
    ensures !replies[|replies| - 1].Error?
  {
    var n := |replies| - 1;
    AnsweredLength(commands[..n], replies[..n]);
    assert IsFormatted(commands[n], ctype);
    var items :| Means(commands[n].Wire(), ctype, items);
    LastAnswer(store, commands, replies, n);
    ExecuteFormatted(After(store, Answered(commands[..n], replies[..n])), commands[n].Wire(), ctype, items);
  }

  lemma LastAnswer(store: Store, commands: seq<SubCommand>, replies: seq<Reply>, n: nat)
    requires |replies| == |commands| == n + 1 && Honest(store, Answered(commands, replies))
    ensures replies[n] == ScatterGather.Execute(After(store, Answered(commands[..n], replies[..n])), commands[n].Wire()).1
  {
    var before := Answered(commands[..n], replies[..n]);
    AnsweredLength(commands[..n], replies[..n]);
    assert Answered(commands, replies)[..n] == before;
  }

  /** The traffic is that of the sub-commands run one after the other, up to a refusal or to the
      end. */
  lemma TrafficIsRun(ctype: Command, store: Store, commands: seq<SubCommand>, fragSeq: seq<nat>, sent: seq<Sent>,
                     replies: seq<Reply>, reply: Option<Reply>)
    requires commands != [] && Honest(store, Effective(sent))
    requires Gathered(ctype, commands, fragSeq, sent, replies, reply)
    ensures replies[|replies| - 1].Error? ==> reply == Some(Error([]))
    ensures !replies[|replies| - 1].Error? ==>
      && |replies| == |commands| && FiledFor(commands, replies)
      && RunCommands(store, commands) == (After(store, Effective(sent)), Filed(commands, replies))
      && Assembled(ctype, SlotOrder(commands), Filed(commands, replies), fragSeq, reply)
  {
    RunOfPart(store, commands[..|replies|], sent, replies);
    assert |replies| == |commands| ==> commands[..|replies|] == commands;
  }

  lemma FrontFormatted(ctype: Command, commands: seq<SubCommand>, n: nat)
    requires n <= |commands| && AllFormatted(commands, ctype)
    ensures AllFormatted(commands[..n], ctype)
  {
    forall i | 0 <= i < n ensures IsFormatted(commands[..n][i], ctype) { assert commands[..n][i] == commands[i]; }
  }

  lemma TrafficErrorFree(ctype: Command, store: Store, run: seq<SubCommand>, sent: seq<Sent>, replies: seq<Reply>)
    requires AllFormatted(run, ctype) && Honest(store, Effective(sent))
    requires 0 < |replies| == |run| && Runs(sent, run, replies)
    ensures !replies[|replies| - 1].Error?
  {
    EachOnce(sent, run, replies);
    NoError(ctype, store, run, replies);
  }

  lemma RunOfPart(store: Store, commands: seq<SubCommand>, sent: seq<Sent>, replies: seq<Reply>)
    requires 0 < |replies| == |commands| && Honest(store, Effective(sent)) && Runs(sent, commands, replies)
    ensures replies[|replies| - 1].Error? ==> replies[|replies| - 1] == Error([])
    ensures RunCommands(store, commands) == (After(store, Effective(sent)), Filed(commands, replies))
  {
    var n := |replies| - 1;
    EachOnce(sent, commands, replies);
    RunsAreRun(store, commands, replies);
    AnsweredLength(commands[..n], replies[..n]);
    LastAnswer(store, commands, replies, n);
    ErrorRefuses(After(store, Answered(commands[..n], replies[..n])), commands[n].Wire());
  }

  /** A multi-key command split over a cluster whose nodes execute what they do not redirect,
      whatever redirections happened on the way: the reply is that of the command executed in one
      piece if no length is stale, with its store, and a refusal otherwise. */
  lemma RedirectsDoNotMatter(job: Job, store: Store, sent: seq<Sent>, replies: seq<Reply>, reply: Option<Reply>)
    requires job.Parsed()
    requires var commands := job.CommandsBelow(SLOTS);
      && commands != [] && Honest(store, Effective(sent))
      && Gathered(job.ctype, commands, SlotsOf(job.slot, job.items), sent, replies, reply)
    ensures reply == Some(job.Answer(store))
    ensures job.Exact() ==> After(store, Effective(sent)) == Serve(job.ctype, store, job.items).0
  {
    if job.Exact() {
      var commands := job.CommandsBelow(SLOTS);
      CommandsMean(job, SLOTS);
      FrontFormatted(job.ctype, commands, |replies|);
      TrafficErrorFree(job.ctype, store, commands[..|replies|], sent, replies);
      SplitPreservesMeaning(job, store, reply);
    }
    TrafficIsRun(job.ctype, store, job.CommandsBelow(SLOTS), SlotsOf(job.slot, job.items), sent, replies, reply);
    SplitMeansExactly(job, store, reply);
  }
}
