/** The callback queue of an asynchronous context (`hiredis/async.c`), neither subscribed nor
    monitoring: commands register callbacks, replies are handed out in order, and the callbacks
    may themselves issue commands, disconnect or free the context. */
module Async {
  import opened Bytes
  import opened Replies

  /** `fn` tells whether there is a function at all; `tag` is what it is called with. */
  datatype Callback = Callback(fn: bool, tag: nat)

  /** A callback handed its reply, or the null reply. */
  datatype Delivery = Delivery(cb: Callback, reply: Option<Reply>)

  /** What a callback, or any other user code, may do with the context. */
  datatype Action = Command(cb: Callback) | Disconnect | Free

  /** The queue is what has been accepted but not delivered; the `k`th callback accepted gets the
      `k`th reply as long as there are replies and the null reply from then on. */
  ghost predicate InOrder(accepted: seq<Callback>, log: seq<Delivery>, received: seq<Reply>, queue: seq<Callback>) {
    && |log| + |queue| == |accepted| && |received| <= |log|
    && (forall k :: 0 <= k < |log| ==>
          log[k].cb == accepted[k] && log[k].reply == if k < |received| then Some(received[k]) else None)
    && (forall k :: 0 <= k < |queue| ==> queue[k] == accepted[|log| + k])
  }

  lemma AcceptInOrder(accepted: seq<Callback>, log: seq<Delivery>, received: seq<Reply>, queue: seq<Callback>, cb: Callback)
    requires InOrder(accepted, log, received, queue)
    ensures InOrder(accepted + [cb], log, received, queue + [cb])
  {
  }

  /** What is received counts only while no null reply has been given. */
  function Receive(received: seq<Reply>, reply: Option<Reply>): seq<Reply> {
    if reply.Some? then received + [reply.value] else received
  }

  lemma DeliverInOrder(accepted: seq<Callback>, log: seq<Delivery>, received: seq<Reply>, queue: seq<Callback>, reply: Option<Reply>)
    requires InOrder(accepted, log, received, queue) && queue != [] && (reply.Some? ==> |received| == |log|)
    ensures InOrder(accepted, log + [Delivery(queue[0], reply)], Receive(received, reply), queue[1..])
  {
  }

  class Context {
    // flags of the connection
    var connected: bool
    var disconnecting: bool
    var freeing: bool
    var inCallback: bool
    var noAutoFree: bool
    /** The error of the connection and the copy of it in the context. */
    var connErr: bool
    var err: bool
    /** The output buffer holds something. */
    var unsent: bool
    /** The callbacks waiting for a reply, the next one first. */
    var replies: seq<Callback>
    /** The memory has been given back. */
    var freed: bool
    /** An assertion about what a server may send has failed. */
    var aborted: bool
    /** There is a handler for push messages. */
    const pushFn: bool
    /** What the next callbacks to run will do, the push handler among them. */
    var script: seq<seq<Action>>
    /** The statuses the disconnect callback was called with. */
    var farewell: seq<bool>

    ghost var accepted: seq<Callback>
    ghost var log: seq<Delivery>
    ghost var received: seq<Reply>
    /** How often the memory has been given back. */
    ghost var frees: nat

    /** Commands are refused. */
    predicate Closing()
      reads this
    {
      disconnecting || freeing
    }

    /** A disconnect asked for, not forced by an error, gives the memory back. */
    predicate CleanMeansFree()
      reads this
    {
      disconnecting && !connErr ==> !noAutoFree
    }

    /** At all times, within callbacks too. */
    ghost predicate Alive()
      reads this
    {
      !freed && frees == 0 && farewell == [] && InOrder(accepted, log, received, replies) && CleanMeansFree()
    }

    /** Between calls from outside. Once a null reply has been given nothing waits any more and
        nothing new is let in. */
    ghost predicate Valid()
      reads this
    {
      && !inCallback && InOrder(accepted, log, received, replies) && CleanMeansFree()
      && (|received| < |log| ==> replies == [] && (Closing() || freed))
      && (if freed then replies == [] && frees == 1 && |farewell| <= 1 else frees == 0 && farewell == [])
    }

    constructor (script: seq<seq<Action>>, noAutoFree: bool, pushFn: bool)
      ensures this.pushFn == pushFn
      ensures Ready() && !Closing() && !connErr && !connected && accepted == [] && log == [] && received == []
      ensures this.script == script && this.noAutoFree == noAutoFree
    {
      connected, disconnecting, freeing, inCallback := false, false, false, false;
      this.noAutoFree, this.pushFn := noAutoFree, pushFn;
      connErr, err, unsent, freed, aborted := false, false, false, false, false;
      replies, farewell, accepted, log, received, frees := [], [], [], [], [], 0;
      this.script := script;
    }

    // ---------- what user code calls, in a callback or outside ----------

    /** `__redisAsyncCommand`: refused once the context is about to be closed. */
    method Issue(cb: Callback) returns (ok: bool)
      requires Alive()
      modifies this`replies, this`unsent, this`accepted
      ensures Alive() && ok == !Closing()
      ensures accepted == old(accepted) + if ok then [cb] else []
      ensures replies == old(replies) + if ok then [cb] else []
      ensures unsent == (old(unsent) || ok)
    {
      if disconnecting || freeing { return false; }
      AcceptInOrder(accepted, log, received, replies, cb);
      replies := replies + [cb];
      accepted := accepted + [cb];
      unsent := true;
      ok := true;
    }

    /** All that a step put off leaves alone. */
    twostate predicate Kept()
      reads this
    {
      && unchanged(this`replies, this`accepted, this`log, this`received, this`script, this`farewell, this`frees)
      && unchanged(this`connected, this`connErr, this`err, this`aborted, this`inCallback, this`freed)
    }

    /** `redisAsyncFree`: put off when called from a callback. */
    method AsyncFree()
      requires Alive() && (!inCallback ==> Valid())
      modifies this
      ensures freeing && accepted == old(accepted)
      ensures old(inCallback) ==> Kept() && disconnecting == old(disconnecting) && noAutoFree == old(noAutoFree)
      ensures !old(inCallback) ==> Valid() && freed
      ensures unchanged(this`received, this`connected, this`connErr, this`aborted)
      decreases if inCallback then 0 else 4, 0
    {
      freeing := true;
      if !inCallback { FreeNow(); }
    }

    /** `redisAsyncDisconnect`: no further commands; closes at once only when nothing is pending
        and it is not called from a callback. */
    method AsyncDisconnect()
      requires Alive() && (!inCallback ==> Valid())
      modifies this
      ensures disconnecting && accepted == old(accepted) && (old(freeing) ==> freeing)
      ensures old(inCallback) || old(replies) != [] ==> Kept() && !noAutoFree && freeing == old(freeing)
      ensures !old(inCallback) ==> Valid() && freed == (old(replies) == [])
      ensures unchanged(this`received, this`connected, this`connErr, this`aborted)
      decreases if inCallback then 0 else 4, 0
    {
      disconnecting, noAutoFree := true, false;
      if !inCallback && replies == [] { DisconnectNow(); }
    }

    // ---------- running callbacks ----------

    /** What a callback leaves alone, whatever it does. */
    twostate predicate Respected()
      reads this
    {
      && unchanged(this`log, this`received, this`farewell, this`connected, this`connErr, this`err, this`aborted)
      && (old(freeing) ==> freeing) && (old(disconnecting) ==> disconnecting)
      && (old(Closing()) ==> replies == old(replies) && accepted == old(accepted))
    }

    /** What user code that did `actions` leaves behind. */
    twostate predicate Ran(actions: seq<Action>)
      reads this
    {
      && replies == old(replies) + Issued(actions, old(Closing())) && accepted == old(accepted) + Issued(actions, old(Closing()))
      && freeing == (old(freeing) || Free in actions) && disconnecting == (old(disconnecting) || Disconnect in actions)
      && noAutoFree == (old(noAutoFree) && Disconnect !in actions)
    }

    /** The body of a callback. */
    method Perform(actions: seq<Action>)
      requires Alive() && inCallback
      modifies this
      ensures Alive() && inCallback && Respected() && script == old(script) && Ran(actions)
      decreases 0, 2
    {
      for i := 0 to |actions|
        invariant Alive() && inCallback && Respected() && script == old(script) && Ran(actions[..i])
      {
        IssuedNext(actions, i, old(Closing()), old(replies), old(accepted));
        Act(actions[i]);
      }
      assert actions[..|actions|] == actions;
    }

    /** One thing a callback does. */
    method Act(action: Action)
      requires Alive() && inCallback
      modifies this
      ensures Alive() && inCallback && Respected() && script == old(script)
      ensures replies == old(replies) + IssuedOne(action, old(Closing())) && accepted == old(accepted) + IssuedOne(action, old(Closing()))
      ensures freeing == (old(freeing) || action == Free) && disconnecting == (old(disconnecting) || action == Disconnect)
      ensures noAutoFree == (old(noAutoFree) && action != Disconnect)
      decreases 0, 1
    {
      match action
      case Command(cb) => var _ := Issue(cb);
      case Disconnect => AsyncDisconnect();
      case Free => AsyncFree();
    }

    /** Enters a delivery into the record. */
    ghost method Note(cb: Callback, reply: Option<Reply>)
      requires InOrder(accepted, log, received, [cb] + replies) && (reply.Some? ==> |received| == |log|)
      modifies this`log, this`received
      ensures InOrder(accepted, log, received, replies)
      ensures log == old(log) + [Delivery(cb, reply)] && received == Receive(old(received), reply)
    {
      DeliverInOrder(accepted, log, received, [cb] + replies, reply);
      assert ([cb] + replies)[1..] == replies;
      log := log + [Delivery(cb, reply)];
      received := Receive(received, reply);
    }

    /** `__redisRunCallback` on a callback just taken from the queue. */
    method RunCallback(cb: Callback, reply: Option<Reply>)
      requires !freed && frees == 0 && farewell == [] && !inCallback && CleanMeansFree()
      requires InOrder(accepted, log, received, [cb] + replies) && (reply.Some? ==> |received| == |log|)
      modifies this
      ensures Alive() && !inCallback
      ensures log == old(log) + [Delivery(cb, reply)] && received == Receive(old(received), reply)
      ensures unchanged(this`connected, this`connErr, this`err, this`aborted)
      ensures old(Closing()) ==> replies == old(replies) && accepted == old(accepted)
      ensures Ran(Acts(cb.fn, old(script))) && script == Later(cb.fn, old(script))
      decreases 1, 0
    {
      Note(cb, reply);
      if cb.fn { RunUserCode(); }
    }

    /** User code called back, the flag set meanwhile. */
    method RunUserCode()
      requires Alive() && !inCallback
      modifies this
      ensures Alive() && !inCallback && Respected()
      ensures Ran(Acts(true, old(script))) && script == Later(true, old(script))
      decreases 0, 3
    {
      if script != [] {
        var actions := script[0];
        script := script[1..];
        inCallback := true;
        Perform(actions);
        inCallback := false;
      }
    }

    /** `__redisAsyncFree`: all that waits gets the null reply, then the memory goes. */
    method FreeNow()
      requires Alive() && !inCallback && Closing() && (|received| < |log| ==> replies == [])
      modifies this
      ensures Valid() && freed && accepted == old(accepted) && replies == []
      ensures unchanged(this`received, this`connected, this`connErr, this`aborted, this`err)
      ensures farewell == if connected then [freeing || !err] else []
      ensures old(freeing) ==> freeing
      ensures old(disconnecting) ==> disconnecting
      ensures old(replies) == [] ==> unchanged(this`noAutoFree, this`freeing, this`script)
      decreases 2, 0
    {
      while replies != []
        invariant Alive() && !inCallback && Closing() && accepted == old(accepted)
        invariant unchanged(this`received, this`connected, this`connErr, this`aborted, this`err)
        invariant (old(freeing) ==> freeing) && (old(disconnecting) ==> disconnecting)
        invariant old(replies) == [] ==> replies == [] && unchanged(this`noAutoFree, this`freeing, this`script)
        decreases |replies|
      {
        var cb := replies[0];
        assert [cb] + replies[1..] == replies;
        replies := replies[1..];
        RunCallback(cb, None);
      }
      if connected { farewell := [freeing || !err]; }
      freed, frees := true, frees + 1;
    }

    /** `__redisAsyncDisconnect`. A clean disconnect finds nothing waiting. */
    method DisconnectNow()
      requires Alive() && !inCallback && (|received| < |log| ==> replies == [])
      requires !connErr ==> replies == [] && disconnecting
      modifies this
      ensures Valid() && disconnecting && accepted == old(accepted) && freed == !old(noAutoFree)
      ensures replies == (if freed then [] else old(replies)) && err == connErr
      ensures unchanged(this`received, this`connected, this`connErr, this`aborted)
      ensures (old(freeing) ==> freeing) && (!freed ==> freeing == old(freeing))
      ensures old(replies) == [] ==> unchanged(this`noAutoFree, this`freeing, this`script)
      decreases 3, 0
    {
      err := connErr;
      if !err {
        assert replies == [];
      } else {
        disconnecting := true;
      }
      if !noAutoFree { FreeNow(); }
    }

    // ---------- events ----------

    /** The context is still in use or its end has come in order. */
    ghost predicate Ready()
      reads this
    {
      Valid() && !freed && !aborted
    }

    /** `__redisRunPushCallback`. A free asked for in the handler is put off. */
    method RunPushCallback()
      requires Ready()
      modifies this
      ensures Ready() && Respected() && Ran(Acts(pushFn, old(script))) && script == Later(pushFn, old(script))
    {
      if pushFn { RunUserCode(); }
    }

    /** What `redisProcessCallbacks` does with one reply; `on` tells whether it goes on. */
    method ProcessReply(reply: Reply) returns (on: bool)
      requires Ready()
      modifies this
      ensures if on then Ready() else Valid() && (aborted ==> !freed) && (freed || aborted || connErr)
      ensures on ==> connErr == old(connErr)
      ensures freeing && !old(freeing) ==> freed || (on && pushFn && IsSpontaneous(reply))
      ensures old(connErr) ==> connErr
      ensures received == old(received) + InBandOne(reply) || (!on && received == old(received))
    {
      on := true;
      if IsSpontaneous(reply) {
        RunPushCallback();
      } else if replies == [] {
        ProcessUnasked(reply);
        on := false;
      } else {
        var cb := replies[0];
        assert [cb] + replies[1..] == replies;
        replies := replies[1..];
        RunCallback(cb, Some(reply));
        on := !(cb.fn && freeing);
        if !on { FreeNow(); }
      }
    }

    /** A reply nobody waits for. */
    method ProcessUnasked(reply: Reply)
      requires Ready() && replies == []
      modifies this
      ensures Valid() && (aborted ==> !freed) && received == old(received)
      ensures (aborted || connErr) && (old(connErr) ==> connErr) && freeing == old(freeing)
    {
      if reply.Error? {
        connErr := true;
        DisconnectNow();
      } else {
        aborted := true;
      }
    }

    /** `redisProcessCallbacks`: the replies that can be read now, and whether reading then fails.
        Push messages go to their handler and the other replies to the callbacks waiting; one that
        nobody waits for must be an error. */
    method ProcessCallbacks(incoming: seq<Reply>, failed: bool)
      requires Ready()
      modifies this
      ensures Valid() && IsNext(old(received), InBand(incoming), received)
      ensures !freed && !aborted && !connErr ==> received == old(received) + InBand(incoming)
      ensures NoPush(incoming) ==> InBand(incoming) == incoming
      ensures aborted ==> !freed
      ensures old(connErr) ==> connErr
      ensures failed ==> freed || aborted || connErr
      ensures freeing && !old(freeing) ==> freed || (pushFn && HasPush(incoming))
      ensures disconnecting && !unsent && replies == [] ==> freed || aborted || connErr
    {
      if NoPush(incoming) { NoPushInBand(incoming); }
      var on := ProcessReplies(incoming);
      if on { Conclude(failed); }
    }

    /** Its loop; `on` tells whether all replies have been processed. */
    method ProcessReplies(incoming: seq<Reply>) returns (on: bool)
      requires Ready()
      modifies this
      ensures IsNext(old(received), InBand(incoming), received)
      ensures if on then Ready() else Valid() && (aborted ==> !freed) && (freed || aborted || connErr)
      ensures on ==> connErr == old(connErr) && received == old(received) + InBand(incoming)
      ensures old(connErr) ==> connErr
      ensures freeing && !old(freeing) ==> freed || (pushFn && HasPush(incoming))
    {
      on := true;
      for i := 0 to |incoming|
        invariant on && Ready() && connErr == old(connErr) && received == old(received) + InBand(incoming[..i])
        invariant freeing && !old(freeing) ==> pushFn && HasPush(incoming)
      {
        ghost var before := received;
        InBandNext(incoming, i);
        on := ProcessReply(incoming[i]);
        if !on {
          NextIn(old(received), incoming, if received == before then i else i + 1, received);
          return;
        }
      }
      NextIn(old(received), incoming, |incoming|, received);
    }

    /** How `redisProcessCallbacks` ends when there is no reply left or reading has failed. */
    method Conclude(failed: bool)
      requires Ready()
      modifies this
      ensures Valid() && !aborted && received == old(received) && (old(connErr) ==> connErr)
      ensures failed ==> connErr
      ensures freeing && !old(freeing) ==> freed
      ensures disconnecting && !unsent && replies == [] ==> freed || connErr
    {
      if failed {
        connErr := true;
        DisconnectNow();
      } else if disconnecting && !unsent && replies == [] {
        DisconnectNow();
      }
    }

    /** A free asked for, but nothing waits, the connection is broken and the memory is not given
        back automatically. */
    ghost predicate Forgotten()
      reads this
    {
      Ready() && freeing && noAutoFree && connErr && replies == []
    }

    /** `redisAsyncHandleTimeout`; `configured` tells whether commands have a time limit. What the
        callbacks issue meanwhile is answered at once, with the null reply. The memory is given back
        if and only if that happens automatically or a callback asks for a disconnect; a free put off
        by a callback has no part in it. */
    method HandleTimeout(configured: bool)
      requires Ready()
      modifies this
      ensures Valid() && !aborted && received == old(received)
      ensures old(connected) && (old(replies) == [] || !configured) ==> !freed && unchanged(this)
      ensures !(old(connected) && (old(replies) == [] || !configured)) ==>
        var ran := old(script)[..Turns(old(replies), old(script), old(Closing()))];
        && connErr && replies == [] && Closing() && script == old(script)[|ran|..]
        && (freed <==> !old(noAutoFree) || !NoneDisconnects(ran)) && noAutoFree == !freed
        && (freeing <==> old(freeing) || SomeFrees(ran))
      ensures old(connErr) ==> connErr
      ensures old(Forgotten()) ==> Forgotten()
    {
      if connected && (replies == [] || !configured) { return; }
      if !connErr { connErr, err := true, true; }
      NullToAll();
      DisconnectNow();
    }

    /** Null replies to all that waits when a timeout fires. */
    method NullToAll()
      requires Alive() && !inCallback && connErr && !aborted
      requires |received| < |log| ==> replies == []
      modifies this
      ensures Alive() && !inCallback && connErr && !aborted && replies == [] && received == old(received)
      ensures old(replies) == [] ==> unchanged(this`log)
      ensures var ran := old(script)[..Turns(old(replies), old(script), old(Closing()))];
        && script == old(script)[|ran|..] && noAutoFree == (old(noAutoFree) && NoneDisconnects(ran))
        && freeing == (old(freeing) || SomeFrees(ran))
    {
      ghost var k := 0;
      while replies != []
        invariant Alive() && !inCallback && connErr && !aborted && received == old(received)
        invariant old(replies) == [] ==> replies == [] && unchanged(this`log)
        invariant k <= |old(script)| && script == old(script)[k..]
        invariant k + Turns(replies, script, Closing()) == Turns(old(replies), old(script), old(Closing()))
        invariant noAutoFree == (old(noAutoFree) && NoneDisconnects(old(script)[..k]))
        invariant freeing == (old(freeing) || SomeFrees(old(script)[..k]))
        decreases |script|, |replies|
      {
        TurnsStep(replies, script, Closing());
        k := NextTurn(old(script), k, replies[0].fn);
        NullToNext();
      }
    }

    /** The null reply to the first callback that waits. */
    method NullToNext()
      requires Alive() && !inCallback && connErr && !aborted && replies != []
      modifies this
      ensures Alive() && !inCallback && connErr && !aborted && received == old(received)
      ensures var actions := Acts(old(replies)[0].fn, old(script));
        && script == Later(old(replies)[0].fn, old(script)) && replies == old(replies)[1..] + Issued(actions, old(Closing()))
        && Closing() == (old(Closing()) || Closes(actions))
        && noAutoFree == (old(noAutoFree) && Disconnect !in actions) && freeing == (old(freeing) || Free in actions)
    {
      var cb := replies[0];
      assert [cb] + replies[1..] == replies;
      replies := replies[1..];
      RunCallback(cb, None);
    }

    /** `redisAsyncHandleRead` on a connection that is up: new bytes, or an error. */
    method HandleRead(incoming: seq<Reply>, broken: bool, failed: bool)
      requires Ready()
      modifies this
      ensures Valid() && IsNext(old(received), InBand(incoming), received)
      ensures !freed && !aborted && !connErr ==> received == old(received) + InBand(incoming)
      ensures old(connErr) ==> connErr && received == old(received)
      ensures old(Forgotten()) ==> Forgotten()
    {
      if connErr || broken {
        connErr := true;
        NothingIn(old(received), InBand(incoming));
        DisconnectNow();
      } else {
        ProcessCallbacks(incoming, failed);
      }
    }

    /** `redisAsyncHandleWrite` on a connection that is up: some of the output is gone, or all. */
    method HandleWrite(broken: bool, done: bool)
      requires Ready()
      modifies this
      ensures Valid() && !aborted && received == old(received) && (old(connErr) ==> connErr)
      ensures if old(connErr) || broken then connErr && freed == !old(noAutoFree)
              else !freed && replies == old(replies) && unsent == (old(unsent) && !done)
      ensures old(Forgotten()) ==> Forgotten()
    {
      if connErr || broken {
        connErr := true;
        DisconnectNow();
      } else if done {
        unsent := false;
      }
    }

    /** `__redisAsyncHandleConnect`. */
    method HandleConnect(success: bool)
      requires Ready()
      modifies this
      ensures Valid() && !aborted && received == old(received) && (old(connErr) ==> connErr)
      ensures if success then connected && !freed else connErr && freed == !old(noAutoFree)
      ensures success ==> unchanged(this`replies, this`script, this`noAutoFree, this`disconnecting, this`freeing, this`connErr)
      ensures old(Forgotten()) ==> Forgotten()
    {
      if success {
        connected := true;
      } else {
        connErr := true;
        DisconnectNow();
      }
    }

    /** One thing that happens; `more` is what the server sends in answer to commands. */
    method Handle(event: Event) returns (ghost more: seq<Reply>)
      requires Ready()
      modifies this
      ensures Valid() && IsNext(old(received), more, received)
      ensures !freed && !aborted && !connErr ==> received == old(received) + more
      ensures old(connErr) ==> connErr && received == old(received)
      ensures old(Forgotten()) && !EndsFromOutside(event) ==> Forgotten()
    {
      more := [];
      NothingIn(received, more);
      match event
      case Call(Command(cb)) => var _ := Issue(cb);
      case Call(Disconnect) => AsyncDisconnect();
      case Call(Free) => AsyncFree();
      case Readable(incoming, broken, failed) =>
        more := InBand(incoming);
        HandleRead(incoming, broken, failed);
      case Writable(broken, done) => HandleWrite(broken, done);
      case Timeout(configured) => HandleTimeout(configured);
      case Connected(success) => HandleConnect(success);
    }

    /** Any run: user code and the event loop use the context until it is freed. `served` is all
        the server has sent in answer to commands, in order. */
    method Run(events: seq<Event>) returns (ghost served: seq<Reply>)
      requires Ready() && accepted == [] && log == [] && received == []
      modifies this
      ensures InOrder(accepted, log, received, replies) && received <= served
      ensures freed ==> replies == [] && |log| == |accepted|
      ensures |received| < |log| ==> replies == [] && (Closing() || freed)
      ensures !freed && !aborted && !connErr ==> received == served
      ensures frees <= 1 && (freed <==> frees == 1)
    {
      served := [];
      var i := 0;
      while i < |events| && !freed && !aborted
        invariant 0 <= i <= |events| && Valid() && received <= served
        invariant !freed && !aborted && !connErr ==> received == served
        decreases |events| - i
      {
        ghost var before := received;
        ghost var more := Handle(events[i]);
        Served(before, served, more, received);
        served := served + more;
        i := i + 1;
      }
    }
  }

  /** User code outside callbacks asks for the end. */
  predicate EndsFromOutside(event: Event) {
    event.Call? && !event.action.Command?
  }

  // ---------- what callbacks do ----------

  predicate Closes(actions: seq<Action>) {
    Disconnect in actions || Free in actions
  }

  function IssuedOne(action: Action, closing: bool): seq<Callback> {
    if action.Command? && !closing then [action.cb] else []
  }

  /** The callbacks of the commands among `actions` that are accepted: those before the context is
      about to be closed. */
  function Issued(actions: seq<Action>, closing: bool): seq<Callback> {
    if actions == [] then []
    else
      var n := |actions| - 1;
      Issued(actions[..n], closing) + IssuedOne(actions[n], closing || Closes(actions[..n]))
  }

  lemma IssuedNext(actions: seq<Action>, i: nat, closing: bool, replies: seq<Callback>, accepted: seq<Callback>)
    requires i < |actions|
    ensures actions[..i + 1] == actions[..i] + [actions[i]]
    ensures var one := IssuedOne(actions[i], closing || Closes(actions[..i]));
      && replies + Issued(actions[..i + 1], closing) == replies + Issued(actions[..i], closing) + one
      && accepted + Issued(actions[..i + 1], closing) == accepted + Issued(actions[..i], closing) + one
  {
    assert actions[..i + 1][..i] == actions[..i];
  }

  /** What the next callback does, and what is left for later ones. */
  function Acts(fn: bool, script: seq<seq<Action>>): seq<Action> {
    if fn && script != [] then script[0] else []
  }

  function Later(fn: bool, script: seq<seq<Action>>): seq<seq<Action>> {
    if fn && script != [] then script[1..] else script
  }

  /** How many callbacks do something when everything waiting, and what they add, is answered. */
  function Turns(queue: seq<Callback>, script: seq<seq<Action>>, closing: bool): (n: nat)
    ensures n <= |script|
    decreases |script|, |queue|
  {
    if queue == [] then 0
    else if !queue[0].fn || script == [] then Turns(queue[1..], script, closing)
    else 1 + Turns(queue[1..] + Issued(script[0], closing), script[1..], closing || Closes(script[0]))
  }

  lemma TurnsStep(queue: seq<Callback>, script: seq<seq<Action>>, closing: bool)
    requires queue != []
    ensures var actions := Acts(queue[0].fn, script);
      Turns(queue, script, closing) == (if queue[0].fn && script != [] then 1 else 0)
        + Turns(queue[1..] + Issued(actions, closing), Later(queue[0].fn, script), closing || Closes(actions))
  {
    assert queue[1..] + [] == queue[1..];
  }

  predicate NoneDisconnects(script: seq<seq<Action>>) {
    forall i :: 0 <= i < |script| ==> Disconnect !in script[i]
  }

  predicate SomeFrees(script: seq<seq<Action>>) {
    exists i :: 0 <= i < |script| && Free in script[i]
  }

  lemma NextTurn(script: seq<seq<Action>>, k: nat, fn: bool) returns (k': nat)
    requires k <= |script|
    ensures k' == k + (if fn && script[k..] != [] then 1 else 0) <= |script| && Later(fn, script[k..]) == script[k'..]
    ensures var actions := Acts(fn, script[k..]);
      && (NoneDisconnects(script[..k']) <==> NoneDisconnects(script[..k]) && Disconnect !in actions)
      && (SomeFrees(script[..k']) <==> SomeFrees(script[..k]) || Free in actions)
  {
    k' := k;
    if fn && k < |script| {
      k' := k + 1;
      OneMore(script[..k], script[k], script[..k + 1]);
    }
  }

  lemma OneMore(front: seq<seq<Action>>, last: seq<Action>, all: seq<seq<Action>>)
    requires |all| == |front| + 1 && all[..|front|] == front && all[|front|] == last
    ensures NoneDisconnects(all) <==> NoneDisconnects(front) && Disconnect !in last
    ensures SomeFrees(all) <==> SomeFrees(front) || Free in last
  {
    forall i | 0 <= i < |front| ensures all[i] == front[i] { assert all[..|front|][i] == all[i]; }
    if SomeFrees(front) {
      var i :| 0 <= i < |front| && Free in front[i];
      assert Free in all[i];
    }
    if Free in last { assert Free in all[|front|]; }
  }

  /** Runs a new context, whatever its callbacks do and whatever happens to it. */
  method AnyRun(script: seq<seq<Action>>, noAutoFree: bool, pushFn: bool, events: seq<Event>) returns (c: Context, ghost served: seq<Reply>)
    ensures InOrder(c.accepted, c.log, c.received, c.replies) && c.received <= served && c.frees <= 1
    ensures c.freed ==> c.replies == [] && |c.log| == |c.accepted|
  {
    c := new Context(script, noAutoFree, pushFn);
    served := c.Run(events);
  }

  /** A free put off by a callback during a timeout, the memory not being given back automatically,
      is not carried out by anything that happens later, unless user code asks for the end again. */
  method FreeForgotten(events: seq<Event>) returns (c: Context)
    requires forall i :: 0 <= i < |events| ==> !EndsFromOutside(events[i])
    ensures c.Forgotten()
  {
    c := FreeDuringTimeout();
    for i := 0 to |events|
      invariant c.Forgotten()
    {
      ghost var more := c.Handle(events[i]);
    }
  }

  method FreeDuringTimeout() returns (c: Context)
    ensures fresh(c) && c.Forgotten()
  {
    c := new Context([[Free]], true, false);
    c.HandleConnect(true);
    var ok := c.Issue(Callback(true, 0));
    OneTurn(c.replies, c.script);
    c.HandleTimeout(true);
  }

  lemma OneTurn(queue: seq<Callback>, script: seq<seq<Action>>)
    requires queue == [Callback(true, 0)] && script == [[Free]]
    ensures Turns(queue, script, false) == 1 && SomeFrees(script[..1]) && NoneDisconnects(script[..1])
  {
    assert script[..1][0] == [Free];
    TurnsStep(queue, script, false);
    assert Issued([Free], false) == [];
    assert queue[1..] + [] == [] && script[1..] == [];
    assert Free in script[..1][0];
  }

  datatype Event =
    | Call(action: Action)
    | Readable(incoming: seq<Reply>, broken: bool, failed: bool)
    | Writable(broken: bool, done: bool)
    | Timeout(configured: bool)
    | Connected(success: bool)

  lemma Served(before: seq<Reply>, served: seq<Reply>, incoming: seq<Reply>, after: seq<Reply>)
    requires before <= served && IsNext(before, incoming, after)
    ensures before == served || after == before ==> after <= served + incoming
  {
    var n: nat :| n <= |incoming| && after == before + incoming[..n];
  }

  // ---------- push messages ----------

  const SUBSCRIBE: Text := [115, 117, 98, 115, 99, 114, 105, 98, 101]
  const MESSAGE: Text := [109, 101, 115, 115, 97, 103, 101]

  function Lower(b: Byte): Byte { if 65 <= b <= 90 then b + 32 else b }

  /** `strncasecmp` over all of `s`, which ends early where both strings end. */
  predicate SameIgnoringCase(s: Text, word: Text)
    decreases |s|
  {
    if s == [] then true
    else if word == [] then s[0] == NUL
    else Lower(s[0]) == Lower(word[0]) && SameIgnoringCase(s[1..], word[1..])
  }

  /** `redisIsSubscribeReply`: any part from the front of the words will do, if it is long enough. */
  predicate IsSubscribe(elements: seq<Reply>) {
    && elements != [] && elements[0].Str? && |elements[0].text| >= |MESSAGE|
    && var text := elements[0].text;
       var kind := if Lower(text[0]) == 112 then text[1..] else text;
       SameIgnoringCase(kind, SUBSCRIBE) || SameIgnoringCase(kind, MESSAGE)
  }

  /** `redisIsSpontaneousPushReply`. */
  predicate IsSpontaneous(reply: Reply) {
    reply.Aggregate? && reply.kind == PushKind && !IsSubscribe(reply.elements)
  }

  /** The letters of a word, small or capital. */
  predicate Says(text: Text, word: string) {
    |text| == |word| && forall i :: 0 <= i < |text| ==> text[i] == word[i] as int || text[i] == word[i] as int - 32
  }

  /** Only push messages are spontaneous. */
  lemma SpontaneousIsPush(reply: Reply)
    ensures IsSpontaneous(reply) ==> reply.Aggregate? && reply.kind == PushKind
  {
  }

  /** A push message that starts with nothing, with no string or with a short one is spontaneous. */
  lemma PlainPush(elements: seq<Reply>)
    requires elements == [] || !elements[0].Str? || |elements[0].text| < 7
    ensures IsSpontaneous(Aggregate(PushKind, elements))
  {
  }

  /** So is one that starts with any word whose first letters, after a "p", agree neither with
      "subscribe" nor with "message". */
  lemma OtherPush(text: Text, rest: seq<Reply>, word: Text)
    requires |text| >= 7 && word == (if text[0] == 'p' as int || text[0] == 'P' as int then text[1..] else text)
    requires word[0] !in {'s' as int, 'S' as int, 'm' as int, 'M' as int}
    ensures IsSpontaneous(Aggregate(PushKind, [Str(text)] + rest))
  {
    assert ([Str(text)] + rest)[0] == Str(text);
  }

  /** One that starts with the word "message" or "subscribe", or with either behind a "p", is not. */
  lemma SubscribePush(text: Text, rest: seq<Reply>)
    requires Says(text, "message") || Says(text, "pmessage") || Says(text, "subscribe") || Says(text, "psubscribe")
    ensures !IsSpontaneous(Aggregate(PushKind, [Str(text)] + rest))
  {
    assert ([Str(text)] + rest)[0] == Str(text);
    if Says(text, "pmessage") || Says(text, "psubscribe") {
      var word := text[1..];
      assert Says(text, "pmessage") ==> Says(word, "message");
      assert Says(text, "psubscribe") ==> Says(word, "subscribe");
      WordsAgree(word);
    } else {
      WordsAgree(text);
    }
  }

  lemma WordsAgree(text: Text)
    requires Says(text, "message") || Says(text, "subscribe")
    ensures SameIgnoringCase(text, MESSAGE) || SameIgnoringCase(text, SUBSCRIBE)
  {
    if Says(text, "message") {
      SameLetters(text, MESSAGE);
    } else {
      SameLetters(text, SUBSCRIBE);
    }
  }

  lemma {:induction false} SameLetters(text: Text, word: Text)
    requires |text| == |word| && forall i :: 0 <= i < |text| ==> 97 <= word[i] <= 122 && (text[i] == word[i] || text[i] == word[i] - 32)
    ensures SameIgnoringCase(text, word)
  {
    if text != [] { SameLetters(text[1..], word[1..]); }
  }

  /** Two strings agree as far as both go, and the first one goes on only with a zero byte. */
  lemma {:induction false} AgreesMeans(s: Text, word: Text)
    ensures SameIgnoringCase(s, word) <==>
      && (forall i :: 0 <= i < |s| && i < |word| ==> Lower(s[i]) == Lower(word[i]))
      && (|s| > |word| ==> s[|word|] == 0)
    decreases |s|
  {
    if s != [] && word != [] {
      AgreesMeans(s[1..], word[1..]);
      assert forall i :: 1 <= i < |s| ==> s[i] == s[1..][i - 1];
      assert forall i :: 1 <= i < |word| ==> word[i] == word[1..][i - 1];
    }
  }

  predicate NoPush(replies: seq<Reply>) {
    forall i :: 0 <= i < |replies| ==> replies[i].Aggregate? ==> replies[i].kind != PushKind
  }

  /** Replies without push messages all go to the callbacks. */
  lemma {:induction false} NoPushInBand(replies: seq<Reply>)
    requires NoPush(replies)
    ensures InBand(replies) == replies
  {
    if replies != [] {
      var n := |replies| - 1;
      assert replies[..n] + [replies[n]] == replies;
      NoPushInBand(replies[..n]);
    }
  }

  predicate HasPush(replies: seq<Reply>) {
    exists k :: 0 <= k < |replies| && IsSpontaneous(replies[k])
  }

  function InBandOne(reply: Reply): seq<Reply> {
    if IsSpontaneous(reply) then [] else [reply]
  }

  /** The replies that are not spontaneous push messages. */
  function InBand(replies: seq<Reply>): seq<Reply> {
    if replies == [] then [] else InBand(replies[..|replies| - 1]) + InBandOne(replies[|replies| - 1])
  }

  lemma InBandNext(incoming: seq<Reply>, i: nat)
    requires i < |incoming|
    ensures InBand(incoming[..i + 1]) == InBand(incoming[..i]) + InBandOne(incoming[i])
  {
    assert incoming[..i + 1][..i] == incoming[..i];
  }

  lemma {:induction false} InBandFront(incoming: seq<Reply>, i: nat)
    requires i <= |incoming|
    ensures InBand(incoming[..i]) <= InBand(incoming)
    decreases |incoming| - i
  {
    if i < |incoming| {
      InBandNext(incoming, i);
      InBandFront(incoming, i + 1);
    } else {
      assert incoming[..i] == incoming;
    }
  }

  lemma NextIn(before: seq<Reply>, incoming: seq<Reply>, i: nat, after: seq<Reply>)
    requires i <= |incoming| && after == before + InBand(incoming[..i])
    ensures IsNext(before, InBand(incoming), after)
    ensures i == |incoming| ==> after == before + InBand(incoming)
  {
    InBandFront(incoming, i);
    PartIn(before, InBand(incoming), InBand(incoming[..i]), after);
    assert incoming[..|incoming|] == incoming;
  }

  lemma PartIn(before: seq<Reply>, incoming: seq<Reply>, part: seq<Reply>, after: seq<Reply>)
    requires part <= incoming && after == before + part
    ensures IsNext(before, incoming, after)
  {
    assert part == incoming[..|part|];
  }

  lemma NothingIn(before: seq<Reply>, incoming: seq<Reply>)
    ensures IsNext(before, incoming, before)
  {
    assert before == before + incoming[..0];
  }

  /** Some of the new replies, from the first on, have come in. */
  predicate IsNext(before: seq<Reply>, incoming: seq<Reply>, after: seq<Reply>) {
    exists n: nat :: n <= |incoming| && after == before + incoming[..n]
  }
}
