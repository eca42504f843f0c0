/** Every SUB sent, on the first connection or a later one, is the one its caller asked for. */
module Asked {
  import opened Wrappers
  import opened ByteStrings
  import opened ClientOps
  import opened Decoder
  import opened Handler
  import opened ClientServer
  import opened Subscriptions
  import opened Limits

  predicate OrdinarySub(op: ClientOp) {
    op.Subscribe? && op.id != MULTIPLEXED_SUBSCRIPTION_ID
  }

  /** The subscriptions still in the channel, those in the table, and the SUBs sent are all as asked. */
  ghost predicate AsAsked(s: System) {
    && (forall i :: 0 <= i < |s.queue| && s.queue[i].DoSubscribe? ==> QueuedAsAsked(s, s.queue[i]))
    && (forall id :: id in s.client.subs ==> id in s.asked && s.asked[id] == SubOf(id, s.client.subs[id]))
    && (forall op :: op in s.client.trace && OrdinarySub(op) ==>
      op.id in s.started && op.id in s.asked && s.asked[op.id] == op)
  }

  predicate QueuedAsAsked(s: System, cmd: Command)
    requires cmd.DoSubscribe?
  {
    cmd.id in s.asked && s.asked[cmd.id] == ClientOps.Subscribe(cmd.id, cmd.subject, cmd.queueGroup)
  }

  /** The table keeps no more subscriptions than before, unchanged but for counts and marks, and no ordinary SUB is sent. */
  ghost predicate NoNewSubs(c: Client, c': Client) {
    && (forall id :: id in c'.subs ==> id in c.subs && SubOf(id, c'.subs[id]) == SubOf(id, c.subs[id]))
    && (forall op :: op in c'.trace && OrdinarySub(op) ==> op in c.trace)
  }

  lemma {:induction false} CloseAllNoNewSubs(c: Client, ids: seq<nat>)
    ensures NoNewSubs(c, CloseAll(c, ids))
    decreases |ids|
  {
    if ids != [] {
      CloseAllNoNewSubs(if ids[0] in c.subs then CloseOne(c, ids[0]) else c, ids[1..]);
    }
  }

  lemma MaintainNoNewSubs(c: Client, gone: set<nat>, goneReplies: set<Bytes>)
    ensures NoNewSubs(c, FailedUnsubscribe(c, gone, goneReplies))
  {
    hide CloseAll;
    var swept := if c.mux.Some? then c.(mux := Some(c.mux.value - goneReplies)) else c;
    CloseAllNoNewSubs(swept, SortedIds(ClosedIds(c.subs, gone)));
  }

  lemma ReceiveNoNewSubs(c: Client, cmd: Command)
    requires !cmd.DoSubscribe?
    ensures NoNewSubs(c, ReceiveCommand(c, cmd))
  {
  }

  lemma HandleNoNewSubs(c: Client, op: ServerOp, send: SendOutcome)
    ensures NoNewSubs(c, HandleServerOp(c, op, send).client)
  {
  }

  /** A new connection repeats the SUBs of the table, and no others. */
  lemma ReconnectSubs(c: Client, op: ClientOp)
    requires op in Reconnected(c).trace && op.Subscribe?
    ensures op.id in c.subs && op == SubOf(op.id, c.subs[op.id])
  {
    hide OpsFor, Reconnected;
    InOpsFor(Reconnected(c).trace, op.id, op);
    ReconnectSends(c, op.id);
  }

  lemma AsAskedKept(s: System, s': System)
    requires AsAsked(s) && NoNewSubs(s.client, s'.client)
    requires s'.asked == s.asked && s.started <= s'.started && (s'.queue == s.queue || (s.queue != [] && s'.queue == s.queue[1..]))
    ensures AsAsked(s')
  {
    assert s'.queue != s.queue ==> forall i :: 0 <= i < |s'.queue| ==> s'.queue[i] == s.queue[i + 1];
  }

  lemma SendKeepsAsAsked(s: System, cmd: Command)
    requires FreshIds(s) && AsAsked(s) && MaySend(s, cmd)
    ensures AsAsked(SendCommand(s, cmd))
  {
    var s' := SendCommand(s, cmd);
    forall i | 0 <= i < |s'.queue| && s'.queue[i].DoSubscribe?
      ensures QueuedAsAsked(s', s'.queue[i])
    {
      assert i < |s.queue| ==> s'.queue[i] == s.queue[i] && QueuedAsAsked(s, s.queue[i]);
    }
  }

  lemma SubscribeKeepsAsAsked(s: System)
    requires AsAsked(s) && s.queue != [] && s.queue[0].DoSubscribe?
    ensures AsAsked(Receive(s))
  {
    var s' := Receive(s);
    assert forall i :: 0 <= i < |s'.queue| ==> s'.queue[i] == s.queue[i + 1];
    assert QueuedAsAsked(s, s.queue[0]);
  }

  lemma ReceiveKeepsAsAsked(s: System)
    requires AsAsked(s) && s.queue != []
    ensures AsAsked(Receive(s))
  {
    hide AsAsked, NoNewSubs, ReceiveCommand;
    if s.queue[0].DoSubscribe? {
      SubscribeKeepsAsAsked(s);
    } else {
      ReceiveNoNewSubs(s.client, s.queue[0]);
      AsAskedKept(s, Receive(s));
    }
  }

  lemma ReconnectKeepsAsAsked(s: System)
    requires FreshIds(s) && AsAsked(s)
    ensures AsAsked(Next(s, Reconnect))
  {
    hide Reconnected, OpsFor;
    ReconnectSends(s.client, 0);
    forall op | op in Reconnected(s.client).trace && OrdinarySub(op)
      ensures op.id in s.client.subs && op == SubOf(op.id, s.client.subs[op.id])
    {
      ReconnectSubs(s.client, op);
    }
  }

  lemma HandleKeepsAsAsked(s: System, send: SendOutcome)
    requires AsAsked(s) && s.toClient != []
    ensures AsAsked(Handle(s, send))
  {
    hide AsAsked, NoNewSubs, HandleServerOp;
    HandleNoNewSubs(s.client, s.toClient[0], send);
    AsAskedKept(s, Handle(s, send));
  }

  lemma MaintainKeepsAsAsked(s: System, gone: set<nat>, goneReplies: set<Bytes>)
    requires AsAsked(s)
    ensures AsAsked(Next(s, Maintain(gone, goneReplies)))
  {
    hide AsAsked, NoNewSubs, FailedUnsubscribe;
    if s.stopped.None? {
      MaintainNoNewSubs(s.client, gone, goneReplies);
      AsAskedKept(s, Next(s, Maintain(gone, goneReplies)));
    }
  }

  lemma PingNoNewSubs(c: Client)
    ensures NoNewSubs(c, c) && NoNewSubs(c, Enqueue(c, Ping))
  {
  }

  lemma OtherStepsKeepAsAsked(s: System, a: Action)
    requires AsAsked(s) && Quiet(a)
    ensures AsAsked(Next(s, a))
  {
    hide AsAsked, NoNewSubs, Next;
    QuietStep(s, a);
    PingNoNewSubs(s.client);
    AsAskedKept(s, Next(s, a));
  }

  lemma NextKeepsAsAsked(s: System, a: Action)
    requires FreshIds(s) && AsAsked(s)
    ensures AsAsked(Next(s, a))
  {
    hide FreshIds, AsAsked, SendCommand, Receive, Handle, Take, FailedUnsubscribe, Reconnected;
    match a {
      case Send(cmd) =>
        if MaySend(s, cmd) {
          SendKeepsAsAsked(s, cmd);
        }
      case ClientReceives =>
        if s.stopped.None? && s.queue != [] {
          ReceiveKeepsAsAsked(s);
        }
      case ClientHandles(send) =>
        if s.stopped.None? && s.toClient != [] {
          HandleKeepsAsAsked(s, send);
        }
      case Maintain(gone, goneReplies) => MaintainKeepsAsAsked(s, gone, goneReplies);
      case Reconnect => ReconnectKeepsAsAsked(s);
      case _ => OtherStepsKeepAsAsked(s, a);
    }
  }

  lemma {:induction false} RunKeepsAsAsked(s: System, actions: seq<Action>)
    requires FreshIds(s) && AsAsked(s)
    ensures AsAsked(Run(s, actions))
    decreases |actions|
  {
    hide FreshIds, AsAsked, Next;
    if actions != [] {
      NextKeepsFreshIds(s, actions[0]);
      NextKeepsAsAsked(s, actions[0]);
      RunKeepsAsAsked(Next(s, actions[0]), actions[1..]);
    }
  }

  /**
   * In every run, each SUB for an ordinary id carries the subject and queue group its caller asked for, on whichever
   * connection it is sent, and so does each entry of the table.
   */
  lemma SubsAreAsAsked(prefix: Bytes, actions: seq<Action>, op: ClientOp, id: nat)
    ensures var s := Run(Init(prefix), actions);
      && (op in s.client.trace && OrdinarySub(op) ==> op.id in s.asked && op == s.asked[op.id])
      && (id in s.client.subs ==> id in s.asked && SubOf(id, s.client.subs[id]) == s.asked[id])
  {
    hide Run;
    RunKeepsAsAsked(Init(prefix), actions);
  }
}
