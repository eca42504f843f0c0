/** A subscription its subscriber has ended is gone for good: from the table, and from every later connection. */
module Endings {
  import opened Wrappers
  import opened ByteStrings
  import opened ClientOps
  import opened Decoder
  import opened Handler
  import opened ClientServer
  import opened Subscriptions
  import opened Limits
  import opened Asked
  import opened Leaks

  predicate NoSub(t: seq<ClientOp>, id: nat) {
    forall op :: op in t ==> !(op.Subscribe? && op.id == id)
  }

  /** An ended id is not in the table; one that ended before this connection was never subscribed on it. */
  predicate Gone(s: System, id: nat) {
    && (id in s.ended ==> id in s.started && id !in s.client.subs)
    && (id in s.endedBefore ==> id in s.ended && NoSub(s.client.trace, id))
  }

  lemma NoNewSubsKeepsNoSub(c: Client, c': Client, id: nat)
    requires NoNewSubs(c, c') && NoSub(c.trace, id) && id != MULTIPLEXED_SUBSCRIPTION_ID
    ensures NoSub(c'.trace, id)
  {
  }

  lemma SubscribeKeepsNoSub(c: Client, cmd: Command, id: nat)
    requires cmd.DoSubscribe? && cmd.id != id && NoSub(c.trace, id)
    ensures NoSub(ReceiveCommand(c, cmd).trace, id)
  {
  }

  lemma ReceiveKeepsNoSub(c: Client, cmd: Command, id: nat)
    requires (cmd.DoSubscribe? ==> cmd.id != id) && NoSub(c.trace, id) && id != MULTIPLEXED_SUBSCRIPTION_ID
    ensures NoSub(ReceiveCommand(c, cmd).trace, id)
  {
    hide ReceiveCommand, NoSub, NoNewSubs;
    if cmd.DoSubscribe? {
      SubscribeKeepsNoSub(c, cmd, id);
    } else {
      ReceiveNoNewSubs(c, cmd);
      NoNewSubsKeepsNoSub(c, ReceiveCommand(c, cmd), id);
    }
  }

  lemma EndingRemoves(c: Client, cmd: Command)
    requires Ends(cmd)
    ensures cmd.id !in ReceiveCommand(c, cmd).subs
  {
  }

  lemma StartedIsOrdinary(s: System, id: nat)
    requires FreshIds(s) && id in s.started
    ensures id != MULTIPLEXED_SUBSCRIPTION_ID
    ensures s.queue != [] && s.queue[0].DoSubscribe? ==> s.queue[0].id != id
  {
  }

  lemma ReceiveKeepsGone(s: System, id: nat)
    requires FreshIds(s) && Gone(s, id) && s.queue != []
    ensures Gone(Receive(s), id)
  {
    hide FreshIds, NoSub, ReceiveCommand, Receive;
    var cmd := s.queue[0];
    ReceiveStep(s);
    if id in s.started {
      StartedIsOrdinary(s, id);
      ReceiveEntry(s.client, cmd, id);
      if id in s.endedBefore {
        ReceiveKeepsNoSub(s.client, cmd, id);
      }
    }
    if Ends(cmd) {
      EndingRemoves(s.client, cmd);
    }
  }

  lemma ClientKeepsGone(s: System, s': System, id: nat)
    requires FreshIds(s) && Gone(s, id) && NoNewSubs(s.client, s'.client)
    requires s'.ended == s.ended && s'.endedBefore == s.endedBefore && s'.started == s.started
    ensures Gone(s', id)
  {
    hide FreshIds;
    if id in s.ended {
      StartedIsOrdinary(s, id);
    }
  }

  lemma ReconnectKeepsGone(s: System, id: nat)
    requires Gone(s, id)
    ensures Gone(Next(s, Reconnect), id)
  {
    hide Reconnected, OpsFor;
    ReconnectSends(s.client, id);
    forall op | op in Reconnected(s.client).trace && op.Subscribe?
      ensures op.id in s.client.subs
    {
      ReconnectSubs(s.client, op);
    }
  }

  lemma NextKeepsGone(s: System, a: Action, id: nat)
    requires FreshIds(s) && Gone(s, id)
    ensures Gone(Next(s, a), id)
  {
    hide FreshIds, Gone, NoNewSubs, SendCommand, Receive, Handle, Take, FailedUnsubscribe, Reconnected, HandleServerOp;
    PingNoNewSubs(s.client);
    match a {
      case Send(cmd) =>
        if MaySend(s, cmd) {
          SendStep(s, cmd);
          ClientKeepsGone(s, Next(s, a), id);
        }
      case ClientReceives =>
        if s.stopped.None? && s.queue != [] {
          ReceiveKeepsGone(s, id);
        }
      case ClientHandles(send) =>
        if s.stopped.None? && s.toClient != [] {
          HandleStep(s, send);
          HandleNoNewSubs(s.client, s.toClient[0], send);
          ClientKeepsGone(s, Next(s, a), id);
        }
      case Maintain(gone, goneReplies) =>
        if s.stopped.None? {
          MaintainNoNewSubs(s.client, gone, goneReplies);
          ClientKeepsGone(s, Next(s, a), id);
        }
      case Reconnect => ReconnectKeepsGone(s, id);
      case _ =>
        hide Next;
        QuietStep(s, a);
        ClientKeepsGone(s, Next(s, a), id);
    }
  }

  lemma {:induction false} RunKeepsGone(s: System, actions: seq<Action>, id: nat)
    requires FreshIds(s) && Gone(s, id)
    ensures Gone(Run(s, actions), id)
    decreases |actions|
  {
    hide FreshIds, Gone, Next;
    if actions != [] {
      NextKeepsGone(s, actions[0], id);
      NextKeepsFreshIds(s, actions[0]);
      RunKeepsGone(Next(s, actions[0]), actions[1..], id);
    }
  }

  /**
   * In every run, once the command that ends a started subscription is received its id is never in the table again, and
   * no later connection's operations hold a SUB for it.
   */
  lemma EndedIsGone(prefix: Bytes, actions: seq<Action>, id: nat)
    ensures var s := Run(Init(prefix), actions);
      && (id in s.ended ==> id !in s.client.subs)
      && (id in s.endedBefore ==> forall op :: op in s.client.trace ==> !(op.Subscribe? && op.id == id))
  {
    hide Run;
    RunKeepsGone(Init(prefix), actions, id);
  }
}
