/** Exactly when a subscription is forgotten by the client while the server still serves it. */
module Leaks {
  import opened Wrappers
  import opened ByteStrings
  import opened ClientOps
  import opened Decoder
  import opened Handler
  import opened ClientServer
  import opened Subscriptions
  import opened Limits

  /** The connection's operations leave the id subscribed, but the table has no entry for it. */
  predicate Lost(c: Client, id: nat) {
    Subscribed(c.trace, id) && id !in c.subs
  }

  // ----- One step -----

  /** The operation refuses the SUB of `id`. */
  predicate Refuses(c: Client, op: ServerOp, id: nat) {
    IsAck(op) && op.Error? && c.inFlight != [] && c.inFlight[0] == AwaitsSubscribe(id)
  }

  /** The operation is the last message the limit of `id` allows. */
  predicate LastMessage(c: Client, op: ServerOp, send: SendOutcome, id: nat)
    requires id in c.subs
  {
    && op.Deliver? && op.message.subscriptionId == id != MULTIPLEXED_SUBSCRIPTION_ID
    && !send.ReceiverGone? && c.subs[id].remaining == Some(1)
  }

  /** The steps that drop an entry without an UNSUB. */
  predicate Drops(s: System, a: Action, id: nat)
    requires id in s.client.subs
  {
    match a
    case Maintain(_, _) => s.client.subs[id].failedSubscribe
    case ClientHandles(send) =>
      && s.toClient != []
      && ((Refuses(s.client, s.toClient[0], id) && !send.Full?) || LastMessage(s.client, s.toClient[0], send, id))
    case _ => false
  }

  /** A step that sends no operation for `id`, or one that does. */
  lemma LostAfter(c: Client, c': Client, op: ClientOp, id: nat)
    requires c'.trace == c.trace + [op]
    ensures Lost(c', id) <==>
      id !in c'.subs && ((op.Subscribe? && op.id == id) || (op != Unsubscribe(id, None) && Subscribed(c.trace, id)))
  {
    SubscribedSnoc(c.trace, op, id);
  }

  lemma ReceiveLosesNothing(c: Client, cmd: Command, id: nat)
    requires id != MULTIPLEXED_SUBSCRIPTION_ID && !Lost(c, id)
    ensures !Lost(ReceiveCommand(c, cmd), id)
  {
    hide Subscribed;
    var c' := ReceiveCommand(c, cmd);
    match cmd {
      case DoPublish(message) => LostAfter(c, c', Publish(message), id);
      case DoRequest(subject, replySubject, headers, payload, _) =>
        if c.mux.None? {
          LostAfter(c, WithMux(c), MuxSubscribe(c.prefix), id);
        }
        LostAfter(WithMux(c), c', Publish(Message(subject, Some(replySubject), headers, payload)), id);
      case DoCancelRequest(_) =>
      case DoSubscribe(i, subject, queueGroup) => LostAfter(c, c', ClientOps.Subscribe(i, subject, queueGroup), id);
      case DoUnsubscribe(i, Some(max)) =>
        if i in c.subs {
          LostAfter(c, c', Unsubscribe(i, Some(max)), id);
        }
      case DoUnsubscribe(i, None) =>
        if i in c.subs {
          LostAfter(c, c', Unsubscribe(i, None), id);
        }
    }
  }

  lemma HandleLoses(c: Client, op: ServerOp, send: SendOutcome, id: nat)
    requires !Lost(c, id)
    ensures Lost(HandleServerOp(c, op, send).client, id) <==>
      && Subscribed(c.trace, id) && id in c.subs
      && ((Refuses(c, op, id) && !send.Full?) || LastMessage(c, op, send, id))
  {
    hide Subscribed;
    var c' := HandleServerOp(c, op, send).client;
    if op.ServerPing? {
      LostAfter(c, c', Pong, id);
    } else if op.Deliver? && c'.trace != c.trace {
      LostAfter(c, c', Unsubscribe(op.message.subscriptionId, None), id);
    }
  }

  lemma MaintainLoses(c: Client, gone: set<nat>, goneReplies: set<Bytes>, id: nat)
    requires !Lost(c, id)
    ensures Lost(FailedUnsubscribe(c, gone, goneReplies), id) <==>
      Subscribed(c.trace, id) && id in c.subs && c.subs[id].failedSubscribe
  {
    hide Subscribed, OpsFor, FailedUnsubscribe;
    var t, t' := c.trace, FailedUnsubscribe(c, gone, goneReplies).trace;
    MaintenanceSends(c, gone, goneReplies, id);
    SubscribedOfOps(t, id);
    SubscribedOfOps(t', id);
    SubscribedSnoc(OpsFor(t, id), Unsubscribe(id, None), id);
    assert OpsFor(t, id) + [] == OpsFor(t, id);
  }

  /**
   * A subscription is lost by exactly three steps: maintenance that finds it marked failed, the refusal of its own SUB
   * delivered to its receiver, and the last message its limit allows. No other step of the client or the server drops
   * an entry of the table without telling the server.
   */
  lemma LostExactly(s: System, a: Action, id: nat)
    requires id != MULTIPLEXED_SUBSCRIPTION_ID && !Lost(s.client, id)
    ensures Lost(Next(s, a).client, id) <==>
      s.stopped.None? && Subscribed(s.client.trace, id) && id in s.client.subs && Drops(s, a, id)
  {
    hide Subscribed, Refuses, LastMessage, ReceiveCommand, HandleServerOp, FailedUnsubscribe, Reconnected, SendCommand;
    match a {
      case Send(cmd) =>
        if MaySend(s, cmd) {
          SendStep(s, cmd);
        }
      case ClientReceives =>
        if s.stopped.None? && s.queue != [] {
          ReceiveLosesNothing(s.client, s.queue[0], id);
        }
      case ClientHandles(send) =>
        if s.stopped.None? && s.toClient != [] {
          HandleLoses(s.client, s.toClient[0], send, id);
        }
      case Maintain(gone, goneReplies) => MaintainLoses(s.client, gone, goneReplies, id);
      case SendPing => LostAfter(s.client, Enqueue(s.client, Ping), Ping, id);
      case Reconnect => ReconnectSends(s.client, id);
      case _ =>
    }
  }

  // ----- Whole runs -----

  /** The limit of the id is used up, so that the server has ended the subscription by itself. */
  predicate UsedUp(s: System, id: nat) {
    id in s.limits && s.limits[id].accepted == s.limits[id].max
  }

  /**
   * Every loss has its reason; every mark does too; an id that was marked when the connection was made stays marked until
   * maintenance drops it.
   */
  predicate Explained(s: System, id: nat) {
    && (id != MULTIPLEXED_SUBSCRIPTION_ID && Lost(s.client, id) ==>
      UsedUp(s, id) || id in s.rejected || (id in s.marked && s.swept))
    && (id in s.client.subs && s.client.subs[id].failedSubscribe ==> id in s.rejected || (id in s.marked && !s.swept))
    && (id in s.marked ==>
      id in s.started && (id in s.client.subs ==> s.client.subs[id].failedSubscribe && !s.swept))
    && (id in s.client.subs ==> SubOf(id, s.client.subs[id]) in s.client.trace)
  }

  lemma RefusedIsRejected(s: System, id: nat)
    requires Correlated(s) && s.toClient != [] && Refuses(s.client, s.toClient[0], id)
    ensures id in s.rejected
  {
    hide Kinds;
    assert Acks(s.toClient) == [false] + Acks(s.toClient[1..]);
    assert s.verdicts[s.answered] == s.verdicts[s.answered..][0];
    assert s.client.inFlight[0] == Kinds(s.client.trace)[s.answered];
  }

  /** What may become of one entry: it stays with its mark and its SUB, or goes; a mark is only added where `mark` allows. */
  predicate EntryAfter(c: Client, c': Client, id: nat, mark: bool) {
    id in c'.subs ==>
      && id in c.subs && SubOf(id, c'.subs[id]) == SubOf(id, c.subs[id])
      && (c.subs[id].failedSubscribe ==> c'.subs[id].failedSubscribe)
      && (c'.subs[id].failedSubscribe ==> c.subs[id].failedSubscribe || mark)
      && (SubOf(id, c.subs[id]) in c.trace ==> SubOf(id, c.subs[id]) in c'.trace)
  }

  lemma ReceiveEntry(c: Client, cmd: Command, id: nat)
    requires cmd.DoSubscribe? ==> cmd.id != id
    ensures EntryAfter(c, ReceiveCommand(c, cmd), id, false)
  {
  }

  lemma HandleEntry(c: Client, op: ServerOp, send: SendOutcome, id: nat)
    ensures EntryAfter(c, HandleServerOp(c, op, send).client, id, Refuses(c, op, id))
  {
  }

  lemma MaintainEntry(c: Client, gone: set<nat>, goneReplies: set<Bytes>, id: nat)
    ensures EntryAfter(c, FailedUnsubscribe(c, gone, goneReplies), id, false)
    ensures id in FailedUnsubscribe(c, gone, goneReplies).subs ==> id in c.subs && !c.subs[id].failedSubscribe
  {
    hide OpsFor, FailedUnsubscribe;
    var c' := FailedUnsubscribe(c, gone, goneReplies);
    MaintenanceSends(c, gone, goneReplies, id);
    if id in c.subs && SubOf(id, c.subs[id]) in c.trace {
      InOpsFor(c.trace, id, SubOf(id, c.subs[id]));
      OpsForIn(c'.trace, id, SubOf(id, c.subs[id]));
    }
  }

  predicate Refusing(s: System, a: Action, id: nat) {
    a.ClientHandles? && s.stopped.None? && s.toClient != [] && Refuses(s.client, s.toClient[0], id)
  }

  predicate Sweeping(s: System, a: Action) {
    a.Maintain? && s.stopped.None?
  }

  predicate Subscribing(s: System, a: Action, id: nat) {
    a.ClientReceives? && s.stopped.None? && s.queue != [] && s.queue[0].DoSubscribe? && s.queue[0].id == id
  }

  lemma NextEntry(s: System, a: Action, id: nat)
    requires !a.Reconnect? && !Subscribing(s, a, id)
    ensures EntryAfter(s.client, Next(s, a).client, id, Refusing(s, a, id))
    ensures Sweeping(s, a) && id in Next(s, a).client.subs ==> id in s.client.subs && !s.client.subs[id].failedSubscribe
  {
    hide ReceiveCommand, HandleServerOp, FailedUnsubscribe, Refuses, SendCommand, Receive, Handle, Take;
    match a {
      case Send(cmd) =>
        if MaySend(s, cmd) {
          SendStep(s, cmd);
        }
      case ClientReceives =>
        if s.stopped.None? && s.queue != [] {
          ReceiveStep(s);
          ReceiveEntry(s.client, s.queue[0], id);
        }
      case ClientHandles(send) =>
        if s.stopped.None? && s.toClient != [] {
          HandleStep(s, send);
          HandleEntry(s.client, s.toClient[0], send, id);
        }
      case Maintain(gone, goneReplies) => MaintainEntry(s.client, gone, goneReplies, id);
      case _ =>
        hide Next;
        QuietStep(s, a);
    }
  }

  /** How the history a connection keeps grows. */
  lemma NextHistory(s: System, a: Action, id: nat)
    requires !a.Reconnect?
    ensures var s' := Next(s, a);
      && s.rejected <= s'.rejected && s'.marked == s.marked && s.started <= s'.started
      && s'.swept == (s.swept || Sweeping(s, a))
      && (id !in s.client.subs && UsedUp(s, id) ==> UsedUp(s', id))
  {
    hide UsedUp, Receive, Handle, SendCommand, FailedUnsubscribe;
    match a {
      case Send(cmd) =>
        if MaySend(s, cmd) {
          SendHistory(s, cmd, id);
        }
      case ClientReceives =>
        if s.stopped.None? && s.queue != [] {
          ReceiveHistory(s, id);
        }
      case ClientHandles(send) =>
        if s.stopped.None? && s.toClient != [] {
          HandleHistory(s, send, id);
        }
      case Maintain(_, _) => SameLimits(s, Next(s, a), id);
      case _ =>
        hide Next;
        QuietStep(s, a);
        SameLimits(s, Next(s, a), id);
    }
  }

  lemma SameLimits(s: System, s': System, id: nat)
    requires s'.limits == s.limits
    ensures UsedUp(s', id) <==> UsedUp(s, id)
  {
  }

  lemma SendHistory(s: System, cmd: Command, id: nat)
    requires MaySend(s, cmd)
    ensures var s' := SendCommand(s, cmd);
      && s'.rejected == s.rejected && s'.marked == s.marked && s'.started == s.started && s'.swept == s.swept
      && (UsedUp(s, id) ==> UsedUp(s', id))
  {
    SendStep(s, cmd);
  }

  lemma ReceiveHistory(s: System, id: nat)
    requires s.queue != []
    ensures var s' := Receive(s);
      && s'.rejected == s.rejected && s'.marked == s.marked && s.started <= s'.started && s'.swept == s.swept
      && (id !in s.client.subs && UsedUp(s, id) ==> UsedUp(s', id))
  {
    hide ReceiveCommand, Receive;
    ReceiveStep(s);
  }

  lemma HandleHistory(s: System, send: SendOutcome, id: nat)
    requires s.toClient != []
    ensures var s' := Handle(s, send);
      && s'.rejected == s.rejected && s'.marked == s.marked && s'.started == s.started && s'.swept == s.swept
      && (id !in s.client.subs && UsedUp(s, id) ==> UsedUp(s', id))
  {
    hide HandleServerOp, Handle;
    HandleStep(s, send);
    var effect := HandleServerOp(s.client, s.toClient[0], send).effect;
    if effect.AcceptedFor? {
      AcceptedCounts(s.client, s.toClient[0], send, effect.id);
    }
  }

  /** The last message uses the limit up. */
  lemma LastMessageUsesUp(s: System, send: SendOutcome, id: nat)
    requires Counted(s) && s.toClient != [] && id in s.client.subs && LastMessage(s.client, s.toClient[0], send, id)
    ensures UsedUp(Handle(s, send), id)
  {
  }

  lemma LossExplained(s: System, a: Action, id: nat)
    requires Correlated(s) && Counted(s) && Explained(s, id) && !a.Reconnect?
    requires id != MULTIPLEXED_SUBSCRIPTION_ID && Lost(Next(s, a).client, id)
    ensures var s' := Next(s, a); UsedUp(s', id) || id in s'.rejected || (id in s'.marked && s'.swept)
  {
    hide Correlated, Counted, Next, UsedUp, Subscribed, Refuses, LastMessage, Handle;
    NextHistory(s, a, id);
    if !Lost(s.client, id) {
      LostExactly(s, a, id);
      if a.ClientHandles? {
        if Refuses(s.client, s.toClient[0], id) {
          RefusedIsRejected(s, id);
        } else {
          LastMessageUsesUp(s, a.send, id);
          HandlesNow(s, a.send);
        }
      }
    }
  }

  lemma HandlesNow(s: System, send: SendOutcome)
    requires s.stopped.None? && s.toClient != []
    ensures Next(s, ClientHandles(send)) == Handle(s, send)
  {
  }

  lemma SubscribingExplained(s: System, a: Action, id: nat)
    requires FreshIds(s) && Explained(s, id) && Subscribing(s, a, id)
    ensures Explained(Next(s, a), id)
  {
    hide Subscribed;
  }

  lemma ReconnectExplained(s: System, id: nat)
    requires FreshIds(s)
    ensures Explained(Next(s, Reconnect), id)
  {
    hide Reconnected, OpsFor, Subscribed;
    ReconnectSends(s.client, id);
    if id in s.client.subs {
      assert ResubscribeOps(id, s.client.subs[id])[0] == SubOf(id, s.client.subs[id]);
      OpsForIn(Reconnected(s.client).trace, id, SubOf(id, s.client.subs[id]));
    }
  }

  lemma NextExplained(s: System, a: Action, id: nat)
    requires Correlated(s) && FreshIds(s) && Counted(s) && Explained(s, id)
    ensures Explained(Next(s, a), id)
  {
    hide Correlated, FreshIds, Counted, Next, Lost, UsedUp, Refuses;
    if a.Reconnect? {
      ReconnectExplained(s, id);
    } else if Subscribing(s, a, id) {
      SubscribingExplained(s, a, id);
    } else {
      NextEntry(s, a, id);
      NextHistory(s, a, id);
      if Refusing(s, a, id) {
        RefusedIsRejected(s, id);
      }
      if id != MULTIPLEXED_SUBSCRIPTION_ID && Lost(Next(s, a).client, id) {
        LossExplained(s, a, id);
      }
    }
  }

  lemma {:induction false} RunExplained(s: System, actions: seq<Action>, id: nat)
    requires Correlated(s) && FreshIds(s) && Counted(s) && Explained(s, id)
    ensures Explained(Run(s, actions), id)
    decreases |actions|
  {
    hide Correlated, FreshIds, Counted, Explained, Next;
    if actions != [] {
      StepKeepsCorrelated(s, actions[0]);
      NextKeepsFreshIds(s, actions[0]);
      NextKeepsCounted(s, actions[0]);
      NextExplained(s, actions[0], id);
      RunExplained(Next(s, actions[0]), actions[1..], id);
    }
  }

  /**
   * No silent leak but one, in every run and across every reconnection. Take an ordinary id that the current connection
   * leaves subscribed, that the server did not refuse on this connection and whose limit, if any, is not used up: the
   * server still serves it. It is missing from the table exactly when it was already marked failed as the connection was
   * made and maintenance has run since. The SUB of every entry in the table, with its subject and queue group, was sent
   * on the current connection.
   */
  lemma NoSilentLeak(prefix: Bytes, actions: seq<Action>, id: nat)
    ensures var s := Run(Init(prefix), actions);
      && (id != MULTIPLEXED_SUBSCRIPTION_ID && Subscribed(s.client.trace, id) && id !in s.rejected && !UsedUp(s, id) ==>
        (id !in s.client.subs <==> id in s.marked && s.swept))
      && (id in s.client.subs ==> SubOf(id, s.client.subs[id]) in s.client.trace)
  {
    hide Run, Next, UsedUp;
    assert Kinds([]) == [];
    RunExplained(Init(prefix), actions, id);
  }

  // ----- The leak happens -----

  /** A SUB refused while the subscription's channel is full leaves the subscription in the table, marked. */
  lemma RefusedAndFull(prefix: Bytes, text: Bytes) returns (s: System)
    ensures Reachable(prefix, s)
    ensures s.client.subs == map[2 := Subscription([], None, None, true)] && s.stopped.None? && s.limits == map[]
  {
    s := Init(prefix);
    assert Run(s, []) == s;
    ReachableNext(prefix, s, ReserveId);
    s := Next(s, ReserveId);
    ReachableNext(prefix, s, Send(DoSubscribe(2, [], None)));
    s := Next(s, Send(DoSubscribe(2, [], None)));
    assert s.queue == [DoSubscribe(2, [], None)];
    ReachableNext(prefix, s, ClientReceives);
    s := Next(s, ClientReceives);
    assert s.client.trace == [ClientOps.Subscribe(2, [], None)] && s.client.inFlight == [AwaitsSubscribe(2)];
    ReachableNext(prefix, s, ServerTakes(false, text));
    s := Next(s, ServerTakes(false, text));
    assert s.toClient == [Error(ServerError(text, Some(false)))];
    ReachableNext(prefix, s, ClientHandles(Full));
    s := Next(s, ClientHandles(Full));
  }

  /**
   * Such a state is reached: after a refusal that found its channel full, a reconnection subscribes the id again, and
   * maintenance then drops it from the table without an UNSUB. The server may well accept it this time.
   */
  lemma RefusedMayLeak(prefix: Bytes) returns (s: System)
    ensures Reachable(prefix, s)
    ensures Lost(s.client, 2) && 2 !in s.rejected && !UsedUp(s, 2)
  {
    hide Reconnected;
    s := RefusedAndFull(prefix, []);
    ReconnectSends(s.client, 2);
    ReachableNext(prefix, s, Reconnect);
    s := Next(s, Reconnect);
    assert s.client.subs[2].failedSubscribe;
    assert !Lost(s.client, 2) && Drops(s, Maintain({}, {}), 2);
    LostExactly(s, Maintain({}, {}), 2);
    ReachableNext(prefix, s, Maintain({}, {}));
    s := Next(s, Maintain({}, {}));
  }
}
