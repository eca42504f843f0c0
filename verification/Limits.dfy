/** Subscription ids are used once, and a delivery limit is honoured across any number of reconnections. */
module Limits {
  import opened Wrappers
  import opened ByteStrings
  import opened ClientOps
  import opened Decoder
  import opened Handler
  import opened ClientServer
  import opened Subscriptions

  // ----- Ids -----

  /** Every id comes from the counter, above the multiplexed one, and is in one place only. */
  ghost predicate FreshIds(s: System) {
    && MULTIPLEXED_SUBSCRIPTION_ID < s.nextId
    && (forall id :: id in s.reserved || id in s.started ==> MULTIPLEXED_SUBSCRIPTION_ID < id < s.nextId)
    && s.reserved !! s.started
    && (forall i :: 0 <= i < |s.queue| && s.queue[i].DoSubscribe? ==>
      MULTIPLEXED_SUBSCRIPTION_ID < s.queue[i].id < s.nextId && s.queue[i].id !in s.reserved && s.queue[i].id !in s.started)
    && (forall i, j :: 0 <= i < j < |s.queue| && s.queue[i].DoSubscribe? && s.queue[j].DoSubscribe? ==>
      s.queue[i].id != s.queue[j].id)
    && s.client.subs.Keys <= s.started
    && s.limits.Keys <= s.started
  }

  /** The tables keep no more subscriptions than before, each with the count it had. */
  predicate Keeps(before: map<nat, Subscription>, after: map<nat, Subscription>) {
    forall id :: id in after ==> id in before && after[id].remaining == before[id].remaining
  }

  lemma {:induction false} CloseAllKeeps(c: Client, ids: seq<nat>)
    ensures Keeps(c.subs, CloseAll(c, ids).subs)
    decreases |ids|
  {
    if ids != [] {
      CloseAllKeeps(if ids[0] in c.subs then CloseOne(c, ids[0]) else c, ids[1..]);
    }
  }

  lemma SendKeepsFreshIds(s: System, cmd: Command)
    requires FreshIds(s) && MaySend(s, cmd)
    ensures FreshIds(SendCommand(s, cmd))
  {
    var s' := SendCommand(s, cmd);
    forall i | 0 <= i < |s'.queue| && s'.queue[i].DoSubscribe?
      ensures MULTIPLEXED_SUBSCRIPTION_ID < s'.queue[i].id < s'.nextId
      ensures s'.queue[i].id !in s'.reserved && s'.queue[i].id !in s'.started
    {
      assert i < |s.queue| ==> s'.queue[i] == s.queue[i];
    }
  }

  lemma ReceiveKeys(c: Client, cmd: Command)
    ensures ReceiveCommand(c, cmd).subs.Keys <= c.subs.Keys + if cmd.DoSubscribe? then {cmd.id} else {}
  {
  }

  lemma HandleKeys(c: Client, op: ServerOp, send: SendOutcome)
    ensures HandleServerOp(c, op, send).client.subs.Keys <= c.subs.Keys
  {
  }

  lemma FreshIdsKept(s: System, s': System)
    requires FreshIds(s) && s'.client.subs.Keys <= s.client.subs.Keys && s'.limits.Keys == s.limits.Keys
    requires s'.queue == s.queue && s'.nextId == s.nextId && s'.reserved == s.reserved && s'.started == s.started
    ensures FreshIds(s')
  {
  }

  lemma MaintainKeys(c: Client, gone: set<nat>, goneReplies: set<Bytes>)
    ensures FailedUnsubscribe(c, gone, goneReplies).subs.Keys <= c.subs.Keys
    ensures Keeps(c.subs, FailedUnsubscribe(c, gone, goneReplies).subs)
  {
    hide CloseAll;
    var swept := if c.mux.Some? then c.(mux := Some(c.mux.value - goneReplies)) else c;
    CloseAllKeeps(swept, SortedIds(ClosedIds(c.subs, gone)));
  }

  lemma ReceiveKeepsFreshIds(s: System)
    requires FreshIds(s) && s.queue != []
    ensures FreshIds(Receive(s))
  {
    hide ReceiveCommand, FreshIds;
    var s', cmd := Receive(s), s.queue[0];
    ReceiveKeys(s.client, cmd);
    ShiftKeepsFreshIds(s, s');
  }

  /** The first command leaves the channel. */
  lemma ShiftKeepsFreshIds(s: System, s': System)
    requires FreshIds(s) && s.queue != []
    requires s'.queue == s.queue[1..] && s'.nextId == s.nextId && s'.reserved == s.reserved
    requires s'.started == s.started + if s.queue[0].DoSubscribe? then {s.queue[0].id} else {}
    requires s'.client.subs.Keys <= s.client.subs.Keys + if s.queue[0].DoSubscribe? then {s.queue[0].id} else {}
    requires s'.limits.Keys <= s.limits.Keys + s.client.subs.Keys
    ensures FreshIds(s')
  {
    forall i | 0 <= i < |s'.queue| && s'.queue[i].DoSubscribe?
      ensures MULTIPLEXED_SUBSCRIPTION_ID < s'.queue[i].id < s'.nextId
      ensures s'.queue[i].id !in s'.reserved && s'.queue[i].id !in s'.started
    {
      assert s'.queue[i] == s.queue[i + 1];
    }
    assert forall i, j :: 0 <= i < j < |s'.queue| ==> s'.queue[i] == s.queue[i + 1] && s'.queue[j] == s.queue[j + 1];
  }

  lemma ReconnectKeepsFreshIds(s: System)
    requires FreshIds(s)
    ensures FreshIds(Next(s, Reconnect))
  {
    hide Reconnected, FreshIds;
    ReconnectSends(s.client, 0);
    FreshIdsKept(s, Next(s, Reconnect));
  }

  lemma MaintainKeepsFreshIds(s: System, gone: set<nat>, goneReplies: set<Bytes>)
    requires FreshIds(s)
    ensures FreshIds(Next(s, Maintain(gone, goneReplies)))
  {
    hide FailedUnsubscribe, FreshIds;
    MaintainKeys(s.client, gone, goneReplies);
    FreshIdsKept(s, Next(s, Maintain(gone, goneReplies)));
  }

  lemma HandleKeepsFreshIds(s: System, send: SendOutcome)
    requires FreshIds(s)
    ensures FreshIds(Next(s, ClientHandles(send)))
  {
    hide HandleServerOp, Handle, FreshIds;
    if s.stopped.None? && s.toClient != [] {
      HandleStep(s, send);
      HandleKeys(s.client, s.toClient[0], send);
      FreshIdsKept(s, Handle(s, send));
    }
  }

  lemma ReserveKeepsFreshIds(s: System)
    requires FreshIds(s)
    ensures FreshIds(Next(s, ReserveId))
  {
  }

  lemma NextKeepsFreshIds(s: System, a: Action)
    requires FreshIds(s)
    ensures FreshIds(Next(s, a))
  {
    hide FreshIds, SendCommand, Receive, Handle, FailedUnsubscribe, Reconnected;
    match a {
      case Send(cmd) =>
        if MaySend(s, cmd) {
          SendKeepsFreshIds(s, cmd);
        }
      case ClientReceives =>
        if s.stopped.None? && s.queue != [] {
          ReceiveKeepsFreshIds(s);
        }
      case Maintain(gone, goneReplies) => MaintainKeepsFreshIds(s, gone, goneReplies);
      case Reconnect => ReconnectKeepsFreshIds(s);
      case ClientHandles(send) => HandleKeepsFreshIds(s, send);
      case ReserveId => ReserveKeepsFreshIds(s);
      case _ =>
        hide Next;
        QuietStep(s, a);
        FreshIdsKept(s, Next(s, a));
    }
  }

  // ----- Limits -----

  /** Accepted messages and the count still left always add up to the limit set. */
  ghost predicate Counted(s: System) {
    && (forall id :: id in s.limits ==> s.limits[id].accepted <= s.limits[id].max)
    && (forall id :: id in s.limits && id in s.client.subs ==>
      s.client.subs[id].remaining.Some?
      && s.client.subs[id].remaining.value + s.limits[id].accepted == s.limits[id].max)
    && (forall id :: id in s.client.subs && s.client.subs[id].remaining.Some? ==> id in s.limits)
  }

  lemma KeepsCounted(s: System, s': System)
    requires Counted(s) && s'.limits == s.limits && Keeps(s.client.subs, s'.client.subs)
    ensures Counted(s')
  {
  }

  lemma ReceiveKeepsCounted(s: System)
    requires FreshIds(s) && Counted(s) && s.queue != []
    ensures Counted(Receive(s))
  {
    hide Counted, FreshIds, ReceiveCommand;
    var cmd, s' := s.queue[0], Receive(s);
    ReceiveTable(s.client, cmd);
    match cmd {
      case DoSubscribe(id, _, _) =>
        FirstQueuedIsFresh(s);
        SubscribeKeepsCounted(s, s', id);
      case DoUnsubscribe(id, Some(max)) =>
        if id in s.client.subs {
          LimitKeepsCounted(s, s', id, max);
        } else {
          KeepsCounted(s, s');
        }
      case _ => KeepsCounted(s, s');
    }
  }

  /** What a command does to the table of subscriptions. */
  lemma ReceiveTable(c: Client, cmd: Command)
    ensures var subs := ReceiveCommand(c, cmd).subs;
      match cmd
      case DoSubscribe(id, subject, queueGroup) => subs == c.subs[id := Subscription(subject, queueGroup, None, false)]
      case DoUnsubscribe(id, Some(max)) =>
        subs == if id in c.subs then c.subs[id := c.subs[id].(remaining := Some(max))] else c.subs
      case _ => Keeps(c.subs, subs)
  {
  }

  lemma FirstQueuedIsFresh(s: System)
    requires FreshIds(s) && s.queue != [] && s.queue[0].DoSubscribe?
    ensures s.queue[0].id !in s.limits && s.queue[0].id !in s.started
  {
  }

  lemma SubscribeKeepsCounted(s: System, s': System, id: nat)
    requires Counted(s) && id !in s.limits && s'.limits == s.limits && id in s'.client.subs
    requires s'.client.subs == s.client.subs[id := s'.client.subs[id]] && s'.client.subs[id].remaining.None?
    ensures Counted(s')
  {
  }

  lemma LimitKeepsCounted(s: System, s': System, id: nat, max: Positive)
    requires Counted(s) && id in s.client.subs && s'.limits == s.limits[id := Limit(max, 0, 0)]
    requires s'.client.subs == s.client.subs[id := s.client.subs[id].(remaining := Some(max))]
    ensures Counted(s')
  {
  }

  /** How many messages a limit still allows. */
  function Left(l: Limit): nat {
    if l.accepted < l.max then l.max - l.accepted else 0
  }

  lemma HandleKeepsCounted(s: System, send: SendOutcome)
    requires Counted(s) && s.toClient != []
    ensures Counted(Handle(s, send))
  {
    hide Counted, HandleServerOp;
    var op, s' := s.toClient[0], Handle(s, send);
    var effect := HandleServerOp(s.client, op, send).effect;
    if effect.AcceptedFor? {
      AcceptedCounts(s.client, op, send, effect.id);
      CountDownKeepsCounted(s, s', effect.id);
    } else {
      HandleKeepsTable(s.client, op, send);
      KeepsCounted(s, s');
    }
  }

  lemma HandleKeepsTable(c: Client, op: ServerOp, send: SendOutcome)
    requires !HandleServerOp(c, op, send).effect.AcceptedFor?
    ensures Keeps(c.subs, HandleServerOp(c, op, send).client.subs)
  {
  }

  lemma CountDownKeepsCounted(s: System, s': System, id: nat)
    requires Counted(s) && id in s.client.subs
    requires s'.client.subs == CountDown(s.client.subs, id)
    requires s'.limits == if id in s.limits then s.limits[id := OneAccepted(s.limits[id])] else s.limits
    ensures Counted(s')
  {
    var before, after := s.client.subs, s'.client.subs;
    assert forall i :: i in after && i != id ==> i in before && after[i] == before[i];
  }

  lemma ReconnectKeepsCounted(s: System)
    requires Counted(s)
    ensures Counted(Next(s, Reconnect))
  {
    hide Reconnected;
    ReconnectSends(s.client, 0);
  }

  lemma MaintainKeepsCounted(s: System, gone: set<nat>, goneReplies: set<Bytes>)
    requires Counted(s)
    ensures Counted(Next(s, Maintain(gone, goneReplies)))
  {
    hide Counted, FailedUnsubscribe;
    MaintainKeys(s.client, gone, goneReplies);
    KeepsCounted(s, Next(s, Maintain(gone, goneReplies)));
  }

  lemma OtherStepsKeepCounted(s: System, a: Action)
    requires Counted(s) && (Quiet(a) || (a.Send? && MaySend(s, a.cmd)))
    ensures Counted(Next(s, a))
  {
    hide Counted, Next, SendCommand;
    if a.Send? {
      SendStep(s, a.cmd);
      SendsNow(s, a.cmd);
    } else {
      QuietStep(s, a);
    }
    KeepsCounted(s, Next(s, a));
  }

  lemma NextKeepsCounted(s: System, a: Action)
    requires FreshIds(s) && Counted(s)
    ensures Counted(Next(s, a))
  {
    hide FreshIds, Counted, SendCommand, Receive, Handle, Take, FailedUnsubscribe, Reconnected;
    match a {
      case ClientReceives =>
        if s.stopped.None? && s.queue != [] {
          ReceiveKeepsCounted(s);
        }
      case ClientHandles(send) =>
        if s.stopped.None? && s.toClient != [] {
          HandleKeepsCounted(s, send);
        }
      case Maintain(gone, goneReplies) => MaintainKeepsCounted(s, gone, goneReplies);
      case Reconnect => ReconnectKeepsCounted(s);
      case Send(cmd) =>
        if MaySend(s, cmd) {
          OtherStepsKeepCounted(s, a);
        }
      case _ => OtherStepsKeepCounted(s, a);
    }
  }

  // ----- What the server was told -----

  /** The count in the last UNSUB with a limit sent for `id` on this connection. */
  function LastLimit(t: seq<ClientOp>, id: nat): Option<nat> {
    if t == [] then None
    else
      match t[|t| - 1]
      case Unsubscribe(i, Some(n)) => if i == id then Some(n) else LastLimit(t[..|t| - 1], id)
      case _ => LastLimit(t[..|t| - 1], id)
  }

  lemma LastLimitSnoc(t: seq<ClientOp>, op: ClientOp, id: nat)
    ensures LastLimit(t + [op], id) == match op
      case Unsubscribe(i, Some(n)) => if i == id then Some(n) else LastLimit(t, id)
      case _ => LastLimit(t, id)
  {
    assert (t + [op])[..|t|] == t;
  }

  /** The server's last limit leaves exactly the count still left, once the messages accepted since are taken off. */
  ghost predicate Told(s: System) {
    forall id :: id in s.client.subs && s.client.subs[id].remaining.Some? ==>
      id in s.limits && LastLimit(s.client.trace, id) == Some(s.client.subs[id].remaining.value + s.limits[id].since)
  }

  /** Tables that keep their counts, and a trace that gets no UNSUB with a limit. */
  ghost predicate Unlimited(c: Client, c': Client) {
    && (forall id :: id in c'.subs && c'.subs[id].remaining.Some? ==>
      id in c.subs && c'.subs[id].remaining == c.subs[id].remaining)
    && (forall id :: LastLimit(c'.trace, id) == LastLimit(c.trace, id))
  }

  lemma UnlimitedTold(s: System, s': System)
    requires Told(s) && Unlimited(s.client, s'.client) && s'.limits == s.limits
    ensures Told(s')
  {
  }

  lemma AppendUnlimited(c: Client, c': Client, op: ClientOp)
    requires c'.trace == c.trace || c'.trace == c.trace + [op]
    requires !(op.Unsubscribe? && op.maxMessages.Some?)
    requires forall id :: id in c'.subs && c'.subs[id].remaining.Some? ==>
      id in c.subs && c'.subs[id].remaining == c.subs[id].remaining
    ensures Unlimited(c, c')
  {
    hide LastLimit;
    forall id
      ensures LastLimit(c'.trace, id) == LastLimit(c.trace, id)
    {
      LastLimitSnoc(c.trace, op, id);
    }
  }

  lemma {:induction false} CloseAllUnlimited(c: Client, ids: seq<nat>)
    ensures Unlimited(c, CloseAll(c, ids))
    decreases |ids|
  {
    hide LastLimit;
    if ids != [] {
      var next := if ids[0] in c.subs then CloseOne(c, ids[0]) else c;
      AppendUnlimited(c, next, Unsubscribe(ids[0], None));
      CloseAllUnlimited(next, ids[1..]);
    }
  }

  lemma MaintainUnlimited(c: Client, gone: set<nat>, goneReplies: set<Bytes>)
    ensures Unlimited(c, FailedUnsubscribe(c, gone, goneReplies))
  {
    hide CloseAll;
    var swept := if c.mux.Some? then c.(mux := Some(c.mux.value - goneReplies)) else c;
    CloseAllUnlimited(swept, SortedIds(ClosedIds(c.subs, gone)));
  }

  lemma RequestUnlimited(c: Client, cmd: Command)
    requires cmd.DoRequest?
    ensures Unlimited(c, ReceiveCommand(c, cmd))
  {
    hide LastLimit;
    AppendUnlimited(c, WithMux(c), MuxSubscribe(c.prefix));
    AppendUnlimited(WithMux(c), ReceiveCommand(c, cmd),
      Publish(Message(cmd.subject, Some(cmd.replySubject), cmd.headers, cmd.payload)));
  }

  lemma ReceiveUnlimited(c: Client, cmd: Command)
    requires !(cmd.DoUnsubscribe? && cmd.maxMessages.Some?)
    ensures Unlimited(c, ReceiveCommand(c, cmd))
  {
    hide LastLimit, Unlimited;
    var c' := ReceiveCommand(c, cmd);
    match cmd {
      case DoRequest(_, _, _, _, _) => RequestUnlimited(c, cmd);
      case DoUnsubscribe(id, None) => AppendUnlimited(c, c', Unsubscribe(id, None));
      case DoSubscribe(id, subject, queueGroup) => AppendUnlimited(c, c', ClientOps.Subscribe(id, subject, queueGroup));
      case DoPublish(message) => AppendUnlimited(c, c', Publish(message));
      case DoCancelRequest(_) => AppendUnlimited(c, c', Ping);
    }
  }

  lemma LimitKeepsTold(s: System, s': System, id: nat, max: Positive)
    requires Told(s) && id in s.client.subs && s'.limits == s.limits[id := Limit(max, 0, 0)]
    requires s'.client.subs == s.client.subs[id := s.client.subs[id].(remaining := Some(max))]
    requires s'.client.trace == s.client.trace + [Unsubscribe(id, Some(max))]
    ensures Told(s')
  {
    hide LastLimit;
    forall i
      ensures LastLimit(s'.client.trace, i) == if i == id then Some(max) else LastLimit(s.client.trace, i)
    {
      LastLimitSnoc(s.client.trace, Unsubscribe(id, Some(max)), i);
    }
  }

  lemma ReceiveKeepsTold(s: System)
    requires Told(s) && s.queue != []
    ensures Told(Receive(s))
  {
    hide Told, Unlimited;
    var cmd, s' := s.queue[0], Receive(s);
    if cmd.DoUnsubscribe? && cmd.maxMessages.Some? {
      if cmd.id in s.client.subs {
        LimitKeepsTold(s, s', cmd.id, cmd.maxMessages.value);
      } else {
        PingUnlimited(s.client);
        UnlimitedTold(s, s');
      }
    } else {
      hide ReceiveCommand;
      ReceiveUnlimited(s.client, cmd);
      UnlimitedTold(s, s');
    }
  }

  lemma HandleUnlimited(c: Client, op: ServerOp, send: SendOutcome)
    requires !HandleServerOp(c, op, send).effect.AcceptedFor?
    ensures Unlimited(c, HandleServerOp(c, op, send).client)
  {
    hide LastLimit, Unlimited;
    AppendUnlimited(c, HandleServerOp(c, op, send).client,
      if op.Deliver? then Unsubscribe(op.message.subscriptionId, None) else Pong);
  }

  /** An accepted message lowers the count of its own entry, unless that was the last, and nothing else. */
  lemma AcceptedCounts(c: Client, op: ServerOp, send: SendOutcome, id: nat)
    requires HandleServerOp(c, op, send).effect == AcceptedFor(id)
    ensures id in c.subs && HandleServerOp(c, op, send).client == c.(subs := CountDown(c.subs, id))
  {
  }

  lemma CountDownKeepsTold(s: System, s': System, id: nat)
    requires Told(s) && id in s.client.subs && s'.client == s.client.(subs := CountDown(s.client.subs, id))
    requires s'.limits == if id in s.limits then s.limits[id := OneAccepted(s.limits[id])] else s.limits
    ensures Told(s')
  {
    hide LastLimit;
  }

  lemma HandleKeepsTold(s: System, send: SendOutcome)
    requires Told(s) && s.toClient != []
    ensures Told(Handle(s, send))
  {
    hide Told, Unlimited, HandleServerOp;
    var op, s' := s.toClient[0], Handle(s, send);
    var effect := HandleServerOp(s.client, op, send).effect;
    if effect.AcceptedFor? {
      AcceptedCounts(s.client, op, send, effect.id);
      CountDownKeepsTold(s, s', effect.id);
    } else {
      HandleUnlimited(s.client, op, send);
      UnlimitedTold(s, s');
    }
  }

  lemma {:induction false} LastLimitOfOps(t: seq<ClientOp>, id: nat)
    ensures LastLimit(t, id) == LastLimit(OpsFor(t, id), id)
  {
    if t != [] {
      var last, ops := t[|t| - 1], OpsFor(t[..|t| - 1], id);
      LastLimitOfOps(t[..|t| - 1], id);
      LastLimitSnoc(ops, last, id);
      assert ops + [] == ops;
    }
  }

  lemma ReconnectKeepsTold(s: System)
    requires Told(s)
    ensures Told(Next(s, Reconnect))
  {
    hide LastLimit, OpsFor, Reconnected;
    var c' := Reconnected(s.client);
    ReconnectSends(s.client, 0);
    forall id | id in s.client.subs && s.client.subs[id].remaining.Some?
      ensures LastLimit(c'.trace, id) == Some(s.client.subs[id].remaining.value)
    {
      var sub := s.client.subs[id];
      ReconnectSends(s.client, id);
      LastLimitOfOps(c'.trace, id);
      LastLimitSnoc([SubOf(id, sub)], Unsubscribe(id, Some(sub.remaining.value)), id);
      assert ResubscribeOps(id, sub) == [SubOf(id, sub)] + [Unsubscribe(id, Some(sub.remaining.value))];
    }
  }

  lemma MaintainKeepsTold(s: System, gone: set<nat>, goneReplies: set<Bytes>)
    requires Told(s)
    ensures Told(Next(s, Maintain(gone, goneReplies)))
  {
    hide Told, Unlimited, FailedUnsubscribe;
    if s.stopped.None? {
      MaintainUnlimited(s.client, gone, goneReplies);
      UnlimitedTold(s, Next(s, Maintain(gone, goneReplies)));
    }
  }

  lemma PingUnlimited(c: Client)
    ensures Unlimited(c, c) && Unlimited(c, Enqueue(c, Ping))
  {
    hide LastLimit, Unlimited;
    AppendUnlimited(c, c, Ping);
    AppendUnlimited(c, Enqueue(c, Ping), Ping);
  }

  lemma OtherStepsKeepTold(s: System, a: Action)
    requires Told(s) && (Quiet(a) || (a.Send? && MaySend(s, a.cmd)))
    ensures Told(Next(s, a))
  {
    hide Told, Unlimited, Next, SendCommand;
    if a.Send? {
      SendStep(s, a.cmd);
      SendsNow(s, a.cmd);
    } else {
      QuietStep(s, a);
    }
    PingUnlimited(s.client);
    UnlimitedTold(s, Next(s, a));
  }

  lemma NextKeepsTold(s: System, a: Action)
    requires Told(s)
    ensures Told(Next(s, a))
  {
    hide Told, SendCommand, Receive, Handle, Take, FailedUnsubscribe, Reconnected;
    match a {
      case ClientReceives =>
        if s.stopped.None? && s.queue != [] {
          ReceiveKeepsTold(s);
        }
      case ClientHandles(send) =>
        if s.stopped.None? && s.toClient != [] {
          HandleKeepsTold(s, send);
        }
      case Maintain(gone, goneReplies) => MaintainKeepsTold(s, gone, goneReplies);
      case Reconnect => ReconnectKeepsTold(s);
      case Send(cmd) =>
        if MaySend(s, cmd) {
          OtherStepsKeepTold(s, a);
        }
      case _ => OtherStepsKeepTold(s, a);
    }
  }

  lemma {:induction false} RunKeepsLimits(s: System, actions: seq<Action>)
    requires FreshIds(s) && Counted(s) && Told(s)
    ensures FreshIds(Run(s, actions)) && Counted(Run(s, actions)) && Told(Run(s, actions))
    decreases |actions|
  {
    hide FreshIds, Counted, Told, Next;
    if actions != [] {
      NextKeepsFreshIds(s, actions[0]);
      NextKeepsCounted(s, actions[0]);
      NextKeepsTold(s, actions[0]);
      RunKeepsLimits(Next(s, actions[0]), actions[1..]);
    }
  }

  /** No ordinary subscription uses the multiplexed id, and no id is ever subscribed twice. */
  lemma IdsAreUnique(prefix: Bytes, actions: seq<Action>)
    ensures var s := Run(Init(prefix), actions);
      && MULTIPLEXED_SUBSCRIPTION_ID !in s.client.subs
      && (s.queue != [] && s.queue[0].DoSubscribe? ==>
        s.queue[0].id !in s.client.subs && s.queue[0].id !in s.started && s.queue[0].id != MULTIPLEXED_SUBSCRIPTION_ID)
  {
    hide Run;
    RunKeepsLimits(Init(prefix), actions);
  }

  /**
   * From the moment `close_after(max)` is processed until another limit is set, at most `max` messages are accepted
   * for the id, through any number of reconnections; the entry carries exactly the count left, and is gone at the last.
   * The server was last told that count plus the messages accepted on this connection since.
   */
  lemma DeliveryLimit(prefix: Bytes, actions: seq<Action>, id: nat)
    ensures var s := Run(Init(prefix), actions);
      id in s.limits ==>
        && s.limits[id].accepted <= s.limits[id].max
        && (id in s.client.subs ==>
          && s.client.subs[id].remaining == Some(Left(s.limits[id]))
          && LastLimit(s.client.trace, id) == Some(Left(s.limits[id]) + s.limits[id].since))
        && (s.limits[id].accepted == s.limits[id].max ==> id !in s.client.subs)
  {
    hide Run;
    RunKeepsLimits(Init(prefix), actions);
  }

  /** A reconnection sends, for a limited id still in the table, SUB and then UNSUB with exactly the count still left. */
  lemma ReconnectCarriesLimit(prefix: Bytes, actions: seq<Action>, id: nat)
    ensures var s := Run(Init(prefix), actions);
      id in s.limits && id in s.client.subs ==>
        OpsFor(Next(s, Reconnect).client.trace, id) ==
          [ClientOps.Subscribe(id, s.client.subs[id].subject, s.client.subs[id].queueGroup),
           Unsubscribe(id, Some(Left(s.limits[id])))]
  {
    hide Run, Reconnected, OpsFor;
    var s := Run(Init(prefix), actions);
    DeliveryLimit(prefix, actions, id);
    ReconnectSends(s.client, id);
  }
}
