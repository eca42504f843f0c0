/** One client and one verbose server over two queues, across reconnections: every run of the composed system. */
module ClientServer {
  import opened Wrappers
  import opened ByteStrings
  import opened ClientOps
  import opened Decoder
  import opened Handler

  // ----- The acknowledged operations of a connection -----

  /** The in-flight entry an operation needs: the server acknowledges PUB, SUB and UNSUB and nothing else. */
  function KindOf(op: ClientOp): Option<InFlight> {
    match op
    case Publish(_) => Some(Unimportant)
    case Subscribe(id, _, _) => Some(AwaitsSubscribe(id))
    case Unsubscribe(_, _) => Some(Unimportant)
    case _ => None
  }

  function ControlOps(trace: seq<ClientOp>): seq<ClientOp> {
    if trace == [] then []
    else
      var last := trace[|trace| - 1];
      ControlOps(trace[..|trace| - 1]) + if KindOf(last).Some? then [last] else []
  }

  function Kinds(trace: seq<ClientOp>): seq<InFlight> {
    if trace == [] then []
    else
      var kind := KindOf(trace[|trace| - 1]);
      Kinds(trace[..|trace| - 1]) + if kind.Some? then [kind.value] else []
  }

  lemma {:induction false} KindsConcat(a: seq<ClientOp>, b: seq<ClientOp>)
    ensures Kinds(a + b) == Kinds(a) + Kinds(b)
  {
    if b == [] {
      assert a + b == a;
    } else {
      assert (a + b)[..|a + b| - 1] == a + b[..|b| - 1];
      KindsConcat(a, b[..|b| - 1]);
    }
  }

  lemma KindsSnoc(a: seq<ClientOp>, op: ClientOp)
    ensures Kinds(a + [op]) == Kinds(a) + if KindOf(op).Some? then [KindOf(op).value] else []
  {
    assert (a + [op])[..|a|] == a;
  }

  lemma {:induction false} KindsOfControlOps(trace: seq<ClientOp>)
    ensures |Kinds(trace)| == |ControlOps(trace)|
    ensures forall k :: 0 <= k < |Kinds(trace)| ==> KindOf(ControlOps(trace)[k]) == Some(Kinds(trace)[k])
  {
    if trace != [] {
      KindsOfControlOps(trace[..|trace| - 1]);
    }
  }

  // ----- The system -----

  /** A limit set by `close_after`: messages accepted since it was set, and those accepted on this connection. */
  datatype Limit = Limit(max: Positive, accepted: nat, since: nat)

  datatype System = System(
    client: Client,
    stopped: Option<Output>,
    /** The command channel, and the identities handed out by the client's counters. */
    queue: seq<Command>,
    nextId: nat,
    reserved: set<nat>,
    /** The SUB each subscription was asked for with. */
    asked: map<nat, ClientOp>,
    started: set<nat>,
    requests: map<nat, Bytes>,
    live: set<nat>,
    received: set<nat>,
    /** The current connection: operations the server has taken, its answers, and how many the client has handled. */
    taken: nat,
    toClient: seq<ServerOp>,
    verdicts: seq<bool>,
    answered: nat,
    requestAt: set<nat>,
    lastHandled: Option<ServerOp>,
    /** Ids refused on this connection, those already marked failed when it was made, and whether maintenance has run. */
    rejected: set<nat>,
    marked: set<nat>,
    swept: bool,
    /** History over all connections: ids whose subscriber asked to end, and those that had before the current one. */
    ended: set<nat>,
    endedBefore: set<nat>,
    limits: map<nat, Limit>,
    resolved: seq<(nat, Bytes)>)

  function Init(prefix: Bytes): System {
    System(Client([], map[], None, prefix, []), None, [], MULTIPLEXED_SUBSCRIPTION_ID + 1, {}, map[], {}, map[], {}, {},
           0, [], [], 0, {}, None, {}, {}, false, {}, {}, map[], [])
  }

  datatype Action =
    | ReserveId
    | Send(cmd: Command)
    | ClientReceives
    | ServerTakes(accept: bool, text: Bytes)
    | ServerSends(op: ServerOp)
    | ClientHandles(send: SendOutcome)
    | Maintain(gone: set<nat>, goneReplies: set<Bytes>)
    | SendPing
    | Reconnect

  /** Subscription ids come from the counter and reply subjects are fresh; everything else may be sent as it is. */
  predicate MaySend(s: System, cmd: Command) {
    match cmd
    case DoSubscribe(id, _, _) => id in s.reserved
    case DoRequest(_, replySubject, _, _, request) => request !in s.requests && replySubject !in s.requests.Values
    case _ => true
  }

  predicate IsAck(op: ServerOp) {
    op.Success? || (op.Error? && op.error.fatal == Some(false))
  }

  function SendCommand(s: System, cmd: Command): System
    requires MaySend(s, cmd)
  {
    s.(queue := s.queue + [cmd],
       reserved := s.reserved - (if cmd.DoSubscribe? then {cmd.id} else {}),
       asked :=
         if cmd.DoSubscribe? then s.asked[cmd.id := ClientOps.Subscribe(cmd.id, cmd.subject, cmd.queueGroup)]
         else s.asked,
       requests := if cmd.DoRequest? then s.requests[cmd.request := cmd.replySubject] else s.requests)
  }

  /** The subscriber wants no more messages at all. */
  predicate Ends(cmd: Command) {
    cmd.DoUnsubscribe? && cmd.maxMessages.None?
  }

  function Receive(s: System): System
    requires s.queue != []
  {
    var cmd := s.queue[0];
    var c := ReceiveCommand(s.client, cmd);
    s.(client := c, queue := s.queue[1..],
       started := s.started + (if cmd.DoSubscribe? then {cmd.id} else {}),
       ended := s.ended + (if Ends(cmd) && cmd.id in s.started then {cmd.id} else {}),
       received := s.received + (if cmd.DoRequest? then {cmd.request} else {}),
       live :=
         if cmd.DoRequest? then s.live + {cmd.request}
         else if cmd.DoCancelRequest? then
           set q | q in s.live && !(q in s.requests && s.requests[q] == cmd.replySubject)
         else s.live,
       requestAt := s.requestAt + (if cmd.DoRequest? then {|c.trace| - 1} else {}),
       limits :=
         if cmd.DoUnsubscribe? && cmd.maxMessages.Some? && cmd.id in s.client.subs then
           s.limits[cmd.id := Limit(cmd.maxMessages.value, 0, 0)]
         else s.limits)
  }

  /** The server answers each PUB, SUB and UNSUB exactly once, in order, and each PING with a PONG. */
  function Take(s: System, accept: bool, text: Bytes): System
    requires s.taken < |s.client.trace|
  {
    var op := s.client.trace[s.taken];
    var acknowledged := KindOf(op).Some?;
    var answer := if accept then Success else Error(ServerError(text, Some(false)));
    s.(taken := s.taken + 1,
       toClient := s.toClient + (if acknowledged then [answer] else if op.Ping? then [ServerPong] else []),
       verdicts := s.verdicts + (if acknowledged then [accept] else []),
       rejected := s.rejected + (if op.Subscribe? && !accept then {op.id} else {}))
  }

  function OneAccepted(l: Limit): Limit {
    l.(accepted := l.accepted + 1, since := l.since + 1)
  }

  function Handle(s: System, send: SendOutcome): System
    requires s.toClient != []
  {
    var op := s.toClient[0];
    var h := HandleServerOp(s.client, op, send);
    s.(client := h.client, stopped := h.stop, toClient := s.toClient[1..], lastHandled := Some(op),
       answered := s.answered + (if IsAck(op) then 1 else 0),
       limits :=
         if h.effect.AcceptedFor? && h.effect.id in s.limits then
           s.limits[h.effect.id := OneAccepted(s.limits[h.effect.id])]
         else s.limits,
       resolved := s.resolved + (if h.effect.Resolved? then [(h.effect.request, h.effect.replySubject)] else []),
       live := s.live - (if h.effect.Resolved? then {h.effect.request} else {}))
  }

  function FailedIds(subs: map<nat, Subscription>): set<nat> {
    set id | id in subs && subs[id].failedSubscribe
  }

  function Next(s: System, a: Action): System {
    match a
    case ReserveId => s.(nextId := s.nextId + 1, reserved := s.reserved + {s.nextId})
    case Send(cmd) => if MaySend(s, cmd) then SendCommand(s, cmd) else s
    case ClientReceives => if s.stopped.None? && s.queue != [] then Receive(s) else s
    case ServerTakes(accept, text) => if s.taken < |s.client.trace| then Take(s, accept, text) else s
    case ServerSends(op) => if IsAck(op) then s else s.(toClient := s.toClient + [op])
    case ClientHandles(send) => if s.stopped.None? && s.toClient != [] then Handle(s, send) else s
    case Maintain(gone, goneReplies) =>
      if s.stopped.Some? then s
      else
        s.(client := FailedUnsubscribe(s.client, gone, goneReplies), swept := true,
           live := set q | q in s.live && !(q in s.requests && s.requests[q] in goneReplies))
    case SendPing => if s.stopped.Some? then s else s.(client := Enqueue(s.client, Ping))
    case Reconnect =>
      s.(client := Reconnected(s.client), stopped := None, live := {},
         taken := 0, toClient := [], verdicts := [], answered := 0, requestAt := {}, lastHandled := None,
         rejected := {}, marked := FailedIds(s.client.subs), swept := false, endedBefore := s.ended,
         limits := map id | id in s.limits :: s.limits[id].(since := 0))
  }

  function Run(s: System, actions: seq<Action>): System
    decreases |actions|
  {
    if actions == [] then s else Run(Next(s, actions[0]), actions[1..])
  }

  // ----- What each step leaves as it was -----

  /** Steps of the server, of the id counter and of the pinger. */
  predicate Quiet(a: Action) {
    a.ReserveId? || a.ServerTakes? || a.ServerSends? || a.SendPing?
  }

  /** Only the server, the answers on their way, the id counter and the queue of writes may differ. */
  ghost predicate QuietlyKept(s: System, s': System) {
    && (s'.client == s.client || s'.client == Enqueue(s.client, Ping))
    && s'.queue == s.queue && s'.asked == s.asked && s'.started == s.started
    && s'.requests == s.requests && s'.live == s.live && s'.received == s.received && s'.resolved == s.resolved
    && s'.limits == s.limits && s'.requestAt == s.requestAt
    && s.rejected <= s'.rejected && s'.marked == s.marked && s'.swept == s.swept
    && s'.ended == s.ended && s'.endedBefore == s.endedBefore
    && s'.stopped == s.stopped && s'.lastHandled == s.lastHandled
  }

  lemma ReserveStep(s: System)
    ensures QuietlyKept(s, Next(s, ReserveId))
  {
  }

  lemma TakeKeeps(s: System, accept: bool, text: Bytes)
    requires s.taken < |s.client.trace|
    ensures var s' := Take(s, accept, text);
      && s'.(taken := s.taken, toClient := s.toClient, verdicts := s.verdicts, rejected := s.rejected) == s
      && s.rejected <= s'.rejected
  {
  }

  lemma TakeStep(s: System, accept: bool, text: Bytes)
    ensures var s' := Next(s, ServerTakes(accept, text));
      QuietlyKept(s, s') && s'.nextId == s.nextId && s'.reserved == s.reserved
  {
    hide Take;
    if s.taken < |s.client.trace| {
      TakeKeeps(s, accept, text);
    }
  }

  lemma SendsStep(s: System, op: ServerOp)
    ensures var s' := Next(s, ServerSends(op));
      QuietlyKept(s, s') && s'.nextId == s.nextId && s'.reserved == s.reserved
  {
  }

  lemma PingStep(s: System)
    ensures var s' := Next(s, SendPing);
      QuietlyKept(s, s') && s'.nextId == s.nextId && s'.reserved == s.reserved
  {
  }

  lemma QuietStep(s: System, a: Action)
    requires Quiet(a)
    ensures var s' := Next(s, a);
      && QuietlyKept(s, s')
      && (!a.ReserveId? ==> s'.nextId == s.nextId && s'.reserved == s.reserved)
  {
    hide Next;
    match a {
      case ReserveId => ReserveStep(s);
      case ServerTakes(accept, text) => TakeStep(s, accept, text);
      case ServerSends(op) => SendsStep(s, op);
      case SendPing => PingStep(s);
    }
  }

  lemma SendsNow(s: System, cmd: Command)
    requires MaySend(s, cmd)
    ensures Next(s, Send(cmd)) == SendCommand(s, cmd)
  {
  }

  lemma SendStep(s: System, cmd: Command)
    requires MaySend(s, cmd)
    ensures var s' := SendCommand(s, cmd);
      && s'.client == s.client && s'.queue == s.queue + [cmd] && s'.nextId == s.nextId && s'.started == s.started
      && s'.limits == s.limits && s'.requestAt == s.requestAt && s'.live == s.live && s'.received == s.received
      && s'.resolved == s.resolved && s'.rejected == s.rejected && s'.marked == s.marked && s'.swept == s.swept
      && s'.ended == s.ended && s'.endedBefore == s.endedBefore
      && s'.stopped == s.stopped && s'.lastHandled == s.lastHandled
  {
  }

  lemma ReceiveStep(s: System)
    requires s.queue != []
    ensures var s', cmd := Receive(s), s.queue[0];
      && s'.client == ReceiveCommand(s.client, cmd) && s'.queue == s.queue[1..]
      && s'.nextId == s.nextId && s'.reserved == s.reserved && s'.asked == s.asked
      && s'.requests == s.requests && s'.resolved == s.resolved
      && s'.rejected == s.rejected && s'.marked == s.marked && s'.swept == s.swept
      && s'.started == s.started + (if cmd.DoSubscribe? then {cmd.id} else {})
      && s'.ended == s.ended + (if Ends(cmd) && cmd.id in s.started then {cmd.id} else {})
      && s'.endedBefore == s.endedBefore && s'.stopped == s.stopped && s'.lastHandled == s.lastHandled
      && s'.received == s.received + (if cmd.DoRequest? then {cmd.request} else {})
      && s'.limits == (
        if cmd.DoUnsubscribe? && cmd.maxMessages.Some? && cmd.id in s.client.subs then
          s.limits[cmd.id := Limit(cmd.maxMessages.value, 0, 0)]
        else s.limits)
  {
    hide ReceiveCommand;
  }

  lemma HandleStep(s: System, send: SendOutcome)
    requires s.toClient != []
    ensures var s', h := Handle(s, send), HandleServerOp(s.client, s.toClient[0], send);
      && s'.client == h.client && s'.stopped == h.stop && s'.toClient == s.toClient[1..]
      && s'.lastHandled == Some(s.toClient[0]) && s'.ended == s.ended && s'.endedBefore == s.endedBefore
      && s'.answered == s.answered + (if IsAck(s.toClient[0]) then 1 else 0)
      && s'.taken == s.taken && s'.verdicts == s.verdicts && s'.requestAt == s.requestAt
      && s'.queue == s.queue && s'.nextId == s.nextId && s'.reserved == s.reserved && s'.asked == s.asked
      && s'.started == s.started && s'.requests == s.requests && s'.received == s.received
      && s'.rejected == s.rejected && s'.marked == s.marked && s'.swept == s.swept
      && s'.limits == (
        if h.effect.AcceptedFor? && h.effect.id in s.limits then
          s.limits[h.effect.id := OneAccepted(s.limits[h.effect.id])]
        else s.limits)
      && s'.resolved == s.resolved
         + (if h.effect.Resolved? then [(h.effect.request, h.effect.replySubject)] else [])
      && s'.live == s.live - (if h.effect.Resolved? then {h.effect.request} else {})
  {
    hide HandleServerOp, IsAck;
  }

  // ----- Replies are matched to requests by position -----

  function Acks(ops: seq<ServerOp>): seq<bool> {
    if ops == [] then [] else (if IsAck(ops[0]) then [ops[0].Success?] else []) + Acks(ops[1..])
  }

  lemma {:induction false} AcksConcat(a: seq<ServerOp>, b: seq<ServerOp>)
    ensures Acks(a + b) == Acks(a) + Acks(b)
  {
    if a == [] {
      assert a + b == b;
    } else {
      hide Acks;
      AcksConcat(a[1..], b);
      AcksConsConcat(a[0], a[1..], b);
      assert a == [a[0]] + a[1..];
    }
  }

  lemma AcksConsConcat(op: ServerOp, a: seq<ServerOp>, b: seq<ServerOp>)
    requires Acks(a + b) == Acks(a) + Acks(b)
    ensures Acks([op] + a + b) == Acks([op] + a) + Acks(b)
  {
    hide IsAck, Acks;
    AcksCons(op, a);
    AcksCons(op, a + b);
    assert [op] + a + b == [op] + (a + b);
  }

  lemma AcksCons(op: ServerOp, ops: seq<ServerOp>)
    ensures Acks([op] + ops) == (if IsAck(op) then [op.Success?] else []) + Acks(ops)
  {
    assert ([op] + ops)[1..] == ops;
  }

  /** The server has answered exactly the acknowledged operations it has taken, and its refusals are on record. */
  predicate ServerInv(s: System) {
    && s.taken <= |s.client.trace|
    && |s.verdicts| == |Kinds(s.client.trace[..s.taken])|
    && s.answered <= |s.verdicts|
    && Acks(s.toClient) == s.verdicts[s.answered..]
    && |s.verdicts| <= |Kinds(s.client.trace)|
    && forall k :: 0 <= k < |s.verdicts| && !s.verdicts[k] && Kinds(s.client.trace)[k].AwaitsSubscribe? ==>
      Kinds(s.client.trace)[k].id in s.rejected
  }

  /** `in_flight_commands` is exactly the acknowledged operations of this connection not yet answered, in order. */
  predicate Correlated(s: System) {
    && ServerInv(s)
    && s.client.inFlight == Kinds(s.client.trace)[s.answered..]
    && s.stopped != Some(UnexpectedState)
  }

  /** The client appended operations and their entries, after popping `pops` entries. */
  predicate Extends(c: Client, c': Client, pops: nat) {
    && |c.trace| <= |c'.trace| && c'.trace[..|c.trace|] == c.trace
    && pops <= |c.inFlight|
    && c'.inFlight == c.inFlight[pops..] + Kinds(c'.trace[|c.trace|..])
  }

  lemma ControlExtends(c: Client, kind: InFlight, op: ClientOp)
    requires KindOf(op) == Some(kind)
    ensures Extends(c, Control(c, kind, op), 0)
  {
    var c' := Control(c, kind, op);
    assert c'.trace[|c.trace|..] == [op];
    assert [op][..0] == [];
    assert Kinds([op]) == [kind];
  }

  lemma EnqueueExtends(c: Client, op: ClientOp)
    requires KindOf(op).None?
    ensures Extends(c, Enqueue(c, op), 0)
  {
    assert Enqueue(c, op).trace[|c.trace|..] == [op];
    assert [op][..0] == [];
    assert Kinds([op]) == [];
  }

  lemma ExtendsTrans(a: Client, b: Client, c: Client, pops: nat)
    requires Extends(a, b, pops) && Extends(b, c, 0)
    ensures Extends(a, c, pops)
  {
    hide Kinds;
    assert c.trace[|a.trace|..] == b.trace[|a.trace|..] + c.trace[|b.trace|..];
    KindsConcat(b.trace[|a.trace|..], c.trace[|b.trace|..]);
    assert c.trace[..|a.trace|] == c.trace[..|b.trace|][..|a.trace|];
    assert a.inFlight[pops..] + (Kinds(b.trace[|a.trace|..]) + Kinds(c.trace[|b.trace|..]))
        == a.inFlight[pops..] + Kinds(b.trace[|a.trace|..]) + Kinds(c.trace[|b.trace|..]);
  }

  /** Changing tables other than the queue of entries and the trace extends by nothing. */
  lemma TablesExtend(c: Client, c': Client)
    requires c'.inFlight == c.inFlight && c'.trace == c.trace
    ensures Extends(c, c', 0)
  {
    assert c'.trace[|c.trace|..] == [];
    assert c.inFlight[0..] + [] == c.inFlight;
  }

  lemma ReceiveExtends(c: Client, cmd: Command)
    ensures Extends(c, ReceiveCommand(c, cmd), 0)
  {
    hide Extends;
    var c' := ReceiveCommand(c, cmd);
    match cmd {
      case DoRequest(subject, replySubject, headers, payload, request) =>
        var m := WithMux(c);
        if c.mux.Some? {
          TablesExtend(c, m);
        } else {
          ControlExtends(c, AwaitsSubscribe(MULTIPLEXED_SUBSCRIPTION_ID), MuxSubscribe(c.prefix));
          TablesExtendAfter(c, Control(c, AwaitsSubscribe(MULTIPLEXED_SUBSCRIPTION_ID), MuxSubscribe(c.prefix)), m, 0);
        }
        var tabled := m.(mux := Some(m.mux.value[replySubject := request]));
        TablesExtendAfter(c, m, tabled, 0);
        ControlExtends(tabled, Unimportant, Publish(Message(subject, Some(replySubject), headers, payload)));
        ExtendsTrans(c, tabled, c', 0);
      case DoCancelRequest(_) =>
        TablesExtend(c, c');
      case _ =>
        var tabled := c.(subs := c'.subs);
        TablesExtend(c, tabled);
        if |c'.trace| > |c.trace| {
          var op := c'.trace[|c'.trace| - 1];
          assert c' == Control(tabled, KindOf(op).value, op);
          ControlExtends(tabled, KindOf(op).value, op);
          ExtendsTrans(c, tabled, c', 0);
        }
    }
  }

  lemma TablesExtendAfter(a: Client, b: Client, c: Client, pops: nat)
    requires Extends(a, b, pops) && c.inFlight == b.inFlight && c.trace == b.trace
    ensures Extends(a, c, pops)
  {
  }

  /** What the client sends back: a PONG for a PING, and an UNSUB for a message whose receiver is gone. */
  function Answer(c: Client, op: ServerOp, send: SendOutcome): seq<ClientOp> {
    if op.ServerPing? then [Pong]
    else if op.Deliver? && send.ReceiverGone? && op.message.subscriptionId != MULTIPLEXED_SUBSCRIPTION_ID
            && op.message.subscriptionId in c.subs then
      [Unsubscribe(op.message.subscriptionId, None)]
    else []
  }

  /** An error not known to be harmless. */
  predicate Fatal(op: ServerOp) {
    op.Error? && op.error.fatal != Some(false)
  }

  /**
   * Handling pops one entry for an acknowledgement and none otherwise, and enqueues the answer with its entry. It stops
   * the handler exactly for an error not known to be harmless, and for an acknowledgement that finds no entry.
   */
  lemma HandleExtends(c: Client, op: ServerOp, send: SendOutcome)
    ensures var h := HandleServerOp(c, op, send);
      && (h.stop == Some(UnexpectedState) <==> IsAck(op) && c.inFlight == [])
      && (h.stop == Some(ServerErrorOutput) <==> Fatal(op))
      && (h.stop.None? <==> !Fatal(op) && !(IsAck(op) && c.inFlight == []))
      && (h.stop != Some(UnexpectedState) ==> Extends(c, h.client, if IsAck(op) then 1 else 0))
      && h.client.trace == c.trace + Answer(c, op, send)
  {
    var h := HandleServerOp(c, op, send);
    if op.Deliver? && h.client.trace != c.trace {
      ControlExtends(c, Unimportant, Unsubscribe(op.message.subscriptionId, None));
    } else if op.ServerPing? {
      EnqueueExtends(c, Pong);
    } else {
      assert h.client.trace[|c.trace|..] == [];
    }
  }

  lemma {:induction false} CloseAllExtends(c: Client, ids: seq<nat>)
    ensures Extends(c, CloseAll(c, ids), 0)
    decreases |ids|
  {
    hide Extends;
    if ids == [] {
      TablesExtend(c, c);
    } else {
      var next := if ids[0] in c.subs then CloseOne(c, ids[0]) else c;
      TablesExtend(c, c);
      if next.trace == c.trace {
        TablesExtend(c, next);
      } else {
        var now := Control(c, Unimportant, Unsubscribe(ids[0], None));
        ControlExtends(c, Unimportant, Unsubscribe(ids[0], None));
        TablesExtendAfter(c, now, next, 0);
      }
      CloseAllExtends(next, ids[1..]);
      ExtendsTrans(c, next, CloseAll(next, ids[1..]), 0);
    }
  }

  lemma MaintainExtends(c: Client, gone: set<nat>, goneReplies: set<Bytes>)
    ensures Extends(c, FailedUnsubscribe(c, gone, goneReplies), 0)
  {
    hide Extends;
    var swept := if c.mux.Some? then c.(mux := Some(c.mux.value - goneReplies)) else c;
    TablesExtend(c, swept);
    CloseAllExtends(swept, SortedIds(ClosedIds(c.subs, gone)));
    ExtendsTrans(c, swept, FailedUnsubscribe(c, gone, goneReplies), 0);
  }

  lemma ResubscribeKindsMatch(id: nat, sub: Subscription)
    ensures Kinds(ResubscribeOps(id, sub)) == ResubscribeKinds(id, sub)
  {
    var first := [ClientOps.Subscribe(id, sub.subject, sub.queueGroup)];
    KindsSnoc([], first[0]);
    assert [] + first == first;
    if sub.remaining.Some? {
      KindsSnoc(first, Unsubscribe(id, Some(sub.remaining.value)));
    } else {
      assert ResubscribeOps(id, sub) == first;
    }
  }

  lemma {:induction false} ResubscribeExtends(c: Client, ids: seq<nat>)
    ensures Extends(c, Resubscribe(c, ids), 0)
    decreases |ids|
  {
    if ids == [] {
      TablesExtend(c, c);
    } else if ids[0] !in c.subs {
      ResubscribeExtends(c, ids[1..]);
    } else {
      var id, sub := ids[0], c.subs[ids[0]];
      var next := c.(inFlight := c.inFlight + ResubscribeKinds(id, sub), trace := c.trace + ResubscribeOps(id, sub));
      ResubscribeKindsMatch(id, sub);
      assert next.trace[|c.trace|..] == ResubscribeOps(id, sub);
      ResubscribeExtends(next, ids[1..]);
      ExtendsTrans(c, next, Resubscribe(next, ids[1..]), 0);
    }
  }

  lemma DropMore<T>(k: seq<T>, x: seq<T>, n: nat, m: nat)
    requires n + m <= |k|
    ensures (k + x)[n + m..] == k[n..][m..] + x
  {
  }

  /** Correlation survives any step of the client that extends its trace. */
  lemma CorrelatedExtends(s: System, s': System, pops: nat)
    requires Correlated(s) && Extends(s.client, s'.client, pops)
    requires s'.taken == s.taken && s'.verdicts == s.verdicts && s'.rejected == s.rejected
    requires s'.answered == s.answered + pops <= |s.verdicts|
    requires Acks(s'.toClient) == s.verdicts[s'.answered..]
    requires s'.stopped != Some(UnexpectedState)
    ensures Correlated(s')
  {
    hide Kinds, Acks;
    var t, t' := s.client.trace, s'.client.trace;
    KindsConcat(t, t'[|t|..]);
    assert t' == t + t'[|t|..];
    assert t'[..s.taken] == t[..s.taken];
    DropMore(Kinds(t), Kinds(t'[|t|..]), s.answered, pops);
  }

  lemma KindsPrefix(t: seq<ClientOp>, k: nat)
    requires k <= |t|
    ensures Kinds(t[..k]) <= Kinds(t)
  {
    assert t == t[..k] + t[k..];
    KindsConcat(t[..k], t[k..]);
  }

  lemma AnswerAcks(toClient: seq<ServerOp>, op: ServerOp)
    ensures Acks(toClient + [op]) == Acks(toClient) + if IsAck(op) then [op.Success?] else []
  {
    AcksConcat(toClient, [op]);
    assert [op][1..] == [];
    assert Acks([op][1..]) == [];
  }

  lemma TakeKeepsCorrelated(s: System, accept: bool, text: Bytes)
    requires Correlated(s) && s.taken < |s.client.trace|
    ensures Correlated(Take(s, accept, text))
  {
    hide Kinds, Acks;
    var t, op := s.client.trace, s.client.trace[s.taken];
    assert t[..s.taken + 1] == t[..s.taken] + [op];
    assert s.verdicts + [] == s.verdicts && s.toClient + [] == s.toClient;
    KindsSnoc(t[..s.taken], op);
    KindsPrefix(t, s.taken + 1);
    if KindOf(op).Some? {
      AnswerAcks(s.toClient, if accept then Success else Error(ServerError(text, Some(false))));
      assert s.verdicts[s.answered..] + [accept] == (s.verdicts + [accept])[s.answered..];
      assert Kinds(t)[|s.verdicts|] == KindOf(op).value;
    } else if op.Ping? {
      AnswerAcks(s.toClient, ServerPong);
    }
  }

  lemma HandleKeepsCorrelated(s: System, send: SendOutcome)
    requires Correlated(s) && s.stopped.None? && s.toClient != []
    ensures Correlated(Handle(s, send))
  {
    hide HandleServerOp, Handle, Extends, Correlated, Acks, IsAck;
    HandleStep(s, send);
    var op, s' := s.toClient[0], Handle(s, send);
    HandleExtends(s.client, op, send);
    FirstAnswer(s);
    CorrelatedExtends(s, s', if IsAck(op) then 1 else 0);
  }

  /** An acknowledgement at the front of the channel answers the first entry. */
  lemma FirstAnswer(s: System)
    requires Correlated(s) && s.toClient != []
    ensures var n := s.answered + if IsAck(s.toClient[0]) then 1 else 0;
      && n <= |s.verdicts| && Acks(s.toClient[1..]) == s.verdicts[n..]
      && (IsAck(s.toClient[0]) ==> s.client.inFlight != [])
  {
    hide Kinds;
    var op := s.toClient[0];
    assert Acks(s.toClient) == (if IsAck(op) then [op.Success?] else []) + Acks(s.toClient[1..]);
    if IsAck(op) {
      assert s.verdicts[s.answered..][1..] == s.verdicts[s.answered + 1..];
    }
  }

  lemma ReconnectCorrelated(s: System)
    ensures Correlated(Next(s, Reconnect))
  {
    var blank := Client([], s.client.subs, None, s.client.prefix, []);
    ResubscribeExtends(blank, SortedIds(s.client.subs.Keys));
    var c := Reconnected(s.client);
    assert c.trace[..0] == [] && c.trace[0..] == c.trace;
    assert Kinds(c.trace)[0..] == Kinds(c.trace);
  }

  lemma ReceiveKeepsCorrelated(s: System)
    requires Correlated(s) && s.stopped.None? && s.queue != []
    ensures Correlated(Receive(s))
  {
    hide Correlated, Extends, ReceiveCommand, Acks;
    NothingAnswered(s);
    ReceiveExtends(s.client, s.queue[0]);
    CorrelatedExtends(s, Receive(s), 0);
  }

  /** Without an answer handled, the acknowledgements in the channel stay those of the verdicts to come. */
  lemma NothingAnswered(s: System)
    requires Correlated(s)
    ensures s.answered <= |s.verdicts| && Acks(s.toClient) == s.verdicts[s.answered..]
  {
  }

  lemma ServerSendsCorrelated(s: System, op: ServerOp)
    requires Correlated(s) && !IsAck(op)
    ensures Correlated(Next(s, ServerSends(op)))
  {
    hide Kinds, Acks, IsAck;
    AnswerAcks(s.toClient, op);
  }

  lemma ClientStepCorrelated(s: System, a: Action)
    requires Correlated(s) && s.stopped.None? && (a.Maintain? || a.SendPing?)
    ensures Correlated(Next(s, a))
  {
    hide Correlated, Extends, FailedUnsubscribe, Acks;
    NothingAnswered(s);
    match a {
      case Maintain(gone, goneReplies) => MaintainExtends(s.client, gone, goneReplies);
      case SendPing => EnqueueExtends(s.client, Ping);
    }
    CorrelatedExtends(s, Next(s, a), 0);
  }

  lemma QueueKeepsCorrelated(s: System, a: Action)
    requires Correlated(s) && (a.ReserveId? || a.Send?)
    ensures Correlated(Next(s, a))
  {
    hide Kinds, Acks;
  }

  lemma StepKeepsCorrelated(s: System, a: Action)
    requires Correlated(s)
    ensures Correlated(Next(s, a))
  {
    hide Correlated, SendCommand, Receive, Handle, Take, FailedUnsubscribe, Reconnected, IsAck;
    match a {
      case ClientReceives =>
        if s.stopped.None? && s.queue != [] {
          ReceiveKeepsCorrelated(s);
        }
      case ServerTakes(accept, text) =>
        if s.taken < |s.client.trace| {
          TakeKeepsCorrelated(s, accept, text);
        }
      case ServerSends(op) =>
        if !IsAck(op) {
          ServerSendsCorrelated(s, op);
        }
      case ClientHandles(send) =>
        if s.stopped.None? && s.toClient != [] {
          HandleKeepsCorrelated(s, send);
        }
      case Reconnect => ReconnectCorrelated(s);
      case ReserveId => QueueKeepsCorrelated(s, a);
      case Send(_) => QueueKeepsCorrelated(s, a);
      case _ =>
        if s.stopped.None? {
          ClientStepCorrelated(s, a);
        }
    }
  }

  lemma {:induction false} RunKeepsCorrelated(s: System, actions: seq<Action>)
    requires Correlated(s)
    ensures Correlated(Run(s, actions))
    decreases |actions|
  {
    hide Correlated, Next;
    if actions != [] {
      StepKeepsCorrelated(s, actions[0]);
      RunKeepsCorrelated(Next(s, actions[0]), actions[1..]);
    }
  }

  /** In every run the entries are the unanswered operations in order, and the handler never meets an unexpected state. */
  lemma ReplyCorrelation(prefix: Bytes, actions: seq<Action>)
    ensures Correlated(Run(Init(prefix), actions))
  {
    assert Kinds([]) == [];
    RunKeepsCorrelated(Init(prefix), actions);
  }

  /** Why a handler stands still: the last operation it handled. */
  function Reason(s: System): Option<Output> {
    if s.lastHandled.Some? && Fatal(s.lastHandled.value) then Some(ServerErrorOutput) else None
  }

  lemma StepKeepsReason(s: System, a: Action)
    requires Correlated(s) && s.stopped == Reason(s)
    ensures Next(s, a).stopped == Reason(Next(s, a))
  {
    hide Correlated, SendCommand, Receive, Handle, FailedUnsubscribe, Reconnected, IsAck, Fatal;
    match a {
      case Send(cmd) =>
        if MaySend(s, cmd) {
          SendStep(s, cmd);
        }
      case ClientReceives =>
        if s.stopped.None? && s.queue != [] {
          ReceiveStep(s);
        }
      case ClientHandles(send) =>
        if s.stopped.None? && s.toClient != [] {
          HandleStep(s, send);
          HandleExtends(s.client, s.toClient[0], send);
          FirstAnswer(s);
        }
      case Maintain(_, _) =>
      case Reconnect =>
      case _ =>
        hide Next;
        QuietStep(s, a);
    }
  }

  lemma {:induction false} RunKeepsReason(s: System, actions: seq<Action>)
    requires Correlated(s) && s.stopped == Reason(s)
    ensures Run(s, actions).stopped == Reason(Run(s, actions))
    decreases |actions|
  {
    hide Correlated, Next, Reason;
    if actions != [] {
      StepKeepsCorrelated(s, actions[0]);
      StepKeepsReason(s, actions[0]);
      RunKeepsReason(Next(s, actions[0]), actions[1..]);
    }
  }

  /**
   * In every run the handler has stopped exactly when the last operation it handled on this connection was an error not
   * known to be harmless, and then for that reason.
   */
  lemma StoppedExactly(prefix: Bytes, actions: seq<Action>)
    ensures var s := Run(Init(prefix), actions);
      s.stopped == if s.lastHandled.Some? && Fatal(s.lastHandled.value) then Some(ServerErrorOutput) else None
  {
    hide Run;
    assert Kinds([]) == [];
    RunKeepsReason(Init(prefix), actions);
  }

  /**
   * A non-fatal error is the answer to one operation of this connection, which the server refused. When that was a SUB
   * whose subscription is still in the table, the subscription is dropped, or kept and marked if the error could not be
   * delivered; in every other case, and for every other subscription, nothing changes.
   */
  lemma RejectionHitsItsOwn(s: System, send: SendOutcome)
    requires Correlated(s) && s.stopped.None? && s.toClient != []
    requires s.toClient[0].Error? && s.toClient[0].error.fatal == Some(false)
    ensures s.answered < |ControlOps(s.client.trace)| && !s.verdicts[s.answered]
    ensures var op, before, after := ControlOps(s.client.trace)[s.answered], s.client, Handle(s, send).client;
      && (op.Subscribe? ==> op.id in s.rejected)
      && after.trace == before.trace && after.mux == before.mux && after.inFlight == before.inFlight[1..]
      && (if op.Subscribe? && op.id in before.subs then
            && after.subs - {op.id} == before.subs - {op.id}
            && (op.id in after.subs <==> send.Full?)
            && (send.Full? ==> after.subs[op.id] == before.subs[op.id].(failedSubscribe := true))
          else after.subs == before.subs)
  {
    KindsOfControlOps(s.client.trace);
    assert Acks(s.toClient) == [false] + Acks(s.toClient[1..]);
    assert s.verdicts[s.answered] == s.verdicts[s.answered..][0];
    assert s.client.inFlight[0] == Kinds(s.client.trace)[s.answered];
  }

  /**
   * A message concerns one subscription, or one request: the other entries of both tables stay, and subjects and queue
   * groups never change. It is accepted exactly when its ordinary subscription is in the table and has a receiver, and
   * otherwise leaves that table as it was.
   */
  lemma MessageTouchesItsOwn(c: Client, m: ServerMessage, send: SendOutcome)
    ensures var id, subject, h := m.subscriptionId, m.base.subject, HandleServerOp(c, Deliver(m), send);
      && h.stop.None?
      && (id == MULTIPLEXED_SUBSCRIPTION_ID ==> h.client == c.(mux := h.client.mux))
      && (id != MULTIPLEXED_SUBSCRIPTION_ID ==> h.client.mux == c.mux && h.client.subs - {id} == c.subs - {id})
      && (id in h.client.subs ==> id in c.subs && SubOf(id, h.client.subs[id]) == SubOf(id, c.subs[id]))
      && h.client.mux.Some? == c.mux.Some?
      && (c.mux.Some? ==> h.client.mux.value - {subject} == c.mux.value - {subject})
      && (h.effect.Resolved? <==>
        id == MULTIPLEXED_SUBSCRIPTION_ID && c.mux.Some? && subject in c.mux.value && subject !in h.client.mux.value)
      && (h.effect == AcceptedFor(id) <==>
        id != MULTIPLEXED_SUBSCRIPTION_ID && id in c.subs && !send.ReceiverGone?)
      && (h.effect != AcceptedFor(id) ==> h.client.subs == c.subs)
  {
  }
}
