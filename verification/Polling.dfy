/** The actor's poll: reading, receiving commands under the soft limit, writing, flushing, and deciding to close. */
module Polling {
  import opened Wrappers
  import opened ByteStrings
  import opened ClientOps
  import opened Decoder
  import opened Handler
  import HeaderMaps
  import Uint

  const WRITE_BUFFER_LIMIT: nat := 8_290_304
  const RECV_BUF: nat := 16

  /**
   * The handler with its command channel and the progress of its connection: how many of the bytes encoded were
   * handed to the socket, and how many of those a flush covered. `accepted` and `done` are the commands that entered
   * the channel and those taken out of it since the connection was made, `found` whether the subscription a command
   * ends was still in the table as the command was taken.
   */
  datatype Actor = Actor(
    client: Client,
    queue: seq<Command>,
    channelClosed: bool,
    accepted: seq<Command>,
    done: seq<Command>,
    found: seq<bool>,
    written: nat,
    flushed: nat,
    writing: bool,
    flushing: bool,
    shuttingDown: bool)

  function Encoded(a: Actor): nat {
    |WireAll(a.client.trace)|
  }

  predicate Valid(a: Actor) {
    && a.flushed <= a.written <= Encoded(a)
    && a.accepted == a.done + a.queue
    && |a.found| == |a.done|
  }

  /** The bytes waiting in the encoder. */
  function Buffered(a: Actor): nat {
    if a.written <= Encoded(a) then Encoded(a) - a.written else 0
  }

  // ----- Receiving commands -----

  datatype ReceiveOutcome = NoMoreCommands | NoMoreSpace

  function ReceiveBatch(c: Client, batch: seq<Command>): Client
    decreases |batch|
  {
    if batch == [] then c else ReceiveBatch(ReceiveCommand(c, batch[0]), batch[1..])
  }

  /** Whether a command finds the subscription it is about; other commands need none. */
  predicate Finds(c: Client, cmd: Command) {
    cmd.DoUnsubscribe? ==> cmd.id in c.subs
  }

  function BatchFinds(c: Client, batch: seq<Command>): (found: seq<bool>)
    ensures |found| == |batch|
    decreases |batch|
  {
    if batch == [] then [] else [Finds(c, batch[0])] + BatchFinds(ReceiveCommand(c, batch[0]), batch[1..])
  }

  function BatchSize(a: Actor): nat {
    if |a.queue| < RECV_BUF then |a.queue| else RECV_BUF
  }

  /** One batch of the loop. */
  function TakeBatch(a: Actor): Actor {
    a.(client := ReceiveBatch(a.client, a.queue[..BatchSize(a)]),
       queue := a.queue[BatchSize(a)..],
       done := a.done + a.queue[..BatchSize(a)],
       found := a.found + BatchFinds(a.client, a.queue[..BatchSize(a)]))
  }

  /** `receive_command`: batches of at most sixteen until the channel is empty or the write buffer is full. */
  function ReceiveCommands(a: Actor): (r: (Actor, ReceiveOutcome))
    ensures r.0.written == a.written && r.0.flushed == a.flushed
    ensures r.0.writing == a.writing && r.0.flushing == a.flushing
    ensures r.0.accepted == a.accepted && r.0.channelClosed == a.channelClosed
    ensures r.0.shuttingDown == (a.shuttingDown || (r.1.NoMoreCommands? && a.channelClosed))
    ensures r.1.NoMoreCommands? ==> r.0.queue == []
    ensures r.1.NoMoreSpace? <==> Buffered(r.0) >= WRITE_BUFFER_LIMIT
    decreases |a.queue|
  {
    if Buffered(a) >= WRITE_BUFFER_LIMIT then (a, NoMoreSpace)
    else if a.queue == [] then (a.(shuttingDown := a.shuttingDown || a.channelClosed), NoMoreCommands)
    else ReceiveCommands(TakeBatch(a))
  }

  /** The most bytes a command can add; the first request of a connection also sends the wildcard SUB. */
  function CommandBytes(prefix: Bytes, cmd: Command): nat {
    match cmd
    case DoPublish(message) => |Wire(Publish(message))|
    case DoRequest(subject, replySubject, headers, payload, _) =>
      |Wire(MuxSubscribe(prefix))| + |Wire(Publish(Message(subject, Some(replySubject), headers, payload)))|
    case DoCancelRequest(_) => 0
    case DoSubscribe(id, subject, queueGroup) => |Wire(ClientOps.Subscribe(id, subject, queueGroup))|
    case DoUnsubscribe(id, max) => |Wire(Unsubscribe(id, max))|
  }

  /** Operations are only ever added behind those already enqueued. */
  predicate Grew(t: seq<ClientOp>, t': seq<ClientOp>, most: int) {
    |WireAll(t)| <= |WireAll(t')| <= |WireAll(t)| + most
  }

  lemma OneMore(t: seq<ClientOp>, op: ClientOp)
    ensures |WireAll(t + [op])| == |WireAll(t)| + |Wire(op)|
  {
    hide Wire, WireAll;
    WireAllSnoc(t, op);
  }

  lemma ReceiveGrows(c: Client, cmd: Command)
    ensures Grew(c.trace, ReceiveCommand(c, cmd).trace, CommandBytes(c.prefix, cmd))
    ensures ReceiveCommand(c, cmd).prefix == c.prefix
  {
    hide Wire, WireAll;
    match cmd {
      case DoPublish(message) => OneMore(c.trace, Publish(message));
      case DoRequest(subject, replySubject, headers, payload, _) =>
        var pub := Publish(Message(subject, Some(replySubject), headers, payload));
        OneMore(c.trace, MuxSubscribe(c.prefix));
        OneMore(WithMux(c).trace, pub);
      case DoCancelRequest(_) =>
      case DoSubscribe(id, subject, queueGroup) => OneMore(c.trace, ClientOps.Subscribe(id, subject, queueGroup));
      case DoUnsubscribe(id, max) => OneMore(c.trace, Unsubscribe(id, max));
    }
  }

  lemma {:induction false} BatchGrows(c: Client, batch: seq<Command>, most: nat)
    requires forall i :: 0 <= i < |batch| ==> CommandBytes(c.prefix, batch[i]) <= most
    ensures Grew(c.trace, ReceiveBatch(c, batch).trace, |batch| * most)
    ensures ReceiveBatch(c, batch).prefix == c.prefix
    decreases |batch|
  {
    hide ReceiveCommand, CommandBytes, WireAll;
    if batch != [] {
      ReceiveGrows(c, batch[0]);
      BatchGrows(ReceiveCommand(c, batch[0]), batch[1..], most);
      assert |batch| * most == most + (|batch| - 1) * most;
    }
  }

  /** A bound on the commands waiting exists: their number is finite. */
  function LargestCommand(prefix: Bytes, cmds: seq<Command>): (m: nat)
    ensures forall i :: 0 <= i < |cmds| ==> CommandBytes(prefix, cmds[i]) <= m
  {
    if cmds == [] then 0
    else
      var rest := LargestCommand(prefix, cmds[1..]);
      if CommandBytes(prefix, cmds[0]) > rest then CommandBytes(prefix, cmds[0]) else rest
  }

  /**
   * The soft limit: when no command waiting adds more than `most` bytes, the buffer ends within sixteen of them above
   * the limit. Commands leave the channel in order and none is lost; without space left the channel may still hold
   * some, otherwise it is empty.
   */
  lemma {:induction false} SoftLimit(a: Actor, most: nat)
    requires Valid(a)
    requires forall i :: 0 <= i < |a.queue| ==> CommandBytes(a.client.prefix, a.queue[i]) <= most
    ensures var (r, outcome) := ReceiveCommands(a);
      && Valid(r) && Buffered(a) <= Buffered(r)
      && (Buffered(r) <= Buffered(a) || Buffered(r) <= WRITE_BUFFER_LIMIT - 1 + RECV_BUF * most)
      && a.done <= r.done && r.done + r.queue == a.done + a.queue
      && (outcome.NoMoreSpace? <==> Buffered(r) >= WRITE_BUFFER_LIMIT)
      && (outcome.NoMoreCommands? ==> r.queue == [] && r.done == r.accepted)
    decreases |a.queue|
  {
    hide WireAll, ReceiveCommand, CommandBytes, ReceiveBatch;
    if Buffered(a) < WRITE_BUFFER_LIMIT && a.queue != [] {
      var next, n := TakeBatch(a), BatchSize(a);
      BatchGrows(a.client, a.queue[..n], most);
      assert n * most <= RECV_BUF * most by {
        SmallerProduct(n, RECV_BUF, most);
      }
      assert a.queue == a.queue[..n] + a.queue[n..];
      assert a.done + (a.queue[..n] + a.queue[n..]) == a.done + a.queue[..n] + a.queue[n..];
      SoftLimit(next, most);
    }
  }

  lemma SmallerProduct(n: nat, m: nat, k: nat)
    requires n <= m
    ensures n * k <= m * k
  {
    assert m * k == n * k + (m - n) * k;
  }

  // ----- Writing -----

  datatype WriteOutcome = WritePending(budgetLeft: bool) | Wrote(n: nat) | WriteFailed

  /** What the outside does during one turn of the loop: commands arriving, the delay, the budget, and the socket. */
  datatype Turn = Turn(arrivals: seq<Command>, sendersGone: bool, canProceed: bool, budget: bool, write: WriteOutcome)

  const IDLE: Turn := Turn([], false, true, true, WritePending(true))

  /** Commands enter the channel unless it is closed. */
  function Arrive(a: Actor, t: Turn): Actor {
    if a.channelClosed then a
    else
      a.(queue := a.queue + t.arrivals, accepted := a.accepted + t.arrivals, channelClosed := t.sendersGone)
  }

  /** Handing bytes to the socket. */
  function Write(a: Actor, n: nat): Actor {
    a.(written := a.written + if n < Buffered(a) then n else Buffered(a))
  }

  datatype TurnResult = TurnResult(actor: Actor, again: bool, failed: bool, outcome: ReceiveOutcome)

  /** The part of a turn after commands were received. */
  function WriteTurn(a: Actor, t: Turn, outcome: ReceiveOutcome): TurnResult {
    if Buffered(a) > 0 then
      var w := a.(writing := a.writing || a.flushing || t.canProceed);
      if !w.writing || !t.budget then TurnResult(w, false, false, outcome)
      else match t.write
        case WritePending(budgetLeft) =>
          TurnResult(w.(flushing := w.flushing && !budgetLeft), false, false, outcome)
        case Wrote(n) => TurnResult(Write(w, n), true, false, outcome)
        case WriteFailed => TurnResult(w, false, true, outcome)
    else if a.writing then TurnResult(a.(writing := false, flushing := true), false, false, outcome)
    else TurnResult(a, false, false, outcome)
  }

  function OneTurn(a: Actor, t: Turn): TurnResult {
    var (r, outcome) := ReceiveCommands(Arrive(a, t));
    WriteTurn(r.(writing := r.writing || outcome.NoMoreSpace?), t, outcome)
  }

  /** The loop: again after every successful write. */
  function Turns(a: Actor, turns: seq<Turn>): TurnResult
    decreases |turns|
  {
    var r := OneTurn(a, if turns == [] then IDLE else turns[0]);
    if r.again && turns != [] then Turns(r.actor, turns[1..]) else r
  }

  // ----- One poll -----

  datatype FlushOutcome = FlushPending | FlushDone | FlushFailed

  datatype Incoming = Incoming(op: ServerOp, send: SendOutcome)

  /** Everything the outside decides about one poll. */
  datatype Environment = Environment(
    tooManyPings: bool,
    pingDue: bool,
    failedUnsubscribe: Option<(set<nat>, set<Bytes>)>,
    shutdownSignal: bool,
    incoming: seq<Incoming>,
    readFailed: bool,
    turns: seq<Turn>,
    flush: FlushOutcome)

  datatype PollResult = PollResult(actor: Actor, output: Option<Output>)

  function HandleAll(c: Client, incoming: seq<Incoming>): (Client, Option<Output>)
    decreases |incoming|
  {
    if incoming == [] then (c, None)
    else
      var h := HandleServerOp(c, incoming[0].op, incoming[0].send);
      if h.stop.Some? then (h.client, h.stop) else HandleAll(h.client, incoming[1..])
  }

  /** Before reading: the ping, maintenance, and the shutdown signal, which closes the channel. */
  function Prepare(a: Actor, e: Environment): Actor {
    var pinged := if e.pingDue then a.(client := Enqueue(a.client, Ping)) else a;
    if a.shuttingDown then pinged
    else
      var swept :=
        if e.failedUnsubscribe.Some? then
          pinged.(client := FailedUnsubscribe(pinged.client, e.failedUnsubscribe.value.0, e.failedUnsubscribe.value.1))
        else pinged;
      if e.shutdownSignal then swept.(shuttingDown := true, channelClosed := true) else swept
  }

  /** After the loop: flush, then decide. */
  function Finish(a: Actor, outcome: ReceiveOutcome, flush: FlushOutcome): PollResult {
    if a.flushing && flush.FlushFailed? then PollResult(a, Some(Disconnected))
    else
      var f := if a.flushing && flush.FlushDone? then a.(flushing := false, flushed := a.written) else a;
      PollResult(f,
        if f.shuttingDown && outcome.NoMoreCommands? && !f.writing && !f.flushing then Some(Closed) else None)
  }

  function Poll(a: Actor, e: Environment): PollResult {
    if e.tooManyPings then PollResult(a, Some(Disconnected))
    else
      var p := Prepare(a, e);
      var (c, stop) := HandleAll(p.client, e.incoming);
      var h := p.(client := c);
      if stop.Some? then PollResult(h, stop)
      else if e.readFailed then PollResult(h, Some(Disconnected))
      else
        var r := Turns(h, e.turns);
        if r.failed then PollResult(r.actor, Some(Disconnected)) else Finish(r.actor, r.outcome, e.flush)
  }

  // ----- Graceful shutdown -----

  /** Bytes handed to the socket but not flushed keep a flag up. */
  predicate FlushOwed(a: Actor) {
    a.flushed < a.written ==> a.writing || a.flushing
  }

  /** The operations the handler sends without a command: pings, pongs, the wildcard SUB, and UNSUBs for receivers gone. */
  predicate Own(op: ClientOp) {
    match op
    case Ping => true
    case Pong => true
    case Subscribe(id, _, _) => id == MULTIPLEXED_SUBSCRIPTION_ID
    case Unsubscribe(_, max) => max.None?
    case _ => false
  }

  /** The operations asked for are in the trace once each and in order, and everything between them is the handler's own. */
  predicate Woven(t: seq<ClientOp>, asked: seq<ClientOp>)
    decreases |t|
  {
    if t == [] then asked == []
    else
      var last, init := t[|t| - 1], t[..|t| - 1];
      || (asked != [] && asked[|asked| - 1] == last && Woven(init, asked[..|asked| - 1]))
      || (Own(last) && Woven(init, asked))
  }

  /** What a command asks to be sent: an UNSUB only when its subscription is still in the table. */
  function AskedBy(cmd: Command, found: bool): seq<ClientOp> {
    match cmd
    case DoPublish(message) => [Publish(message)]
    case DoRequest(subject, replySubject, headers, payload, _) =>
      [Publish(Message(subject, Some(replySubject), headers, payload))]
    case DoCancelRequest(_) => []
    case DoSubscribe(id, subject, queueGroup) => [ClientOps.Subscribe(id, subject, queueGroup)]
    case DoUnsubscribe(id, max) => if found then [Unsubscribe(id, max)] else []
  }

  function Requested(cmds: seq<Command>, found: seq<bool>): seq<ClientOp>
    requires |cmds| == |found|
  {
    if cmds == [] then []
    else
      var n := |cmds| - 1;
      Requested(cmds[..n], found[..n]) + AskedBy(cmds[n], found[n])
  }

  /** What holds between polls. */
  predicate Sound(opening: seq<ClientOp>, a: Actor) {
    && Valid(a) && FlushOwed(a) && Woven(a.client.trace, opening + Requested(a.done, a.found))
    && (a.shuttingDown ==> a.channelClosed)
  }

  /** A change of the client that adds none but its own operations. */
  ghost predicate Unasked(c: Client, c': Client) {
    && Grew(c.trace, c'.trace, |WireAll(c'.trace)|)
    && forall asked :: Woven(c.trace, asked) ==> Woven(c'.trace, asked)
  }

  lemma WovenOwn(t: seq<ClientOp>, asked: seq<ClientOp>, op: ClientOp)
    requires Woven(t, asked) && Own(op)
    ensures Woven(t + [op], asked)
  {
    assert (t + [op])[..|t|] == t;
  }

  lemma WovenAsked(t: seq<ClientOp>, asked: seq<ClientOp>, op: ClientOp)
    requires Woven(t, asked)
    ensures Woven(t + [op], asked + [op])
  {
    assert (t + [op])[..|t|] == t && (asked + [op])[..|asked|] == asked;
  }

  lemma {:induction false} WovenItself(t: seq<ClientOp>)
    ensures Woven(t, t)
  {
    if t != [] {
      WovenItself(t[..|t| - 1]);
    }
  }

  lemma RequestedSnoc(cmds: seq<Command>, found: seq<bool>, cmd: Command, f: bool)
    requires |cmds| == |found|
    ensures Requested(cmds + [cmd], found + [f]) == Requested(cmds, found) + AskedBy(cmd, f)
  {
    assert (cmds + [cmd])[..|cmds|] == cmds && (found + [f])[..|found|] == found;
  }

  lemma AddUnasked(c: Client, c': Client, op: ClientOp)
    requires Own(op) && (c'.trace == c.trace || c'.trace == c.trace + [op])
    ensures Unasked(c, c')
  {
    hide WireAll, Wire, Woven;
    OneMore(c.trace, op);
    forall asked | Woven(c.trace, asked)
      ensures Woven(c'.trace, asked)
    {
      WovenOwn(c.trace, asked, op);
    }
  }

  lemma {:induction false} CloseAllUnasked(c: Client, ids: seq<nat>)
    ensures Unasked(c, CloseAll(c, ids))
    decreases |ids|
  {
    hide WireAll;
    if ids != [] {
      var next := if ids[0] in c.subs then CloseOne(c, ids[0]) else c;
      AddUnasked(c, next, Unsubscribe(ids[0], None));
      CloseAllUnasked(next, ids[1..]);
    }
  }

  lemma {:induction false} HandleAllUnasked(c: Client, incoming: seq<Incoming>)
    ensures Unasked(c, HandleAll(c, incoming).0)
    decreases |incoming|
  {
    hide WireAll;
    if incoming != [] {
      var i := incoming[0];
      var h := HandleServerOp(c, i.op, i.send);
      AddUnasked(c, h.client,
        if i.op.Deliver? then Unsubscribe(i.op.message.subscriptionId, None) else Pong);
      HandleAllUnasked(h.client, incoming[1..]);
    }
  }

  lemma UnaskedKeepsSound(opening: seq<ClientOp>, a: Actor, c: Client)
    requires Sound(opening, a) && Unasked(a.client, c)
    ensures Sound(opening, a.(client := c))
  {
  }

  lemma PrepareKeepsSound(opening: seq<ClientOp>, a: Actor, e: Environment)
    requires Sound(opening, a)
    ensures Sound(opening, Prepare(a, e))
  {
    hide Sound, Unasked, CloseAll;
    var pinged := if e.pingDue then a.(client := Enqueue(a.client, Ping)) else a;
    AddUnasked(a.client, pinged.client, Ping);
    UnaskedKeepsSound(opening, a, pinged.client);
    assert pinged == a.(client := pinged.client);
    if !a.shuttingDown && e.failedUnsubscribe.Some? {
      var (gone, replies) := e.failedUnsubscribe.value;
      var c := pinged.client;
      var swept := if c.mux.Some? then c.(mux := Some(c.mux.value - replies)) else c;
      CloseAllUnasked(swept, SortedIds(ClosedIds(c.subs, gone)));
      SameTraceUnasked(c, swept, FailedUnsubscribe(c, gone, replies));
      UnaskedKeepsSound(opening, pinged, FailedUnsubscribe(c, gone, replies));
    }
    SoundIgnoresFlags(opening, a, e);
  }

  lemma SameTraceUnasked(a: Client, b: Client, c: Client)
    requires a.trace == b.trace && Unasked(b, c)
    ensures Unasked(a, c)
  {
  }

  lemma SoundIgnoresFlags(opening: seq<ClientOp>, a: Actor, e: Environment)
    ensures forall x: Actor :: Sound(opening, x) ==> Sound(opening, x.(shuttingDown := true, channelClosed := true))
  {
  }

  lemma {:induction false} BatchSends(opening: seq<ClientOp>, c: Client, done: seq<Command>, found: seq<bool>, batch: seq<Command>)
    requires |done| == |found| && Woven(c.trace, opening + Requested(done, found))
    ensures Woven(ReceiveBatch(c, batch).trace, opening + Requested(done + batch, found + BatchFinds(c, batch)))
    decreases |batch|
  {
    hide Woven, Requested, AskedBy, Finds;
    if batch == [] {
      assert done + batch == done && found + BatchFinds(c, batch) == found;
    } else {
      var cmd, f := batch[0], Finds(c, batch[0]);
      ReceiveSends(c, opening + Requested(done, found), cmd);
      RequestedSnoc(done, found, cmd, f);
      assert opening + Requested(done, found) + AskedBy(cmd, f) == opening + (Requested(done, found) + AskedBy(cmd, f));
      BatchSends(opening, ReceiveCommand(c, cmd), done + [cmd], found + [f], batch[1..]);
      assert done + [cmd] + batch[1..] == done + batch;
      assert found + [f] + BatchFinds(ReceiveCommand(c, cmd), batch[1..]) == found + BatchFinds(c, batch);
    }
  }

  /** A command adds exactly what it asks for, after the wildcard SUB when it is the connection's first request. */
  lemma ReceiveSends(c: Client, asked: seq<ClientOp>, cmd: Command)
    requires Woven(c.trace, asked)
    ensures Woven(ReceiveCommand(c, cmd).trace, asked + AskedBy(cmd, Finds(c, cmd)))
  {
    hide Woven;
    var c', more := ReceiveCommand(c, cmd), AskedBy(cmd, Finds(c, cmd));
    if cmd.DoRequest? && c.mux.None? {
      WovenOwn(c.trace, asked, MuxSubscribe(c.prefix));
    }
    if more == [] {
      assert asked + more == asked;
    } else {
      WovenAsked(if cmd.DoRequest? then WithMux(c).trace else c.trace, asked, more[0]);
    }
  }

  lemma {:induction false} ReceiveKeepsSound(opening: seq<ClientOp>, a: Actor)
    requires Sound(opening, a)
    ensures Sound(opening, ReceiveCommands(a).0)
    decreases |a.queue|
  {
    hide ReceiveBatch, WireAll, Woven, Requested, LargestCommand, BatchFinds;
    if Buffered(a) < WRITE_BUFFER_LIMIT && a.queue != [] {
      var n := BatchSize(a);
      BatchGrows(a.client, a.queue[..n], LargestCommand(a.client.prefix, a.queue[..n]));
      BatchSends(opening, a.client, a.done, a.found, a.queue[..n]);
      assert a.done + a.queue == a.done + a.queue[..n] + a.queue[n..];
      ReceiveKeepsSound(opening, TakeBatch(a));
    }
  }

  lemma ArriveKeepsSound(opening: seq<ClientOp>, a: Actor, t: Turn)
    requires Sound(opening, a)
    ensures Sound(opening, Arrive(a, t))
  {
    hide WireAll, Woven, Requested;
    assert a.done + a.queue + t.arrivals == a.done + (a.queue + t.arrivals);
  }

  /** After the last turn the writing flag says whether bytes wait, and an empty buffer means an empty channel. */
  predicate Settled(r: TurnResult) {
    && (r.actor.writing <==> Buffered(r.actor) > 0)
    && (Buffered(r.actor) == 0 ==>
      r.outcome.NoMoreCommands? && (r.actor.channelClosed ==> r.actor.shuttingDown))
  }

  /** After a turn that does not go round again, with the delay out of the way, a flag is up whenever bytes wait. */
  lemma WriteTurnSound(opening: seq<ClientOp>, a: Actor, t: Turn, outcome: ReceiveOutcome)
    requires Sound(opening, a) && t.canProceed && (Buffered(a) == 0 ==> outcome.NoMoreCommands?)
    requires outcome.NoMoreCommands? && a.channelClosed ==> a.shuttingDown
    ensures var r := WriteTurn(a, t, outcome);
      && Sound(opening, r.actor)
      && r.actor.queue == a.queue && r.actor.channelClosed == a.channelClosed && r.outcome == outcome
      && (!r.again && !r.failed ==> Settled(r))
  {
    hide WireAll, Woven, Requested;
  }

  lemma OneTurnSound(opening: seq<ClientOp>, a: Actor, t: Turn)
    requires Sound(opening, a) && t.canProceed
    ensures var r := OneTurn(a, t);
      && Sound(opening, r.actor) && (a.channelClosed ==> r.actor.channelClosed)
      && (r.outcome.NoMoreCommands? ==> r.actor.queue == [])
      && (!r.again && !r.failed ==> Settled(r))
  {
    hide Sound, ReceiveCommands, WriteTurn;
    ArriveKeepsSound(opening, a, t);
    ReceiveKeepsSound(opening, Arrive(a, t));
    var (r, outcome) := ReceiveCommands(Arrive(a, t));
    var w := r.(writing := r.writing || outcome.NoMoreSpace?);
    MoreWritingSound(opening, r, w);
    WriteTurnSound(opening, w, t, outcome);
  }

  lemma MoreWritingSound(opening: seq<ClientOp>, a: Actor, w: Actor)
    requires Sound(opening, a) && (w == a || w == a.(writing := true))
    ensures Sound(opening, w)
  {
  }

  lemma {:induction false} TurnsSound(opening: seq<ClientOp>, a: Actor, turns: seq<Turn>)
    requires Sound(opening, a) && forall i :: 0 <= i < |turns| ==> turns[i].canProceed
    ensures var r := Turns(a, turns);
      && Sound(opening, r.actor) && (a.channelClosed ==> r.actor.channelClosed)
      && (r.outcome.NoMoreCommands? ==> r.actor.queue == [])
      && (!r.failed ==> Settled(r))
    decreases |turns|
  {
    hide Sound, OneTurn, Settled;
    var t := if turns == [] then IDLE else turns[0];
    OneTurnSound(opening, a, t);
    if turns == [] {
      IdleStops(a);
    } else if OneTurn(a, t).again {
      TurnsSound(opening, OneTurn(a, t).actor, turns[1..]);
    }
  }

  lemma IdleStops(a: Actor)
    ensures !OneTurn(a, IDLE).again && !OneTurn(a, IDLE).failed
  {
    hide ReceiveCommands;
  }

  /** With no write delay configured the delay never holds a write back. */
  predicate NoWriteDelay(e: Environment) {
    forall i :: 0 <= i < |e.turns| ==> e.turns[i].canProceed
  }

  /**
   * The channel is closed, every command it accepted was taken, and what they ask for was encoded after the opening, once
   * each and in order, written and flushed.
   */
  predicate AllDelivered(opening: seq<ClientOp>, a: Actor) {
    && a.channelClosed && a.queue == [] && a.done == a.accepted
    && |a.found| == |a.accepted| && Woven(a.client.trace, opening + Requested(a.accepted, a.found))
    && a.written == Encoded(a) && a.flushed == a.written
  }

  lemma PollSound(opening: seq<ClientOp>, a: Actor, e: Environment)
    requires Sound(opening, a) && NoWriteDelay(e)
    ensures var r := Poll(a, e);
      (r.output.None? || r.output == Some(Closed) ==> Sound(opening, r.actor)) && (r.output == Some(Closed) ==> AllDelivered(opening, r.actor))
  {
    hide Sound, AllDelivered, Turns, HandleAll, Prepare, Finish, Settled;
    var h := ReadPart(opening, a, e);
    HandleAllStops(Prepare(a, e).client, e.incoming);
    TurnsSound(opening, h, e.turns);
    var r := Turns(h, e.turns);
    if !r.failed {
      FinishSound(opening, r, e.flush);
    }
  }

  /** The handler after reading. */
  lemma ReadPart(opening: seq<ClientOp>, a: Actor, e: Environment) returns (h: Actor)
    requires Sound(opening, a)
    ensures h == Prepare(a, e).(client := HandleAll(Prepare(a, e).client, e.incoming).0) && Sound(opening, h)
    ensures a.channelClosed || e.shutdownSignal ==> h.channelClosed
  {
    hide Unasked, HandleAll;
    PrepareKeepsSound(opening, a, e);
    var p := Prepare(a, e);
    if a.channelClosed || e.shutdownSignal {
      PrepareCloses(opening, a, e);
    }
    hide Sound, Prepare;
    HandleAllUnasked(p.client, e.incoming);
    UnaskedKeepsSound(opening, p, HandleAll(p.client, e.incoming).0);
    h := p.(client := HandleAll(p.client, e.incoming).0);
  }

  lemma PrepareCloses(opening: seq<ClientOp>, a: Actor, e: Environment)
    requires Sound(opening, a) && (a.channelClosed || e.shutdownSignal)
    ensures Prepare(a, e).channelClosed
  {
    hide FailedUnsubscribe, WireAll, Woven, Requested;
  }

  lemma FinishSound(opening: seq<ClientOp>, r: TurnResult, flush: FlushOutcome)
    requires Sound(opening, r.actor) && Settled(r) && (r.outcome.NoMoreCommands? ==> r.actor.queue == [])
    ensures var f := Finish(r.actor, r.outcome, flush);
      && (f.output.None? || f.output == Some(Closed) ==> Sound(opening, f.actor))
      && (f.output == Some(Closed) ==> AllDelivered(opening, f.actor))
      && (flush.FlushDone? && r.actor.channelClosed ==> (f.output == Some(Closed) <==> Buffered(f.actor) == 0))
  {
    hide WireAll, Woven, Requested;
    assert r.actor.queue == [] ==> r.actor.done + r.actor.queue == r.actor.done;
  }

  /**
   * A shutdown under way makes progress: in a poll that nothing stops and whose flush succeeds, the only reason not to
   * close is that the socket did not take every byte.
   */
  lemma ClosesOnceDrained(opening: seq<ClientOp>, a: Actor, e: Environment)
    requires Sound(opening, a) && NoWriteDelay(e) && (a.channelClosed || e.shutdownSignal)
    requires !e.tooManyPings && !e.readFailed && HandleAll(Prepare(a, e).client, e.incoming).1.None?
    requires e.flush.FlushDone?
    ensures var r := Poll(a, e);
      r.output == Some(Disconnected) || (r.output == Some(Closed) <==> Buffered(r.actor) == 0)
  {
    hide Sound, AllDelivered, Turns, HandleAll, Prepare, Finish, Settled;
    var h := ReadPart(opening, a, e);
    TurnsSound(opening, h, e.turns);
    var r := Turns(h, e.turns);
    if !r.failed {
      FinishSound(opening, r, e.flush);
    }
  }

  lemma {:induction false} HandleAllStops(c: Client, incoming: seq<Incoming>)
    ensures HandleAll(c, incoming).1 != Some(Closed)
    decreases |incoming|
  {
    if incoming != [] {
      HandleAllStops(HandleServerOp(c, incoming[0].op, incoming[0].send).client, incoming[1..]);
    }
  }

  /** A handler just made by `connect`, its channel still holding what the previous connection left. */
  function Connected(client: Client, queue: seq<Command>, channelClosed: bool): Actor {
    Actor(Reconnected(client), queue, channelClosed, queue, [], [], 0, 0, false, false, false)
  }

  /** Polls until one reports an output. */
  function PollAll(a: Actor, polls: seq<Environment>): PollResult
    decreases |polls|
  {
    if polls == [] then PollResult(a, None)
    else
      var r := Poll(a, polls[0]);
      if r.output.Some? then r else PollAll(r.actor, polls[1..])
  }

  lemma {:induction false} PollAllSound(opening: seq<ClientOp>, a: Actor, polls: seq<Environment>)
    requires Sound(opening, a) && forall i :: 0 <= i < |polls| ==> NoWriteDelay(polls[i])
    ensures PollAll(a, polls).output == Some(Closed) ==> AllDelivered(opening, PollAll(a, polls).actor)
    decreases |polls|
  {
    hide Poll, Sound, AllDelivered, NoWriteDelay;
    if polls != [] {
      PollSound(opening, a, polls[0]);
      if Poll(a, polls[0]).output.None? {
        PollAllSound(opening, Poll(a, polls[0]).actor, polls[1..]);
      }
    }
  }

  /**
   * Graceful shutdown. Without a write delay, whatever the server, the socket and the other tasks do during any number
   * of polls, the handler reports `Closed` only when the channel is closed and empty, every command accepted on the
   * connection was taken in arrival order, the PUB, SUB or UNSUB it asks for was encoded once and in that order after
   * the operations the connection opened with, with nothing between them but operations of the handler's own, and all
   * bytes are written and flushed.
   */
  lemma GracefulShutdown(client: Client, queue: seq<Command>, channelClosed: bool, polls: seq<Environment>)
    requires forall i :: 0 <= i < |polls| ==> NoWriteDelay(polls[i])
    ensures var r := PollAll(Connected(client, queue, channelClosed), polls);
      r.output == Some(Closed) ==> AllDelivered(Reconnected(client).trace, r.actor)
  {
    hide PollAll;
    ConnectedSound(client, queue, channelClosed);
    PollAllSound(Reconnected(client).trace, Connected(client, queue, channelClosed), polls);
  }

  lemma ConnectedSound(client: Client, queue: seq<Command>, channelClosed: bool)
    ensures Sound(Reconnected(client).trace, Connected(client, queue, channelClosed))
  {
    hide Woven, Reconnected;
    var t := Reconnected(client).trace;
    WovenItself(t);
    assert t + Requested([], []) == t && [] + queue == queue;
  }

  /** The operations that only commands and the opening of a connection send. */
  function Commanded(t: seq<ClientOp>): seq<ClientOp> {
    if t == [] then []
    else
      var last := t[|t| - 1];
      Commanded(t[..|t| - 1]) + if Own(last) then [] else [last]
  }

  /** So the PUBs, SUBs and UNSUBs with a limit on the wire are exactly those asked for: none lost, doubled or moved. */
  lemma {:induction false} WovenIsExact(t: seq<ClientOp>, asked: seq<ClientOp>)
    requires Woven(t, asked)
    ensures Commanded(t) == Commanded(asked)
    decreases |t|
  {
    if t != [] {
      var last, init := t[|t| - 1], t[..|t| - 1];
      if asked != [] && asked[|asked| - 1] == last && Woven(init, asked[..|asked| - 1]) {
        WovenIsExact(init, asked[..|asked| - 1]);
      } else {
        WovenIsExact(init, asked);
      }
    }
  }

  // ----- What the write delay and a flush under way have to do with each other -----

  /** The same turns, but for what the write delay answers. */
  predicate SameButDelay(turns: seq<Turn>, others: seq<Turn>) {
    && |turns| == |others|
    && forall i :: 0 <= i < |turns| ==> others[i] == turns[i].(canProceed := others[i].canProceed)
  }

  lemma TurnIgnoresDelay(a: Actor, t: Turn, canProceed: bool)
    requires a.writing || a.flushing
    ensures OneTurn(a, t) == OneTurn(a, t.(canProceed := canProceed))
  {
    hide ReceiveCommands;
    assert Arrive(a, t) == Arrive(a, t.(canProceed := canProceed));
  }

  lemma AgainMeansWriting(a: Actor, t: Turn)
    ensures OneTurn(a, t).again ==> OneTurn(a, t).actor.writing
  {
    hide ReceiveCommands;
  }

  lemma {:induction false} TurnsIgnoreDelay(a: Actor, turns: seq<Turn>, others: seq<Turn>)
    requires SameButDelay(turns, others)
    requires a.writing || a.flushing || turns == [] || turns[0].canProceed == others[0].canProceed
    ensures Turns(a, turns) == Turns(a, others)
    decreases |turns|
  {
    hide OneTurn;
    if turns != [] {
      assert others[0] == turns[0].(canProceed := others[0].canProceed);
      if turns[0] != others[0] {
        TurnIgnoresDelay(a, turns[0], others[0].canProceed);
      }
      AgainMeansWriting(a, turns[0]);
      if OneTurn(a, turns[0]).again {
        TurnsIgnoreDelay(OneTurn(a, turns[0]).actor, turns[1..], others[1..]);
      }
    }
  }

  /**
   * In a whole poll the write delay only matters to its first turn, and not even there when the handler was writing or
   * flushing: nothing else the delay answers changes the outcome.
   */
  lemma DelayOnlyHoldsBackIdle(a: Actor, e: Environment, others: seq<Turn>)
    requires SameButDelay(e.turns, others)
    requires a.writing || a.flushing || others == [] || e.turns[0].canProceed == others[0].canProceed
    ensures Poll(a, e) == Poll(a, e.(turns := others))
  {
    hide Turns, HandleAll, FailedUnsubscribe, Finish;
    var h := Prepare(a, e).(client := HandleAll(Prepare(a, e).client, e.incoming).0);
    TurnsIgnoreDelay(h, e.turns, others);
  }

  /** The socket itself, not the task budget, refuses a write. */
  predicate Blocked(t: Turn) {
    t.budget && t.write == WritePending(true)
  }

  lemma TurnKeepsFlushing(a: Actor, t: Turn)
    requires a.flushing && !Blocked(t)
    ensures OneTurn(a, t).actor.flushing && (OneTurn(a, t).again ==> t.write.Wrote?)
  {
    hide ReceiveCommands;
  }

  lemma {:induction false} TurnsKeepFlushing(a: Actor, turns: seq<Turn>)
    requires a.flushing && turns != [] && !turns[|turns| - 1].write.Wrote?
    requires forall i :: 0 <= i < |turns| ==> !Blocked(turns[i])
    ensures Turns(a, turns).actor.flushing
    decreases |turns|
  {
    hide OneTurn;
    TurnKeepsFlushing(a, turns[0]);
    if OneTurn(a, turns[0]).again {
      TurnsKeepFlushing(OneTurn(a, turns[0]).actor, turns[1..]);
    }
  }

  /** A flush under way is only given up when it is done, or when the socket refuses a write during the poll. */
  lemma FlushGivenUp(a: Actor, e: Environment)
    requires a.flushing && e.turns != [] && !e.turns[|e.turns| - 1].write.Wrote?
    ensures !Poll(a, e).actor.flushing ==> e.flush.FlushDone? || exists i :: 0 <= i < |e.turns| && Blocked(e.turns[i])
  {
    hide Turns, HandleAll, FailedUnsubscribe, Blocked;
    var h := Prepare(a, e).(client := HandleAll(Prepare(a, e).client, e.incoming).0);
    if forall i :: 0 <= i < |e.turns| ==> !Blocked(e.turns[i]) {
      TurnsKeepFlushing(h, e.turns);
    }
  }

  /** The socket takes something in every one of the turns. */
  predicate AllWrite(a: Actor, turns: seq<Turn>)
    decreases |turns|
  {
    turns == [] || (OneTurn(a, turns[0]).again && AllWrite(OneTurn(a, turns[0]).actor, turns[1..]))
  }

  /** The flags after the last turn `t` of a loop that wrote before, or not, given those it started with. */
  predicate FlagsAre(a: Actor, wrote: bool, t: Turn, r: TurnResult) {
    if Buffered(r.actor) == 0 then !r.actor.writing && r.actor.flushing == (a.flushing || a.writing || wrote)
    else
      && r.actor.writing == (a.writing || wrote || a.flushing || t.canProceed || r.outcome.NoMoreSpace?)
      && r.actor.flushing == (a.flushing && !(r.actor.writing && Blocked(t)))
  }

  lemma LastTurnFlags(a: Actor, t: Turn)
    requires t.write.WritePending?
    ensures FlagsAre(a, false, t, OneTurn(a, t)) && !OneTurn(a, t).again && !OneTurn(a, t).failed
  {
    hide ReceiveBatch, BatchFinds, WireAll;
    var (r, outcome) := ReceiveCommands(Arrive(a, t));
    ReceiveKeepsFlags(Arrive(a, t));
  }

  lemma {:induction false} ReceiveKeepsFlags(a: Actor)
    ensures var (r, outcome) := ReceiveCommands(a);
      && r.writing == a.writing && r.flushing == a.flushing
      && (outcome.NoMoreSpace? ==> Buffered(r) >= WRITE_BUFFER_LIMIT)
    decreases |a.queue|
  {
    hide ReceiveBatch, BatchFinds, Buffered;
    if Buffered(a) < WRITE_BUFFER_LIMIT && a.queue != [] {
      ReceiveKeepsFlags(TakeBatch(a));
    }
  }

  /**
   * The flags a loop leaves: with the buffer drained it no longer writes, and flushes exactly when it was flushing or
   * wrote something; with bytes left it writes exactly when something allowed it to, and a flush goes on exactly when
   * the socket itself did not refuse them.
   */
  lemma {:induction false} FlagsExactly(a: Actor, turns: seq<Turn>, t: Turn)
    requires AllWrite(a, turns) && t.write.WritePending?
    ensures FlagsAre(a, turns != [], t, Turns(a, turns + [t])) && !Turns(a, turns + [t]).failed
    decreases |turns|
  {
    hide OneTurn, FlagsAre;
    LastTurnFlags(a, t);
    if turns == [] {
      assert turns + [t] == [t];
    } else {
      var r := OneTurn(a, turns[0]);
      assert (turns + [t])[0] == turns[0] && (turns + [t])[1..] == turns[1..] + [t];
      FlagsExactly(r.actor, turns[1..], t);
      AgainMeansWriting(a, turns[0]);
      AgainKeepsFlags(a, turns[0], turns[1..] != [], t, Turns(r.actor, turns[1..] + [t]));
    }
  }

  lemma AgainKeepsFlags(a: Actor, u: Turn, wrote: bool, t: Turn, r: TurnResult)
    requires OneTurn(a, u).again && FlagsAre(OneTurn(a, u).actor, wrote, t, r)
    ensures FlagsAre(a, true, t, r)
  {
    hide ReceiveCommands, Buffered;
    ReceiveKeepsFlags(Arrive(a, u));
  }

  /** The bytes the socket takes in these turns. */
  function TakenBySocket(turns: seq<Turn>): nat {
    if turns == [] then 0 else (if turns[0].write.Wrote? then turns[0].write.n else 0) + TakenBySocket(turns[1..])
  }

  predicate SendersGone(turns: seq<Turn>) {
    exists i :: 0 <= i < |turns| && turns[i].sendersGone
  }

  lemma TurnChannel(a: Actor, t: Turn)
    ensures var r := OneTurn(a, t);
      && (r.actor.channelClosed <==> a.channelClosed || t.sendersGone)
      && (r.actor.shuttingDown <==> a.shuttingDown || (r.outcome.NoMoreCommands? && r.actor.channelClosed))
      && a.written <= r.actor.written <= a.written + (if t.write.Wrote? then t.write.n else 0)
      && r.actor.accepted == a.accepted + (if a.channelClosed then [] else t.arrivals)
  {
    hide Buffered;
    var (r, outcome) := ReceiveCommands(Arrive(a, t));
    hide ReceiveCommands;
    assert a.accepted + [] == a.accepted;
  }

  /**
   * The loop closes the channel exactly when every sender is gone in one of its turns, begins the shutdown when it then
   * finds the channel empty, and counts no byte as written that the socket did not take.
   */
  lemma {:induction false} ChannelExactly(a: Actor, turns: seq<Turn>, t: Turn)
    requires AllWrite(a, turns) && t.write.WritePending?
    ensures var r := Turns(a, turns + [t]);
      && (r.actor.channelClosed <==> a.channelClosed || SendersGone(turns + [t]))
      && (r.actor.channelClosed && r.outcome.NoMoreCommands? ==> r.actor.shuttingDown)
      && (r.actor.shuttingDown ==> a.shuttingDown || r.actor.channelClosed)
      && a.written <= r.actor.written <= a.written + TakenBySocket(turns)
    decreases |turns|
  {
    hide OneTurn;
    var all := turns + [t];
    TurnChannel(a, all[0]);
    LastTurnFlags(a, t);
    if turns == [] {
      assert all == [t];
    } else {
      var r := OneTurn(a, turns[0]);
      assert all[1..] == turns[1..] + [t];
      ChannelExactly(r.actor, turns[1..], t);
      GoneLater(all);
    }
  }

  lemma GoneLater(turns: seq<Turn>)
    requires turns != []
    ensures SendersGone(turns) <==> turns[0].sendersGone || SendersGone(turns[1..])
  {
    if SendersGone(turns[1..]) {
      var i :| 0 <= i < |turns[1..]| && turns[1..][i].sendersGone;
      assert turns[i + 1].sendersGone;
    }
    if SendersGone(turns) && !turns[0].sendersGone {
      var i :| 0 <= i < |turns| && turns[i].sendersGone;
      assert turns[1..][i - 1].sendersGone;
    }
  }

  /** One poll that sees the shutdown signal while the write delay is still running. */
  const DELAYED_SHUTDOWN: Environment :=
    Environment(false, false, None, true, [], false, [Turn([], false, false, true, WritePending(true))], FlushPending)

  /** With a write delay the promise fails: that poll closes over a publication of which no byte was written. */
  lemma WriteDelayLosesBytes(prefix: Bytes, m: Message)
    requires |Wire(Publish(m))| < WRITE_BUFFER_LIMIT
    ensures !NoWriteDelay(DELAYED_SHUTDOWN)
    ensures var a := Connected(Client([], map[], None, prefix, []), [DoPublish(m)], false);
      var r := PollAll(a, [DELAYED_SHUTDOWN]);
      r.output == Some(Closed) && r.actor.written == 0 < Encoded(r.actor)
  {
    hide Wire;
    WireShape(Publish(m));
    assert DELAYED_SHUTDOWN.turns[0] == Turn([], false, false, true, WritePending(true));
    var blank := Client([], map[], None, prefix, []);
    assert Reconnected(blank) == blank;
    var a := Connected(blank, [DoPublish(m)], false);
    var p := Prepare(a, DELAYED_SHUTDOWN);
    assert HandleAll(p.client, []) == (p.client, None);
    assert p.queue + [] == p.queue;
    DelayedReceive(p, m);
    assert Poll(a, DELAYED_SHUTDOWN).output == Some(Closed);
  }

  /** What the configured write delay lets the outside do: without one, no write is ever held back. */
  predicate Permitted(writeDelay: bool, polls: seq<Environment>) {
    writeDelay || forall i :: 0 <= i < |polls| ==> NoWriteDelay(polls[i])
  }

  /** In every run of every connection, a reported `Closed` comes after everything was delivered. */
  ghost predicate ClosesGracefully(writeDelay: bool) {
    forall client, queue, channelClosed, polls :: Permitted(writeDelay, polls) ==>
      var r := PollAll(Connected(client, queue, channelClosed), polls);
      r.output == Some(Closed) ==> AllDelivered(Reconnected(client).trace, r.actor)
  }

  /** The promise holds exactly for a client configured without a write delay. */
  lemma ClosesGracefullyIff(writeDelay: bool)
    ensures ClosesGracefully(writeDelay) <==> !writeDelay
  {
    hide PollAll, AllDelivered, NoWriteDelay;
    if writeDelay {
      var m := Message([], None, HeaderMaps.EMPTY, []);
      EmptyPublicationIsShort(m);
      WriteDelayLosesBytes([], m);
      var blank := Client([], map[], None, [], []);
      var a := Connected(blank, [DoPublish(m)], false);
      assert !AllDelivered(Reconnected(blank).trace, PollAll(a, [DELAYED_SHUTDOWN]).actor) by {
        NotWritten(Reconnected(blank).trace, PollAll(a, [DELAYED_SHUTDOWN]).actor);
      }
      assert Permitted(writeDelay, [DELAYED_SHUTDOWN]);
    } else {
      forall client, queue, channelClosed, polls | Permitted(writeDelay, polls)
        ensures var r := PollAll(Connected(client, queue, channelClosed), polls);
          r.output == Some(Closed) ==> AllDelivered(Reconnected(client).trace, r.actor)
      {
        GracefulShutdown(client, queue, channelClosed, polls);
      }
    }
  }

  lemma NotWritten(opening: seq<ClientOp>, a: Actor)
    requires a.written < Encoded(a)
    ensures !AllDelivered(opening, a)
  {
  }

  lemma EmptyPublicationIsShort(m: Message)
    requires m == Message([], None, HeaderMaps.EMPTY, [])
    ensures |Wire(Publish(m))| < WRITE_BUFFER_LIMIT
  {
    hide Wire;
    WireShape(Publish(m));
    assert |Uint.Print(0)| == 1;
  }

  lemma DelayedReceive(p: Actor, m: Message)
    requires p.queue == [DoPublish(m)] && p.client.trace == [] && p.written == 0 && |Wire(Publish(m))| < WRITE_BUFFER_LIMIT
    ensures var (r, outcome) := ReceiveCommands(p);
      outcome.NoMoreCommands? && Encoded(r) == |Wire(Publish(m))| && r.written == 0
  {
    hide Wire, WireAll;
    OneMore([], Publish(m));
    assert [] + [Publish(m)] == [Publish(m)];
    assert WireAll([]) == [] by { NothingEncoded(); }
    assert p.queue[..1] == [DoPublish(m)] && p.queue[1..] == [];
    assert [DoPublish(m)][1..] == [];
    assert ReceiveBatch(p.client, [DoPublish(m)]) == ReceiveCommand(p.client, DoPublish(m));
    var next := TakeBatch(p);
    assert ReceiveCommands(p) == ReceiveCommands(next);
  }

  lemma NothingEncoded()
    ensures WireAll([]) == []
  {
  }
}
