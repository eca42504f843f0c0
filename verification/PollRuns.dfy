/** A poll of the handler is a run of the composed system: which of its actions a poll performs, and in which order. */
module PollRuns {
  import opened Wrappers
  import opened ByteStrings
  import opened ClientOps
  import opened Decoder
  import opened Handler
  import opened ClientServer
  import opened Subscriptions
  import opened Polling

  // ----- The actions of a poll -----

  function Handles(incoming: seq<Incoming>): (actions: seq<Action>)
    ensures |actions| == |incoming|
    ensures forall i :: 0 <= i < |incoming| ==> actions[i] == ClientHandles(incoming[i].send)
  {
    seq(|incoming|, i requires 0 <= i < |incoming| => ClientHandles(incoming[i].send))
  }

  function Receives(n: nat): (actions: seq<Action>)
    ensures |actions| == n
    ensures forall i :: 0 <= i < n ==> actions[i] == ClientReceives
  {
    seq(n, _ => ClientReceives)
  }

  function Operations(incoming: seq<Incoming>): (ops: seq<ServerOp>)
    ensures |ops| == |incoming|
    ensures forall i :: 0 <= i < |incoming| ==> ops[i] == incoming[i].op
  {
    seq(|incoming|, i requires 0 <= i < |incoming| => incoming[i].op)
  }

  /** The ping and the maintenance that are due. */
  function Upkeep(a: Actor, e: Environment): seq<Action> {
    (if e.pingDue then [SendPing] else [])
    + (if e.failedUnsubscribe.Some? && !a.shuttingDown then
         [Maintain(e.failedUnsubscribe.value.0, e.failedUnsubscribe.value.1)]
       else [])
  }

  /** The commands taken out of the channel between two states. */
  function Taken(a: Actor, r: Actor): seq<Command> {
    if |a.done| <= |r.done| then r.done[|a.done|..] else []
  }

  /** First the upkeep, then one action for each operation read, then one for each command taken. */
  function Actions(a: Actor, e: Environment): seq<Action> {
    if e.tooManyPings then []
    else Upkeep(a, e) + Handles(e.incoming) + Receives(|Taken(a, Poll(a, e).actor)|)
  }

  // ----- What the actions do -----

  lemma {:induction false} RunConcat(s: System, x: seq<Action>, y: seq<Action>)
    ensures Run(s, x + y) == Run(Run(s, x), y)
    decreases |x|
  {
    hide Next;
    if x == [] {
      assert x + y == y;
    } else {
      assert (x + y)[1..] == x[1..] + y;
      RunConcat(Next(s, x[0]), x[1..], y);
    }
  }

  lemma RunOne(s: System, a: Action)
    ensures Run(s, [a]) == Next(s, a)
  {
    hide Next;
    assert [a][1..] == [];
    assert Run(Next(s, a), []) == Next(s, a);
  }

  /** Only the client's tables change. */
  predicate SameOutside(s: System, s': System) {
    s'.queue == s.queue && s'.toClient == s.toClient && s'.stopped == s.stopped
  }

  lemma PingStep(s: System)
    requires s.stopped.None?
    ensures Next(s, SendPing).client == Enqueue(s.client, Ping) && SameOutside(s, Next(s, SendPing))
  {
  }

  lemma MaintainStep(s: System, gone: set<nat>, goneReplies: set<Bytes>)
    requires s.stopped.None?
    ensures Next(s, Maintain(gone, goneReplies)).client == FailedUnsubscribe(s.client, gone, goneReplies)
    ensures SameOutside(s, Next(s, Maintain(gone, goneReplies)))
  {
    hide FailedUnsubscribe;
  }

  lemma UpkeepRun(s: System, a: Actor, e: Environment)
    requires s.stopped.None? && s.client == a.client
    ensures var s' := Run(s, Upkeep(a, e)); s'.client == Prepare(a, e).client && SameOutside(s, s')
  {
    hide Next, FailedUnsubscribe;
    var ping := if e.pingDue then [SendPing] else [];
    var s1 := Run(s, ping);
    if e.pingDue {
      RunOne(s, SendPing);
      PingStep(s);
    }
    if e.failedUnsubscribe.Some? && !a.shuttingDown {
      var (gone, replies) := e.failedUnsubscribe.value;
      RunConcat(s, ping, [Maintain(gone, replies)]);
      RunOne(s1, Maintain(gone, replies));
      MaintainStep(s1, gone, replies);
    } else {
      assert ping + [] == ping;
    }
  }

  lemma {:induction false} StoppedHandles(s: System, incoming: seq<Incoming>)
    requires s.stopped.Some?
    ensures Run(s, Handles(incoming)) == s
    decreases |incoming|
  {
    if incoming != [] {
      assert Handles(incoming)[1..] == Handles(incoming[1..]);
      StoppedHandles(s, incoming[1..]);
    }
  }

  lemma HandlesNow(s: System, send: SendOutcome)
    requires s.stopped.None? && s.toClient != []
    ensures var s', h := Next(s, ClientHandles(send)), HandleServerOp(s.client, s.toClient[0], send);
      && s'.client == h.client && s'.stopped == h.stop && s'.toClient == s.toClient[1..] && s'.queue == s.queue
  {
    hide Handle, HandleServerOp;
    HandleStep(s, send);
  }

  lemma {:induction false} HandlesRun(s: System, incoming: seq<Incoming>)
    requires s.stopped.None? && Operations(incoming) <= s.toClient
    ensures var s' := Run(s, Handles(incoming));
      (s'.client, s'.stopped) == HandleAll(s.client, incoming) && s'.queue == s.queue
    decreases |incoming|
  {
    hide Next, HandleServerOp;
    if incoming != [] {
      var ops := Operations(incoming);
      assert ops[0] == s.toClient[0];
      assert Handles(incoming)[1..] == Handles(incoming[1..]) && ops[1..] == Operations(incoming[1..]);
      var s1 := Next(s, ClientHandles(incoming[0].send));
      HandlesNow(s, incoming[0].send);
      assert ops[1..] <= s.toClient[1..];
      if s1.stopped.Some? {
        StoppedHandles(s1, incoming[1..]);
      } else {
        HandlesRun(s1, incoming[1..]);
      }
    }
  }

  lemma ReceivesNow(s: System)
    requires s.stopped.None? && s.queue != []
    ensures var s' := Next(s, ClientReceives);
      s'.client == ReceiveCommand(s.client, s.queue[0]) && s'.queue == s.queue[1..] && s'.stopped.None?
  {
    hide Receive, ReceiveCommand;
    ReceiveStep(s);
  }

  lemma {:induction false} ReceivesRun(s: System, n: nat)
    requires s.stopped.None? && n <= |s.queue|
    ensures var s' := Run(s, Receives(n));
      s'.client == ReceiveBatch(s.client, s.queue[..n]) && s'.queue == s.queue[n..] && s'.stopped.None?
    decreases n
  {
    hide Next, ReceiveCommand;
    if n > 0 {
      assert Receives(n)[1..] == Receives(n - 1);
      ReceivesNow(s);
      ReceivesRun(Next(s, ClientReceives), n - 1);
      assert s.queue[..n][1..] == s.queue[1..][..n - 1];
    }
  }

  // ----- What a poll does to the tables -----

  lemma {:induction false} BatchConcat(c: Client, x: seq<Command>, y: seq<Command>)
    ensures ReceiveBatch(c, x + y) == ReceiveBatch(ReceiveBatch(c, x), y)
    decreases |x|
  {
    hide ReceiveCommand;
    if x == [] {
      assert x + y == y;
    } else {
      assert (x + y)[1..] == x[1..] + y;
      BatchConcat(ReceiveCommand(c, x[0]), x[1..], y);
    }
  }

  /** The tables change by exactly the commands taken. */
  predicate TookOnly(a: Actor, r: Actor) {
    a.done <= r.done && r.client == ReceiveBatch(a.client, Taken(a, r))
  }

  lemma TookTrans(a: Actor, b: Actor, c: Actor)
    requires TookOnly(a, b) && TookOnly(b, c)
    ensures TookOnly(a, c)
  {
    hide ReceiveBatch;
    BatchConcat(a.client, Taken(a, b), Taken(b, c));
    assert Taken(a, c) == Taken(a, b) + Taken(b, c);
  }

  lemma TookNothing(a: Actor, b: Actor)
    requires b.client == a.client && b.done == a.done
    ensures TookOnly(a, b)
  {
    assert Taken(a, b) == [];
  }

  lemma {:induction false} ReceiveTakes(a: Actor)
    ensures TookOnly(a, ReceiveCommands(a).0)
    decreases |a.queue|
  {
    hide ReceiveBatch, BatchFinds, Buffered, TookOnly;
    if Buffered(a) >= WRITE_BUFFER_LIMIT || a.queue == [] {
      TookNothing(a, ReceiveCommands(a).0);
    } else {
      BatchTaken(a);
      ReceiveTakes(TakeBatch(a));
      TookTrans(a, TakeBatch(a), ReceiveCommands(a).0);
    }
  }

  lemma BatchTaken(a: Actor)
    ensures TookOnly(a, TakeBatch(a))
  {
    hide ReceiveBatch, BatchFinds;
    assert Taken(a, TakeBatch(a)) == a.queue[..BatchSize(a)];
  }

  lemma WriteTurnTakesNothing(a: Actor, t: Turn, outcome: ReceiveOutcome)
    ensures var r := WriteTurn(a, t, outcome).actor; r.client == a.client && r.done == a.done
  {
    hide Buffered;
  }

  lemma OneTurnTakes(a: Actor, t: Turn)
    ensures TookOnly(a, OneTurn(a, t).actor)
  {
    hide ReceiveCommands, WriteTurn, TookOnly;
    var b := Arrive(a, t);
    var (r, outcome) := ReceiveCommands(b);
    var w := r.(writing := r.writing || outcome.NoMoreSpace?);
    TookNothing(a, b);
    ReceiveTakes(b);
    TookTrans(a, b, r);
    WriteTurnTakesNothing(w, t, outcome);
    TookNothing(r, WriteTurn(w, t, outcome).actor);
    TookTrans(a, r, WriteTurn(w, t, outcome).actor);
  }

  lemma {:induction false} TurnsTake(a: Actor, turns: seq<Turn>)
    ensures TookOnly(a, Turns(a, turns).actor)
    decreases |turns|
  {
    hide OneTurn, TookOnly;
    var t := if turns == [] then IDLE else turns[0];
    OneTurnTakes(a, t);
    if OneTurn(a, t).again && turns != [] {
      TurnsTake(OneTurn(a, t).actor, turns[1..]);
      TookTrans(a, OneTurn(a, t).actor, Turns(a, turns).actor);
    }
  }

  /** The tables after reading, and those a poll ends with. */
  lemma PollTables(a: Actor, e: Environment)
    requires !e.tooManyPings
    ensures var (c, stop) := HandleAll(Prepare(a, e).client, e.incoming);
      var r := Poll(a, e);
      && r.actor.client == ReceiveBatch(c, Taken(a, r.actor)) && a.done <= r.actor.done
      && (stop.Some? ==> Taken(a, r.actor) == [] && r.output == stop)
      && (stop.None? ==> r.output != Some(ServerErrorOutput) && r.output != Some(UnexpectedState))
  {
    hide HandleAll, Prepare, Turns, ReceiveBatch;
    var p := Prepare(a, e);
    PrepareTakesNothing(a, e);
    var (c, stop) := HandleAll(p.client, e.incoming);
    var h := p.(client := c);
    TurnsTake(h, e.turns);
    TookNothing(h, h);
  }

  lemma PrepareTakesNothing(a: Actor, e: Environment)
    ensures Prepare(a, e).done == a.done
  {
    hide FailedUnsubscribe;
  }

  /**
   * A poll is a run. For any state of the composed system whose client is the handler's and whose channels start with
   * what the poll reads and takes: the tables after the poll are those after its actions, namely a ping exactly when one
   * is due, maintenance exactly when it is asked for and no shutdown is under way, then one action for each operation
   * read and one for each command taken. The handler stops for a server's operation exactly when that run does.
   */
  lemma PollIsRun(s: System, a: Actor, e: Environment)
    requires s.client == a.client && s.stopped.None?
    requires Operations(e.incoming) <= s.toClient && Taken(a, Poll(a, e).actor) <= s.queue
    ensures var s', r := Run(s, Actions(a, e)), Poll(a, e);
      && s'.client == r.actor.client && r.actor.done == a.done + Taken(a, r.actor)
      && s'.queue == s.queue[|Taken(a, r.actor)|..]
      && (s'.stopped.Some? ==> r.output == s'.stopped)
      && (r.output == Some(ServerErrorOutput) || r.output == Some(UnexpectedState) ==> s'.stopped == r.output)
  {
    hide Poll, Prepare, HandleAll, ReceiveBatch, Upkeep, Handles, Next;
    if e.tooManyPings {
      TooManyPings(a, e);
    } else {
      var r, taken := Poll(a, e), Taken(a, Poll(a, e).actor);
      PollTables(a, e);
      UpkeepRun(s, a, e);
      var s1 := Run(s, Upkeep(a, e));
      HandlesRun(s1, e.incoming);
      var s2 := Run(s1, Handles(e.incoming));
      RunConcat(s, Upkeep(a, e), Handles(e.incoming));
      RunConcat(s, Upkeep(a, e) + Handles(e.incoming), Receives(|taken|));
      if s2.stopped.None? {
        ReceivesRun(s2, |taken|);
        assert s.queue[..|taken|] == taken;
      } else {
        NothingReceived(s2);
      }
    }
  }

  lemma NothingReceived(s: System)
    ensures Run(s, Receives(0)) == s && s.queue[0..] == s.queue
    ensures forall c: Client :: ReceiveBatch(c, []) == c
  {
  }

  lemma TooManyPings(a: Actor, e: Environment)
    requires e.tooManyPings
    ensures Poll(a, e) == PollResult(a, Some(Disconnected)) && Actions(a, e) == []
    ensures Taken(a, a) == []
  {
  }

  lemma {:induction false} ReachableRun(prefix: Bytes, s: System, actions: seq<Action>)
    requires Reachable(prefix, s)
    ensures Reachable(prefix, Run(s, actions))
    decreases |actions|
  {
    hide Next, Reachable;
    if actions != [] {
      ReachableNext(prefix, s, actions[0]);
      ReachableRun(prefix, Next(s, actions[0]), actions[1..]);
    }
  }

  /**
   * So whatever holds of every run holds of polls: from the tables of a reachable state a poll leads to those of another,
   * and never reports an unexpected state.
   */
  lemma PollStaysReachable(prefix: Bytes, s: System, a: Actor, e: Environment)
    requires Reachable(prefix, s) && s.client == a.client && s.stopped.None?
    requires Operations(e.incoming) <= s.toClient && Taken(a, Poll(a, e).actor) <= s.queue
    ensures Reachable(prefix, Run(s, Actions(a, e))) && Run(s, Actions(a, e)).client == Poll(a, e).actor.client
    ensures Poll(a, e).output != Some(UnexpectedState)
  {
    hide Poll, Next, Actions, Reachable;
    PollIsRun(s, a, e);
    ReachableRun(prefix, s, Actions(a, e));
    ReachableIsExpected(prefix, Run(s, Actions(a, e)));
  }

  lemma ReachableIsExpected(prefix: Bytes, s: System)
    requires Reachable(prefix, s)
    ensures s.stopped != Some(UnexpectedState)
  {
    hide Run;
    var actions :| Run(Init(prefix), actions) == s;
    StoppedExactly(prefix, actions);
  }

  // ----- When a poll reports a lost connection -----

  lemma {:induction false} FailedTurn(a: Actor, turns: seq<Turn>)
    ensures Turns(a, turns).failed ==> exists i :: 0 <= i < |turns| && turns[i].write.WriteFailed?
    decreases |turns|
  {
    hide OneTurn;
    var t := if turns == [] then IDLE else turns[0];
    OneTurnFails(a, t);
    if OneTurn(a, t).again && turns != [] {
      FailedTurn(OneTurn(a, t).actor, turns[1..]);
    }
  }

  lemma OneTurnFails(a: Actor, t: Turn)
    ensures OneTurn(a, t).failed ==> t.write.WriteFailed?
  {
    hide ReceiveCommands;
  }

  /** The first write fails, with bytes to write and nothing to hold it back. */
  predicate FailsAtOnce(a: Actor, turns: seq<Turn>) {
    && Polling.Valid(a) && Buffered(a) > 0 && (a.writing || a.flushing)
    && turns != [] && turns[0].write.WriteFailed? && turns[0].budget
  }

  lemma FirstWriteFails(a: Actor, turns: seq<Turn>)
    requires FailsAtOnce(a, turns)
    ensures Turns(a, turns).failed
  {
    hide ReceiveCommands, WireAll;
    var b := Arrive(a, turns[0]);
    assert a.done + a.queue + turns[0].arrivals == a.done + (a.queue + turns[0].arrivals);
    SoftLimit(b, LargestCommand(b.client.prefix, b.queue));
  }

  /**
   * A poll reports a lost connection for too many pings unanswered, and for a failed read unless the server's operations
   * stopped it first; it never does without a failure. A write that fails at once is reported when bytes wait and the
   * handler is writing or flushing, and a failed flush is only passed over when none was under way.
   */
  lemma DisconnectedOnFailure(a: Actor, e: Environment)
    ensures var (c, stop) := HandleAll(Prepare(a, e).client, e.incoming);
      var r, h := Poll(a, e), Prepare(a, e).(client := c);
      && (e.tooManyPings ==> r.output == Some(Disconnected))
      && (stop.None? && e.readFailed ==> r.output == Some(Disconnected))
      && (r.output == Some(Disconnected) ==>
        e.tooManyPings || e.readFailed || (e.flush.FlushFailed? && r.actor.flushing)
        || exists i :: 0 <= i < |e.turns| && e.turns[i].write.WriteFailed?)
      && (stop.None? && FailsAtOnce(h, e.turns) ==> r.output == Some(Disconnected))
      && (e.flush.FlushFailed? && stop.None? && r.output != Some(Disconnected) ==> !r.actor.flushing)
  {
    hide HandleAll, Prepare, Turns;
    var h := Prepare(a, e).(client := HandleAll(Prepare(a, e).client, e.incoming).0);
    FailedTurn(h, e.turns);
    if FailsAtOnce(h, e.turns) {
      FirstWriteFails(h, e.turns);
    }
    NeverDisconnects(Prepare(a, e).client, e.incoming);
  }

  lemma {:induction false} NeverDisconnects(c: Client, incoming: seq<Incoming>)
    ensures HandleAll(c, incoming).1 != Some(Disconnected)
    decreases |incoming|
  {
    hide HandleServerOp;
    if incoming != [] {
      OnlyTwoStops(c, incoming[0].op, incoming[0].send);
      NeverDisconnects(HandleServerOp(c, incoming[0].op, incoming[0].send).client, incoming[1..]);
    }
  }

  lemma OnlyTwoStops(c: Client, op: ServerOp, send: SendOutcome)
    ensures HandleServerOp(c, op, send).stop in {None, Some(ServerErrorOutput), Some(UnexpectedState)}
  {
  }
}
