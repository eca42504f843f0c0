/** The streaming connection and the handler as objects updated in place, proved to be the state machines studied elsewhere. */
module Connections {
  import opened Wrappers
  import opened ByteStrings
  import opened ClientOps
  import opened Decoder
  import opened StreamEncoders
  import opened Handler
  import opened Polling
  import Fragmentation

  /** What the socket answers once the reads at hand are used up, and what a poll for the next operation reports. */
  datatype ReadEnd = StillOpen | EndOfFile | ReadError

  datatype ReadResult = Got(op: ServerOp) | NotReady | DecoderFailed(error: DecoderError) | IoFailed

  /** What one poll of the handler can read, and what the channels answer to the operations it holds. */
  datatype Reading = Reading(chunks: seq<Bytes>, atEnd: ReadEnd, sends: seq<SendOutcome>) {
    predicate Valid() {
      forall i :: 0 <= i < |chunks| ==> chunks[i] != []
    }
  }

  datatype WriteResult = WriteNotReady | Written(n: nat) | WriteError

  class StreamingConnection {
    const encoder: StreamEncoder
    const decoder: StreamDecoder
    var mayFlush: bool

    ghost predicate Valid()
      reads this, encoder, encoder.writeBuf, decoder
    {
      encoder.Valid() && decoder.Valid()
    }

    constructor (ext: External)
      ensures Valid() && fresh(encoder) && fresh(encoder.writeBuf) && fresh(decoder)
      ensures encoder.accepted == [] && encoder.drained == [] && decoder.ext == ext && !mayFlush
    {
      encoder := new StreamEncoder();
      decoder := new StreamDecoder(ext);
      mayFlush := false;
    }

    /** Decodes, and reads when there is nothing to decode: one event of the read session at a time. */
    method PollReadNext(chunks: seq<Bytes>, atEnd: ReadEnd) returns (r: ReadResult, left: seq<Bytes>)
      requires Valid() && forall i :: 0 <= i < |chunks| ==> chunks[i] != []
      modifies decoder
      ensures Valid() && exists k :: 0 <= k <= |chunks| && left == chunks[k..]
      ensures |left| <= |chunks|
      ensures r.Got? && |left| == |chunks| ==> |decoder.readBuf| < |old(decoder.readBuf)|
      ensures
        var session := Fragmentation.ReadSession(decoder.ext, old(decoder.status), old(decoder.readBuf), chunks);
        match r
        case Got(op) =>
          var rest := Fragmentation.ReadSession(decoder.ext, decoder.status, decoder.readBuf, left);
          session == rest.(events := [Fragmentation.Op(op)] + rest.events)
        case DecoderFailed(e) =>
          session == Fragmentation.Session([Fragmentation.Failed(e)], decoder.status, decoder.readBuf)
        case _ =>
          left == [] && session == Fragmentation.Session([], decoder.status, decoder.readBuf)
          && (r.NotReady? <==> atEnd.StillOpen?)
    {
      left := chunks;
      ghost var k := 0;
      while true
        invariant Valid() && 0 <= k <= |chunks| && left == chunks[k..]
        invariant Fragmentation.ReadSession(decoder.ext, decoder.status, decoder.readBuf, left)
               == Fragmentation.ReadSession(decoder.ext, old(decoder.status), old(decoder.readBuf), chunks)
        invariant k == 0 ==> decoder.readBuf == old(decoder.readBuf)
        decreases |left|
      {
        DecodeBounds(decoder.ext, decoder.status, decoder.readBuf);
        var decoded := decoder.DecodeNext();
        match decoded {
          case Ok(Some(op)) => return Got(op), left;
          case Err(e) => return DecoderFailed(e), left;
          case Ok(None) =>
        }
        if left == [] {
          return if atEnd.StillOpen? then NotReady else IoFailed, left;
        }
        decoder.Put(left[0]);
        left := left[1..];
        k := k + 1;
      }
    }

    function MayWrite(): (b: bool)
      requires Valid()
      reads this, encoder, encoder.writeBuf, decoder
      ensures b <==> encoder.Contents() != []
    {
      encoder.HasRemaining()
    }

    function MayEnqueueMoreOps(): (b: bool)
      requires Valid()
      reads this, encoder, encoder.writeBuf, decoder
      ensures b <==> |encoder.Contents()| < WRITE_BUFFER_LIMIT
    {
      encoder.Remaining() < WRITE_BUFFER_LIMIT
    }

    method EnqueueWriteOp(op: ClientOp)
      requires Valid()
      modifies encoder, encoder.writeBuf
      ensures Valid() && encoder.accepted == old(encoder.accepted) + [op] && encoder.drained == old(encoder.drained)
    {
      encoder.EnqueueWriteOp(op);
    }

    /** Offers the socket a slice, or several when the first is not everything, and drops what it took. */
    method PollWriteNext(outcome: WriteOutcome, vectored: bool) returns (r: WriteResult)
      requires Valid()
      modifies this, encoder, encoder.writeBuf
      ensures Valid() && encoder.accepted == old(encoder.accepted)
      ensures r.Written? ==>
        && r.n <= old(|encoder.Contents()|)
        && encoder.drained == old(encoder.drained) + old(encoder.Contents())[..r.n]
        && (old(encoder.Contents()) != [] ==> outcome.Wrote? && r.n <= outcome.n && mayFlush)
      ensures r.Written? && old(encoder.Contents()) != [] && outcome.n > 0 ==> r.n > 0
      ensures r.WriteNotReady? ==> outcome.WritePending? && encoder.drained == old(encoder.drained) && !mayFlush
      ensures r.WriteError? ==> outcome.WriteFailed? && encoder.drained == old(encoder.drained)
    {
      var remaining := encoder.Remaining();
      if remaining == 0 {
        return Written(0);
      }
      var chunk := encoder.Chunk();
      var offered := chunk;
      if |chunk| < remaining && vectored {
        var slices := encoder.ChunksVectored(64);
        offered := Flatten(slices);
        assert |slices| >= 2 && slices[0] != [];
      }
      match outcome {
        case WritePending(_) =>
          mayFlush := false;
          return WriteNotReady;
        case Wrote(n) =>
          var took := if n < |offered| then n else |offered|;
          encoder.Advance(took);
          mayFlush := true;
          return Written(took);
        case WriteFailed =>
          return WriteError;
      }
    }

    method PollFlush(outcome: FlushOutcome) returns (r: FlushOutcome)
      modifies this`mayFlush
      ensures r == outcome
      ensures mayFlush == (old(mayFlush) && !outcome.FlushDone?)
    {
      if outcome.FlushDone? {
        mayFlush := false;
      }
      return outcome;
    }
  }

  /** The handler over its connection. */
  class HandlerActor {
    const conn: StreamingConnection
    const prefix: Bytes
    var inFlight: seq<InFlight>
    var subscriptions: map<nat, Subscription>
    var multiplexed: Option<map<Bytes, nat>>
    var commands: seq<Command>
    var channelClosed: bool
    var writing: bool
    var flushing: bool
    var shuttingDown: bool
    /** History: commands that entered and left the channel, and how many bytes a flush covered. */
    ghost var accepted: seq<Command>
    ghost var done: seq<Command>
    ghost var found: seq<bool>
    ghost var flushed: nat

    ghost predicate Valid()
      reads this, conn, conn.encoder, conn.encoder.writeBuf, conn.decoder
    {
      conn.Valid()
    }

    ghost function Tables(): Client
      reads this, conn, conn.encoder
    {
      Client(inFlight, subscriptions, multiplexed, prefix, conn.encoder.accepted)
    }

    ghost function View(): Actor
      reads this, conn, conn.encoder
    {
      Actor(Tables(), commands, channelClosed, accepted, done, found, |conn.encoder.drained|, flushed,
            writing, flushing, shuttingDown)
    }

    /** The bytes in the encoder are the ones encoded and not yet written. */
    lemma BufferedIsRemaining()
      requires Valid()
      ensures Buffered(View()) == |conn.encoder.Contents()|
    {
      assert |conn.encoder.drained + conn.encoder.Contents()| == |conn.encoder.drained| + |conn.encoder.Contents()|;
    }

    /** The fields `connect` starts from: the surviving subscriptions and the channel, everything else blank. */
    constructor Blank(recycled: Client, queue: seq<Command>, channelClosed: bool, ext: External)
      ensures Valid() && fresh(conn) && fresh(conn.encoder) && fresh(conn.encoder.writeBuf) && fresh(conn.decoder)
      ensures View() == Actor(Client([], recycled.subs, None, recycled.prefix, []), queue, channelClosed, queue, [],
                              [], 0, 0, false, false, false)
    {
      conn := new StreamingConnection(ext);
      prefix := recycled.prefix;
      inFlight := [];
      subscriptions := recycled.subs;
      multiplexed := None;
      commands := queue;
      this.channelClosed := channelClosed;
      writing, flushing, shuttingDown := false, false, false;
      accepted, done, found, flushed := queue, [], [], 0;
    }

    /** `connect`: every surviving subscription is sent again, in the order of the tree. */
    static method Connect(recycled: Client, queue: seq<Command>, channelClosed: bool, ext: External)
      returns (h: HandlerActor)
      ensures fresh(h) && h.Valid() && fresh(h.conn) && fresh(h.conn.encoder) && fresh(h.conn.encoder.writeBuf)
      ensures fresh(h.conn.decoder) && h.View() == Connected(recycled, queue, channelClosed)
    {
      hide WireAll, Flatten, SortedIds, Resubscribe, Reconnected;
      h := new HandlerActor.Blank(recycled, queue, channelClosed, ext);
      ReconnectedIs(recycled);
      h.ResubscribeAll();
    }

    method ResubscribeAll()
      requires Valid()
      modifies this`inFlight, conn.encoder, conn.encoder.writeBuf
      ensures Valid() && Tables() == Resubscribe(old(Tables()), SortedIds(subscriptions.Keys))
      ensures conn.encoder.drained == old(conn.encoder.drained)
    {
      var ids := SortedIds(subscriptions.Keys);
      for i := 0 to |ids|
        invariant Valid() && conn.encoder.drained == old(conn.encoder.drained)
        invariant Resubscribe(Tables(), ids[i..]) == Resubscribe(old(Tables()), ids)
      {
        hide SortedIds, ResubscribeOps, ResubscribeKinds;
        assert ids[i] in ids;
        assert ids[i..][0] == ids[i] && ids[i..][1..] == ids[i + 1..];
        ResubscribeOne(ids[i]);
      }
      assert ids[|ids|..] == [];
    }

    method ResubscribeOne(id: nat)
      requires Valid() && id in subscriptions
      modifies this`inFlight, conn.encoder, conn.encoder.writeBuf
      ensures Valid() && conn.encoder.drained == old(conn.encoder.drained)
      ensures Tables() == old(Tables()).(
        inFlight := old(inFlight) + ResubscribeKinds(id, subscriptions[id]),
        trace := old(conn.encoder.accepted) + ResubscribeOps(id, subscriptions[id]))
    {
      var subscription := subscriptions[id];
      inFlight := inFlight + [AwaitsSubscribe(id)];
      conn.EnqueueWriteOp(ClientOps.Subscribe(id, subscription.subject, subscription.queueGroup));
      if subscription.remaining.Some? {
        inFlight := inFlight + [Unimportant];
        conn.EnqueueWriteOp(Unsubscribe(id, Some(subscription.remaining.value)));
      }
      assert conn.encoder.accepted == old(conn.encoder.accepted) + ResubscribeOps(id, subscription);
      assert inFlight == old(inFlight) + ResubscribeKinds(id, subscription);
    }

    method EnqueueControl(kind: InFlight, op: ClientOp)
      requires Valid()
      modifies this`inFlight, conn.encoder, conn.encoder.writeBuf
      ensures Valid() && Tables() == Control(old(Tables()), kind, op)
      ensures conn.encoder.drained == old(conn.encoder.drained)
    {
      inFlight := inFlight + [kind];
      conn.EnqueueWriteOp(op);
    }

    /** `handle_server_op`. */
    method HandleOne(op: ServerOp, send: SendOutcome) returns (stop: Option<Output>, effect: Effect)
      requires Valid()
      modifies this`inFlight, this`subscriptions, this`multiplexed, conn.encoder, conn.encoder.writeBuf
      ensures Valid() && Handled(Tables(), stop, effect) == HandleServerOp(old(Tables()), op, send)
      ensures conn.encoder.drained == old(conn.encoder.drained)
    {
      hide WireAll, Flatten;
      stop, effect := None, Nothing;
      match op {
        case Deliver(m) =>
          var id := m.subscriptionId;
          if id == MULTIPLEXED_SUBSCRIPTION_ID {
            if multiplexed.Some? && m.base.subject in multiplexed.value {
              effect := Resolved(multiplexed.value[m.base.subject], m.base.subject);
              multiplexed := Some(multiplexed.value - {m.base.subject});
            }
          } else if id in subscriptions {
            if send.ReceiverGone? {
              EnqueueControl(Unimportant, Unsubscribe(id, None));
              return;
            }
            effect := AcceptedFor(id);
            var subscription := subscriptions[id];
            if subscription.remaining.Some? {
              if subscription.remaining.value - 1 > 0 {
                subscriptions := subscriptions[id := subscription.(remaining := Some(subscription.remaining.value - 1))];
              } else {
                subscriptions := subscriptions - {id};
              }
            }
          }
        case Success =>
          if inFlight == [] {
            return Some(UnexpectedState), effect;
          }
          inFlight := inFlight[1..];
        case Error(e) =>
          if e.fatal != Some(false) {
            return Some(ServerErrorOutput), effect;
          }
          if inFlight == [] {
            return Some(UnexpectedState), effect;
          }
          var first := inFlight[0];
          inFlight := inFlight[1..];
          if first.AwaitsSubscribe? && first.id in subscriptions {
            var subscription := subscriptions[first.id];
            subscriptions := subscriptions - {first.id};
            if send.Full? {
              subscriptions := subscriptions[first.id := subscription.(failedSubscribe := true)];
              assert subscriptions == old(subscriptions)[first.id := subscription.(failedSubscribe := true)];
            }
          }
        case ServerPing =>
          conn.EnqueueWriteOp(Pong);
        case ServerPong =>
        case Info(_) =>
      }
    }

    /** One arm of the loop in `receive_command`. */
    method ReceiveOne(cmd: Command)
      requires Valid()
      modifies this`inFlight, this`subscriptions, this`multiplexed, conn.encoder, conn.encoder.writeBuf
      ensures Valid() && Tables() == ReceiveCommand(old(Tables()), cmd)
      ensures conn.encoder.drained == old(conn.encoder.drained)
    {
      hide WireAll, Flatten;
      match cmd {
        case DoPublish(message) =>
          EnqueueControl(Unimportant, Publish(message));
        case DoRequest(subject, replySubject, headers, payload, request) =>
          if multiplexed.None? {
            EnqueueControl(AwaitsSubscribe(MULTIPLEXED_SUBSCRIPTION_ID), MuxSubscribe(prefix));
            multiplexed := Some(map[]);
          }
          multiplexed := Some(multiplexed.value[replySubject := request]);
          EnqueueControl(Unimportant, Publish(Message(subject, Some(replySubject), headers, payload)));
        case DoCancelRequest(replySubject) =>
          if multiplexed.Some? {
            multiplexed := Some(multiplexed.value - {replySubject});
          }
        case DoSubscribe(id, subject, queueGroup) =>
          subscriptions := subscriptions[id := Subscription(subject, queueGroup, None, false)];
          EnqueueControl(AwaitsSubscribe(id), ClientOps.Subscribe(id, subject, queueGroup));
        case DoUnsubscribe(id, Some(max)) =>
          if id in subscriptions {
            subscriptions := subscriptions[id := subscriptions[id].(remaining := Some(max))];
            EnqueueControl(Unimportant, Unsubscribe(id, Some(max)));
          }
        case DoUnsubscribe(id, None) =>
          if id in subscriptions {
            subscriptions := subscriptions - {id};
            EnqueueControl(Unimportant, Unsubscribe(id, None));
          }
      }
    }

    /** The `for` over one batch. */
    method ReceiveAll(batch: seq<Command>)
      requires Valid()
      modifies this`inFlight, this`subscriptions, this`multiplexed, conn.encoder, conn.encoder.writeBuf
      ensures Valid() && Tables() == ReceiveBatch(old(Tables()), batch)
      ensures conn.encoder.drained == old(conn.encoder.drained)
    {
      for i := 0 to |batch|
        invariant Valid() && conn.encoder.drained == old(conn.encoder.drained)
        invariant ReceiveBatch(Tables(), batch[i..]) == ReceiveBatch(old(Tables()), batch)
      {
        assert batch[i..][0] == batch[i] && batch[i..][1..] == batch[i + 1..];
        ReceiveOne(batch[i]);
      }
      assert batch[|batch|..] == [];
    }

    /** `receive_command`. */
    method Receive() returns (outcome: ReceiveOutcome)
      requires Valid()
      modifies this, conn.encoder, conn.encoder.writeBuf
      ensures Valid() && (View(), outcome) == ReceiveCommands(old(View()))
    {
      hide WireAll, Flatten, TakeBatch, Buffered;
      BufferedIsRemaining();
      while conn.MayEnqueueMoreOps()
        invariant Valid() && Buffered(View()) == |conn.encoder.Contents()|
        invariant ReceiveCommands(View()) == ReceiveCommands(old(View()))
        decreases |commands|
      {
        if commands == [] {
          if channelClosed {
            shuttingDown := true;
          }
          return NoMoreCommands;
        }
        TakeOneBatch();
        BufferedIsRemaining();
      }
      return NoMoreSpace;
    }

    /** `poll_recv_many`, and the `for` over what it returned. */
    method TakeOneBatch()
      requires Valid() && commands != []
      modifies this, conn.encoder, conn.encoder.writeBuf
      ensures Valid() && View() == TakeBatch(old(View()))
      ensures |commands| < |old(commands)|
    {
      hide WireAll, Flatten, ReceiveBatch, BatchFinds;
      var n := if |commands| < RECV_BUF then |commands| else RECV_BUF;
      var batch := commands[..n];
      commands := commands[n..];
      done, found := done + batch, found + BatchFinds(Tables(), batch);
      ReceiveAll(batch);
    }

    method CloseSubscription(id: nat)
      requires Valid() && id in subscriptions
      modifies this`inFlight, this`subscriptions, conn.encoder, conn.encoder.writeBuf
      ensures Valid() && Tables() == CloseOne(old(Tables()), id)
      ensures conn.encoder.drained == old(conn.encoder.drained)
    {
      if !subscriptions[id].failedSubscribe {
        EnqueueControl(Unimportant, Unsubscribe(id, None));
      }
      subscriptions := subscriptions - {id};
    }

    /** `failed_unsubscribe`, given which receivers are gone. */
    method SweepFailed(gone: set<nat>, goneReplies: set<Bytes>)
      requires Valid()
      modifies this`inFlight, this`subscriptions, this`multiplexed, conn.encoder, conn.encoder.writeBuf
      ensures Valid() && Tables() == FailedUnsubscribe(old(Tables()), gone, goneReplies)
      ensures conn.encoder.drained == old(conn.encoder.drained)
    {
      if multiplexed.Some? {
        multiplexed := Some(multiplexed.value - goneReplies);
      }
      var ids := SortedIds(ClosedIds(subscriptions, gone));
      for i := 0 to |ids|
        invariant Valid() && conn.encoder.drained == old(conn.encoder.drained)
        invariant CloseAll(Tables(), ids[i..]) == FailedUnsubscribe(old(Tables()), gone, goneReplies)
      {
        hide FailedUnsubscribe, CloseOne, SortedIds;
        assert ids[i..][0] == ids[i] && ids[i..][1..] == ids[i + 1..];
        if ids[i] in subscriptions {
          CloseSubscription(ids[i]);
        }
      }
      assert ids[|ids|..] == [];
    }

    /** One turn of the loop in `poll`. `actual` is the turn with the number of bytes the socket really took. */
    method TurnOnce(t: Turn, vectored: bool)
      returns (again: bool, failed: bool, outcome: ReceiveOutcome, ghost actual: Turn)
      requires Valid()
      modifies this, conn, conn.encoder, conn.encoder.writeBuf
      ensures Valid() && flushed == old(flushed)
      ensures TurnResult(View(), again, failed, outcome) == OneTurn(old(View()), actual) && Narrows(t, actual)
    {
      hide WireAll, Flatten, ReceiveCommands, WriteTurn, OneTurn, Arrive, Narrows;
      ghost var start := View();
      AcceptArrivals(t);
      outcome := Receive();
      ghost var received := View();
      if outcome.NoMoreSpace? {
        writing := true;
      }
      assert View() == received.(writing := received.writing || outcome.NoMoreSpace?);
      again, failed, actual := WriteSome(t, vectored, outcome);
      TurnParts(start, t, actual, received, outcome);
    }

    /** Commands from other tasks enter the channel unless it is closed. */
    method AcceptArrivals(t: Turn)
      requires Valid()
      modifies this`commands, this`accepted, this`channelClosed
      ensures Valid() && View() == Arrive(old(View()), t)
    {
      if !channelClosed {
        commands := commands + t.arrivals;
        accepted := accepted + t.arrivals;
        channelClosed := t.sendersGone;
      }
    }

    /** The write itself. */
    method TryWrite(t: Turn, vectored: bool) returns (again: bool, failed: bool, ghost actual: Turn)
      requires Valid() && conn.encoder.Contents() != []
      modifies this`flushing, conn, conn.encoder, conn.encoder.writeBuf
      ensures Valid() && Narrows(t, actual)
      ensures again == actual.write.Wrote? && failed == actual.write.WriteFailed?
      ensures View() == match actual.write
        case WritePending(budgetLeft) => old(View()).(flushing := old(flushing) && !budgetLeft)
        case Wrote(n) => Polling.Write(old(View()), n)
        case WriteFailed => old(View())
    {
      hide Flatten, WireAll, Polling.Write, Encoded;
      again, failed, actual := false, false, t;
      BufferedIsRemaining();
      ghost var before, waiting, taken := View(), conn.encoder.Contents(), conn.encoder.drained;
      var result := conn.PollWriteNext(t.write, vectored);
      match result {
        case WriteNotReady =>
          if t.write.budgetLeft {
            flushing := false;
          }
        case Written(n) =>
          again := true;
          actual := t.(write := Wrote(n));
          assert |taken + waiting[..n]| == |taken| + n;
          WriteAdds(before, n);
        case WriteError =>
          failed := true;
      }
    }

    /** The writing half of a turn. */
    method WriteSome(t: Turn, vectored: bool, outcome: ReceiveOutcome)
      returns (again: bool, failed: bool, ghost actual: Turn)
      requires Valid()
      modifies this`writing, this`flushing, conn, conn.encoder, conn.encoder.writeBuf
      ensures Valid() && Narrows(t, actual)
      ensures TurnResult(View(), again, failed, outcome) == WriteTurn(old(View()), actual, outcome)
    {
      hide Buffered, WireAll, Flatten, Polling.Write;
      again, failed, actual := false, false, t;
      BufferedIsRemaining();
      if conn.MayWrite() {
        if !writing && (flushing || t.canProceed) {
          writing := true;
        }
        if writing && t.budget {
          again, failed, actual := TryWrite(t, vectored);
        }
      } else if writing {
        writing := false;
        flushing := true;
      }
    }

    /** The loop in `poll`: another turn after every successful write. */
    method DriveTurns(turns: seq<Turn>, vectored: bool)
      returns (failed: bool, outcome: ReceiveOutcome, ghost actual: seq<Turn>)
      requires Valid()
      modifies this, conn, conn.encoder, conn.encoder.writeBuf
      ensures Valid() && flushed == old(flushed)
      ensures Turns(old(View()), actual) == TurnResult(View(), false, failed, outcome)
      ensures NarrowsAll(turns, actual)
    {
      hide Driven, OneTurn, Turns, AllAgain, Narrows;
      var i, again := 0, true;
      failed, outcome, actual := false, NoMoreCommands, [];
      NotDrivenYet(View(), turns, failed, outcome);
      while again
        invariant Valid() && flushed == old(flushed)
        invariant 0 <= i <= |turns| + 1 && (i == |turns| + 1 ==> !again)
        invariant Driven(old(View()), turns, i, actual, TurnResult(View(), again, failed, outcome))
        decreases |turns| + 1 - i
      {
        ghost var before, earlier := View(), TurnResult(View(), again, failed, outcome);
        ghost var took;
        var t := if i < |turns| then turns[i] else IDLE;
        again, failed, outcome, took := TurnOnce(t, vectored);
        DrivenStep(old(View()), turns, i, actual, earlier, took);
        actual := Recorded(turns, i, actual, took, again);
        i := i + 1;
      }
      DrivenToTheEnd(old(View()), turns, i, actual, TurnResult(View(), again, failed, outcome));
    }

    /**
     * One poll of the handler is one poll of the state machine, for the operations its own decoder finds in what was read
     * and the number of bytes the socket really took.
     */
    method PollOnce(e: Environment, reading: Reading, vectored: bool)
      returns (output: Option<Output>, ghost actual: Environment)
      requires Valid() && reading.Valid()
      modifies this, conn, conn.encoder, conn.encoder.writeBuf, conn.decoder
      ensures Valid() && PollResult(View(), output) == Poll(old(View()), actual)
      ensures actual == e.(incoming := actual.incoming, readFailed := actual.readFailed, turns := actual.turns)
      ensures NarrowsAll(e.turns, actual.turns)
      ensures !e.tooManyPings ==>
        var session := Fragmentation.ReadSession(conn.decoder.ext, old(conn.decoder.status), old(conn.decoder.readBuf),
                                                 reading.chunks);
        && SeenIn(actual.incoming, reading.sends, session)
        && (HandleAll(Prepare(old(View()), e).client, actual.incoming).1.None? ==>
          SeenAll(actual.incoming, actual.readFailed, reading.atEnd, session, conn.decoder.status, conn.decoder.readBuf))
    {
      hide Poll, Turns, HandleAll, Prepare, Narrows, Finish, SeenIn, SeenAll, Fragmentation.ReadSession;
      ghost var start := View();
      actual := e;
      SameNarrow(e.turns);
      if e.tooManyPings {
        StoppedByPings(start, e);
        return Some(Disconnected), actual;
      }
      PreparePoll(e);
      ghost var prepared := View();
      var stop, failed;
      ghost var seen;
      stop, failed, seen := ReadIncoming(reading);
      ghost var handled := View();
      actual := e.(incoming := seen, readFailed := failed);
      PrepareIgnoresReading(start, e, actual);
      assert handled == prepared.(client := HandleAll(prepared.client, seen).0);
      if stop.Some? || failed {
        StoppedByReading(start, actual, stop);
        return if stop.Some? then stop else Some(Disconnected), actual;
      }
      var writeFailed, outcome;
      ghost var turns;
      writeFailed, outcome, turns := DriveTurns(e.turns, vectored);
      ghost var driven := View();
      RanTurns(start, actual, turns, driven, writeFailed, outcome);
      actual := actual.(turns := turns);
      if writeFailed {
        return Some(Disconnected), actual;
      }
      output := FlushAndDecide(outcome, e.flush);
    }

    /** After the loop: flush, then decide. */
    method FlushAndDecide(outcome: ReceiveOutcome, flush: FlushOutcome) returns (output: Option<Output>)
      requires Valid()
      modifies this`flushing, this`flushed, conn
      ensures Valid() && PollResult(View(), output) == Finish(old(View()), outcome, flush)
    {
      if flushing {
        var result := conn.PollFlush(flush);
        match result {
          case FlushPending =>
          case FlushDone =>
            flushing := false;
            flushed := |conn.encoder.drained|;
          case FlushFailed =>
            return Some(Disconnected);
        }
      }
      output := if shuttingDown && outcome.NoMoreCommands? && !writing && !flushing then Some(Closed) else None;
    }

    method PreparePoll(e: Environment)
      requires Valid()
      modifies this, conn.encoder, conn.encoder.writeBuf
      ensures Valid() && View() == Prepare(old(View()), e)
    {
      hide WireAll, Flatten, FailedUnsubscribe;
      if e.pingDue {
        conn.EnqueueWriteOp(Ping);
      }
      if !shuttingDown {
        if e.failedUnsubscribe.Some? {
          SweepFailed(e.failedUnsubscribe.value.0, e.failedUnsubscribe.value.1);
        }
        if e.shutdownSignal {
          shuttingDown := true;
          channelClosed := true;
        }
      }
    }

    /** The reading loop: operations are read, decoded and handled until nothing is left or one stops the handler. */
    method ReadIncoming(reading: Reading) returns (stop: Option<Output>, failed: bool, ghost seen: seq<Incoming>)
      requires Valid() && reading.Valid()
      modifies this`inFlight, this`subscriptions, this`multiplexed, conn.encoder, conn.encoder.writeBuf, conn.decoder
      ensures Valid() && (Tables(), stop) == HandleAll(old(Tables()), seen)
      ensures conn.encoder.drained == old(conn.encoder.drained)
      ensures
        var session := Fragmentation.ReadSession(conn.decoder.ext, old(conn.decoder.status), old(conn.decoder.readBuf),
                                                 reading.chunks);
        && SeenIn(seen, reading.sends, session)
        && (stop.None? ==>
          SeenAll(seen, failed, reading.atEnd, session, conn.decoder.status, conn.decoder.readBuf))
    {
      hide HandleAll, SeenIn, SeenAll, SoFar, Fragmentation.ReadSession;
      stop, failed, seen := None, false, [];
      var left, count := reading.chunks, 0;
      ghost var ext, start := conn.decoder.ext, Tables();
      ghost var session := Fragmentation.ReadSession(ext, conn.decoder.status, conn.decoder.readBuf, reading.chunks);
      NothingSeen(ext, start, conn.decoder.status, conn.decoder.readBuf, reading);
      while true
        invariant Valid() && conn.encoder.drained == old(conn.encoder.drained)
        invariant forall i :: 0 <= i < |left| ==> left[i] != []
        invariant count == |seen| && HandleAll(start, seen) == (Tables(), None)
        invariant SoFar(ext, session, seen, reading.sends, conn.decoder.status, conn.decoder.readBuf, left)
        decreases |left|, |conn.decoder.readBuf|
      {
        ghost var before, beforeLeft := Tables(), left;
        ghost var status, buf := conn.decoder.status, conn.decoder.readBuf;
        var r;
        r, left, stop := ReadOne(left, reading.atEnd, SendAt(reading.sends, count));
        match r {
          case Got(op) =>
            ghost var i := Incoming(op, SendAt(reading.sends, count));
            OneMoreSeen(start, seen, i, before);
            SoFarGot(ext, session, seen, reading.sends, status, buf, beforeLeft, i,
                     conn.decoder.status, conn.decoder.readBuf, left);
            seen := seen + [i];
            count := count + 1;
            if stop.Some? {
              SeenSoFar(ext, session, seen, reading.sends, conn.decoder.status, conn.decoder.readBuf, left);
              return;
            }
          case _ =>
            failed := !r.NotReady?;
            SoFarEnds(ext, session, seen, reading.sends, status, buf, beforeLeft, reading.atEnd, r,
                      conn.decoder.status, conn.decoder.readBuf, left);
            return;
        }
      }
    }

    /** Reads one operation, if there is one, and handles it. */
    method ReadOne(chunks: seq<Bytes>, atEnd: ReadEnd, send: SendOutcome)
      returns (r: ReadResult, left: seq<Bytes>, stop: Option<Output>)
      requires Valid() && forall i :: 0 <= i < |chunks| ==> chunks[i] != []
      modifies this`inFlight, this`subscriptions, this`multiplexed, conn.encoder, conn.encoder.writeBuf, conn.decoder
      ensures Valid() && conn.encoder.drained == old(conn.encoder.drained)
      ensures forall i :: 0 <= i < |left| ==> left[i] != []
      ensures |left| <= |chunks|
      ensures r.Got? && |left| == |chunks| ==> |conn.decoder.readBuf| < |old(conn.decoder.readBuf)|
      ensures
        if r.Got? then
          && Tables() == HandleServerOp(old(Tables()), r.op, send).client
          && stop == HandleServerOp(old(Tables()), r.op, send).stop
        else Tables() == old(Tables()) && stop.None?
      ensures Reads(conn.decoder.ext, old(conn.decoder.status), old(conn.decoder.readBuf), chunks, atEnd, r,
                    conn.decoder.status, conn.decoder.readBuf, left)
    {
      hide HandleServerOp, WireAll, Flatten, Fragmentation.ReadSession;
      stop := None;
      r, left := conn.PollReadNext(chunks, atEnd);
      if r.Got? {
        var effect;
        stop, effect := HandleOne(r.op, send);
      }
    }

    /**
     * A connection's life: `connect`, then polls until one reports an output. Without a write delay it reports `Closed`
     * only once everything accepted was delivered, and then every byte of it is on the socket.
     */
    static method RunToOutput(recycled: Client, queue: seq<Command>, channelClosed: bool, ext: External,
                              polls: seq<(Environment, Reading)>, vectored: bool)
      returns (h: HandlerActor, output: Option<Output>)
      requires forall i :: 0 <= i < |polls| ==> NoWriteDelay(polls[i].0) && polls[i].1.Valid()
      ensures fresh(h) && h.Valid()
      ensures output == Some(Closed) ==>
        && AllDelivered(Reconnected(recycled).trace, h.View())
        && h.conn.encoder.drained == WireAll(h.conn.encoder.accepted)
    {
      hide Sound, AllDelivered, Poll, NoWriteDelay, NarrowsAll, Reconnected, WireAll, Flatten;
      h := Connect(recycled, queue, channelClosed, ext);
      ConnectedSound(recycled, queue, channelClosed);
      output := None;
      for i := 0 to |polls|
        invariant fresh(h) && fresh(h.conn) && fresh(h.conn.encoder) && fresh(h.conn.encoder.writeBuf)
        invariant fresh(h.conn.decoder) && h.Valid()
        invariant output.None? && Sound(Reconnected(recycled).trace, h.View())
      {
        ghost var before := h.View();
        ghost var actual;
        output, actual := h.PollOnce(polls[i].0, polls[i].1, vectored);
        NarrowedNoDelay(polls[i].0, actual);
        PollSound(Reconnected(recycled).trace, before, actual);
        if output.Some? {
          if output == Some(Closed) {
            DeliveredIsWritten(Reconnected(recycled).trace, h.View());
            h.AllWritten();
          }
          return;
        }
      }
    }

    /** With no byte unwritten the encoder is empty, so all encodings are on the socket. */
    lemma AllWritten()
      requires Valid() && View().written == Encoded(View())
      ensures conn.encoder.drained == WireAll(conn.encoder.accepted)
    {
      hide WireAll, Flatten;
      assert |conn.encoder.drained + conn.encoder.Contents()| == |conn.encoder.drained| + |conn.encoder.Contents()|;
      assert conn.encoder.drained + [] == conn.encoder.drained;
    }
  }

  // ----- What one poll reads -----

  function SendAt(sends: seq<SendOutcome>, i: nat): SendOutcome {
    if i < |sends| then sends[i] else Sent
  }

  predicate Answered(seen: seq<Incoming>, sends: seq<SendOutcome>) {
    forall i :: 0 <= i < |seen| ==> seen[i].send == SendAt(sends, i)
  }

  function OpEvents(seen: seq<Incoming>): (events: seq<Fragmentation.Event>)
    ensures |events| == |seen|
    ensures forall i :: 0 <= i < |seen| ==> events[i] == Fragmentation.Op(seen[i].op)
  {
    seq(|seen|, i requires 0 <= i < |seen| => Fragmentation.Op(seen[i].op))
  }

  /** The operations handled are the first the session decodes, each with the answer of its channel. */
  predicate SeenIn(seen: seq<Incoming>, sends: seq<SendOutcome>, session: Fragmentation.Session) {
    OpEvents(seen) <= session.events && Answered(seen, sends)
  }

  /** All operations of the session, without the error that may end it. */
  function Operations(session: Fragmentation.Session): seq<Fragmentation.Event> {
    if Fragmentation.Failing(session) then session.events[..|session.events| - 1] else session.events
  }

  /** All of them were handled, the failure is the session's own or the socket's, and the decoder is where it ends. */
  predicate SeenAll(seen: seq<Incoming>, failed: bool, atEnd: ReadEnd, session: Fragmentation.Session,
                    status: Status, buf: Bytes) {
    && OpEvents(seen) == Operations(session)
    && (failed <==> Fragmentation.Failing(session) || !atEnd.StillOpen?)
    && status == session.status && buf == session.buf
  }

  /** What one read of the connection does to its session. */
  ghost predicate Reads(ext: External, status: Status, buf: Bytes, chunks: seq<Bytes>, atEnd: ReadEnd, r: ReadResult,
                        status': Status, buf': Bytes, left: seq<Bytes>)
  {
    && Bounded(status) && Bounded(status')
    && var session := Fragmentation.ReadSession(ext, status, buf, chunks);
      match r
      case Got(op) =>
        var rest := Fragmentation.ReadSession(ext, status', buf', left);
        session == rest.(events := [Fragmentation.Op(op)] + rest.events)
      case DecoderFailed(e) => session == Fragmentation.Session([Fragmentation.Failed(e)], status', buf')
      case _ =>
        left == [] && session == Fragmentation.Session([], status', buf') && (r.NotReady? <==> atEnd.StillOpen?)
  }

  /** After some operations the rest of the session is still ahead. */
  ghost predicate SoFar(ext: External, session: Fragmentation.Session, seen: seq<Incoming>, sends: seq<SendOutcome>,
                        status: Status, buf: Bytes, left: seq<Bytes>)
  {
    && Bounded(status) && SeenIn(seen, sends, session)
    && var rest := Fragmentation.ReadSession(ext, status, buf, left);
      session == rest.(events := OpEvents(seen) + rest.events)
  }

  lemma NothingSeen(ext: External, c: Client, status: Status, buf: Bytes, reading: Reading)
    requires Bounded(status)
    ensures var session := Fragmentation.ReadSession(ext, status, buf, reading.chunks);
      SoFar(ext, session, [], reading.sends, status, buf, reading.chunks)
    ensures HandleAll(c, []) == (c, None)
  {
    hide Fragmentation.ReadSession;
    var session := Fragmentation.ReadSession(ext, status, buf, reading.chunks);
    assert OpEvents([]) + session.events == session.events;
  }

  lemma SeenSoFar(ext: External, session: Fragmentation.Session, seen: seq<Incoming>, sends: seq<SendOutcome>,
                  status: Status, buf: Bytes, left: seq<Bytes>)
    requires SoFar(ext, session, seen, sends, status, buf, left)
    ensures SeenIn(seen, sends, session)
  {
  }

  lemma SoFarGot(ext: External, session: Fragmentation.Session, seen: seq<Incoming>, sends: seq<SendOutcome>,
                 status: Status, buf: Bytes, chunks: seq<Bytes>, i: Incoming,
                 status': Status, buf': Bytes, left: seq<Bytes>)
    requires SoFar(ext, session, seen, sends, status, buf, chunks) && i.send == SendAt(sends, |seen|)
    requires Reads(ext, status, buf, chunks, StillOpen, Got(i.op), status', buf', left)
    ensures SoFar(ext, session, seen + [i], sends, status', buf', left)
  {
    hide Fragmentation.ReadSession;
    EventsSnoc(seen, i, Fragmentation.ReadSession(ext, status', buf', left).events);
  }

  lemma SoFarEnds(ext: External, session: Fragmentation.Session, seen: seq<Incoming>, sends: seq<SendOutcome>,
                  status: Status, buf: Bytes, chunks: seq<Bytes>, atEnd: ReadEnd, r: ReadResult,
                  status': Status, buf': Bytes, left: seq<Bytes>)
    requires SoFar(ext, session, seen, sends, status, buf, chunks) && !r.Got?
    requires Reads(ext, status, buf, chunks, atEnd, r, status', buf', left)
    ensures SeenIn(seen, sends, session) && SeenAll(seen, !r.NotReady?, atEnd, session, status', buf')
  {
    hide Fragmentation.ReadSession;
    AllOperations(seen);
    if r.DecoderFailed? {
      LastIsFailure(OpEvents(seen), r.error);
    }
  }

  lemma {:induction false} HandleAllSnoc(c: Client, seen: seq<Incoming>, i: Incoming)
    requires HandleAll(c, seen).1.None?
    ensures var now := HandleAll(c, seen).0;
      HandleAll(c, seen + [i]) == (HandleServerOp(now, i.op, i.send).client, HandleServerOp(now, i.op, i.send).stop)
    decreases |seen|
  {
    hide HandleServerOp;
    if seen == [] {
      assert seen + [i] == [i] && [i][1..] == [];
    } else {
      assert (seen + [i])[1..] == seen[1..] + [i];
      HandleAllSnoc(HandleServerOp(c, seen[0].op, seen[0].send).client, seen[1..], i);
    }
  }

  lemma OneMoreSeen(c: Client, seen: seq<Incoming>, i: Incoming, now: Client)
    requires HandleAll(c, seen) == (now, None)
    ensures HandleAll(c, seen + [i]) == (HandleServerOp(now, i.op, i.send).client, HandleServerOp(now, i.op, i.send).stop)
  {
    hide HandleAll, HandleServerOp;
    HandleAllSnoc(c, seen, i);
  }

  lemma EventsSnoc(seen: seq<Incoming>, i: Incoming, later: seq<Fragmentation.Event>)
    ensures OpEvents(seen) <= OpEvents(seen + [i])
    ensures OpEvents(seen) + ([Fragmentation.Op(i.op)] + later) == OpEvents(seen + [i]) + later
  {
    assert OpEvents(seen + [i]) == OpEvents(seen) + [Fragmentation.Op(i.op)];
  }

  lemma LastIsFailure(events: seq<Fragmentation.Event>, e: DecoderError)
    ensures (events + [Fragmentation.Failed(e)])[..|events|] == events
  {
  }

  lemma AllOperations(seen: seq<Incoming>)
    ensures OpEvents(seen) + [] == OpEvents(seen)
    ensures seen != [] ==> OpEvents(seen)[|seen| - 1].Op?
  {
  }

  lemma DeliveredIsWritten(opening: seq<ClientOp>, a: Actor)
    requires AllDelivered(opening, a)
    ensures a.written == Encoded(a)
  {
  }

  lemma NarrowedNoDelay(e: Environment, actual: Environment)
    requires NoWriteDelay(e) && NarrowsAll(e.turns, actual.turns)
    ensures NoWriteDelay(actual)
  {
  }

  lemma WriteAdds(a: Actor, n: nat)
    requires n <= Buffered(a)
    ensures Polling.Write(a, n) == a.(written := a.written + n)
  {
  }

  lemma ReconnectedIs(c: Client)
    ensures Reconnected(c) == Resubscribe(Client([], c.subs, None, c.prefix, []), SortedIds(c.subs.Keys))
  {
  }

  // ----- The exits of a poll -----

  lemma StoppedByPings(a: Actor, e: Environment)
    requires e.tooManyPings
    ensures Poll(a, e) == PollResult(a, Some(Disconnected))
  {
  }

  lemma StoppedByReading(a: Actor, e: Environment, stop: Option<Output>)
    requires !e.tooManyPings
    requires HandleAll(Prepare(a, e).client, e.incoming).1 == stop && (stop.Some? || e.readFailed)
    ensures var h := Prepare(a, e).(client := HandleAll(Prepare(a, e).client, e.incoming).0);
      Poll(a, e) == PollResult(h, if stop.Some? then stop else Some(Disconnected))
  {
    hide HandleAll, Prepare, Turns;
  }

  lemma PrepareIgnoresReading(a: Actor, e: Environment, actual: Environment)
    requires actual == e.(incoming := actual.incoming, readFailed := actual.readFailed)
    ensures Prepare(a, actual) == Prepare(a, e)
  {
    hide FailedUnsubscribe;
  }

  lemma PrepareIgnoresTurns(a: Actor, e: Environment, actual: seq<Turn>)
    ensures Prepare(a, e.(turns := actual)) == Prepare(a, e)
  {
    hide FailedUnsubscribe;
  }

  lemma RanTurns(a: Actor, e: Environment, actual: seq<Turn>, driven: Actor, failed: bool, outcome: ReceiveOutcome)
    requires !e.tooManyPings && !e.readFailed && HandleAll(Prepare(a, e).client, e.incoming).1.None?
    requires var h := Prepare(a, e).(client := HandleAll(Prepare(a, e).client, e.incoming).0);
      Turns(h, actual) == TurnResult(driven, false, failed, outcome)
    ensures Poll(a, e.(turns := actual)) ==
      if failed then PollResult(driven, Some(Disconnected)) else Finish(driven, outcome, e.flush)
  {
    hide HandleAll, Prepare, Turns, Finish;
    PrepareIgnoresTurns(a, e, actual);
  }

  // ----- Turns, with the number of bytes really taken -----

  /** The same turn, the socket possibly taking fewer bytes than it was ready to. */
  predicate Narrows(t: Turn, actual: Turn) {
    actual == t.(write := actual.write)
    && (actual.write == t.write || (t.write.Wrote? && actual.write.Wrote? && actual.write.n <= t.write.n))
  }

  predicate NarrowsAll(turns: seq<Turn>, actual: seq<Turn>) {
    |turns| == |actual| && forall i :: 0 <= i < |turns| ==> Narrows(turns[i], actual[i])
  }

  lemma TurnParts(a: Actor, t: Turn, actual: Turn, received: Actor, outcome: ReceiveOutcome)
    requires (received, outcome) == ReceiveCommands(Arrive(a, t)) && Narrows(t, actual)
    ensures OneTurn(a, actual)
         == WriteTurn(received.(writing := received.writing || outcome.NoMoreSpace?), actual, outcome)
  {
    hide ReceiveCommands, WriteTurn;
    assert Arrive(a, actual) == Arrive(a, t);
  }

  lemma SameNarrow(turns: seq<Turn>)
    ensures NarrowsAll(turns, turns)
  {
  }

  lemma IdleNarrow(t: Turn)
    requires Narrows(IDLE, t)
    ensures t == IDLE
  {
  }

  /** `now` is reached from `a` by turns each of which went round again. */
  ghost predicate AllAgain(a: Actor, turns: seq<Turn>, now: Actor)
    decreases |turns|
  {
    if turns == [] then a == now
    else OneTurn(a, turns[0]).again && AllAgain(OneTurn(a, turns[0]).actor, turns[1..], now)
  }

  lemma {:induction false} TurnsAfter(a: Actor, done: seq<Turn>, now: Actor, rest: seq<Turn>)
    requires AllAgain(a, done, now)
    ensures Turns(a, done + rest) == Turns(now, rest)
    decreases |done|
  {
    hide OneTurn;
    if done == [] {
      assert done + rest == rest;
    } else {
      assert (done + rest)[1..] == done[1..] + rest;
      TurnsAfter(OneTurn(a, done[0]).actor, done[1..], now, rest);
    }
  }

  lemma {:induction false} LastTurn(a: Actor, done: seq<Turn>, now: Actor, t: Turn)
    requires AllAgain(a, done, now)
    ensures OneTurn(now, t).again ==> AllAgain(a, done + [t], OneTurn(now, t).actor)
    decreases |done|
  {
    hide OneTurn;
    if done == [] {
      assert done + [t] == [t] && [t][1..] == [];
    } else {
      assert (done + [t])[1..] == done[1..] + [t];
      LastTurn(OneTurn(a, done[0]).actor, done[1..], now, t);
    }
  }

  lemma LastTurnThen(a: Actor, done: seq<Turn>, now: Actor, t: Turn, rest: seq<Turn>)
    requires AllAgain(a, done, now) && !OneTurn(now, t).again
    ensures Turns(a, done + [t] + rest) == OneTurn(now, t)
  {
    hide OneTurn;
    assert done + [t] + rest == done + ([t] + rest);
    TurnsAfter(a, done, now, [t] + rest);
  }

  lemma LastTurnIdle(a: Actor, done: seq<Turn>, now: Actor)
    requires AllAgain(a, done, now) && !OneTurn(now, IDLE).again
    ensures Turns(a, done) == OneTurn(now, IDLE)
  {
    hide OneTurn;
    assert done + [] == done;
    TurnsAfter(a, done, now, []);
  }

  /** Where the loop stands after `i` turns, of which `actual` are on record. */
  ghost predicate Driven(a: Actor, turns: seq<Turn>, i: nat, actual: seq<Turn>, r: TurnResult) {
    if r.again then i <= |turns| && NarrowsAll(turns[..i], actual) && AllAgain(a, actual, r.actor)
    else NarrowsAll(turns, actual) && Turns(a, actual) == r
  }

  /** The record after one more turn; turns never reached stay as they were. */
  ghost function Recorded(turns: seq<Turn>, i: nat, actual: seq<Turn>, took: Turn, again: bool): seq<Turn> {
    if i >= |turns| then actual
    else if again then actual + [took]
    else actual + [took] + turns[i + 1..]
  }

  lemma NotDrivenYet(a: Actor, turns: seq<Turn>, failed: bool, outcome: ReceiveOutcome)
    ensures Driven(a, turns, 0, [], TurnResult(a, true, failed, outcome))
  {
  }

  lemma DrivenToTheEnd(a: Actor, turns: seq<Turn>, i: nat, actual: seq<Turn>, r: TurnResult)
    requires Driven(a, turns, i, actual, r) && !r.again
    ensures NarrowsAll(turns, actual) && Turns(a, actual) == r
  {
  }

  lemma DrivenStep(a: Actor, turns: seq<Turn>, i: nat, actual: seq<Turn>, r: TurnResult, took: Turn)
    requires Driven(a, turns, i, actual, r) && r.again
    requires Narrows(if i < |turns| then turns[i] else IDLE, took)
    ensures var next := OneTurn(r.actor, took);
      Driven(a, turns, i + 1, Recorded(turns, i, actual, took, next.again), next) && (i == |turns| ==> !next.again)
  {
    hide OneTurn, Turns, AllAgain, Narrows;
    var next := OneTurn(r.actor, took);
    if i == |turns| {
      IdleNarrow(took);
      IdleStops(r.actor);
      LastTurnIdle(a, actual, r.actor);
      assert turns[..i] == turns;
    } else {
      LastTurn(a, actual, r.actor, took);
      assert turns[..i + 1] == turns[..i] + [turns[i]];
      if !next.again {
        LastTurnThen(a, actual, r.actor, took, turns[i + 1..]);
        RecordedNarrows(turns, i, actual, took);
      }
    }
  }

  lemma RecordedNarrows(turns: seq<Turn>, i: nat, actual: seq<Turn>, took: Turn)
    requires i < |turns| && NarrowsAll(turns[..i], actual) && Narrows(turns[i], took)
    ensures NarrowsAll(turns, actual + [took] + turns[i + 1..])
  {
    var all := actual + [took] + turns[i + 1..];
    forall k | 0 <= k < |turns|
      ensures Narrows(turns[k], all[k])
    {
      assert k < i ==> turns[k] == turns[..i][k] && all[k] == actual[k];
      assert k == i ==> all[k] == took;
      assert k > i ==> all[k] == turns[k];
    }
  }
}
