/** Multiplexed requests: one wildcard subscription per connection, and each request resolved at most once, by its own reply. */
module Multiplexed {
  import opened Wrappers
  import opened ByteStrings
  import opened ClientOps
  import opened Decoder
  import opened Handler
  import opened ClientServer
  import opened Subscriptions
  import opened Limits
  import Subjects

  // ----- The wildcard subscription -----

  predicate IsMuxSub(op: ClientOp) {
    op.Subscribe? && op.id == MULTIPLEXED_SUBSCRIPTION_ID
  }

  predicate IsRequestPub(op: ClientOp) {
    op.Publish? && op.message.reply.Some?
  }

  /** Where the wildcard SUB is in the trace. */
  ghost predicate MuxSubAt(t: seq<ClientOp>, prefix: Bytes, i: nat) {
    i < |t| && t[i] == MuxSubscribe(prefix) && forall j :: 0 <= j < |t| && j != i ==> !IsMuxSub(t[j])
  }

  ghost predicate NoMuxSub(t: seq<ClientOp>) {
    forall j :: 0 <= j < |t| ==> !IsMuxSub(t[j])
  }

  /** The wildcard SUB is at `i` and nowhere else, and the PUBs of all requests come after it. */
  ghost predicate WildcardAt(s: System, i: nat) {
    && MuxSubAt(s.client.trace, s.client.prefix, i)
    && forall k :: k in s.requestAt ==> i < k < |s.client.trace| && IsRequestPub(s.client.trace[k])
  }

  /**
   * The reply map exists exactly when the wildcard SUB was sent on this connection; it is sent once, and before the
   * PUB of every request.
   */
  ghost predicate OneWildcard(s: System) {
    && (s.client.mux.None? ==> NoMuxSub(s.client.trace) && s.requestAt == {})
    && (s.client.mux.Some? ==> exists i :: WildcardAt(s, i))
  }

  lemma NoMuxSubAppend(t: seq<ClientOp>, ops: seq<ClientOp>)
    requires NoMuxSub(t) && NoMuxSub(ops)
    ensures NoMuxSub(t + ops)
  {
  }

  lemma MuxSubAtAppend(t: seq<ClientOp>, prefix: Bytes, i: nat, ops: seq<ClientOp>)
    requires MuxSubAt(t, prefix, i) && NoMuxSub(ops)
    ensures MuxSubAt(t + ops, prefix, i)
  {
    var t' := t + ops;
    forall j | 0 <= j < |t'| && j != i
      ensures !IsMuxSub(t'[j])
    {
      assert t'[j] == if j < |t| then t[j] else ops[j - |t|];
    }
  }

  /** Operations other than the wildcard SUB and request PUBs, with the reply map neither created nor dropped. */
  lemma OrdinaryKeepsOneWildcard(s: System, s': System, ops: seq<ClientOp>)
    requires OneWildcard(s) && NoMuxSub(ops)
    requires s'.client.trace == s.client.trace + ops && s'.requestAt == s.requestAt && s'.client.prefix == s.client.prefix
    requires s'.client.mux.Some? == s.client.mux.Some?
    ensures OneWildcard(s')
  {
    if s.client.mux.None? {
      NoMuxSubAppend(s.client.trace, ops);
    } else {
      var i :| WildcardAt(s, i);
      MuxSubAtAppend(s.client.trace, s.client.prefix, i, ops);
      assert WildcardAt(s', i);
    }
  }

  lemma RequestKeepsOneWildcard(s: System)
    requires OneWildcard(s) && s.queue != [] && s.queue[0].DoRequest?
    ensures OneWildcard(Receive(s))
  {
    var s', cmd, t := Receive(s), s.queue[0], s.client.trace;
    var pub := Publish(Message(cmd.subject, Some(cmd.replySubject), cmd.headers, cmd.payload));
    if s.client.mux.None? {
      var first := t + [MuxSubscribe(s.client.prefix)];
      assert MuxSubAt(first, s.client.prefix, |t|);
      MuxSubAtAppend(first, s.client.prefix, |t|, [pub]);
      assert s'.client.trace == first + [pub];
      assert s'.requestAt == {|t| + 1};
      assert WildcardAt(s', |t|);
    } else {
      var i :| WildcardAt(s, i);
      MuxSubAtAppend(t, s.client.prefix, i, [pub]);
      assert s'.client.trace == t + [pub];
      assert forall k :: k in s.requestAt ==> s'.client.trace[k] == t[k];
      assert WildcardAt(s', i);
    }
  }

  /** A step that appends only operations other than the wildcard SUB leaves this suffix. */
  function Added(c: Client, c': Client): seq<ClientOp>
    requires |c.trace| <= |c'.trace|
  {
    c'.trace[|c.trace|..]
  }

  lemma OneAdded(t: seq<ClientOp>, op: ClientOp)
    requires !IsMuxSub(op)
    ensures (t + [op])[|t|..] == [op] && NoMuxSub([op])
  {
  }

  predicate Appends(c: Client, c': Client) {
    |c.trace| <= |c'.trace| && c'.trace == c.trace + c'.trace[|c.trace|..]
  }

  lemma ReceiveAppends(c: Client, cmd: Command)
    requires !cmd.DoRequest? && (cmd.DoSubscribe? ==> cmd.id != MULTIPLEXED_SUBSCRIPTION_ID)
    ensures var c' := ReceiveCommand(c, cmd);
      Appends(c, c') && NoMuxSub(Added(c, c')) && c'.prefix == c.prefix && c'.mux.Some? == c.mux.Some?
  {
    var c' := ReceiveCommand(c, cmd);
    if |c'.trace| > |c.trace| {
      OneAdded(c.trace, c'.trace[|c.trace|]);
    }
  }

  lemma HandleAppends(c: Client, op: ServerOp, send: SendOutcome)
    ensures var c' := HandleServerOp(c, op, send).client;
      Appends(c, c') && NoMuxSub(Added(c, c')) && c'.prefix == c.prefix && c'.mux.Some? == c.mux.Some?
  {
    var c' := HandleServerOp(c, op, send).client;
    if |c'.trace| > |c.trace| {
      OneAdded(c.trace, c'.trace[|c.trace|]);
    }
  }

  lemma {:induction false} CloseAllAppends(c: Client, ids: seq<nat>)
    ensures var c' := CloseAll(c, ids);
      Appends(c, c') && NoMuxSub(Added(c, c')) && c'.prefix == c.prefix && c'.mux == c.mux
    decreases |ids|
  {
    if ids != [] {
      var next := if ids[0] in c.subs then CloseOne(c, ids[0]) else c;
      var c' := CloseAll(next, ids[1..]);
      CloseAllAppends(next, ids[1..]);
      assert Added(c, c') == Added(c, next) + Added(next, c');
      NoMuxSubAppend(Added(c, next), Added(next, c'));
    }
  }

  lemma {:induction false} ResubscribeAppends(c: Client, ids: seq<nat>)
    requires MULTIPLEXED_SUBSCRIPTION_ID !in c.subs && NoMuxSub(c.trace)
    ensures NoMuxSub(Resubscribe(c, ids).trace) && Resubscribe(c, ids).prefix == c.prefix
    decreases |ids|
  {
    if ids != [] {
      if ids[0] in c.subs {
        var sub := c.subs[ids[0]];
        NoMuxSubAppend(c.trace, ResubscribeOps(ids[0], sub));
        ResubscribeAppends(c.(inFlight := c.inFlight + ResubscribeKinds(ids[0], sub),
                              trace := c.trace + ResubscribeOps(ids[0], sub)), ids[1..]);
      } else {
        ResubscribeAppends(c, ids[1..]);
      }
    }
  }

  lemma ReceiveKeepsOneWildcard(s: System)
    requires FreshIds(s) && OneWildcard(s) && s.queue != []
    ensures OneWildcard(Receive(s)) && Receive(s).client.prefix == s.client.prefix
  {
    hide OneWildcard, NoMuxSub, ReceiveCommand;
    if s.queue[0].DoRequest? {
      RequestKeepsOneWildcard(s);
      PrefixKept(s.client, s.queue[0]);
    } else {
      ReceiveAppends(s.client, s.queue[0]);
      OrdinaryKeepsOneWildcard(s, Receive(s), Added(s.client, Receive(s).client));
    }
  }

  lemma HandleKeepsOneWildcard(s: System, send: SendOutcome)
    requires OneWildcard(s) && s.toClient != []
    ensures OneWildcard(Handle(s, send)) && Handle(s, send).client.prefix == s.client.prefix
  {
    hide OneWildcard, NoMuxSub, HandleServerOp;
    HandleAppends(s.client, s.toClient[0], send);
    OrdinaryKeepsOneWildcard(s, Handle(s, send), Added(s.client, Handle(s, send).client));
  }

  lemma MaintainKeepsOneWildcard(s: System, gone: set<nat>, goneReplies: set<Bytes>)
    requires OneWildcard(s) && s.stopped.None?
    ensures var s' := Next(s, Maintain(gone, goneReplies)); OneWildcard(s') && s'.client.prefix == s.client.prefix
  {
    hide OneWildcard, NoMuxSub, CloseAll;
    var s', c := Next(s, Maintain(gone, goneReplies)), s.client;
    var swept := if c.mux.Some? then c.(mux := Some(c.mux.value - goneReplies)) else c;
    CloseAllAppends(swept, SortedIds(ClosedIds(c.subs, gone)));
    OrdinaryKeepsOneWildcard(s, s', Added(c, s'.client));
  }

  lemma NextKeepsOneWildcard(s: System, a: Action)
    requires FreshIds(s) && OneWildcard(s)
    ensures OneWildcard(Next(s, a)) && Next(s, a).client.prefix == s.client.prefix
  {
    hide FreshIds, OneWildcard, NoMuxSub, Receive, Handle, FailedUnsubscribe, Reconnected, SendCommand;
    var s' := Next(s, a);
    NoneAdded(s);
    match a {
      case ClientReceives =>
        if s.stopped.None? && s.queue != [] {
          ReceiveKeepsOneWildcard(s);
        }
      case ClientHandles(send) =>
        if s.stopped.None? && s.toClient != [] {
          HandleKeepsOneWildcard(s, send);
        }
      case Maintain(gone, goneReplies) =>
        if s.stopped.None? {
          MaintainKeepsOneWildcard(s, gone, goneReplies);
        }
      case SendPing =>
        if s.stopped.None? {
          OneAdded(s.client.trace, Ping);
          OrdinaryKeepsOneWildcard(s, s', [Ping]);
        }
      case Reconnect =>
        ReconnectOneWildcard(s);
      case Send(cmd) =>
        if MaySend(s, cmd) {
          SendStep(s, cmd);
        }
        OrdinaryKeepsOneWildcard(s, s', []);
      case _ =>
        OrdinaryKeepsOneWildcard(s, s', []);
    }
  }

  lemma NoneAdded(s: System)
    ensures NoMuxSub([]) && s.client.trace + [] == s.client.trace
  {
  }

  lemma PrefixKept(c: Client, cmd: Command)
    ensures ReceiveCommand(c, cmd).prefix == c.prefix
  {
  }

  lemma ReconnectOneWildcard(s: System)
    requires FreshIds(s)
    ensures OneWildcard(Next(s, Reconnect)) && Next(s, Reconnect).client.prefix == s.client.prefix
  {
    var blank := Client([], s.client.subs, None, s.client.prefix, []);
    ResubscribeAppends(blank, SortedIds(s.client.subs.Keys));
    ReconnectSends(s.client, 0);
  }

  // ----- Requests -----

  /** The requests already resolved. */
  ghost predicate IsResolved(s: System, q: nat) {
    exists i :: 0 <= i < |s.resolved| && s.resolved[i].0 == q
  }

  /** Requests still in the command channel are new, each with its own fresh reply subject. */
  ghost predicate QueuedRequests(s: System) {
    && (forall i :: 0 <= i < |s.queue| && s.queue[i].DoRequest? ==>
      && s.queue[i].request in s.requests && s.requests[s.queue[i].request] == s.queue[i].replySubject
      && s.queue[i].request !in s.received)
    && (forall i, j :: 0 <= i < j < |s.queue| && s.queue[i].DoRequest? && s.queue[j].DoRequest? ==>
      s.queue[i].request != s.queue[j].request)
    && (forall q, r :: q in s.requests && r in s.requests && s.requests[q] == s.requests[r] ==> q == r)
    && s.received <= s.requests.Keys
  }

  /** The reply map holds exactly the live requests, each under its own reply subject and none of them resolved. */
  ghost predicate LiveRequests(s: System) {
    && s.live <= s.received
    && (forall q :: q in s.live && q in s.requests ==>
      s.client.mux.Some? && s.requests[q] in s.client.mux.value && s.client.mux.value[s.requests[q]] == q)
    && (s.client.mux.Some? ==> forall subject :: subject in s.client.mux.value ==>
      s.client.mux.value[subject] in s.live
      && s.client.mux.value[subject] in s.requests && s.requests[s.client.mux.value[subject]] == subject)
    && (forall q :: q in s.live ==> !IsResolved(s, q))
  }

  /** Each resolution is by the request's own reply subject, and no request is resolved twice. */
  ghost predicate Resolutions(s: System) {
    && (forall i :: 0 <= i < |s.resolved| ==>
      s.resolved[i].0 in s.received && s.resolved[i].0 in s.requests && s.requests[s.resolved[i].0] == s.resolved[i].1)
    && (forall i, j :: 0 <= i < j < |s.resolved| ==> s.resolved[i].0 != s.resolved[j].0)
  }

  ghost predicate Requests(s: System) {
    QueuedRequests(s) && LiveRequests(s) && Resolutions(s)
  }

  lemma SendKeepsRequests(s: System, cmd: Command)
    requires Requests(s) && MaySend(s, cmd)
    ensures Requests(SendCommand(s, cmd))
  {
    var s' := SendCommand(s, cmd);
    assert forall i :: 0 <= i < |s.queue| ==> s'.queue[i] == s.queue[i];
    assert forall q :: q in s.requests ==> s'.requests[q] == s.requests[q] && s.requests[q] in s.requests.Values;
    assert forall q :: IsResolved(s', q) <==> IsResolved(s, q);
  }

  lemma ReceiveKeepsQueued(s: System)
    requires QueuedRequests(s) && s.queue != []
    ensures QueuedRequests(Receive(s))
  {
    hide ReceiveCommand, Receive;
    ReceiveStep(s);
    var s' := Receive(s);
    assert forall i :: 0 <= i < |s'.queue| ==> s'.queue[i] == s.queue[i + 1];
  }

  lemma RequestKeepsLive(s: System)
    requires Requests(s) && s.queue != [] && s.queue[0].DoRequest?
    ensures LiveRequests(Receive(s)) && Resolutions(Receive(s))
  {
    var s', cmd := Receive(s), s.queue[0];
    assert forall q :: IsResolved(s', q) <==> IsResolved(s, q);
    assert s'.client.mux.value == WithMux(s.client).mux.value[cmd.replySubject := cmd.request];
    assert !IsResolved(s, cmd.request);
  }

  lemma OtherCommandsLeaveMux(c: Client, cmd: Command)
    requires !cmd.DoRequest? && !cmd.DoCancelRequest?
    ensures ReceiveCommand(c, cmd).mux == c.mux
  {
  }

  lemma OtherCommandsKeepLive(s: System)
    requires Requests(s) && s.queue != [] && !s.queue[0].DoRequest?
    ensures LiveRequests(Receive(s)) && Resolutions(Receive(s))
  {
    var s', cmd := Receive(s), s.queue[0];
    assert forall q :: IsResolved(s', q) <==> IsResolved(s, q);
    if cmd.DoCancelRequest? {
      hide IsResolved;
      assert forall q :: q in s'.live ==> q in s.live && s.requests[q] != cmd.replySubject;
    } else {
      hide IsResolved, Resolutions;
      OtherCommandsLeaveMux(s.client, cmd);
    }
  }

  lemma ResolveKeepsRequests(s: System, s': System, subject: Bytes)
    requires Requests(s) && s.client.mux.Some? && subject in s.client.mux.value
    requires s'.client.mux == Some(s.client.mux.value - {subject})
    requires s'.resolved == s.resolved + [(s.client.mux.value[subject], subject)]
    requires s'.live == s.live - {s.client.mux.value[subject]}
    requires s'.queue == s.queue && s'.requests == s.requests && s'.received == s.received
    ensures Requests(s')
  {
    var q := s.client.mux.value[subject];
    assert !IsResolved(s, q);
    forall r
      ensures IsResolved(s', r) <==> IsResolved(s, r) || r == q
    {
      assert s'.resolved[|s.resolved|].0 == q;
      assert forall i :: 0 <= i < |s.resolved| ==> s'.resolved[i] == s.resolved[i];
    }
    assert forall i :: 0 <= i < |s.resolved| ==> s.resolved[i].0 != q;
  }

  lemma SameRequests(s: System, s': System)
    requires Requests(s)
    requires s'.client.mux == s.client.mux && s'.resolved == s.resolved && s'.live == s.live
    requires s'.queue == s.queue && s'.requests == s.requests && s'.received == s.received
    ensures Requests(s')
  {
    assert forall q :: IsResolved(s', q) <==> IsResolved(s, q);
  }

  lemma HandleKeepsRequests(s: System, send: SendOutcome)
    requires Requests(s) && s.toClient != []
    ensures Requests(Handle(s, send))
  {
    hide Requests, Handle;
    HandleStep(s, send);
    var s', h := Handle(s, send), HandleServerOp(s.client, s.toClient[0], send);
    if h.effect.Resolved? {
      ResolveKeepsRequests(s, s', h.effect.replySubject);
    } else {
      assert h.client.mux == s.client.mux;
      SameRequests(s, s');
    }
  }

  lemma MaintainKeepsRequests(s: System, gone: set<nat>, goneReplies: set<Bytes>)
    requires Requests(s) && s.stopped.None?
    ensures Requests(Next(s, Maintain(gone, goneReplies)))
  {
    var s' := Next(s, Maintain(gone, goneReplies));
    hide CloseAll;
    var swept := if s.client.mux.Some? then s.client.(mux := Some(s.client.mux.value - goneReplies)) else s.client;
    CloseAllAppends(swept, SortedIds(ClosedIds(s.client.subs, gone)));
    assert s'.client.mux == swept.mux;
    assert forall q :: IsResolved(s', q) <==> IsResolved(s, q);
  }

  lemma ReconnectKeepsRequests(s: System)
    requires Requests(s)
    ensures Requests(Next(s, Reconnect))
  {
    hide Reconnected;
    ReconnectSends(s.client, 0);
    assert forall q :: IsResolved(Next(s, Reconnect), q) <==> IsResolved(s, q);
  }

  lemma ReceiveKeepsRequests(s: System)
    requires Requests(s) && s.queue != []
    ensures Requests(Receive(s))
  {
    hide Receive, QueuedRequests, LiveRequests, Resolutions;
    ReceiveKeepsQueued(s);
    if s.queue[0].DoRequest? {
      RequestKeepsLive(s);
    } else {
      OtherCommandsKeepLive(s);
    }
  }

  lemma OtherStepsKeepRequests(s: System, a: Action)
    requires Requests(s) && Quiet(a)
    ensures Requests(Next(s, a))
  {
    hide Requests, Next;
    QuietStep(s, a);
    SameRequests(s, Next(s, a));
  }

  lemma NextKeepsRequests(s: System, a: Action)
    requires Requests(s)
    ensures Requests(Next(s, a))
  {
    hide Requests, SendCommand, Receive, Handle, Take, FailedUnsubscribe, Reconnected;
    match a {
      case Send(cmd) =>
        if MaySend(s, cmd) {
          SendKeepsRequests(s, cmd);
        }
      case ClientReceives =>
        if s.stopped.None? && s.queue != [] {
          ReceiveKeepsRequests(s);
        }
      case ClientHandles(send) =>
        if s.stopped.None? && s.toClient != [] {
          HandleKeepsRequests(s, send);
        }
      case Maintain(gone, goneReplies) =>
        if s.stopped.None? {
          MaintainKeepsRequests(s, gone, goneReplies);
        }
      case Reconnect => ReconnectKeepsRequests(s);
      case _ => OtherStepsKeepRequests(s, a);
    }
  }

  lemma {:induction false} RunKeepsMultiplexed(s: System, actions: seq<Action>)
    requires FreshIds(s) && OneWildcard(s) && Requests(s)
    ensures var r := Run(s, actions); OneWildcard(r) && Requests(r) && r.client.prefix == s.client.prefix
    decreases |actions|
  {
    hide FreshIds, OneWildcard, Requests, Next;
    if actions != [] {
      NextKeepsFreshIds(s, actions[0]);
      NextKeepsOneWildcard(s, actions[0]);
      NextKeepsRequests(s, actions[0]);
      RunKeepsMultiplexed(Next(s, actions[0]), actions[1..]);
    }
  }

  /**
   * The operation subscribes to every reply subject generated under the prefix, without a queue group, and under a prefix
   * without wildcards to no subject but those with one more token.
   */
  ghost predicate CoversReplies(op: ClientOp, prefix: Bytes) {
    && op.Subscribe? && op.id == MULTIPLEXED_SUBSCRIPTION_ID && op.queueGroup.None?
    && (forall hex: Bytes :: Subjects.IsLowerHex(hex) ==> Covers(op.subject, Subjects.InboxSubject(prefix, hex)))
    && (Subjects.Literal(Subjects.SplitDots(prefix)) ==>
      forall subject: Bytes :: Covers(op.subject, subject) ==> OneMoreToken(prefix, subject))
  }

  predicate Covers(filter: Bytes, subject: Bytes) {
    Subjects.Matches(Subjects.SplitDots(filter), Subjects.SplitDots(subject))
  }

  predicate OneMoreToken(prefix: Bytes, subject: Bytes) {
    var p, t := Subjects.SplitDots(prefix), Subjects.SplitDots(subject);
    |t| == |p| + 1 && t[..|p|] == p
  }

  lemma MuxSubCovers(prefix: Bytes)
    ensures CoversReplies(MuxSubscribe(prefix), prefix)
  {
    hide Subjects.SplitDots, Subjects.Matches;
    forall hex: Bytes | Subjects.IsLowerHex(hex)
      ensures Covers(MuxSubscribe(prefix).subject, Subjects.InboxSubject(prefix, hex))
    {
      Subjects.ReplyMatchesFilter(prefix, hex);
    }
    if Subjects.Literal(Subjects.SplitDots(prefix)) {
      forall subject: Bytes | Covers(MuxSubscribe(prefix).subject, subject)
        ensures OneMoreToken(prefix, subject)
      {
        Subjects.SplitDotsOfJoin(prefix, [STAR]);
        Subjects.SplitDotsOne([STAR]);
        Subjects.FilterIsExact(Subjects.SplitDots(prefix), Subjects.SplitDots(subject));
      }
    }
  }

  /**
   * On every connection the wildcard SUB is sent at most once and before every request, exactly when the reply map exists,
   * and it covers the reply subjects of requests.
   */
  lemma WildcardSentOnce(prefix: Bytes, actions: seq<Action>)
    ensures var s := Run(Init(prefix), actions);
      && s.client.prefix == prefix
      && (s.client.mux.None? ==> NoMuxSub(s.client.trace) && s.requestAt == {})
      && (s.client.mux.Some? ==> exists i: nat :: WildcardAt(s, i) && CoversReplies(s.client.trace[i], prefix))
  {
    hide Run, CoversReplies;
    RunKeepsMultiplexed(Init(prefix), actions);
    MuxSubCovers(prefix);
  }

  /**
   * In every run each request is resolved at most once and only by a message on its own reply subject, and the reply
   * map holds exactly the requests received on this connection that are neither resolved nor given up.
   */
  lemma RequestsResolveOnce(prefix: Bytes, actions: seq<Action>)
    ensures var s := Run(Init(prefix), actions); Resolutions(s) && LiveRequests(s)
  {
    hide Run;
    RunKeepsMultiplexed(Init(prefix), actions);
  }
}
