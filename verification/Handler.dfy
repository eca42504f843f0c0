/** The connection actor's state and what each event does to it. */
module Handler {
  import opened Wrappers
  import opened ByteStrings
  import opened HeaderMaps
  import opened ClientOps
  import Decoder
  import Subjects

  const MULTIPLEXED_SUBSCRIPTION_ID: nat := 1

  type Positive = n: nat | n >= 1 witness 1

  datatype Subscription = Subscription(
    subject: Bytes, queueGroup: Option<Bytes>, remaining: Option<Positive>, failedSubscribe: bool)

  datatype InFlight = Unimportant | AwaitsSubscribe(id: nat)

  /** A multiplexed request carries the identity of its reply channel. */
  datatype Command =
    | DoPublish(message: Message)
    | DoRequest(subject: Bytes, replySubject: Bytes, headers: Headers, payload: Bytes, request: nat)
    | DoCancelRequest(replySubject: Bytes)
    | DoSubscribe(id: nat, subject: Bytes, queueGroup: Option<Bytes>)
    | DoUnsubscribe(id: nat, maxMessages: Option<Positive>)

  datatype Output = ServerErrorOutput | UnexpectedState | Disconnected | Closed

  /** What the bounded channel of a subscription answers to `try_send`. */
  datatype SendOutcome = Sent | Full | ReceiverGone

  /**
   * The handler's tables, with the operations enqueued on the current connection. The reply map sends each reply
   * subject to the request waiting on it.
   */
  datatype Client = Client(
    inFlight: seq<InFlight>,
    subs: map<nat, Subscription>,
    mux: Option<map<Bytes, nat>>,
    prefix: Bytes,
    trace: seq<ClientOp>)

  /** What an event did outside the tables. */
  datatype Effect = Nothing | AcceptedFor(id: nat) | Resolved(request: nat, replySubject: Bytes)

  datatype Handled = Handled(client: Client, stop: Option<Output>, effect: Effect)

  function Enqueue(c: Client, op: ClientOp): Client {
    c.(trace := c.trace + [op])
  }

  /** An operation the server acknowledges, with the entry that will receive the acknowledgement. */
  function Control(c: Client, kind: InFlight, op: ClientOp): Client {
    c.(inFlight := c.inFlight + [kind], trace := c.trace + [op])
  }

  function MuxSubscribe(prefix: Bytes): ClientOp {
    ClientOps.Subscribe(MULTIPLEXED_SUBSCRIPTION_ID, Subjects.MultiplexFilter(prefix), None)
  }

  // ----- Operations from the server -----

  function HandleMultiplexed(c: Client, replySubject: Bytes): Handled {
    if c.mux.None? then Handled(c, None, Nothing)
    else if replySubject in c.mux.value then
      Handled(c.(mux := Some(c.mux.value - {replySubject})), None, Resolved(c.mux.value[replySubject], replySubject))
    else Handled(c, None, Nothing)
  }

  /** One message less before the subscription ends by itself. */
  function CountDown(subs: map<nat, Subscription>, id: nat): map<nat, Subscription>
    requires id in subs
  {
    match subs[id].remaining
    case None => subs
    case Some(n) => if n == 1 then subs - {id} else subs[id := subs[id].(remaining := Some(n - 1))]
  }

  function HandleMessage(c: Client, id: nat, send: SendOutcome): Handled {
    if id !in c.subs then Handled(c, None, Nothing)
    else if send.ReceiverGone? then Handled(Control(c, Unimportant, Unsubscribe(id, None)), None, Nothing)
    else Handled(c.(subs := CountDown(c.subs, id)), None, AcceptedFor(id))
  }

  function HandleRejection(c: Client, send: SendOutcome): Handled {
    if c.inFlight == [] then Handled(c, Some(UnexpectedState), Nothing)
    else
      var popped := c.(inFlight := c.inFlight[1..]);
      match c.inFlight[0]
      case Unimportant => Handled(popped, None, Nothing)
      case AwaitsSubscribe(id) =>
        if id !in c.subs then Handled(popped, None, Nothing)
        else if send.Full? then
          Handled(popped.(subs := c.subs[id := c.subs[id].(failedSubscribe := true)]), None, Nothing)
        else Handled(popped.(subs := c.subs - {id}), None, Nothing)
  }

  /** `handle_server_op`. */
  function HandleServerOp(c: Client, op: Decoder.ServerOp, send: SendOutcome): Handled {
    match op
    case Deliver(m) =>
      if m.subscriptionId == MULTIPLEXED_SUBSCRIPTION_ID then HandleMultiplexed(c, m.base.subject)
      else HandleMessage(c, m.subscriptionId, send)
    case Success =>
      if c.inFlight == [] then Handled(c, Some(UnexpectedState), Nothing)
      else Handled(c.(inFlight := c.inFlight[1..]), None, Nothing)
    case Error(e) =>
      if e.fatal == Some(false) then HandleRejection(c, send) else Handled(c, Some(ServerErrorOutput), Nothing)
    case ServerPing => Handled(Enqueue(c, Pong), None, Nothing)
    case ServerPong => Handled(c, None, Nothing)
    case Info(_) => Handled(c, None, Nothing)
  }

  // ----- Commands -----

  /** `init_multiplexed_subscriptions`, when the reply map does not exist yet. */
  function WithMux(c: Client): (r: Client)
    ensures r.mux.Some?
  {
    if c.mux.Some? then c
    else Control(c, AwaitsSubscribe(MULTIPLEXED_SUBSCRIPTION_ID), MuxSubscribe(c.prefix)).(mux := Some(map[]))
  }

  /** One arm of `receive_command`. */
  function ReceiveCommand(c: Client, cmd: Command): Client {
    match cmd
    case DoPublish(message) => Control(c, Unimportant, Publish(message))
    case DoRequest(subject, replySubject, headers, payload, request) =>
      var m := WithMux(c);
      Control(m.(mux := Some(m.mux.value[replySubject := request])), Unimportant,
              Publish(Message(subject, Some(replySubject), headers, payload)))
    case DoCancelRequest(replySubject) =>
      if c.mux.Some? then c.(mux := Some(c.mux.value - {replySubject})) else c
    case DoSubscribe(id, subject, queueGroup) =>
      Control(c.(subs := c.subs[id := Subscription(subject, queueGroup, None, false)]), AwaitsSubscribe(id),
              ClientOps.Subscribe(id, subject, queueGroup))
    case DoUnsubscribe(id, Some(max)) =>
      if id !in c.subs then c
      else
        Control(c.(subs := c.subs[id := c.subs[id].(remaining := Some(max))]), Unimportant, Unsubscribe(id, Some(max)))
    case DoUnsubscribe(id, None) =>
      if id !in c.subs then c else Control(c.(subs := c.subs - {id}), Unimportant, Unsubscribe(id, None))
  }

  // ----- Walking the tree of subscriptions in key order -----

  lemma {:induction false} LeastOf(ids: set<nat>) returns (m: nat)
    requires ids != {}
    ensures m in ids && forall i :: i in ids ==> m <= i
  {
    var x :| x in ids;
    var rest := ids - {x};
    assert forall i :: i in ids ==> i == x || i in rest;
    m := x;
    if rest != {} {
      var k := LeastOf(rest);
      m := if k < x then k else x;
    }
  }

  lemma LeastExists(ids: set<nat>)
    requires ids != {}
    ensures exists m :: m in ids && forall i :: i in ids ==> m <= i
  {
    var m := LeastOf(ids);
  }

  function Least(ids: set<nat>): (m: nat)
    requires ids != {}
    ensures m in ids && forall i :: i in ids ==> m <= i
  {
    LeastExists(ids);
    var m :| m in ids && forall i :: i in ids ==> m <= i;
    m
  }

  function SortedIds(ids: set<nat>): (s: seq<nat>)
    ensures forall id :: id in s <==> id in ids
    ensures forall i, j :: 0 <= i < j < |s| ==> s[i] < s[j]
  {
    if ids == {} then []
    else
      var m := Least(ids);
      var rest := SortedIds(ids - {m});
      assert forall j :: 0 <= j < |rest| ==> rest[j] in ids - {m};
      [m] + rest
  }

  // ----- Maintenance and reconnection -----

  /** What `failed_unsubscribe` does to one closed subscription. */
  function CloseOne(c: Client, id: nat): Client
    requires id in c.subs
  {
    var now := if c.subs[id].failedSubscribe then c else Control(c, Unimportant, Unsubscribe(id, None));
    now.(subs := c.subs - {id})
  }

  function CloseAll(c: Client, ids: seq<nat>): Client
    decreases |ids|
  {
    if ids == [] then c
    else CloseAll(if ids[0] in c.subs then CloseOne(c, ids[0]) else c, ids[1..])
  }

  function ClosedIds(subs: map<nat, Subscription>, gone: set<nat>): set<nat> {
    set id | id in subs && (subs[id].failedSubscribe || id in gone)
  }

  /** `failed_unsubscribe`, given which receivers are gone. */
  function FailedUnsubscribe(c: Client, gone: set<nat>, goneReplies: set<Bytes>): Client {
    var swept := if c.mux.Some? then c.(mux := Some(c.mux.value - goneReplies)) else c;
    CloseAll(swept, SortedIds(ClosedIds(c.subs, gone)))
  }

  /** The SUB a table entry stands for. */
  function SubOf(id: nat, s: Subscription): ClientOp {
    ClientOps.Subscribe(id, s.subject, s.queueGroup)
  }

  /** The operations `connect` repeats for one surviving subscription. */
  function ResubscribeOps(id: nat, s: Subscription): seq<ClientOp> {
    [SubOf(id, s)]
    + if s.remaining.Some? then [Unsubscribe(id, Some(s.remaining.value))] else []
  }

  function ResubscribeKinds(id: nat, s: Subscription): seq<InFlight> {
    [AwaitsSubscribe(id)] + if s.remaining.Some? then [Unimportant] else []
  }

  function Resubscribe(c: Client, ids: seq<nat>): Client
    decreases |ids|
  {
    if ids == [] then c
    else
      var next :=
        if ids[0] in c.subs then
          c.(inFlight := c.inFlight + ResubscribeKinds(ids[0], c.subs[ids[0]]),
             trace := c.trace + ResubscribeOps(ids[0], c.subs[ids[0]]))
        else c;
      Resubscribe(next, ids[1..])
  }

  /** `recycle` followed by `connect`: subscriptions survive, everything else starts over. */
  function Reconnected(c: Client): Client {
    Resubscribe(Client([], c.subs, None, c.prefix, []), SortedIds(c.subs.Keys))
  }
}
