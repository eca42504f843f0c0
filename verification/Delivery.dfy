/** What a server writes is what a client decodes: every operation, published messages, and whole streams however cut. */
module Delivery {
  import opened Wrappers
  import opened ByteStrings
  import opened HeaderMaps
  import opened ClientOps
  import opened Decoder
  import opened Server
  import opened SplitSpaces
  import opened RoundTrip
  import opened Fragmentation
  import opened Utf8
  import Subjects
  import Uint

  // ----- How a server writes an operation -----

  /** A message without status and headers goes out as MSG, any other as HMSG. */
  predicate PlainMessage(m: ServerMessage) {
    m.statusCode.None? && m.base.headers.entries == []
  }

  /** The header block of an HMSG. */
  function Block(m: ServerMessage): Bytes {
    StatusBlock(m.statusCode, m.statusDescription, m.base.headers)
  }

  function TotalLen(m: ServerMessage): nat {
    (if PlainMessage(m) then 0 else |Block(m)|) + |m.base.payload|
  }

  /** The arguments of the control line. */
  function Words(m: ServerMessage): seq<Bytes> {
    [m.base.subject, Uint.Print(m.subscriptionId)] + (if m.base.reply.Some? then [m.base.reply.value] else [])
    + (if PlainMessage(m) then [] else [Uint.Print(|Block(m)|)])
    + [Uint.Print(TotalLen(m))]
  }

  function MessageLine(m: ServerMessage): Bytes {
    (if PlainMessage(m) then MSG_SP else HMSG_SP) + Joined(Words(m))
  }

  /** The control line of an operation. */
  function Line(op: ServerOp): Bytes {
    match op
    case Info(json) => INFO_SP + json
    case Deliver(m) => MessageLine(m)
    case Success => OK
    case Error(e) => ERR_SP + ([QUOTE] + e.text + [QUOTE])
    case ServerPing => PING
    case ServerPong => PONG
  }

  /** What follows the control line: a message's header block and payload, then the rest of the stream. */
  function After(op: ServerOp, rest: Bytes): Bytes {
    if op.Deliver? then
      (if PlainMessage(op.message) then [] else Block(op.message)) + (op.message.base.payload + CRLF + rest)
    else rest
  }

  function Frame(op: ServerOp): Bytes {
    Line(op) + CRLF + After(op, [])
  }

  predicate Deliverable(m: ServerMessage) {
    && ValidSubject(m.base.subject)
    && (m.base.reply.Some? ==> ValidSubject(m.base.reply.value))
    && ValidHeaders(m.base.headers)
    && ValidStatus(m.statusCode, m.statusDescription)
    && m.subscriptionId <= U64_MAX
    && TotalLen(m) <= MAX_MSG_LEN
  }

  /** The operations a server can send: quoted error texts and JSON without line breaks, and messages within the limit. */
  predicate Sendable(ext: External, op: ServerOp) {
    match op
    case Info(json) => LineSafe(json) && ext.infoOk(json)
    case Deliver(m) => Deliverable(m)
    case Error(e) => LineSafe(e.text) && IsUtf8(e.text) && e.fatal == ext.fatality(e.text)
    case _ => true
  }

  /** The status a message's control line leaves the decoder in. */
  function Announced(m: ServerMessage): Status {
    var b := m.base;
    if PlainMessage(m) then AwaitPayload(m.subscriptionId, b.subject, b.reply, None, None, EMPTY, |b.payload|)
    else AwaitHeaders(m.subscriptionId, b.subject, b.reply, |Block(m)|, |b.payload|)
  }

  function PayloadOf(m: ServerMessage): Status {
    var b := m.base;
    AwaitPayload(m.subscriptionId, b.subject, b.reply, m.statusCode, m.statusDescription, b.headers, |b.payload|)
  }

  lemma FrameThen(op: ServerOp, rest: Bytes)
    ensures Frame(op) + rest == Line(op) + CRLF + After(op, rest)
  {
    hide Line, Block;
    if op.Deliver? {
      var h := if PlainMessage(op.message) then [] else Block(op.message);
      var line, p := Line(op), op.message.base.payload;
      assert line + CRLF + (h + (p + CRLF + [])) + rest == line + CRLF + (h + (p + CRLF + rest));
    }
  }

  // ----- Control lines -----

  lemma WordsAreWordy(m: ServerMessage)
    requires Deliverable(m)
    ensures Words(m) != [] && forall i :: 0 <= i < |Words(m)| ==> Wordy(Words(m)[i])
  {
    hide Block, Subjects.Valid, ValidHeaders, Wordy, ValidStatus;
    SubjectWordy(m.base.subject);
    if m.base.reply.Some? {
      SubjectWordy(m.base.reply.value);
    }
    NumberWordy(m.subscriptionId);
    NumberWordy(|Block(m)|);
    NumberWordy(TotalLen(m));
  }

  lemma MessageLineSafe(m: ServerMessage)
    requires Deliverable(m)
    ensures var line, verb := MessageLine(m), if PlainMessage(m) then MSG_SP else HMSG_SP;
      LineSafe(line) && StartsWith(line, verb) && Tokens(line[|verb|..]) == Words(m)
  {
    hide Words, Joined, Tokens, Wordy, Deliverable;
    WordsAreWordy(m);
    WordsLine(if PlainMessage(m) then MSG_SP else HMSG_SP, Words(m));
  }

  /** The arguments announce exactly this message. */
  lemma WordsAnnounce(m: ServerMessage, args: Bytes)
    requires Deliverable(m) && Tokens(args) == Words(m)
    ensures PlainMessage(m) ==> DecodeMsg(args) == Ok(Announced(m))
    ensures !PlainMessage(m) ==> DecodeHmsg(args) == Ok(Announced(m))
  {
    hide Block, Subjects.Valid, ValidHeaders, Tokens, ValidStatus;
    Uint.ParsePrint(U64_MAX, m.subscriptionId);
    Uint.ParsePrint(USIZE_MAX, |Block(m)|);
    Uint.ParsePrint(USIZE_MAX, TotalLen(m));
  }

  lemma MessageLineStep(ext: External, last: nat, m: ServerMessage, rest: Bytes)
    requires Deliverable(m) && last < MAX_HEAD_LEN
    ensures LineStep(ext, AwaitLine(last), MessageLine(m), rest) == Goto(Announced(m), rest)
  {
    hide DecodeMsg, DecodeHmsg, MessageLine, Deliverable, Tokens, Words;
    MessageLineSafe(m);
    var line := MessageLine(m);
    if PlainMessage(m) {
      WordsAnnounce(m, line[|MSG_SP|..]);
    } else {
      WordsAnnounce(m, line[|HMSG_SP|..]);
      assert line[..|HMSG_SP|][0] == 72;
    }
  }

  lemma ErrorLineStep(ext: External, last: nat, e: ServerError, rest: Bytes)
    requires Sendable(ext, Error(e)) && last < MAX_HEAD_LEN
    ensures LineSafe(Line(Error(e)))
    ensures LineStep(ext, AwaitLine(last), Line(Error(e)), rest) == Emit(Error(e), AwaitLine(last), rest)
  {
    hide IsUtf8, ErrorOp, LineStep;
    var quoted := [QUOTE] + e.text + [QUOTE];
    var line := ERR_SP + quoted;
    LineSafeConcat([QUOTE], e.text);
    LineSafeConcat([QUOTE] + e.text, [QUOTE]);
    LineSafeConcat(ERR_SP, quoted);
    Unquoted(ext, e);
    ErrLine(ext, AwaitLine(last), quoted, rest);
  }

  lemma ErrLine(ext: External, st: Status, quoted: Bytes, rest: Bytes)
    requires Bounded(st) && ErrorOp(ext, quoted).Ok?
    ensures LineStep(ext, st, ERR_SP + quoted, rest) == Emit(ErrorOp(ext, quoted).value, st, rest)
  {
    hide ErrorOp, DecodeMsg, DecodeHmsg;
    var line := ERR_SP + quoted;
    assert line[..|ERR_SP|] == ERR_SP && line[|ERR_SP|..] == quoted && line[0] == 45;
  }

  lemma Unquoted(ext: External, e: ServerError)
    requires Sendable(ext, Error(e))
    ensures ErrorOp(ext, [QUOTE] + e.text + [QUOTE]) == Ok(Error(e))
  {
    hide IsUtf8;
    var quoted := [QUOTE] + e.text + [QUOTE];
    assert quoted[1..|quoted| - 1] == e.text;
  }

  lemma InfoLineStep(ext: External, last: nat, json: Bytes, rest: Bytes)
    requires Sendable(ext, Info(json)) && last < MAX_HEAD_LEN
    ensures LineSafe(Line(Info(json)))
    ensures LineStep(ext, AwaitLine(last), Line(Info(json)), rest) == Emit(Info(json), AwaitLine(last), rest)
  {
    var line := INFO_SP + json;
    LineSafeConcat(INFO_SP, json);
    assert line[..|INFO_SP|] == INFO_SP && line[|INFO_SP|..] == json && line[0] == 73;
  }

  lemma WordLineStep(ext: External, last: nat, op: ServerOp, rest: Bytes)
    requires (op.Success? || op.ServerPing? || op.ServerPong?) && last < MAX_HEAD_LEN
    ensures LineSafe(Line(op))
    ensures LineStep(ext, AwaitLine(last), Line(op), rest) == Emit(op, AwaitLine(last), rest)
  {
    var line := Line(op);
    assert line[..|line|] == line;
    assert PING[0] == 80 && PING[1] == 73 && PONG[0] == 80 && PONG[1] == 79 && OK[0] == 43;
  }

  lemma OtherLineStep(ext: External, last: nat, op: ServerOp, rest: Bytes)
    requires Sendable(ext, op) && !op.Deliver? && last < MAX_HEAD_LEN
    ensures LineSafe(Line(op))
    ensures LineStep(ext, AwaitLine(last), Line(op), rest) == Emit(op, AwaitLine(last), rest)
  {
    hide LineStep, Line;
    match op {
      case Info(json) => InfoLineStep(ext, last, json, rest);
      case Error(e) => ErrorLineStep(ext, last, e, rest);
      case _ => WordLineStep(ext, last, op, rest);
    }
  }

  // ----- Bodies -----

  lemma PayloadDecoded(m: ServerMessage, rest: Bytes)
    requires Deliverable(m)
    ensures BodyStep(PayloadOf(m), m.base.payload + CRLF + rest) == Emit(Deliver(m), AwaitLine(0), rest)
  {
    hide Block, Subjects.Valid, ValidHeaders, ValidStatus;
    Parts(m.base.payload, CRLF, rest);
  }

  lemma HeadersDecoded(m: ServerMessage, rest: Bytes)
    requires Deliverable(m) && !PlainMessage(m)
    ensures BodyStep(Announced(m), After(Deliver(m), rest)) == Goto(PayloadOf(m), m.base.payload + CRLF + rest)
  {
    hide Block, DecodeHeaderBlock, ValidHeaders, ValidStatus;
    BlockDecoded(m);
    var b, p := Block(m), m.base.payload + CRLF + rest;
    assert (b + p)[..|b|] == b && (b + p)[|b|..] == p;
  }

  lemma BlockDecoded(m: ServerMessage)
    requires Deliverable(m)
    ensures DecodeHeaderBlock(Block(m)) == Ok(HeaderBlockContents(m.statusCode, m.statusDescription, m.base.headers))
  {
    hide DecodeHeaderBlock, StatusBlock, ValidHeaders, ValidStatus;
    StatusBlockRoundTrip(m.statusCode, m.statusDescription, m.base.headers);
  }

  lemma PlainIsAwaitingPayload(m: ServerMessage, rest: Bytes)
    requires Deliverable(m) && PlainMessage(m)
    ensures Announced(m) == PayloadOf(m) && After(Deliver(m), rest) == m.base.payload + CRLF + rest
  {
  }

  /** The reference parser's steps over one frame. */
  lemma FrameRefSteps(ext: External, op: ServerOp, rest: Bytes)
    requires Sendable(ext, op)
    ensures op.Deliver? ==> Bounded(Announced(op.message)) && Bounded(PayloadOf(op.message))
    ensures var s := RefStep(ext, AwaitLine(0), Line(op) + CRLF + After(op, rest));
      if op.Deliver? then
        var m := op.message;
        && s == Goto(Announced(m), After(op, rest))
        && (PlainMessage(m) ==> Announced(m) == PayloadOf(m) && After(op, rest) == m.base.payload + CRLF + rest)
        && (!PlainMessage(m) ==>
          RefStep(ext, Announced(m), After(op, rest)) == Goto(PayloadOf(m), m.base.payload + CRLF + rest))
        && RefStep(ext, PayloadOf(m), m.base.payload + CRLF + rest) == Emit(op, AwaitLine(0), rest)
      else s == Emit(op, AwaitLine(0), rest)
  {
    hide LineStep, BodyStep, Block, Line, MessageLine, Deliverable, After, PlainMessage;
    LineIsSafe(ext, op);
    FindCrlfAfterLine(Line(op), After(op, rest));
    Parts(Line(op), CRLF, After(op, rest));
    if op.Deliver? {
      MessageFrameSteps(ext, op.message, rest);
    } else {
      OtherLineStep(ext, 0, op, rest);
      AfterOther(op, rest);
    }
  }

  lemma MessageFrameSteps(ext: External, m: ServerMessage, rest: Bytes)
    requires Deliverable(m)
    ensures Bounded(Announced(m)) && Bounded(PayloadOf(m))
    ensures LineStep(ext, AwaitLine(0), Line(Deliver(m)), After(Deliver(m), rest)) == Goto(Announced(m), After(Deliver(m), rest))
    ensures PlainMessage(m) ==> Announced(m) == PayloadOf(m) && After(Deliver(m), rest) == m.base.payload + CRLF + rest
    ensures !PlainMessage(m) ==> BodyStep(Announced(m), After(Deliver(m), rest)) == Goto(PayloadOf(m), m.base.payload + CRLF + rest)
    ensures BodyStep(PayloadOf(m), m.base.payload + CRLF + rest) == Emit(Deliver(m), AwaitLine(0), rest)
  {
    hide LineStep, BodyStep, Block, MessageLine, ValidHeaders, Subjects.Valid, ValidStatus;
    MessageLineStep(ext, 0, m, After(Deliver(m), rest));
    PayloadDecoded(m, rest);
    if PlainMessage(m) {
      PlainIsAwaitingPayload(m, rest);
    } else {
      HeadersDecoded(m, rest);
    }
  }

  lemma LineIsSafe(ext: External, op: ServerOp)
    requires Sendable(ext, op)
    ensures LineSafe(Line(op))
  {
    hide MessageLine, Deliverable, Tokens, Words, LineStep;
    if op.Deliver? {
      MessageLineSafe(op.message);
    } else {
      OtherLineStep(ext, 0, op, []);
    }
  }

  lemma AfterOther(op: ServerOp, rest: Bytes)
    requires !op.Deliver?
    ensures After(op, rest) == rest
  {
  }

  // ----- One frame -----

  /** The decoder past a message's control line. */
  lemma MessageBodyDecoded(ext: External, m: ServerMessage, rest: Bytes)
    requires Deliverable(m)
    ensures Bounded(Announced(m))
    ensures Decode(ext, Announced(m), After(Deliver(m), rest)) == Decoded(Ok(Some(Deliver(m))), AwaitLine(0), rest)
  {
    hide LineStep, BodyStep, After, Block, Deliverable, PlainMessage;
    MessageFrameSteps(ext, m, rest);
    assert Decode(ext, PayloadOf(m), m.base.payload + CRLF + rest) == Decoded(Ok(Some(Deliver(m))), AwaitLine(0), rest);
  }

  /**
   * Every operation a server writes is read back by the decoder, whatever follows it in the buffer; a message resets
   * the memo, and any other operation leaves it as it was.
   */
  lemma ServerOpRoundTrip(ext: External, last: nat, op: ServerOp, rest: Bytes)
    requires Sendable(ext, op) && last < MAX_HEAD_LEN && last != |Frame(op) + rest|
    ensures Decode(ext, AwaitLine(last), Frame(op) + rest)
         == Decoded(Ok(Some(op)), AwaitLine(if op.Deliver? then 0 else last), rest)
  {
    hide LineStep, DecodeStep, BodyStep, Line, After, Frame, MessageLine, Announced;
    FrameThen(op, rest);
    LineIsSafe(ext, op);
    LineDecoded(ext, last, Line(op), After(op, rest));
    if op.Deliver? {
      LineOfMessage(op.message);
      MessageLineStep(ext, last, op.message, After(op, rest));
      MessageBodyDecoded(ext, op.message, rest);
    } else {
      OtherLineStep(ext, last, op, rest);
      AfterOther(op, rest);
    }
  }

  lemma LineOfMessage(m: ServerMessage)
    ensures Line(Deliver(m)) == MessageLine(m)
  {
  }

  /** The message a subscriber gets from a publication. */
  function Delivered(m: Message, id: nat): ServerMessage {
    ServerMessage(None, None, id, m)
  }

  lemma ForwardIsFrame(m: Message, id: nat)
    ensures Forward(RequestOf(Publish(m)), id) == Frame(Deliver(Delivered(m, id)))
  {
    hide HeaderBlock, StatusBlock, Joined;
    HeadersWithoutStatus(m.headers);
    var d, r := Delivered(m, id), RequestOf(Publish(m));
    assert ForwardWords(r, id) == Words(d);
    assert r.body + CRLF == After(Deliver(d), []);
  }

  lemma HeadersWithoutStatus(h: Headers)
    ensures HeaderBlock(h) == StatusBlock(None, None, h)
  {
    PlainStatusLine();
  }

  /**
   * Publish/deliver round trip. The server parses the frame a publication was encoded to, forwards it under any
   * subscription id, and a fresh decoder reads back the very message, with no status and nothing left over.
   */
  lemma PublishDeliverRoundTrip(ext: External, m: Message, id: nat)
    requires ValidMessage(m) && BodyLen(m) <= MAX_MSG_LEN && id <= U64_MAX
    ensures var parsed := ParseRequest(Wire(Publish(m)));
      && parsed.Some? && parsed.value.0.PubRequest? && parsed.value.1 == []
      && Decode(ext, AwaitLine(0), Forward(parsed.value.0, id))
         == Decoded(Ok(Some(Deliver(ServerMessage(None, None, id, m)))), AwaitLine(0), [])
  {
    hide Decode, ParseRequest, Wire, Forward, HeaderBlock, StatusBlock, Frame, ValidHeaders;
    FrameParsed(Publish(m), []);
    assert Wire(Publish(m)) + [] == Wire(Publish(m));
    HeadersWithoutStatus(m.headers);
    ForwardIsFrame(m, id);
    var op := Deliver(Delivered(m, id));
    assert Frame(op) + [] == Frame(op);
    FrameNotEmpty(op);
    ServerOpRoundTrip(ext, 0, op, []);
  }

  lemma FrameNotEmpty(op: ServerOp)
    ensures |Frame(op)| >= 2
  {
    hide Line, After;
  }

  // ----- Streams, however they are cut -----

  function Frames(ops: seq<ServerOp>): Bytes {
    if ops == [] then [] else Frame(ops[0]) + Frames(ops[1..])
  }

  function Ops(ops: seq<ServerOp>): (events: seq<Event>)
    ensures |events| == |ops|
    ensures forall i :: 0 <= i < |ops| ==> events[i] == Op(ops[i])
  {
    seq(|ops|, i requires 0 <= i < |ops| => Op(ops[i]))
  }

  predicate AllSendable(ext: External, ops: seq<ServerOp>) {
    forall i :: 0 <= i < |ops| ==> Sendable(ext, ops[i])
  }

  /** The control line fits the head limit. */
  predicate ShortHead(op: ServerOp) {
    |Line(op)| + 1 < MAX_HEAD_LEN
  }

  predicate AllShort(ops: seq<ServerOp>) {
    forall i :: 0 <= i < |ops| ==> ShortHead(ops[i])
  }

  /** The reference parser finds exactly the operations of the stream. */
  lemma {:induction false} ReferenceFindsAll(ext: External, ev: seq<Event>, ops: seq<ServerOp>)
    requires AllSendable(ext, ops) && (ev == [] || ev[|ev| - 1].Op?)
    ensures RefAll(ext, Config(ev, AwaitLine(0), Frames(ops))) == Config(ev + Ops(ops), AwaitLine(0), [])
    decreases |ops|
  {
    hide Decode, Frame, Sendable, RefStep, RefNext, RefAll, Reaches;
    var c := Config(ev, AwaitLine(0), Frames(ops));
    if ops == [] {
      NothingLeft(ext, c);
      assert ev + Ops(ops) == ev;
    } else {
      var op, rest := ops[0], Frames(ops[1..]);
      FrameNotEmpty(op);
      ServerOpRoundTrip(ext, 0, op, rest);
      var n, d := DecodeFollows(ext, ev, AwaitLine(0), c.buf);
      ReachesSameEnd(ext, c, n, d);
      ReferenceFindsAll(ext, ev + [Op(op)], ops[1..]);
      assert ev + [Op(op)] + Ops(ops[1..]) == ev + Ops(ops);
    }
  }

  lemma NothingLeft(ext: External, c: Config)
    requires c.status == AwaitLine(0) && c.buf == []
    ensures RefAll(ext, c) == c && RefNext(ext, c).None?
  {
  }

  /** The memo covers bytes known to hold no CRLF. Only operations other than messages can leave it stale. */
  predicate MemoSound(st: Status, buf: Bytes) {
    st.AwaitLine? ==> st.lastBytesRead <= |buf| && FindCrlf(buf[..st.lastBytesRead]).None?
  }

  lemma {:induction false} MessagesKeepMemoSound(ext: External, st: Status, buf: Bytes)
    requires Bounded(st) && MemoSound(st, buf)
    ensures var d := Decode(ext, st, buf);
      && (d.result == Ok(None) ==> MemoSound(d.status, d.buf) && !Stuck(d.status, d.buf))
      && (d.result.Ok? && d.result.value.Some? && d.result.value.value.Deliver? ==> MemoSound(d.status, d.buf))
    decreases |buf|, Rank(st)
  {
    var s := DecodeStep(ext, st, buf);
    assert buf[..|buf|] == buf;
    match s {
      case Goto(st', rest) =>
        GotoIsPastTheLine(ext, st, buf);
        MessagesKeepMemoSound(ext, st', rest);
      case Emit(op, st', rest) =>
        EmitDeliverResets(ext, st, buf);
        assert rest[..0] == [];
      case _ =>
    }
  }

  lemma GotoIsPastTheLine(ext: External, st: Status, buf: Bytes)
    requires Bounded(st)
    ensures var s := DecodeStep(ext, st, buf); s.Goto? ==> !s.status.AwaitLine?
  {
  }

  lemma EmitDeliverResets(ext: External, st: Status, buf: Bytes)
    requires Bounded(st)
    ensures var s := DecodeStep(ext, st, buf); s.Emit? && s.op.Deliver? ==> s.status == AwaitLine(0)
  {
  }

  predicate OnlyMessages(events: seq<Event>) {
    forall i :: 0 <= i < |events| ==> events[i].Op? && events[i].op.Deliver?
  }

  /** A session that reports nothing but messages never takes the early return with a complete line buffered. */
  lemma {:induction false} MessageSessionsNeverStick(ext: External, st: Status, buf: Bytes, chunks: seq<Bytes>)
    requires Bounded(st) && MemoSound(st, buf)
    ensures var s := ReadSession(ext, st, buf, chunks);
      OnlyMessages(s.events) ==> !Failing(s) && !Stuck(s.status, s.buf)
    decreases |chunks|, |buf|
  {
    hide Decode, MemoSound, Stuck;
    var d := Decode(ext, st, buf);
    DecodeBounds(ext, st, buf);
    MessagesKeepMemoSound(ext, st, buf);
    match d.result {
      case Err(_) =>
      case Ok(Some(op)) =>
        var rest := ReadSession(ext, d.status, d.buf, chunks);
        assert ([Op(op)] + rest.events)[0] == Op(op);
        if op.Deliver? {
          MessageSessionsNeverStick(ext, d.status, d.buf, chunks);
          LaterMessages(Op(op), rest.events);
        }
      case Ok(None) =>
        if chunks != [] {
          MemoSoundExtends(d.status, d.buf, chunks[0]);
          MessageSessionsNeverStick(ext, d.status, d.buf + chunks[0], chunks[1..]);
        }
    }
  }

  lemma LaterMessages(e: Event, events: seq<Event>)
    ensures OnlyMessages([e] + events) ==> OnlyMessages(events)
  {
    assert forall i :: 0 <= i < |events| ==> ([e] + events)[i + 1] == events[i];
  }

  lemma MemoSoundExtends(st: Status, buf: Bytes, x: Bytes)
    requires MemoSound(st, buf)
    ensures MemoSound(st, buf + x)
  {
    if st.AwaitLine? {
      assert (buf + x)[..st.lastBytesRead] == buf[..st.lastBytesRead];
    }
  }

  /** Wherever the reference parser gets to in a stream with short heads, it never waits on a long line. */
  lemma {:induction false} NoLongLines(ext: External, ev: seq<Event>, ops: seq<ServerOp>, n: nat, d: Config)
    requires AllSendable(ext, ops) && AllShort(ops) && (ev == [] || ev[|ev| - 1].Op?)
    requires Reaches(ext, Config(ev, AwaitLine(0), Frames(ops)), n, d)
    ensures !LongLine(d)
    decreases |ops|, n
  {
    hide RefStep, Sendable, Frame, Line, After, LongLine, ShortHead, PlainMessage, Announced, PayloadOf;
    var c := Config(ev, AwaitLine(0), Frames(ops));
    if ops == [] {
      NothingLeft(ext, c);
      EmptyNotLong(c);
    } else {
      var op, rest := ops[0], Frames(ops[1..]);
      FrameThen(op, rest);
      FrameRefSteps(ext, op, rest);
      var next := Config(ev + [Op(op)], AwaitLine(0), rest);
      if n == 0 {
        ShortHeadNotLong(ext, op, c, After(op, rest));
      } else if op.Deliver? {
        var m := op.message;
        var c1 := Config(ev, Announced(m), After(op, rest));
        assert RefNext(ext, c) == Some(c1);
        NotALine(m, c1);
        if n > 1 {
          var c2 := Config(ev, PayloadOf(m), m.base.payload + CRLF + rest);
          NotALine(m, c2);
          assert Reaches(ext, c1, n - 1, d);
          assert RefNext(ext, c2) == Some(next);
          if PlainMessage(m) {
            assert Reaches(ext, next, n - 2, d);
            NoLongLines(ext, next.events, ops[1..], n - 2, d);
          } else {
            assert RefNext(ext, c1) == Some(c2);
            assert Reaches(ext, c2, n - 2, d);
            if n > 2 {
              assert Reaches(ext, next, n - 3, d);
              NoLongLines(ext, next.events, ops[1..], n - 3, d);
            }
          }
        }
      } else {
        assert RefNext(ext, c) == Some(next);
        NoLongLines(ext, next.events, ops[1..], n - 1, d);
      }
    }
  }

  lemma NotALine(m: ServerMessage, c: Config)
    requires c.status == Announced(m) || c.status == PayloadOf(m)
    ensures !LongLine(c)
  {
  }

  lemma EmptyNotLong(c: Config)
    requires c.buf == []
    ensures !LongLine(c)
  {
  }

  lemma ShortHeadNotLong(ext: External, op: ServerOp, c: Config, rest: Bytes)
    requires ShortHead(op) && Sendable(ext, op) && c.buf == Line(op) + CRLF + rest
    ensures !LongLine(c)
  {
    hide Line, Sendable;
    if |c.buf| >= MAX_HEAD_LEN {
      assert CrlfAt(c.buf[..MAX_HEAD_LEN], |Line(op)|);
    }
  }

  /**
   * A server's stream, however it is cut into reads: no error, and a prefix of its operations; all of them exactly
   * when the session is not stuck on a complete line, other than that of an open message.
   */
  lemma ServerStreamSurvivesFragmentation(ext: External, ops: seq<ServerOp>, chunks: seq<Bytes>)
    requires AllSendable(ext, ops) && AllShort(ops) && Flatten(chunks) == Frames(ops)
    ensures var s := Run(ext, chunks);
      && !Failing(s) && s.events <= Ops(ops)
      && (s.events == Ops(ops) <==> (Stuck(s.status, s.buf) ==> OpenMessage(s.buf)))
  {
    hide ReadSession, Stuck, LongLine, RefNext, Decode, Sendable, ShortHead, OpenMessage;
    ReferenceFindsAll(ext, [], ops);
    assert [] + Ops(ops) == Ops(ops);
    FragmentationSafety(ext, chunks);
    var s := Run(ext, chunks);
    if HasLongLine(ext, Frames(ops)) {
      var n, d :| Reaches(ext, Start(Frames(ops)), n, d) && LongLine(d);
      NoLongLines(ext, [], ops, n, d);
      assert false;
    }
    PrefixNotFailing(s, ops);
  }

  lemma PrefixNotFailing(s: Session, ops: seq<ServerOp>)
    requires s.events <= Ops(ops)
    ensures !Failing(s)
  {
    if s.events != [] {
      assert s.events[|s.events| - 1] == Ops(ops)[|s.events| - 1];
    }
  }

  /**
   * Forwarded messages arrive whole, once and in order, whatever their subjects, replies, headers, status and payloads
   * and however the stream of frames is cut into reads, as long as each control line fits the head limit.
   */
  lemma MessagesSurviveFragmentation(ext: External, ops: seq<ServerOp>, chunks: seq<Bytes>)
    requires AllSendable(ext, ops) && AllShort(ops) && Flatten(chunks) == Frames(ops)
    requires forall i :: 0 <= i < |ops| ==> ops[i].Deliver?
    ensures Run(ext, chunks).events == Ops(ops)
  {
    hide ReadSession, Stuck, Sendable, ShortHead, Decode, OpenMessage;
    ServerStreamSurvivesFragmentation(ext, ops, chunks);
    var s := Run(ext, chunks);
    assert forall i :: 0 <= i < |s.events| ==> s.events[i] == Ops(ops)[i];
    NoMemoYet();
    MessageSessionsNeverStick(ext, AwaitLine(0), [], chunks);
  }

  lemma NoMemoYet()
    ensures MemoSound(AwaitLine(0), [])
  {
  }
}
