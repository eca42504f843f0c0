/** What the decoder reports is what its input spells: from operations back to the bytes of the stream. */
module Spelling {
  import opened Wrappers
  import opened ByteStrings
  import opened HeaderMaps
  import opened ClientOps
  import opened Decoder
  import opened Utf8
  import opened RoundTrip
  import opened Fragmentation
  import opened HeaderBlocks
  import LinesIter

  // ----- Control lines -----

  /** The line spells the operation; a message is spelled by more than its control line. */
  predicate Spells(ext: External, line: Bytes, op: ServerOp) {
    match op
    case Success => StartsWith(line, OK)
    case ServerPing => StartsWith(line, PING)
    case ServerPong => StartsWith(line, PONG)
    case Error(e) =>
      line == ERR_SP + [QUOTE] + e.text + [QUOTE] && IsUtf8(e.text) && e.fatal == ext.fatality(e.text)
    case Info(json) => line == INFO_SP + json && ext.infoOk(json)
    case Deliver(_) => false
  }

  /** The line announces a message, leaving the status. */
  ghost predicate Announces(line: Bytes, st: Status) {
    || (StartsWith(line, MSG_SP)
        && st.AwaitPayload? && st.statusCode.None? && st.statusDescription.None? && st.headers == EMPTY
        && ReadableSubjects(st.subject, st.reply) && MsgLine(line[|MSG_SP|..], st))
    || (StartsWith(line, HMSG_SP)
        && st.AwaitHeaders? && ReadableSubjects(st.subject, st.reply) && HmsgLine(line[|HMSG_SP|..], st))
  }

  predicate KnownVerb(line: Bytes) {
    || StartsWith(line, MSG_SP) || StartsWith(line, HMSG_SP)
    || StartsWith(line, PING) || StartsWith(line, PONG) || StartsWith(line, OK)
    || StartsWith(line, ERR_SP) || StartsWith(line, INFO_SP)
  }

  /** No line starts with two verbs. */
  lemma OneVerb(line: Bytes)
    ensures StartsWith(line, MSG_SP) ==> |line| >= |MSG_SP| && line[0] == 77
    ensures StartsWith(line, HMSG_SP) ==> |line| >= |HMSG_SP| && line[0] == 72
    ensures StartsWith(line, PING) ==> line[0] == 80 && line[1] == 73
    ensures StartsWith(line, PONG) ==> line[0] == 80 && line[1] == 79
    ensures StartsWith(line, OK) ==> line[0] == 43
    ensures StartsWith(line, ERR_SP) ==> line[0] == 45
    ensures StartsWith(line, INFO_SP) ==> line[0] == 73
  {
    assert forall p: Bytes :: StartsWith(line, p) && |p| > 1 ==> line[0] == line[..|p|][0] && line[1] == line[..|p|][1];
  }

  lemma ErrorSpelled(ext: External, line: Bytes, op: ServerOp)
    requires StartsWith(line, ERR_SP)
    ensures ErrorOp(ext, line[|ERR_SP|..]) == Ok(op) <==> op.Error? && Spells(ext, line, op)
    ensures ErrorOp(ext, line[|ERR_SP|..]).Err? ==> ErrorOp(ext, line[|ERR_SP|..]) == Err(InvalidErrorMessage)
  {
    hide IsUtf8;
    var quoted := line[|ERR_SP|..];
    assert line == ERR_SP + quoted;
    if |quoted| >= 2 && quoted[0] == QUOTE && quoted[|quoted| - 1] == QUOTE {
      assert quoted == [QUOTE] + quoted[1..|quoted| - 1] + [QUOTE];
    }
    if op.Error? && line == ERR_SP + [QUOTE] + op.error.text + [QUOTE] {
      assert line == ERR_SP + ([QUOTE] + op.error.text + [QUOTE]);
      assert quoted == [QUOTE] + op.error.text + [QUOTE];
      assert quoted[1..|quoted| - 1] == op.error.text;
    }
  }

  lemma InfoSpelled(ext: External, line: Bytes, json: Bytes)
    requires StartsWith(line, INFO_SP)
    ensures Spells(ext, line, Info(json)) <==> json == line[|INFO_SP|..] && ext.infoOk(json)
  {
    assert line == INFO_SP + line[|INFO_SP|..];
  }

  lemma SpelledVerb(ext: External, line: Bytes, op: ServerOp)
    requires Spells(ext, line, op)
    ensures match op
      case Success => StartsWith(line, OK)
      case ServerPing => StartsWith(line, PING)
      case ServerPong => StartsWith(line, PONG)
      case Error(_) => StartsWith(line, ERR_SP)
      case Info(_) => StartsWith(line, INFO_SP)
      case Deliver(_) => false
  {
    if op.Error? {
      assert line == ERR_SP + ([QUOTE] + op.error.text + [QUOTE]);
    }
  }

  lemma WordSpelled(ext: External, line: Bytes, op: ServerOp)
    requires op.Success? || op.ServerPing? || op.ServerPong?
    ensures Spells(ext, line, op) <==>
      StartsWith(line, if op.Success? then OK else if op.ServerPing? then PING else PONG)
  {
  }

  lemma EmitExact(ext: External, now: Status, line: Bytes, rest: Bytes, op: ServerOp)
    requires Bounded(now)
    ensures LineStep(ext, now, line, rest) == Emit(op, now, rest) <==> Spells(ext, line, op)
  {
    hide DecodeMsg, DecodeHmsg, ErrorOp, IsUtf8, StartsWith, Spells;
    OneVerb(line);
    if Spells(ext, line, op) {
      SpelledVerb(ext, line, op);
    }
    if StartsWith(line, ERR_SP) {
      ErrorSpelled(ext, line, op);
    }
    match op {
      case Info(json) =>
        if StartsWith(line, INFO_SP) {
          InfoSpelled(ext, line, json);
        }
      case Error(_) =>
      case Deliver(_) =>
      case _ => WordSpelled(ext, line, op);
    }
  }

  lemma AnnounceExact(ext: External, now: Status, line: Bytes, rest: Bytes, st: Status)
    requires Bounded(now)
    ensures LineStep(ext, now, line, rest) == Goto(st, rest) <==> Announces(line, st)
  {
    hide DecodeMsg, DecodeHmsg, ErrorOp, MsgLine, HmsgLine, ReadableSubjects, StartsWith;
    OneVerb(line);
    if StartsWith(line, MSG_SP) {
      DecodeMsgExact(line[|MSG_SP|..], st);
    }
    if StartsWith(line, HMSG_SP) {
      DecodeHmsgExact(line[|HMSG_SP|..], st);
    }
  }

  lemma ArgumentErrors(args: Bytes)
    ensures DecodeMsg(args) != Err(InvalidCommand) && DecodeHmsg(args) != Err(InvalidCommand)
  {
  }

  lemma InvalidCommandExact(ext: External, now: Status, line: Bytes, rest: Bytes)
    requires Bounded(now)
    ensures LineStep(ext, now, line, rest) == Fail(InvalidCommand, now, rest) <==> !KnownVerb(line)
  {
    hide DecodeMsg, DecodeHmsg, ErrorOp, StartsWith;
    OneVerb(line);
    if StartsWith(line, MSG_SP) {
      ArgumentErrors(line[|MSG_SP|..]);
    }
    if StartsWith(line, HMSG_SP) {
      ArgumentErrors(line[|HMSG_SP|..]);
    }
    if StartsWith(line, ERR_SP) {
      ErrorSpelled(ext, line, Success);
    }
  }

  /**
   * Every line, both ways: an operation is emitted exactly when the line spells it, a message is announced exactly when
   * its arguments do, and the command is invalid exactly when the line starts with none of the seven verbs.
   */
  lemma LineStepExact(ext: External, now: Status, line: Bytes, rest: Bytes, op: ServerOp, st: Status)
    requires Bounded(now)
    ensures LineStep(ext, now, line, rest) == Emit(op, now, rest) <==> Spells(ext, line, op)
    ensures LineStep(ext, now, line, rest) == Goto(st, rest) <==> Announces(line, st)
    ensures LineStep(ext, now, line, rest) == Fail(InvalidCommand, now, rest) <==> !KnownVerb(line)
  {
    hide LineStep, Spells, Announces, KnownVerb;
    EmitExact(ext, now, line, rest, op);
    AnnounceExact(ext, now, line, rest, st);
    InvalidCommandExact(ext, now, line, rest);
  }

  // ----- Frames -----

  /** The frame is a complete line that spells the operation, or the line, header block and payload of a message. */
  ghost predicate SpelledBy(ext: External, frame: Bytes, op: ServerOp) {
    if op.Deliver? then
      var m, b := op.message, op.message.base;
      exists line: Bytes, block: Bytes, end: Bytes ::
        && frame == line + CRLF + (block + (b.payload + end)) && |end| == 2 && LinesIter.CrlfFree(line)
        && MessageSpelled(line, block, m)
    else
      exists line: Bytes :: frame == line + CRLF && LinesIter.CrlfFree(line) && Spells(ext, line, op)
  }

  /** The line announces a message of these lengths, and the block, if there is one, holds its headers and status. */
  ghost predicate MessageSpelled(line: Bytes, block: Bytes, m: ServerMessage) {
    var b := m.base;
    || (block == [] && PlainStatus(m)
        && Announces(line, AwaitPayload(m.subscriptionId, b.subject, b.reply, None, None, EMPTY, |b.payload|)))
    || (Announces(line, AwaitHeaders(m.subscriptionId, b.subject, b.reply, |block|, |b.payload|))
        && BlockSpells(block, HeaderBlockContents(m.statusCode, m.statusDescription, b.headers)))
  }

  predicate PlainStatus(m: ServerMessage) {
    m.statusCode.None? && m.statusDescription.None? && m.base.headers == EMPTY
  }

  lemma LineFound(ext: External, last: nat, line: Bytes, rest: Bytes)
    requires LinesIter.CrlfFree(line) && last < MAX_HEAD_LEN && last != |line + CRLF + rest|
    ensures DecodeStep(ext, AwaitLine(last), line + CRLF + rest) == LineStep(ext, AwaitLine(last), line, rest)
  {
    hide LineStep;
    var buf := line + CRLF + rest;
    LinesIter.FindCrlfFree(line, rest);
    Parts(line, CRLF, rest);
    if StartsWith(buf, OK_CRLF) {
      FastPathIsSlowPath(ext, AwaitLine(last), buf);
    }
  }

  /** A step out of the control line found it at the front of the buffer. */
  lemma LineWasFound(ext: External, last: nat, buf: Bytes) returns (line: Bytes, rest: Bytes)
    requires last < MAX_HEAD_LEN
    requires var s := DecodeStep(ext, AwaitLine(last), buf); s.Emit? || s.Goto?
    ensures buf == line + CRLF + rest && LinesIter.CrlfFree(line)
    ensures DecodeStep(ext, AwaitLine(last), buf) == LineStep(ext, AwaitLine(last), line, rest)
  {
    hide LineStep;
    if StartsWith(buf, OK_CRLF) {
      FastPathIsSlowPath(ext, AwaitLine(last), buf);
    }
    var i := FindCrlf(buf).value;
    line, rest := buf[..i], buf[i + 2..];
    LinesIter.PrefixCrlfFree(buf, i);
    LinesIter.CutAt(buf, i);
  }

  /** What follows an announced line, read back into a message. */
  lemma BodySpelled(ext: External, line: Bytes, st: Status, buf: Bytes) returns (block: Bytes, end: Bytes)
    requires Bounded(st) && Announces(line, st)
    requires var d := Decode(ext, st, buf); d.result.Ok? && d.result.value.Some?
    ensures var d := Decode(ext, st, buf); d.result.value.value.Deliver? && d.status == AwaitLine(0)
    ensures var d := Decode(ext, st, buf);
      var m := d.result.value.value.message;
      && buf == block + (m.base.payload + end) + d.buf && |end| == 2 && MessageSpelled(line, block, m)
  {
    hide DecodeHeaderBlock, BlockSpells, MsgLine, HmsgLine, ReadableSubjects, StartsWith;
    var d := Decode(ext, st, buf);
    if st.AwaitPayload? {
      block := [];
      end := buf[st.payloadLen..st.payloadLen + 2];
      Cut3(buf, 0, st.payloadLen);
    } else {
      var s := BodyStep(st, buf);
      assert s.Goto? && d == Decode(ext, s.status, s.rest);
      block := buf[..st.headerLen];
      BlockExact(block, DecodeHeaderBlock(block).value);
      end := s.rest[st.payloadLen..st.payloadLen + 2];
      Cut3(buf, st.headerLen, st.payloadLen);
      Cut3(s.rest, 0, st.payloadLen);
    }
  }

  lemma Cut3(b: Bytes, i: nat, n: nat)
    requires i + n + 2 <= |b|
    ensures b == b[..i] + (b[i..][..n] + b[i..][n..n + 2]) + b[i..][n + 2..]
  {
    var r := b[i..];
    assert b == b[..i] + r;
    assert r == r[..n] + r[n..n + 2] + r[n + 2..];
  }

  /** The status in which the decoder waits for the payload of a message. */
  function AwaitsPayloadOf(m: ServerMessage): Status {
    var b := m.base;
    AwaitPayload(m.subscriptionId, b.subject, b.reply, m.statusCode, m.statusDescription, b.headers, |b.payload|)
  }

  lemma SpelledPayload(ext: External, m: ServerMessage, end: Bytes, rest: Bytes)
    requires |end| == 2 && Bounded(AwaitsPayloadOf(m))
    ensures Decode(ext, AwaitsPayloadOf(m), m.base.payload + end + rest)
         == Decoded(Ok(Some(Deliver(m))), AwaitLine(0), rest)
  {
    Parts(m.base.payload, end, rest);
  }

  lemma SpelledBlock(ext: External, block: Bytes, m: ServerMessage, tail: Bytes, st: Status)
    requires Bounded(st) && st == AwaitHeaders(m.subscriptionId, m.base.subject, m.base.reply, |block|, |m.base.payload|)
    requires DecodeHeaderBlock(block) == Ok(HeaderBlockContents(m.statusCode, m.statusDescription, m.base.headers))
    ensures Bounded(AwaitsPayloadOf(m)) && Decode(ext, st, block + tail) == Decode(ext, AwaitsPayloadOf(m), tail)
  {
    hide DecodeHeaderBlock;
    assert (block + tail)[..|block|] == block && (block + tail)[|block|..] == tail;
    assert BodyStep(st, block + tail) == Goto(AwaitsPayloadOf(m), tail);
  }

  /** A spelled message is decoded, at the front of a buffer whose line was found. */
  lemma SpelledMessage(ext: External, last: nat, line: Bytes, block: Bytes, m: ServerMessage, end: Bytes, rest: Bytes)
    requires last < MAX_HEAD_LEN && LinesIter.CrlfFree(line) && |end| == 2 && MessageSpelled(line, block, m)
    requires last != |line + CRLF + (block + (m.base.payload + end) + rest)|
    ensures Decode(ext, AwaitLine(last), line + CRLF + (block + (m.base.payload + end) + rest))
         == Decoded(Ok(Some(Deliver(m))), AwaitLine(0), rest)
  {
    hide LineStep, DecodeStep, BodyStep, DecodeHeaderBlock, BlockSpells, Announces;
    var b, tail := m.base, m.base.payload + end + rest;
    var after := block + (b.payload + end) + rest;
    assert after == block + tail;
    LineFound(ext, last, line, after);
    var plain := AwaitPayload(m.subscriptionId, b.subject, b.reply, None, None, EMPTY, |b.payload|);
    if block == [] && PlainStatus(m) && Announces(line, plain) {
      AnnounceExact(ext, AwaitLine(last), line, after, plain);
      assert plain == AwaitsPayloadOf(m) && after == tail;
      SpelledPayload(ext, m, end, rest);
    } else {
      var st := AwaitHeaders(m.subscriptionId, b.subject, b.reply, |block|, |b.payload|);
      AnnounceExact(ext, AwaitLine(last), line, after, st);
      BlockExact(block, HeaderBlockContents(m.statusCode, m.statusDescription, b.headers));
      SpelledBlock(ext, block, m, tail, st);
      SpelledPayload(ext, m, end, rest);
    }
  }

  lemma SpelledDecodes(ext: External, last: nat, frame: Bytes, op: ServerOp, rest: Bytes)
    requires SpelledBy(ext, frame, op) && last < MAX_HEAD_LEN && last != |frame + rest|
    ensures Decode(ext, AwaitLine(last), frame + rest)
         == Decoded(Ok(Some(op)), AwaitLine(if op.Deliver? then 0 else last), rest)
  {
    hide LineStep, DecodeStep, MessageSpelled, Spells;
    if op.Deliver? {
      var p := op.message.base.payload;
      var line: Bytes, block: Bytes, end: Bytes :|
        frame == line + CRLF + (block + (p + end)) && |end| == 2 && LinesIter.CrlfFree(line)
        && MessageSpelled(line, block, op.message);
      assert frame + rest == line + CRLF + (block + (p + end) + rest);
      SpelledMessage(ext, last, line, block, op.message, end, rest);
    } else {
      var line: Bytes :| frame == line + CRLF && LinesIter.CrlfFree(line) && Spells(ext, line, op);
      LineFound(ext, last, line, rest);
      EmitExact(ext, AwaitLine(last), line, rest, op);
    }
  }

  lemma DecodedIsSpelled(ext: External, last: nat, buf: Bytes) returns (frame: Bytes)
    requires last < MAX_HEAD_LEN
    requires var d := Decode(ext, AwaitLine(last), buf); d.result.Ok? && d.result.value.Some?
    ensures var d := Decode(ext, AwaitLine(last), buf);
      && buf == frame + d.buf && SpelledBy(ext, frame, d.result.value.value)
      && d.status == AwaitLine(if d.result.value.value.Deliver? then 0 else last)
  {
    hide LineStep, DecodeStep, MessageSpelled, Spells, Announces;
    var d, s := Decode(ext, AwaitLine(last), buf), DecodeStep(ext, AwaitLine(last), buf);
    var op := d.result.value.value;
    var line, rest := LineWasFound(ext, last, buf);
    if s.Emit? {
      frame := line + CRLF;
      EmittedAsIs(ext, AwaitLine(last), line, rest);
      EmitExact(ext, AwaitLine(last), line, rest, op);
      NotDelivered(ext, line, op);
    } else {
      AnnounceExact(ext, AwaitLine(last), line, rest, s.status);
      EmittedAsIs(ext, AwaitLine(last), line, rest);
      var block, end := BodySpelled(ext, line, s.status, rest);
      var p := op.message.base.payload;
      frame := line + CRLF + (block + (p + end));
      assert line + CRLF + (block + (p + end) + d.buf) == frame + d.buf;
    }
  }

  lemma NotDelivered(ext: External, line: Bytes, op: ServerOp)
    ensures Spells(ext, line, op) ==> !op.Deliver?
  {
  }

  lemma EmittedAsIs(ext: External, now: Status, line: Bytes, rest: Bytes)
    requires Bounded(now)
    ensures var s := LineStep(ext, now, line, rest);
      (s.Emit? ==> s == Emit(s.op, now, rest)) && (s.Goto? ==> s == Goto(s.status, rest))
  {
  }

  /**
   * One call, both ways: an operation comes out of a buffer exactly when the buffer starts with a frame that spells it,
   * and what follows the frame stays.
   */
  lemma DecodedIffSpelled(ext: External, last: nat, buf: Bytes, op: ServerOp, rest: Bytes)
    requires last < MAX_HEAD_LEN && last != |buf|
    ensures var d := Decode(ext, AwaitLine(last), buf);
      d.result == Ok(Some(op)) && d.buf == rest <==> exists frame :: SpelledBy(ext, frame, op) && buf == frame + rest
  {
    hide Decode, SpelledBy;
    var d := Decode(ext, AwaitLine(last), buf);
    if d.result == Ok(Some(op)) && d.buf == rest {
      var frame := DecodedIsSpelled(ext, last, buf);
    }
    forall frame | SpelledBy(ext, frame, op) && buf == frame + rest
      ensures d.result == Ok(Some(op)) && d.buf == rest
    {
      SpelledDecodes(ext, last, frame, op, rest);
    }
  }

  // ----- Whole streams -----

  /** The frames spell the operations among the events, one each and in order. */
  ghost predicate AllSpelled(ext: External, frames: seq<Bytes>, events: seq<Event>) {
    && |frames| == |events|
    && forall i :: 0 <= i < |frames| ==> events[i].Op? && SpelledBy(ext, frames[i], events[i].op)
  }

  /** The events without the error that may end them. */
  function Operations(events: seq<Event>): seq<Event> {
    if events != [] && events[|events| - 1].Failed? then events[..|events| - 1] else events
  }

  lemma FreshNeverStuck(ext: External, buf: Bytes)
    ensures var d := Decode(ext, AwaitLine(0), buf); d.result == Ok(None) ==> !Stuck(d.status, d.buf)
  {
    if FindCrlf(buf).Some? && buf != [] {
      hide Decode, Stuck;
      FreshNotStuck(ext, buf);
    } else {
      assert FindCrlf(buf).None? && !StartsWith(buf, OK_CRLF) by {
        NoLineNoFastPath(ext, buf);
      }
    }
  }

  lemma NoLineNoFastPath(ext: External, buf: Bytes)
    requires FindCrlf(buf).None? || buf == []
    ensures FindCrlf(buf).None? && !StartsWith(buf, OK_CRLF)
  {
    if StartsWith(buf, OK_CRLF) {
      FastPathIsSlowPath(ext, AwaitLine(0), buf);
    }
  }

  lemma ReferenceStops(ext: External, d: Config)
    requires Bounded(d.status)
    requires Halted(d) || RefNext(ext, d).None? || (d.status.AwaitLine? && FindCrlf(d.buf).None?)
    ensures RefAll(ext, d) == d
  {
    hide LineStep, BodyStep;
  }

  lemma FramesCons(ext: External, frame: Bytes, op: ServerOp, later: seq<Bytes>, ev: seq<Event>, all: seq<Event>)
    requires SpelledBy(ext, frame, op) && ev + [Op(op)] <= all
    requires AllSpelled(ext, later, Operations(all[|ev| + 1..]))
    ensures AllSpelled(ext, [frame] + later, Operations(all[|ev|..]))
  {
    hide SpelledBy;
    var rest := all[|ev| + 1..];
    assert all[|ev|..] == [Op(op)] + rest;
    assert Operations([Op(op)] + rest) == [Op(op)] + Operations(rest);
  }

  lemma NothingSpelled(ext: External, ev: seq<Event>, r: Result<Option<ServerOp>, DecoderError>, all: seq<Event>)
    requires all == ev + (if TooLong(r) then [] else EventsOf(r)) && (r.Ok? ==> r.value.None?)
    ensures AllSpelled(ext, [], Operations(all[|ev|..]))
  {
    hide SpelledBy;
    assert all[|ev|..] == if TooLong(r) then [] else EventsOf(r);
  }

  /** The operations the reference parser finds are spelled by consecutive frames at the front of the stream. */
  lemma {:induction false} ReferenceSpelled(ext: External, ev: seq<Event>, buf: Bytes) returns (frames: seq<Bytes>)
    requires ev == [] || ev[|ev| - 1].Op?
    ensures var all := RefAll(ext, Config(ev, AwaitLine(0), buf)).events;
      ev <= all && AllSpelled(ext, frames, Operations(all[|ev|..])) && Flatten(frames) <= buf
    decreases |buf|
  {
    hide Decode, RefStep, RefNext, RefAll, Reaches, SpelledBy;
    var c := Config(ev, AwaitLine(0), buf);
    var r := Decode(ext, AwaitLine(0), buf);
    EventsGrow(ext, c);
    DecodeBounds(ext, AwaitLine(0), buf);
    var n, d := DecodeFollows(ext, ev, AwaitLine(0), buf);
    ReachesBounded(ext, c, n, d);
    ReachesSameEnd(ext, c, n, d);
    frames := [];
    match r.result {
      case Ok(Some(op)) =>
        var frame := DecodedIsSpelled(ext, 0, buf);
        var later := ReferenceSpelled(ext, ev + [Op(op)], r.buf);
        frames := [frame] + later;
        FramesCons(ext, frame, op, later, ev, RefAll(ext, c).events);
        assert Flatten(frames) == frame + Flatten(later);
      case _ =>
        FreshNeverStuck(ext, buf);
        FailedHalts(ev, r.result, d);
        ReferenceStops(ext, d);
        NothingSpelled(ext, ev, r.result, d.events);
    }
  }

  lemma FailedHalts(ev: seq<Event>, r: Result<Option<ServerOp>, DecoderError>, d: Config)
    requires d.events == ev + (if TooLong(r) then [] else EventsOf(r))
    ensures r.Err? && !TooLong(r) ==> Halted(d)
  {
  }

  /** Only the last event may be an error. */
  predicate FailsLast(events: seq<Event>) {
    forall i :: 0 <= i < |events| - 1 ==> events[i].Op?
  }

  lemma {:induction false} OnlyLastFails(ext: External, st: Status, buf: Bytes, chunks: seq<Bytes>)
    requires Bounded(st)
    ensures FailsLast(ReadSession(ext, st, buf, chunks).events)
    decreases |chunks|, |buf|
  {
    hide Decode;
    var d := Decode(ext, st, buf);
    DecodeBounds(ext, st, buf);
    match d.result {
      case Err(_) =>
      case Ok(Some(op)) =>
        var rest := ReadSession(ext, d.status, d.buf, chunks).events;
        OnlyLastFails(ext, d.status, d.buf, chunks);
        assert forall i :: 1 <= i < |rest| + 1 ==> ([Op(op)] + rest)[i] == rest[i - 1];
      case Ok(None) =>
        if chunks != [] {
          OnlyLastFails(ext, d.status, d.buf + chunks[0], chunks[1..]);
        }
    }
  }

  lemma OperationsPrefix(events: seq<Event>, all: seq<Event>)
    requires Parsed(events) <= all && FailsLast(events)
    requires events != [] && events[|events| - 1].Failed? && !TooLongLast(events) ==> events == all
    ensures Operations(events) <= Operations(all)
  {
    var ops := Operations(events);
    assert ops <= all;
    assert forall i :: 0 <= i < |ops| ==> ops[i] == events[i];
    if |ops| == |all| && all != [] {
      assert all[|all| - 1] == ops[|ops| - 1];
    }
  }

  /**
   * No stream yields an operation it does not spell: however it is cut into reads, the operations decoded are spelled, one
   * each and in order, by consecutive frames at its front.
   */
  lemma NothingUnspelled(ext: External, chunks: seq<Bytes>)
    ensures exists frames: seq<Bytes> ::
      AllSpelled(ext, frames, Operations(Run(ext, chunks).events)) && Flatten(frames) <= Flatten(chunks)
  {
    hide ReadSession, Run, ReferenceEvents, AllSpelled, Operations, OpenMessage, Stuck, HasLongLine;
    var events, all := Run(ext, chunks).events, ReferenceEvents(ext, Flatten(chunks));
    FragmentationSafety(ext, chunks);
    RunOnlyLastFails(ext, chunks);
    OperationsPrefix(events, all);
    var whole := StreamSpelled(ext, Flatten(chunks));
    var frames := FirstFrames(ext, whole, Operations(all), Operations(events));
  }

  lemma RunOnlyLastFails(ext: External, chunks: seq<Bytes>)
    ensures FailsLast(Run(ext, chunks).events)
  {
    hide ReadSession, FailsLast;
    OnlyLastFails(ext, AwaitLine(0), [], chunks);
  }

  lemma StreamSpelled(ext: External, stream: Bytes) returns (frames: seq<Bytes>)
    ensures AllSpelled(ext, frames, Operations(ReferenceEvents(ext, stream))) && Flatten(frames) <= stream
  {
    hide RefAll, AllSpelled;
    frames := ReferenceSpelled(ext, [], stream);
    assert ReferenceEvents(ext, stream)[0..] == ReferenceEvents(ext, stream);
  }

  lemma FirstFrames(ext: External, whole: seq<Bytes>, all: seq<Event>, events: seq<Event>) returns (frames: seq<Bytes>)
    requires AllSpelled(ext, whole, all) && events <= all
    ensures AllSpelled(ext, frames, events) && Flatten(frames) <= Flatten(whole)
  {
    hide SpelledBy;
    frames := whole[..|events|];
    FlattenConcat(frames, whole[|events|..]);
    assert whole == frames + whole[|events|..];
  }
}
