/** The resumable decoder: one step of its loop, one call, and the control-line and header-block parsers it uses. */
module Decoder {
  import opened Wrappers
  import opened ByteStrings
  import opened HeaderMaps
  import opened ClientOps
  import opened Utf8
  import LinesIter
  import SplitSpaces
  import Uint

  const MAX_HEAD_LEN: nat := 128 * 1024
  const MAX_MSG_LEN: nat := 128 * 1024 * 1024

  /** `+OK`, `+OK\r\n`, `MSG `, `HMSG `, `-ERR `, `INFO ` */
  const OK: Bytes := [43, 79, 75]
  const OK_CRLF: Bytes := [43, 79, 75, CR, LF]
  const MSG_SP: Bytes := [77, 83, 71, 32]
  const HMSG_SP: Bytes := [72, 77, 83, 71, 32]
  const ERR_SP: Bytes := [45, 69, 82, 82, 32]
  const INFO_SP: Bytes := [73, 78, 70, 79, 32]
  const QUOTE: byte := 39

  /** Code outside the codec: whether the JSON of an INFO parses, and how an error text classifies. */
  datatype External = External(infoOk: Bytes -> bool, fatality: Bytes -> Option<bool>)

  datatype ServerError = ServerError(text: Bytes, fatal: Option<bool>)

  datatype ServerMessage = ServerMessage(
    statusCode: Option<nat>, statusDescription: Option<Bytes>, subscriptionId: nat, base: Message)

  datatype ServerOp =
    | Info(json: Bytes)
    | Deliver(message: ServerMessage)
    | Success
    | Error(error: ServerError)
    | ServerPing
    | ServerPong

  datatype DecoderError =
    | HeadTooLong(len: nat)
    | InvalidCommand
    | InvalidMsgArgsCount
    | InvalidHmsgArgsCount
    | SubjectInvalidUtf8
    | ReplySubjectInvalidUtf8
    | InvalidSubscriptionId(cause: Uint.ParseUintError)
    | InvalidHeaderLength(cause: Uint.ParseUintError)
    | InvalidPayloadLength(cause: Uint.ParseUintError)
    | InvalidTotalLength
    | MissingHead
    | InvalidHead
    | InvalidHeaderLine
    | InvalidStatusCode
    | StatusDescriptionInvalidUtf8
    | HeaderNameInvalidUtf8
    | InvalidHeaderName(nameError: HeaderNameError)
    | InvalidHeaderValue
    | InvalidInfo
    | InvalidErrorMessage
    | PoisonedDecoder

  datatype Status =
    | AwaitLine(lastBytesRead: nat)
    | AwaitHeaders(subscriptionId: nat, subject: Bytes, reply: Option<Bytes>, headerLen: nat, payloadLen: nat)
    | AwaitPayload(subscriptionId: nat, subject: Bytes, reply: Option<Bytes>,
                   statusCode: Option<nat>, statusDescription: Option<Bytes>, headers: Headers, payloadLen: nat)
    | Poisoned

  /** The declared lengths a status carries never exceed the sanity limit. */
  predicate Bounded(st: Status) {
    match st
    case AwaitLine(last) => last < MAX_HEAD_LEN
    case AwaitHeaders(_, _, _, headerLen, payloadLen) => headerLen + payloadLen <= MAX_MSG_LEN
    case AwaitPayload(_, _, _, _, _, _, payloadLen) => payloadLen <= MAX_MSG_LEN
    case Poisoned => true
  }

  // ----- Control lines -----

  /** The subject, id and reply shared by `MSG` and `HMSG`, with the remaining arguments still to parse. */
  datatype Addressed = Addressed(subject: Bytes, subscriptionId: nat, reply: Option<Bytes>)

  function DecodeAddress(subject: Bytes, id: Bytes, reply: Option<Bytes>): Result<Addressed, DecoderError> {
    if !IsUtf8(subject) then Err(SubjectInvalidUtf8)
    else match Uint.Parse(U64_MAX, id)
      case Err(e) => Err(InvalidSubscriptionId(e))
      case Ok(n) =>
        if reply.Some? && !IsUtf8(reply.value) then Err(ReplySubjectInvalidUtf8)
        else Ok(Addressed(subject, n, reply))
  }

  /** `decode_msg`, after the verb. */
  function DecodeMsg(args: Bytes): (r: Result<Status, DecoderError>)
    ensures r.Ok? ==> Bounded(r.value) && r.value.AwaitPayload?
  {
    var t := SplitSpaces.Tokens(args);
    if |t| != 3 && |t| != 4 then Err(InvalidMsgArgsCount)
    else match DecodeAddress(t[0], t[1], if |t| == 4 then Some(t[2]) else None)
      case Err(e) => Err(e)
      case Ok(a) =>
        match Uint.Parse(USIZE_MAX, t[|t| - 1])
        case Err(e) => Err(InvalidPayloadLength(e))
        case Ok(n) =>
          if n > MAX_MSG_LEN then Err(InvalidPayloadLength(Uint.Overflow))
          else Ok(AwaitPayload(a.subscriptionId, a.subject, a.reply, None, None, EMPTY, n))
  }

  /** `decode_hmsg`, after the verb. */
  function DecodeHmsg(args: Bytes): (r: Result<Status, DecoderError>)
    ensures r.Ok? ==> Bounded(r.value) && r.value.AwaitHeaders?
  {
    var t := SplitSpaces.Tokens(args);
    if |t| != 4 && |t| != 5 then Err(InvalidHmsgArgsCount)
    else match DecodeAddress(t[0], t[1], if |t| == 5 then Some(t[2]) else None)
      case Err(e) => Err(e)
      case Ok(a) =>
        match Uint.Parse(USIZE_MAX, t[|t| - 2])
        case Err(e) => Err(InvalidHeaderLength(e))
        case Ok(headerLen) =>
          match Uint.Parse(USIZE_MAX, t[|t| - 1])
          case Err(e) => Err(InvalidPayloadLength(e))
          case Ok(totalLen) =>
            if totalLen > MAX_MSG_LEN then Err(InvalidPayloadLength(Uint.Overflow))
            else if totalLen < headerLen then Err(InvalidTotalLength)
            else Ok(AwaitHeaders(a.subscriptionId, a.subject, a.reply, headerLen, totalLen - headerLen))
  }

  // ----- The header block -----

  predicate IsAsciiWhitespace(b: byte) {
    b == SPACE || b == TAB || b == LF || b == 12 || b == CR
  }

  function TrimStart(s: Bytes): Bytes {
    if s != [] && IsAsciiWhitespace(s[0]) then TrimStart(s[1..]) else s
  }

  function TrimEnd(s: Bytes): Bytes {
    if s != [] && IsAsciiWhitespace(s[|s| - 1]) then TrimEnd(s[..|s| - 1]) else s
  }

  /** `StatusCode::from_ascii_bytes` on three bytes. */
  function DecodeStatusCode(s: Bytes): Result<nat, DecoderError> {
    match Uint.Parse(0xFFFF, s)
    case Ok(n) => if 100 <= n < 1000 then Ok(n) else Err(InvalidStatusCode)
    case Err(_) => Err(InvalidStatusCode)
  }

  /** The first line of the block: the version, then optionally a status code and its description. */
  function DecodeStatusLine(head: Bytes): Result<(Option<nat>, Option<Bytes>), DecoderError> {
    if !StartsWith(head, NATS_HEAD) then Err(InvalidHead)
    else
      var line := head[|NATS_HEAD|..];
      if |line| < 4 then Ok((None, None))
      else match DecodeStatusCode(line[1..4])
        case Err(e) => Err(e)
        case Ok(code) =>
          if |line| == 4 then Ok((Some(code), None))
          else if !IsAsciiWhitespace(line[4]) then Err(InvalidHead)
          else
            var description := TrimEnd(TrimStart(line[5..]));
            if description == [] then Ok((Some(code), None))
            else if !IsUtf8(description) then Err(StatusDescriptionInvalidUtf8)
            else Ok((Some(code), Some(description)))
  }

  /** One `name:value` line; a single leading whitespace of the value is dropped. */
  function DecodeHeaderLine(line: Bytes): Result<(Bytes, Bytes), DecoderError> {
    match FindByte(line, COLON)
    case None => Err(InvalidHeaderLine)
    case Some(i) =>
      var name, raw := line[..i], line[i + 1..];
      var value := if raw != [] && IsAsciiWhitespace(raw[0]) then raw[1..] else raw;
      if !IsUtf8(name) then Err(HeaderNameInvalidUtf8)
      else if name == [] then Err(InvalidHeaderName(NameEmpty))
      else if !ValidName(name) then Err(InvalidHeaderName(NameIllegalCharacter))
      else if !ValidValue(value) then Err(InvalidHeaderValue)
      else Ok((name, value))
  }

  /** The lines after the first, blank ones skipped, appended in order; the first bad line decides the error. */
  function DecodeHeaderLines(lines: seq<Bytes>, h: Headers): (r: Result<Headers, DecoderError>)
    ensures r.Err? ==> !r.error.HeadTooLong?
    decreases |lines|
  {
    if lines == [] then Ok(h)
    else if lines[0] == [] then DecodeHeaderLines(lines[1..], h)
    else match DecodeHeaderLine(lines[0])
      case Err(e) => Err(e)
      case Ok(pair) => DecodeHeaderLines(lines[1..], Append(h, pair.0, pair.1))
  }

  datatype HeaderBlockContents = HeaderBlockContents(code: Option<nat>, description: Option<Bytes>, headers: Headers)

  function DecodeHeaderBlock(block: Bytes): Result<HeaderBlockContents, DecoderError> {
    var lines := LinesIter.Lines(block);
    if lines == [] then Err(MissingHead)
    else match DecodeStatusLine(lines[0])
      case Err(e) => Err(e)
      case Ok(status) =>
        match DecodeHeaderLines(lines[1..], EMPTY)
        case Err(e) => Err(e)
        case Ok(headers) => Ok(HeaderBlockContents(status.0, status.1, headers))
  }

  // ----- One step and one call -----

  /** What one iteration of the decoding loop does. */
  datatype Step =
    | More(status: Status)
    | Emit(op: ServerOp, status: Status, rest: Bytes)
    | Goto(status: Status, rest: Bytes)
    | Fail(error: DecoderError, status: Status, rest: Bytes)

  function ErrorOp(ext: External, quoted: Bytes): Result<ServerOp, DecoderError> {
    if |quoted| < 2 || quoted[0] != QUOTE || quoted[|quoted| - 1] != QUOTE then Err(InvalidErrorMessage)
    else
      var text := quoted[1..|quoted| - 1];
      if !IsUtf8(text) then Err(InvalidErrorMessage) else Ok(Error(ServerError(text, ext.fatality(text))))
  }

  /** A complete control line. `now` is the status it was found in, which is kept unless the line announces a message. */
  function LineStep(ext: External, now: Status, line: Bytes, rest: Bytes): (s: Step)
    requires Bounded(now)
    ensures !s.More? && s.rest == rest && Bounded(s.status)
    ensures s.Goto? ==> !s.status.AwaitLine? && !s.status.Poisoned?
    ensures !s.Goto? ==> s.status == now
    ensures s.Fail? ==> !s.error.HeadTooLong?
  {
    if StartsWith(line, MSG_SP) then
      match DecodeMsg(line[|MSG_SP|..])
      case Ok(st) => Goto(st, rest)
      case Err(e) => Fail(e, now, rest)
    else if StartsWith(line, HMSG_SP) then
      match DecodeHmsg(line[|HMSG_SP|..])
      case Ok(st) => Goto(st, rest)
      case Err(e) => Fail(e, now, rest)
    else if StartsWith(line, PING) then Emit(ServerPing, now, rest)
    else if StartsWith(line, PONG) then Emit(ServerPong, now, rest)
    else if StartsWith(line, OK) then Emit(Success, now, rest)
    else if StartsWith(line, ERR_SP) then
      match ErrorOp(ext, line[|ERR_SP|..])
      case Ok(op) => Emit(op, now, rest)
      case Err(e) => Fail(e, now, rest)
    else if StartsWith(line, INFO_SP) then
      if ext.infoOk(line[|INFO_SP|..]) then Emit(Info(line[|INFO_SP|..]), now, rest) else Fail(InvalidInfo, now, rest)
    else Fail(InvalidCommand, now, rest)
  }

  /** The two states past the control line, and the poisoned one. */
  function BodyStep(st: Status, buf: Bytes): (s: Step)
    requires Bounded(st) && !st.AwaitLine?
    ensures Bounded(s.status)
  {
    match st
    case AwaitHeaders(id, subject, reply, headerLen, payloadLen) =>
      if |buf| < headerLen then More(st)
      else
        (match DecodeHeaderBlock(buf[..headerLen])
         case Ok(c) => Goto(AwaitPayload(id, subject, reply, c.code, c.description, c.headers, payloadLen), buf[headerLen..])
         case Err(e) => Fail(e, Poisoned, buf[headerLen..]))
    case AwaitPayload(id, subject, reply, code, description, headers, payloadLen) =>
      var frameLen := if payloadLen + 2 > USIZE_MAX then USIZE_MAX else payloadLen + 2;
      if |buf| < frameLen then More(st)
      else
        var message := Message(subject, reply, headers, buf[..payloadLen]);
        Emit(Deliver(ServerMessage(code, description, id, message)), AwaitLine(0), buf[payloadLen + 2..])
    case Poisoned => Fail(PoisonedDecoder, Poisoned, buf)
  }

  function DecodeStep(ext: External, st: Status, buf: Bytes): (s: Step)
    requires Bounded(st)
    ensures Bounded(s.status)
  {
    if !st.AwaitLine? then BodyStep(st, buf)
    else if StartsWith(buf, OK_CRLF) then Emit(Success, st, buf[|OK_CRLF|..])
    else if st.lastBytesRead == |buf| then More(st)
    else match FindCrlf(buf)
      case None => if |buf| < MAX_HEAD_LEN then More(AwaitLine(|buf|)) else Fail(HeadTooLong(|buf|), st, buf)
      case Some(i) => LineStep(ext, st, buf[..i], buf[i + 2..])
  }

  /** How far a status is from the end of a message; only the move from headers to payload may consume nothing. */
  function Rank(st: Status): nat {
    match st
    case AwaitHeaders(_, _, _, _, _) => 1
    case _ => 0
  }

  datatype Decoded = Decoded(result: Result<Option<ServerOp>, DecoderError>, status: Status, buf: Bytes)

  /** `decode`: steps until one returns. */
  function Decode(ext: External, st: Status, buf: Bytes): (d: Decoded)
    requires Bounded(st)
    ensures Bounded(d.status)
    decreases |buf|, Rank(st)
  {
    match DecodeStep(ext, st, buf)
    case More(st') => Decoded(Ok(None), st', buf)
    case Emit(op, st', rest) => Decoded(Ok(Some(op)), st', rest)
    case Fail(e, st', rest) => Decoded(Err(e), st', rest)
    case Goto(st', rest) => Decode(ext, st', rest)
  }

  predicate IsSuffix(rest: Bytes, buf: Bytes) {
    |rest| <= |buf| && rest == buf[|buf| - |rest|..]
  }

  lemma SuffixLength(rest: Bytes, buf: Bytes)
    requires IsSuffix(rest, buf)
    ensures |rest| <= |buf|
  {
  }

  lemma SuffixItself(buf: Bytes)
    ensures IsSuffix(buf, buf)
  {
  }

  lemma SuffixOfSuffix(a: Bytes, b: Bytes, c: Bytes)
    requires IsSuffix(a, b) && IsSuffix(b, c)
    ensures IsSuffix(a, c)
  {
  }

  /** The buffer bound that holds whenever the decoder waits for more bytes. */
  predicate Waiting(st: Status, buf: Bytes) {
    && |buf| < MAX_MSG_LEN + 2
    && !st.Poisoned?
    && (st.AwaitLine? ==> |buf| == st.lastBytesRead < MAX_HEAD_LEN)
  }

  lemma StepBounds(ext: External, st: Status, buf: Bytes)
    requires Bounded(st)
    ensures var s := DecodeStep(ext, st, buf);
      && (s.More? ==> Waiting(s.status, buf))
      && (!s.More? ==> IsSuffix(s.rest, buf))
      && (s.Emit? ==> |s.rest| + 2 <= |buf|)
      && (s.Goto? ==> |s.rest| < |buf| || (s.rest == buf && Rank(s.status) < Rank(st)))
  {
  }

  /** Conservation and bounded buffering of one call. */
  lemma {:induction false} DecodeBounds(ext: External, st: Status, buf: Bytes)
    requires Bounded(st)
    ensures var d := Decode(ext, st, buf);
      && IsSuffix(d.buf, buf)
      && (d.result.Ok? && d.result.value.Some? ==> |d.buf| + 2 <= |buf|)
      && (d.result == Ok(None) ==> Waiting(d.status, d.buf))
    decreases |buf|, Rank(st)
  {
    hide DecodeStep, Waiting, IsSuffix;
    var s := DecodeStep(ext, st, buf);
    StepBounds(ext, st, buf);
    if s.Goto? {
      DecodeBounds(ext, s.status, s.rest);
      SuffixLength(s.rest, buf);
      SuffixOfSuffix(Decode(ext, st, buf).buf, s.rest, buf);
    } else if s.More? {
      SuffixItself(buf);
    }
  }

  // ----- A poisoned decoder -----

  /** What a caller does with a decoder: puts bytes read from the socket, or asks for the next operation. */
  datatype Use = Puts(bytes: Bytes) | Asks

  datatype Used = Used(results: seq<Result<Option<ServerOp>, DecoderError>>, status: Status, buf: Bytes)

  function UseDecoder(ext: External, st: Status, buf: Bytes, uses: seq<Use>): Used
    requires Bounded(st)
    decreases |uses|
  {
    if uses == [] then Used([], st, buf)
    else match uses[0]
      case Puts(bytes) => UseDecoder(ext, st, buf + bytes, uses[1..])
      case Asks =>
        var d := Decode(ext, st, buf);
        var later := UseDecoder(ext, d.status, d.buf, uses[1..]);
        later.(results := [d.result] + later.results)
  }

  function AllPut(uses: seq<Use>): Bytes {
    if uses == [] then [] else (if uses[0].Puts? then uses[0].bytes else []) + AllPut(uses[1..])
  }

  function TimesAsked(uses: seq<Use>): nat {
    if uses == [] then 0 else (if uses[0].Asks? then 1 else 0) + TimesAsked(uses[1..])
  }

  lemma {:induction false} PoisonedStays(ext: External, buf: Bytes, uses: seq<Use>)
    ensures var u := UseDecoder(ext, Poisoned, buf, uses);
      && u.status.Poisoned? && u.buf == buf + AllPut(uses)
      && |u.results| == TimesAsked(uses) && forall i :: 0 <= i < |u.results| ==> u.results[i] == Err(PoisonedDecoder)
    decreases |uses|
  {
    if uses != [] {
      match uses[0] {
        case Puts(bytes) => PoisonedStays(ext, buf + bytes, uses[1..]);
        case Asks => PoisonedStays(ext, buf, uses[1..]);
      }
    }
  }

  /** A call poisons the decoder exactly when the header block it waits for is complete and bad. */
  lemma PoisonedBy(ext: External, st: Status, buf: Bytes)
    requires Bounded(st) && !st.AwaitLine?
    ensures Decode(ext, st, buf).status.Poisoned? <==>
      st.Poisoned? || (st.AwaitHeaders? && st.headerLen <= |buf| && DecodeHeaderBlock(buf[..st.headerLen]).Err?)
  {
    hide DecodeHeaderBlock;
    var s := BodyStep(st, buf);
    if s.Goto? {
      assert s.status.AwaitPayload?;
    }
  }

  /**
   * A call past the control line poisons the decoder exactly when the header block it waits for is complete and bad. Once
   * any call has left the decoder poisoned, whatever is read and asked for afterwards, every call is refused, and the
   * buffer keeps what the failing call left in it followed by all bytes read since.
   */
  lemma PoisonAbsorbs(ext: External, st: Status, buf: Bytes, uses: seq<Use>)
    requires Bounded(st)
    ensures var d := Decode(ext, st, buf);
      !st.AwaitLine? ==>
        (d.status.Poisoned? <==>
         st.Poisoned? || (st.AwaitHeaders? && st.headerLen <= |buf| && DecodeHeaderBlock(buf[..st.headerLen]).Err?))
    ensures var d := Decode(ext, st, buf);
      var u := UseDecoder(ext, st, buf, [Asks] + uses);
      d.status.Poisoned? ==>
        && u.status.Poisoned? && u.buf == d.buf + AllPut(uses)
        && |u.results| == 1 + TimesAsked(uses) && u.results[0] == d.result && d.result.Err?
        && forall i :: 1 <= i < |u.results| ==> u.results[i] == Err(PoisonedDecoder)
  {
    hide Decode, DecodeHeaderBlock;
    var d := Decode(ext, st, buf);
    if !st.AwaitLine? {
      PoisonedBy(ext, st, buf);
    }
    if d.status.Poisoned? {
      PoisonIsAnError(ext, st, buf);
      PoisonedStays(ext, d.buf, uses);
      assert ([Asks] + uses)[1..] == uses;
    }
  }

  lemma {:induction false} PoisonIsAnError(ext: External, st: Status, buf: Bytes)
    requires Bounded(st)
    ensures var d := Decode(ext, st, buf); d.status.Poisoned? ==> d.result.Err?
    decreases |buf|, Rank(st)
  {
    hide LineStep, DecodeHeaderBlock;
    var s := DecodeStep(ext, st, buf);
    if s.Goto? {
      PoisonIsAnError(ext, s.status, s.rest);
    }
  }

  /** The decoder with its buffer and status, fed chunk by chunk. */
  class StreamDecoder {
    const ext: External
    var readBuf: Bytes
    var status: Status

    ghost predicate Valid()
      reads this
    {
      Bounded(status)
    }

    constructor (ext: External)
      ensures Valid() && this.ext == ext
      ensures readBuf == [] && status == AwaitLine(0)
    {
      this.ext := ext;
      readBuf := [];
      status := AwaitLine(0);
    }

    /** A read from the socket lands at the end of the buffer. */
    method Put(bytes: Bytes)
      modifies this`readBuf
      ensures readBuf == old(readBuf) + bytes
    {
      readBuf := readBuf + bytes;
    }

    method SplitTo(at: nat) returns (front: Bytes)
      requires at <= |readBuf|
      modifies this`readBuf
      ensures front == old(readBuf)[..at] && readBuf == old(readBuf)[at..]
    {
      front := readBuf[..at];
      readBuf := readBuf[at..];
    }

    /** The loop of `decode`, consuming the buffer and replacing the status in place. */
    method DecodeNext() returns (result: Result<Option<ServerOp>, DecoderError>)
      requires Valid()
      modifies this
      ensures Valid()
      ensures Decoded(result, status, readBuf) == Decode(ext, old(status), old(readBuf))
    {
      while true
        invariant Valid()
        invariant Decode(ext, status, readBuf) == Decode(ext, old(status), old(readBuf))
        decreases |readBuf|, Rank(status)
      {
        ghost var now := readBuf;
        match status {
          case AwaitLine(lastBytesRead) =>
            if StartsWith(readBuf, OK_CRLF) {
              var _ := SplitTo(|OK_CRLF|);
              return Ok(Some(Success));
            }
            if lastBytesRead == |readBuf| {
              return Ok(None);
            }
            var found := FindCrlf(readBuf);
            if found.None? {
              if |readBuf| < MAX_HEAD_LEN {
                status := AwaitLine(|readBuf|);
                return Ok(None);
              }
              return Err(HeadTooLong(|readBuf|));
            }
            var controlLine := SplitTo(found.value + 2);
            controlLine := controlLine[..|controlLine| - 2];
            assert controlLine == now[..found.value];
            var step := LineStep(ext, status, controlLine, readBuf);
            status := step.status;
            match step {
              case Emit(op, _, _) => return Ok(Some(op));
              case Fail(error, _, _) => return Err(error);
              case Goto(_, _) =>
            }
          case AwaitHeaders(_, _, _, headerLen, _) =>
            if |readBuf| < headerLen {
              return Ok(None);
            }
            var failure := DecodeHeaders();
            if failure.Some? {
              return Err(failure.value);
            }
          case AwaitPayload(id, subject, reply, code, description, headers, payloadLen) =>
            if |readBuf| < payloadLen + 2 {
              return Ok(None);
            }
            status := AwaitLine(0);
            var payload := SplitTo(payloadLen);
            var _ := SplitTo(2);
            assert readBuf == now[payloadLen + 2..];
            return Ok(Some(Deliver(ServerMessage(code, description, id, Message(subject, reply, headers, payload)))));
          case Poisoned =>
            return Err(PoisonedDecoder);
        }
      }
    }

    /** `decode_headers`: poisons the status first, and replaces it only when every line was good. */
    method DecodeHeaders() returns (failure: Option<DecoderError>)
      requires Valid() && status.AwaitHeaders? && status.headerLen <= |readBuf|
      modifies this
      ensures Valid()
      ensures BodyStep(old(status), old(readBuf)) ==
        if failure.None? then Goto(status, readBuf) else Fail(failure.value, status, readBuf)
    {
      var was := status;
      status := Poisoned;
      var header := SplitTo(was.headerLen);
      var lines := new LinesIter.LineIterator(header);
      var head := lines.Next();
      if head.None? {
        return Some(MissingHead);
      }
      var statusLine := DecodeStatusLine(head.value);
      if statusLine.Err? {
        return Some(statusLine.error);
      }
      var headers, lineError := CollectHeaders(lines);
      if lineError.Some? {
        return lineError;
      }
      status := AwaitPayload(was.subscriptionId, was.subject, was.reply,
                             statusLine.value.0, statusLine.value.1, headers, was.payloadLen);
      return None;
    }

    /** The `filter`/`map`/`collect` chain over the remaining lines. */
    method CollectHeaders(lines: LinesIter.LineIterator) returns (headers: Headers, failure: Option<DecoderError>)
      modifies lines
      ensures DecodeHeaderLines(LinesIter.Lines(old(lines.bytes)), EMPTY) ==
        if failure.None? then Ok(headers) else Err(failure.value)
    {
      var collected := new HeaderMap();
      headers := EMPTY;
      var line := lines.Next();
      while line.Some?
        invariant collected.Invariant() && fresh(collected)
        invariant line.None? ==> LinesIter.Lines(lines.bytes) == []
        invariant var left := if line.Some? then [line.value] + LinesIter.Lines(lines.bytes) else [];
          DecodeHeaderLines(left, collected.View()) == DecodeHeaderLines(LinesIter.Lines(old(lines.bytes)), EMPTY)
        decreases line.Some?, |lines.bytes|
      {
        ghost var left := [line.value] + LinesIter.Lines(lines.bytes);
        assert left[1..] == LinesIter.Lines(lines.bytes);
        if line.value != [] {
          var pair := DecodeHeaderLine(line.value);
          if pair.Err? {
            return headers, Some(pair.error);
          }
          collected.AppendHeader(pair.value.0, pair.value.1);
        }
        line := lines.Next();
      }
      return collected.View(), None;
    }
  }
}
