/** However the byte stream is cut into reads, the decoder agrees with a parser that sees all of it at once. */
module Fragmentation {
  import opened Wrappers
  import opened ByteStrings
  import opened Decoder
  import ClientOps

  // ----- The reference parser: no memo of bytes already searched, no fast path, no limit on the head -----

  datatype Event = Op(op: ServerOp) | Failed(error: DecoderError)

  datatype Config = Config(events: seq<Event>, status: Status, buf: Bytes)

  function Start(stream: Bytes): Config {
    Config([], AwaitLine(0), stream)
  }

  /** The status without its memo. */
  function Plain(st: Status): Status {
    if st.AwaitLine? then AwaitLine(0) else st
  }

  function RefStep(ext: External, st: Status, buf: Bytes): (s: Step)
    requires Bounded(st)
    ensures Bounded(s.status)
    ensures s.Emit? ==> |s.rest| < |buf|
    ensures s.Goto? ==> |s.rest| < |buf| || (s.rest == buf && Rank(s.status) < Rank(st))
  {
    if !st.AwaitLine? then BodyStep(st, buf)
    else match FindCrlf(buf)
      case None => More(st)
      case Some(i) => LineStep(ext, st, buf[..i], buf[i + 2..])
  }

  predicate Halted(c: Config) {
    c.events != [] && c.events[|c.events| - 1].Failed?
  }

  /** One effective step of the reference parser, if there is one. */
  function RefNext(ext: External, c: Config): (r: Option<Config>)
    requires Bounded(c.status)
    ensures r.Some? ==> Bounded(r.value.status)
  {
    if Halted(c) then None
    else match RefStep(ext, c.status, c.buf)
      case More(_) => None
      case Emit(op, st, rest) => Some(Config(c.events + [Op(op)], st, rest))
      case Goto(st, rest) => Some(Config(c.events, st, rest))
      case Fail(e, st, rest) => Some(Config(c.events + [Failed(e)], st, rest))
  }

  /** The reference parser run until it fails or needs more bytes. */
  function RefAll(ext: External, c: Config): (d: Config)
    requires Bounded(c.status)
    ensures Bounded(d.status)
    decreases !Halted(c), |c.buf|, Rank(c.status)
  {
    match RefNext(ext, c)
    case None => c
    case Some(next) => RefAll(ext, next)
  }

  function ReferenceEvents(ext: External, stream: Bytes): seq<Event> {
    RefAll(ext, Start(stream)).events
  }

  /** `d` is reached from `c` by `n` effective steps. */
  ghost predicate Reaches(ext: External, c: Config, n: nat, d: Config)
    requires Bounded(c.status)
    decreases n
  {
    if n == 0 then c == d
    else RefNext(ext, c).Some? && Reaches(ext, RefNext(ext, c).value, n - 1, d)
  }

  function Extended(c: Config, x: Bytes): Config {
    c.(buf := c.buf + x)
  }

  /** A step that could be taken is taken alike when more bytes follow. */
  lemma RefStepExtends(ext: External, st: Status, buf: Bytes, x: Bytes)
    requires Bounded(st)
    requires !RefStep(ext, st, buf).More?
    ensures var s, s' := RefStep(ext, st, buf), RefStep(ext, st, buf + x);
      && (s.Emit? ==> s' == Emit(s.op, s.status, s.rest + x))
      && (s.Goto? ==> s' == Goto(s.status, s.rest + x))
      && (s.Fail? ==> s' == Fail(s.error, s.status, s.rest + x))
  {
    if st.AwaitLine? {
      FindCrlfExtends(buf, x);
      var i := FindCrlf(buf).value;
      assert (buf + x)[..i] == buf[..i] && (buf + x)[i + 2..] == buf[i + 2..] + x;
      LineStepRest(ext, st, buf[..i], buf[i + 2..], buf[i + 2..] + x);
    } else if st.AwaitHeaders? {
      hide DecodeHeaderBlock;
      assert (buf + x)[..st.headerLen] == buf[..st.headerLen];
      assert (buf + x)[st.headerLen..] == buf[st.headerLen..] + x;
    } else if st.AwaitPayload? {
      assert (buf + x)[..st.payloadLen] == buf[..st.payloadLen];
      assert (buf + x)[st.payloadLen + 2..] == buf[st.payloadLen + 2..] + x;
    }
  }

  lemma LineStepRest(ext: External, st: Status, line: Bytes, rest: Bytes, rest': Bytes)
    requires Bounded(st)
    ensures var s, s' := LineStep(ext, st, line, rest), LineStep(ext, st, line, rest');
      && (s.Emit? ==> s' == Emit(s.op, s.status, rest'))
      && (s.Goto? ==> s' == Goto(s.status, rest'))
      && (s.Fail? ==> s' == Fail(s.error, s.status, rest'))
  {
  }

  lemma RefNextExtends(ext: External, c: Config, x: Bytes)
    requires Bounded(c.status) && RefNext(ext, c).Some?
    ensures RefNext(ext, Extended(c, x)) == Some(Extended(RefNext(ext, c).value, x))
  {
    hide RefStep;
    RefStepExtends(ext, c.status, c.buf, x);
  }

  lemma {:induction false} ReachesExtends(ext: External, c: Config, n: nat, d: Config, x: Bytes)
    requires Bounded(c.status) && Reaches(ext, c, n, d)
    ensures Reaches(ext, Extended(c, x), n, Extended(d, x))
    decreases n
  {
    if n > 0 {
      hide RefNext;
      RefNextExtends(ext, c, x);
      ReachesExtends(ext, RefNext(ext, c).value, n - 1, d, x);
    }
  }

  lemma {:induction false} ReachesTrans(ext: External, c: Config, n: nat, d: Config, m: nat, e: Config)
    requires Bounded(c.status) && Reaches(ext, c, n, d)
    requires Bounded(d.status) && Reaches(ext, d, m, e)
    ensures Reaches(ext, c, n + m, e)
    decreases n
  {
    hide RefNext;
    if n == 0 {
      assert n + m == m;
    } else {
      var next := RefNext(ext, c).value;
      ReachesTrans(ext, next, n - 1, d, m, e);
      assert Reaches(ext, next, n + m - 1, e);
    }
  }

  lemma {:induction false} ReachesBounded(ext: External, c: Config, n: nat, d: Config)
    requires Bounded(c.status) && Reaches(ext, c, n, d)
    ensures Bounded(d.status)
    decreases n
  {
    if n > 0 {
      hide RefNext;
      ReachesBounded(ext, RefNext(ext, c).value, n - 1, d);
    }
  }

  /** Every configuration on the way leads to the same end, and its events are a prefix of the final ones. */
  lemma {:induction false} ReachesSameEnd(ext: External, c: Config, n: nat, d: Config)
    requires Bounded(c.status) && Reaches(ext, c, n, d) && Bounded(d.status)
    ensures RefAll(ext, c) == RefAll(ext, d)
    ensures d.events <= RefAll(ext, c).events
    decreases n
  {
    if n > 0 {
      hide RefNext;
      ReachesSameEnd(ext, RefNext(ext, c).value, n - 1, d);
    } else {
      EventsGrow(ext, d);
    }
  }

  lemma {:induction false} EventsGrow(ext: External, c: Config)
    requires Bounded(c.status)
    ensures c.events <= RefAll(ext, c).events
    decreases !Halted(c), |c.buf|, Rank(c.status)
  {
    hide RefStep;
    var next := RefNext(ext, c);
    if next.Some? {
      EventsGrow(ext, next.value);
    }
  }

  // ----- The decoder against the reference -----

  /** The early return with a complete line in the buffer: a stale memo happens to equal the buffer's length. */
  predicate Stuck(st: Status, buf: Bytes) {
    st.AwaitLine? && st.lastBytesRead == |buf| && FindCrlf(buf).Some? && !StartsWith(buf, OK_CRLF)
  }

  /** The fast path for `+OK` is what the slow path does. */
  lemma FastPathIsSlowPath(ext: External, st: Status, buf: Bytes)
    requires Bounded(st) && st.AwaitLine? && StartsWith(buf, OK_CRLF)
    ensures LineStep(ext, st, buf[..3], buf[5..]) == Emit(Success, st, buf[5..])
    ensures FindCrlf(buf) == Some(3)
  {
    assert buf[..5][3] == CR && buf[..5][4] == LF;
    assert CrlfAt(buf, 3);
    assert forall j :: 0 <= j < 3 ==> buf[j] == OK_CRLF[j];
    assert forall j :: 0 <= j < 3 ==> !CrlfAt(buf, j);
    assert buf[..3] == OK;
    var line := buf[..3];
    assert line[0] == 43;
  }

  /** A line at the front of the buffer is found and handled, whatever follows it and whichever path finds it. */
  lemma LineDecoded(ext: External, last: nat, line: Bytes, rest: Bytes)
    requires LineSafe(line) && last < MAX_HEAD_LEN && last != |line + CRLF + rest|
    ensures DecodeStep(ext, AwaitLine(last), line + CRLF + rest) == LineStep(ext, AwaitLine(last), line, rest)
  {
    var buf := line + CRLF + rest;
    hide LineStep;
    FindCrlfAfterLine(line, rest);
    Parts(line, CRLF, rest);
    if StartsWith(buf, OK_CRLF) {
      FastPathIsSlowPath(ext, AwaitLine(last), buf);
    }
  }

  lemma LineStepPlain(ext: External, st: Status, line: Bytes, rest: Bytes)
    requires Bounded(st) && st.AwaitLine?
    ensures var s, s' := LineStep(ext, st, line, rest), LineStep(ext, AwaitLine(0), line, rest);
      && (s.Emit? ==> s' == Emit(s.op, AwaitLine(0), s.rest))
      && (s.Goto? ==> s' == s)
      && (s.Fail? ==> s' == Fail(s.error, AwaitLine(0), s.rest))
  {
  }

  lemma BodyStepPlain(st: Status, buf: Bytes)
    requires Bounded(st) && !st.AwaitLine?
    ensures var s := BodyStep(st, buf);
      && (s.Emit? || s.Goto? || s.Fail? ==> Plain(s.status) == s.status)
      && (s.Fail? ==> !s.error.HeadTooLong?)
      && (s.More? ==> s.status == st)
  {
  }

  /** One decoding step is the reference step, but for the early return and the head limit. */
  lemma StepAgrees(ext: External, st: Status, buf: Bytes)
    requires Bounded(st)
    ensures var s, r := DecodeStep(ext, st, buf), RefStep(ext, Plain(st), buf);
      && (s.Emit? ==> r == Emit(s.op, Plain(s.status), s.rest))
      && (s.Goto? ==> r == Goto(Plain(s.status), s.rest))
      && (s.Fail? && !s.error.HeadTooLong? ==> r == Fail(s.error, Plain(s.status), s.rest))
      && (s.Fail? && s.error.HeadTooLong? ==>
        st.AwaitLine? && FindCrlf(buf).None? && |buf| >= MAX_HEAD_LEN && s.rest == buf && s.status == st)
      && (s.More? ==> Plain(s.status) == Plain(st) && (r.More? <==> !Stuck(s.status, buf)))
  {
    hide LineStep, BodyStep;
    if st.AwaitLine? {
      if StartsWith(buf, OK_CRLF) {
        FastPathIsSlowPath(ext, AwaitLine(0), buf);
        assert RefStep(ext, AwaitLine(0), buf) == LineStep(ext, AwaitLine(0), buf[..3], buf[5..]);
      } else if FindCrlf(buf).Some? {
        var i := FindCrlf(buf).value;
        LineStepPlain(ext, st, buf[..i], buf[i + 2..]);
      }
    } else {
      BodyStepPlain(st, buf);
    }
  }

  /** The events a call reports to its caller. */
  function EventsOf(r: Result<Option<ServerOp>, DecoderError>): seq<Event> {
    match r
    case Ok(None) => []
    case Ok(Some(op)) => [Op(op)]
    case Err(e) => [Failed(e)]
  }

  predicate TooLong(r: Result<Option<ServerOp>, DecoderError>) {
    r.Err? && r.error.HeadTooLong?
  }

  /** A control line the reference parser is waiting for does not end within the head limit. */
  predicate LongLine(c: Config) {
    c.status.AwaitLine? && |c.buf| >= MAX_HEAD_LEN && FindCrlf(c.buf[..MAX_HEAD_LEN]).None?
  }

  lemma LongLineExtends(c: Config, x: Bytes)
    requires c.status.AwaitLine? && |c.buf| >= MAX_HEAD_LEN && FindCrlf(c.buf).None?
    ensures LongLine(Extended(c, x))
  {
    var b := (c.buf + x)[..MAX_HEAD_LEN];
    forall i
      ensures !CrlfAt(b, i)
    {
      assert !CrlfAt(c.buf, i);
    }
  }

  /** One call of the decoder follows the reference parser. */
  lemma {:induction false} DecodeFollows(ext: External, ev: seq<Event>, st: Status, buf: Bytes) returns (n: nat, d: Config)
    requires Bounded(st)
    requires ev == [] || ev[|ev| - 1].Op?
    ensures Bounded(Plain(st)) && Reaches(ext, Config(ev, Plain(st), buf), n, d)
    ensures var r := Decode(ext, st, buf);
      && d.status == Plain(r.status) && d.buf == r.buf
      && d.events == ev + (if TooLong(r.result) then [] else EventsOf(r.result))
      && (TooLong(r.result) ==> d.status.AwaitLine? && |d.buf| >= MAX_HEAD_LEN && FindCrlf(d.buf).None?)
      && (r.result == Ok(None) ==> Bounded(d.status) && (RefNext(ext, d).None? <==> !Stuck(r.status, r.buf)))
    decreases |buf|, Rank(st)
  {
    hide DecodeStep, RefStep;
    var s := DecodeStep(ext, st, buf);
    var c := Config(ev, Plain(st), buf);
    StepAgrees(ext, st, buf);
    match s {
      case More(_) =>
        n, d := 0, c;
        assert ev + [] == ev;
      case Goto(st', rest) =>
        StepBounds(ext, st, buf);
        n, d := DecodeFollows(ext, ev, st', rest);
        n := n + 1;
      case Emit(op, st', rest) =>
        n, d := 1, Config(ev + [Op(op)], Plain(st'), rest);
        assert Reaches(ext, d, 0, d);
      case Fail(e, st', rest) =>
        if e.HeadTooLong? {
          n, d := 0, c;
          assert ev + [] == ev;
        } else {
          n, d := 1, Config(ev + [Failed(e)], Plain(st'), rest);
          assert Reaches(ext, d, 0, d);
        }
    }
  }

  // ----- Whole sessions -----

  datatype Session = Session(events: seq<Event>, status: Status, buf: Bytes)

  predicate Failing(s: Session) {
    s.events != [] && s.events[|s.events| - 1].Failed?
  }

  /** Decode until nothing comes out, read the next chunk, and so on; the first error ends the session. */
  function ReadSession(ext: External, st: Status, buf: Bytes, chunks: seq<Bytes>): (s: Session)
    requires Bounded(st)
    ensures Bounded(s.status)
    decreases |chunks|, |buf|
  {
    var d := Decode(ext, st, buf);
    DecodeBounds(ext, st, buf);
    match d.result
    case Err(e) => Session([Failed(e)], d.status, d.buf)
    case Ok(Some(op)) =>
      var rest := ReadSession(ext, d.status, d.buf, chunks);
      rest.(events := [Op(op)] + rest.events)
    case Ok(None) =>
      if chunks == [] then Session([], d.status, d.buf)
      else ReadSession(ext, d.status, d.buf + chunks[0], chunks[1..])
  }

  /** A decoder made by `StreamDecoder::new` and fed the given reads. */
  function Run(ext: External, chunks: seq<Bytes>): Session {
    ReadSession(ext, AwaitLine(0), [], chunks)
  }

  predicate TooLongLast(events: seq<Event>) {
    events != [] && events[|events| - 1].Failed? && events[|events| - 1].error.HeadTooLong?
  }

  /** The events but for a head-limit failure, which depends on how the reads are cut. */
  function Parsed(events: seq<Event>): seq<Event> {
    if TooLongLast(events) then events[..|events| - 1] else events
  }

  ghost predicate Follows(ext: External, stream: Bytes, n: nat, d: Config, ev: seq<Event>, s: Session) {
    && Reaches(ext, Start(stream), n, d)
    && Bounded(d.status)
    && d.events == ev + Parsed(s.events)
    && (TooLongLast(s.events) ==> LongLine(d))
    && (Failing(s) && !TooLongLast(s.events) ==> Halted(d))
    && (!Failing(s) ==>
      && d.status == Plain(s.status) && d.buf == s.buf
      && (RefNext(ext, d).None? <==> !Stuck(s.status, s.buf))
      && Waiting(s.status, s.buf))
  }

  lemma {:induction false} SessionFollows(ext: External, done: Bytes, k: nat, ev: seq<Event>,
                                          st: Status, buf: Bytes, chunks: seq<Bytes>) returns (n: nat, d: Config)
    requires Bounded(st)
    requires ev == [] || ev[|ev| - 1].Op?
    requires Reaches(ext, Start(done), k, Config(ev, Plain(st), buf))
    ensures Follows(ext, done + Flatten(chunks), n, d, ev, ReadSession(ext, st, buf, chunks))
    decreases |chunks|, |buf|
  {
    hide Decode, RefNext, Reaches, Follows;
    var r := Decode(ext, st, buf);
    var m, c := DecodeFollows(ext, ev, st, buf);
    DecodeBounds(ext, st, buf);
    ReachesTrans(ext, Start(done), k, Config(ev, Plain(st), buf), m, c);
    assert ev + [] == ev;
    match r.result {
      case Err(e) =>
        n, d := k + m, Extended(c, Flatten(chunks));
        ReachesExtends(ext, Start(done), k + m, c, Flatten(chunks));
        FailureFollows(ext, done + Flatten(chunks), n, c, ev, r, Flatten(chunks));
      case Ok(Some(op)) =>
        n, d := SessionFollows(ext, done, k + m, ev + [Op(op)], r.status, r.buf, chunks);
        PrependFollows(ext, done + Flatten(chunks), n, d, ev, op, ReadSession(ext, r.status, r.buf, chunks));
      case Ok(None) =>
        if chunks == [] {
          n, d := k + m, c;
          assert done + Flatten(chunks) == done;
          WaitingFollows(ext, done, n, d, ev, r);
        } else {
          ReachesExtends(ext, Start(done), k + m, c, chunks[0]);
          n, d := SessionFollows(ext, done + chunks[0], k + m, ev, r.status, r.buf + chunks[0], chunks[1..]);
          assert done + chunks[0] + Flatten(chunks[1..]) == done + Flatten(chunks);
        }
    }
  }

  lemma WaitingFollows(ext: External, stream: Bytes, n: nat, d: Config, ev: seq<Event>, r: Decoded)
    requires Bounded(d.status) && Reaches(ext, Start(stream), n, d)
    requires d == Config(ev, Plain(r.status), r.buf)
    requires (RefNext(ext, d).None? <==> !Stuck(r.status, r.buf)) && Waiting(r.status, r.buf)
    ensures Follows(ext, stream, n, d, ev, Session([], r.status, r.buf))
  {
    hide Reaches, RefNext, Stuck, Waiting;
    assert ev + [] == ev;
  }

  lemma FailureFollows(ext: External, stream: Bytes, n: nat, c: Config, ev: seq<Event>, r: Decoded, x: Bytes)
    requires r.result.Err? && Bounded(c.status) && Reaches(ext, Start(stream), n, Extended(c, x))
    requires c.events == ev + (if TooLong(r.result) then [] else EventsOf(r.result))
    requires TooLong(r.result) ==> c.status.AwaitLine? && |c.buf| >= MAX_HEAD_LEN && FindCrlf(c.buf).None?
    ensures Follows(ext, stream, n, Extended(c, x), ev, Session([Failed(r.result.error)], r.status, r.buf))
  {
    hide Reaches, RefNext, LongLine;
    assert [Failed(r.result.error)][..0] == [];
    if TooLong(r.result) {
      LongLineExtends(c, x);
    }
  }

  lemma PrependFollows(ext: External, stream: Bytes, n: nat, d: Config, ev: seq<Event>, op: ServerOp, rest: Session)
    requires Follows(ext, stream, n, d, ev + [Op(op)], rest)
    ensures Follows(ext, stream, n, d, ev, rest.(events := [Op(op)] + rest.events))
  {
    hide Reaches, RefNext, LongLine, Stuck, Waiting;
    PrependEvent(ev, op, rest.events);
  }

  lemma PrependEvent(ev: seq<Event>, op: ServerOp, events: seq<Event>)
    ensures ev + [Op(op)] + Parsed(events) == ev + Parsed([Op(op)] + events)
    ensures TooLongLast([Op(op)] + events) == TooLongLast(events)
  {
  }

  /** Some control line of the stream does not end within the head limit. */
  ghost predicate HasLongLine(ext: External, stream: Bytes) {
    exists n, d :: Reaches(ext, Start(stream), n, d) && LongLine(d)
  }

  /** What a call from a fresh memo reports is what the reference parser has left to report, unless the head is too long. */
  lemma LeftOver(ext: External, d: Config)
    requires Bounded(d.status) && d.status == AwaitLine(0) && d.buf != []
    requires d.events == [] || d.events[|d.events| - 1].Op?
    requires FindCrlf(d.buf).Some?
    ensures RefAll(ext, d).events == d.events <==> Decode(ext, AwaitLine(0), d.buf).result == Ok(None)
  {
    hide RefStep, DecodeStep, Decode, RefNext;
    var r := Decode(ext, AwaitLine(0), d.buf);
    var n, e := DecodeFollows(ext, d.events, AwaitLine(0), d.buf);
    ReachesBounded(ext, d, n, e);
    ReachesSameEnd(ext, d, n, e);
    NotTooLong(ext, d.buf);
    if r.result == Ok(None) {
      FreshNotStuck(ext, d.buf);
      assert d.events + [] == d.events;
      assert RefAll(ext, e) == e;
    } else {
      assert |e.events| > |d.events|;
    }
  }

  lemma NotTooLong(ext: External, buf: Bytes)
    requires FindCrlf(buf).Some? && buf != []
    ensures !TooLong(Decode(ext, AwaitLine(0), buf).result)
  {
    var s := DecodeStep(ext, AwaitLine(0), buf);
    if s.Goto? {
      BodyNotTooLong(ext, s.status, s.rest);
    }
  }

  lemma {:induction false} BodyNotTooLong(ext: External, st: Status, buf: Bytes)
    requires Bounded(st) && !st.AwaitLine?
    ensures var d := Decode(ext, st, buf); !TooLong(d.result) && (d.result == Ok(None) ==> !d.status.AwaitLine?)
    decreases |buf|, Rank(st)
  {
    var s := BodyStep(st, buf);
    BodyStepPlain(st, buf);
    if s.Goto? {
      BodyNotTooLong(ext, s.status, s.rest);
    }
  }

  lemma FreshNotStuck(ext: External, buf: Bytes)
    requires FindCrlf(buf).Some? && buf != []
    ensures var d := Decode(ext, AwaitLine(0), buf); d.result == Ok(None) ==> !Stuck(d.status, d.buf)
  {
    var s := DecodeStep(ext, AwaitLine(0), buf);
    if s.Goto? {
      BodyNotTooLong(ext, s.status, s.rest);
    }
  }

  /** The buffer's first line announces a message that is not complete: its header block or its payload is still to come. */
  predicate OpenMessage(buf: Bytes) {
    match FindCrlf(buf)
    case None => false
    case Some(i) =>
      var line, rest := buf[..i], buf[i + 2..];
      if StartsWith(line, MSG_SP) then
        match DecodeMsg(line[|MSG_SP|..])
        case Ok(st) => |rest| < st.payloadLen + 2
        case Err(_) => false
      else if StartsWith(line, HMSG_SP) then
        match DecodeHmsg(line[|HMSG_SP|..])
        case Ok(st) =>
          || |rest| < st.headerLen
          || (DecodeHeaderBlock(rest[..st.headerLen]).Ok? && |rest| < st.headerLen + st.payloadLen + 2)
        case Err(_) => false
      else false
  }

  lemma {:induction false} BodyWaits(ext: External, st: Status, buf: Bytes)
    requires Bounded(st) && (st.AwaitHeaders? || st.AwaitPayload?)
    ensures Decode(ext, st, buf).result == Ok(None) <==>
      if st.AwaitPayload? then |buf| < st.payloadLen + 2
      else
        || |buf| < st.headerLen
        || (DecodeHeaderBlock(buf[..st.headerLen]).Ok? && |buf| < st.headerLen + st.payloadLen + 2)
    decreases Rank(st)
  {
    hide DecodeHeaderBlock;
    var s := BodyStep(st, buf);
    if s.Goto? {
      BodyWaits(ext, s.status, s.rest);
    }
  }

  /** A fresh decoder finds nothing in a buffer with a complete line exactly when the line opens a message. */
  lemma WaitsOnOpenMessage(ext: External, buf: Bytes)
    requires FindCrlf(buf).Some? && !StartsWith(buf, OK_CRLF)
    ensures Decode(ext, AwaitLine(0), buf).result == Ok(None) <==> OpenMessage(buf)
  {
    hide DecodeMsg, DecodeHmsg, DecodeHeaderBlock, BodyStep;
    var i := FindCrlf(buf).value;
    var s := LineStep(ext, AwaitLine(0), buf[..i], buf[i + 2..]);
    assert DecodeStep(ext, AwaitLine(0), buf) == s;
    if s.Goto? {
      BodyWaits(ext, s.status, s.rest);
    }
  }

  /**
   * Fragmentation safety. However a stream is cut into reads, the operations decoded are a prefix of those the
   * reference parser finds in the whole stream; an error other than the head limit is the reference parser's own and
   * comes where it does; the head limit is only ever reported for a stream that holds a long line. A session that has
   * not failed has found everything, unless it is stuck on a buffer whose first line is not that of an open message.
   */
  lemma FragmentationSafety(ext: External, chunks: seq<Bytes>)
    ensures var s, all := Run(ext, chunks), ReferenceEvents(ext, Flatten(chunks));
      && Parsed(s.events) <= all
      && (Failing(s) && !TooLongLast(s.events) ==> s.events == all)
      && (TooLongLast(s.events) ==> HasLongLine(ext, Flatten(chunks)))
      && (!Failing(s) ==>
        (s.events == all <==> (Stuck(s.status, s.buf) ==> OpenMessage(s.buf))))
  {
    hide Decode, RefNext, ReadSession, LongLine, OpenMessage;
    var stream := Flatten(chunks);
    var n, d := SessionFollows(ext, [], 0, [], AwaitLine(0), [], chunks);
    assert [] + stream == stream;
    var s := Run(ext, chunks);
    ReachesSameEnd(ext, Start(stream), n, d);
    assert [] + Parsed(s.events) == Parsed(s.events);
    if Failing(s) {
      if !TooLongLast(s.events) {
        assert RefNext(ext, d).None? by {
          HaltedStops(ext, d);
        }
      }
    } else if Stuck(s.status, s.buf) {
      NotFailingEndsInOp(s);
      LeftOver(ext, d);
      WaitsOnOpenMessage(ext, s.buf);
    }
  }

  lemma HaltedStops(ext: External, d: Config)
    requires Bounded(d.status) && Halted(d)
    ensures RefNext(ext, d).None?
  {
  }

  lemma NotFailingEndsInOp(s: Session)
    requires !Failing(s)
    ensures Parsed(s.events) == s.events && (s.events == [] || s.events[|s.events| - 1].Op?)
  {
  }

  /** With every control line within the limit the head-limit error never shows, so all events are the reference's. */
  lemma ShortLinesNeverTooLong(ext: External, chunks: seq<Bytes>)
    requires !HasLongLine(ext, Flatten(chunks))
    ensures Run(ext, chunks).events <= ReferenceEvents(ext, Flatten(chunks))
    ensures Failing(Run(ext, chunks)) ==> Run(ext, chunks).events == ReferenceEvents(ext, Flatten(chunks))
  {
    hide Run, ReferenceEvents;
    FragmentationSafety(ext, chunks);
  }

  /** Any further byte gets past the early return, and the read buffer stays within its bound in every session. */
  lemma FurtherByteUnsticks(ext: External, chunks: seq<Bytes>, x: Bytes)
    requires !Failing(Run(ext, chunks)) && x != []
    ensures var s := Run(ext, chunks);
      && Waiting(s.status, s.buf)
      && !Stuck(s.status, s.buf + x)
      && (s.status.AwaitLine? && FindCrlf(s.buf + x).Some? ==> !DecodeStep(ext, s.status, s.buf + x).More?)
  {
    hide Decode, RefNext, ReadSession, LongLine, LineStep, Reaches;
    var n, d := SessionFollows(ext, [], 0, [], AwaitLine(0), [], chunks) by {
      assert Reaches(ext, Start([]), 0, Start([])) by { ReachesSelf(ext, Start([])); }
    }
    var s := Run(ext, chunks);
    assert s.status.AwaitLine? ==> s.status.lastBytesRead < |s.buf + x|;
  }

  lemma ReachesSelf(ext: External, c: Config)
    requires Bounded(c.status)
    ensures Reaches(ext, c, 0, c)
  {
  }

  // ----- The early return does happen -----

  /** `INFO {`, then `}\r\nPONG\r\n` */
  const INFO_HALF: Bytes := [73, 78, 70, 79, 32, 123]
  const INFO_REST: Bytes := [125, CR, LF, 80, 79, 78, 71, CR, LF]
  const PONG_LINE: Bytes := [80, 79, 78, 71, CR, LF]

  /** Read in these two pieces the PONG stays in the buffer: the memo of the first read equals what the INFO left over. */
  lemma StaleMemoHidesALine(ext: External)
    requires ext.infoOk([123, 125])
    ensures Run(ext, [INFO_HALF, INFO_REST]) == Session([Op(Info([123, 125]))], AwaitLine(6), PONG_LINE)
    ensures Stuck(AwaitLine(6), PONG_LINE)
    ensures Decode(ext, AwaitLine(0), PONG_LINE).result == Ok(Some(ServerPong))
  {
    hide Decode, ReadSession;
    NothingToDecode(ext);
    HalfALine(ext);
    PongLeft(ext);
    ReadOn(ext, AwaitLine(0), [], INFO_HALF, [INFO_REST]);
    assert [INFO_HALF] + [INFO_REST] == [INFO_HALF, INFO_REST] && [] + INFO_HALF == INFO_HALF;
    ReadOn(ext, AwaitLine(0), INFO_HALF, INFO_REST, []);
    assert [INFO_REST] + [] == [INFO_REST];
    assert INFO_HALF + INFO_REST == INFO_SP + [123, 125] + CRLF + PONG_LINE;
    ReadEnds(ext);
  }

  lemma NothingToDecode(ext: External)
    ensures Decode(ext, AwaitLine(0), []) == Decoded(Ok(None), AwaitLine(0), [])
  {
  }

  lemma HalfALine(ext: External)
    ensures Decode(ext, AwaitLine(0), INFO_HALF) == Decoded(Ok(None), AwaitLine(6), INFO_HALF)
  {
    assert FindCrlf(INFO_HALF).None?;
  }

  lemma InfoLine(ext: External, rest: Bytes)
    requires ext.infoOk([123, 125])
    ensures LineStep(ext, AwaitLine(6), INFO_SP + [123, 125], rest) == Emit(Info([123, 125]), AwaitLine(6), rest)
  {
    var line := INFO_SP + [123, 125];
    assert line[..5] == INFO_SP && line[5..] == [123, 125] && line[0] == 73;
  }

  lemma InfoDecoded(ext: External)
    requires ext.infoOk([123, 125])
    ensures Decode(ext, AwaitLine(6), INFO_SP + [123, 125] + CRLF + PONG_LINE)
         == Decoded(Ok(Some(Info([123, 125]))), AwaitLine(6), PONG_LINE)
  {
    hide DecodeStep, LineStep;
    var line := INFO_SP + [123, 125];
    LineDecoded(ext, 6, line, PONG_LINE);
    InfoLine(ext, PONG_LINE);
  }

  lemma PongLine(ext: External, rest: Bytes)
    ensures LineStep(ext, AwaitLine(0), ClientOps.PONG, rest) == Emit(ServerPong, AwaitLine(0), rest)
  {
    var line := ClientOps.PONG;
    assert line[..4] == line && line[0] == 80 && line[1] == 79 && ClientOps.PING[1] == 73;
  }

  lemma PongLeft(ext: External)
    ensures Decode(ext, AwaitLine(6), PONG_LINE) == Decoded(Ok(None), AwaitLine(6), PONG_LINE)
    ensures Decode(ext, AwaitLine(0), PONG_LINE).result == Ok(Some(ServerPong))
    ensures FindCrlf(PONG_LINE) == Some(4)
  {
    assert PONG_LINE == ClientOps.PONG + CRLF + [];
    FindCrlfAfterLine(ClientOps.PONG, []);
    hide LineStep;
    LineDecoded(ext, 0, ClientOps.PONG, []);
    PongLine(ext, []);
  }

  /** A session that decodes nothing takes the next read. */
  lemma ReadOn(ext: External, st: Status, buf: Bytes, chunk: Bytes, rest: seq<Bytes>)
    requires Bounded(st) && Decode(ext, st, buf).result == Ok(None) && Decode(ext, st, buf).buf == buf
    ensures ReadSession(ext, st, buf, [chunk] + rest)
         == ReadSession(ext, Decode(ext, st, buf).status, buf + chunk, rest)
  {
    hide Decode;
    assert ([chunk] + rest)[1..] == rest;
  }

  lemma ReadEnds(ext: External)
    requires ext.infoOk([123, 125])
    ensures ReadSession(ext, AwaitLine(6), INFO_SP + [123, 125] + CRLF + PONG_LINE, [])
         == Session([Op(Info([123, 125]))], AwaitLine(6), PONG_LINE)
  {
    hide Decode;
    InfoDecoded(ext);
    PongLeft(ext);
    assert ReadSession(ext, AwaitLine(6), PONG_LINE, []) == Session([], AwaitLine(6), PONG_LINE);
    assert [Op(Info([123, 125]))] + [] == [Op(Info([123, 125]))];
  }

  // ----- The memo, and the assertion on the fast path -----

  /** One call of a session, with what it was given and what it answered. */
  datatype DecodeCall = DecodeCall(status: Status, buf: Bytes, answer: Decoded)

  /** All the calls of a session, in order. */
  function Calls(ext: External, st: Status, buf: Bytes, chunks: seq<Bytes>): (calls: seq<DecodeCall>)
    requires Bounded(st)
    decreases |chunks|, |buf|
  {
    var d := Decode(ext, st, buf);
    DecodeBounds(ext, st, buf);
    [DecodeCall(st, buf, d)]
    + (match d.result
       case Err(_) => []
       case Ok(Some(_)) => Calls(ext, d.status, d.buf, chunks)
       case Ok(None) => if chunks == [] then [] else Calls(ext, d.status, d.buf + chunks[0], chunks[1..]))
  }

  /** How much of a line was buffered when the session last waited for one, unless a message was delivered since. */
  function Waited(calls: seq<DecodeCall>): nat {
    if calls == [] then 0
    else
      var d := calls[|calls| - 1].answer;
      if d.result == Ok(None) && d.status.AwaitLine? then |d.buf|
      else if d.result.Ok? && d.result.value.Some? && d.result.value.value.Deliver? then 0
      else Waited(calls[..|calls| - 1])
  }

  lemma WaitedSnoc(calls: seq<DecodeCall>, c: DecodeCall)
    ensures Waited(calls + [c]) == (
      if c.answer.result == Ok(None) && c.answer.status.AwaitLine? then |c.answer.buf|
      else if c.answer.result.Ok? && c.answer.result.value.Some? && c.answer.result.value.value.Deliver? then 0
      else Waited(calls))
  {
    assert (calls + [c])[..|calls|] == calls;
  }

  /** What one call does to the memo. */
  lemma {:induction false} CallMemo(ext: External, st: Status, buf: Bytes)
    requires Bounded(st)
    ensures var d := Decode(ext, st, buf);
      && (d.result == Ok(None) && d.status.AwaitLine? ==> d.status.lastBytesRead == |d.buf|)
      && (d.result.Ok? && d.result.value.Some? ==>
        if d.result.value.value.Deliver? then d.status == AwaitLine(0) else st.AwaitLine? && d.status == st)
    decreases |buf|, Rank(st)
  {
    hide DecodeHeaderBlock, DecodeMsg, DecodeHmsg;
    var s := DecodeStep(ext, st, buf);
    if s.Goto? {
      CallMemo(ext, s.status, s.rest);
      BodyDelivers(ext, s.status, s.rest);
    }
  }

  lemma {:induction false} BodyDelivers(ext: External, st: Status, buf: Bytes)
    requires Bounded(st) && !st.AwaitLine?
    ensures var d := Decode(ext, st, buf); d.result.Ok? && d.result.value.Some? ==> d.result.value.value.Deliver?
    decreases |buf|, Rank(st)
  {
    hide DecodeHeaderBlock;
    var s := BodyStep(st, buf);
    if s.Goto? {
      BodyDelivers(ext, s.status, s.rest);
    }
  }

  /** The first call, and what the session does next. */
  lemma CallsCons(ext: External, st: Status, buf: Bytes, chunks: seq<Bytes>)
    requires Bounded(st)
    ensures var d, calls := Decode(ext, st, buf), Calls(ext, st, buf, chunks);
      && calls != [] && calls[0] == DecodeCall(st, buf, d)
      && (d.result.Err? ==> |calls| == 1)
      && (d.result.Ok? && d.result.value.Some? ==> calls[1..] == Calls(ext, d.status, d.buf, chunks))
      && (d.result == Ok(None) ==>
        calls[1..] == if chunks == [] then [] else Calls(ext, d.status, d.buf + chunks[0], chunks[1..]))
  {
    hide Decode;
  }

  lemma {:induction false} MemoAt(ext: External, done: seq<DecodeCall>, st: Status, buf: Bytes, chunks: seq<Bytes>, k: nat)
    requires Bounded(st) && (st.AwaitLine? ==> st.lastBytesRead == Waited(done))
    requires k < |Calls(ext, st, buf, chunks)|
    ensures var calls := Calls(ext, st, buf, chunks);
      calls[k].status.AwaitLine? ==> calls[k].status.lastBytesRead == Waited(done + calls[..k])
    decreases |chunks|, |buf|
  {
    hide Decode, Waited, Calls;
    var d, calls := Decode(ext, st, buf), Calls(ext, st, buf, chunks);
    var c := DecodeCall(st, buf, d);
    CallsCons(ext, st, buf, chunks);
    if k == 0 {
      assert done + calls[..0] == done;
    } else {
      DecodeBounds(ext, st, buf);
      CallMemo(ext, st, buf);
      WaitedSnoc(done, c);
      Regroup(done, calls, k);
      if d.result == Ok(None) {
        MemoAt(ext, done + [c], d.status, d.buf + chunks[0], chunks[1..], k - 1);
      } else {
        MemoAt(ext, done + [c], d.status, d.buf, chunks, k - 1);
      }
    }
  }

  lemma Regroup<T>(done: seq<T>, calls: seq<T>, k: nat)
    requires 0 < k <= |calls|
    ensures done + [calls[0]] + calls[1..][..k - 1] == done + calls[..k]
  {
  }

  /** A call that takes the fast path. */
  predicate TakesFastPath(c: DecodeCall) {
    c.status.AwaitLine? && StartsWith(c.buf, OK_CRLF)
  }

  /**
   * The fast path assumes a memo of zero. It finds one, in any call of any session, exactly when the session never waited
   * on part of a line, or has delivered a message since it last did.
   */
  lemma FastPathMemo(ext: External, chunks: seq<Bytes>, k: nat)
    requires k < |Calls(ext, AwaitLine(0), [], chunks)|
    ensures var calls := Calls(ext, AwaitLine(0), [], chunks);
      TakesFastPath(calls[k]) ==> (calls[k].status.lastBytesRead == 0 <==> Waited(calls[..k]) == 0)
  {
    hide Calls, Waited;
    var calls := Calls(ext, AwaitLine(0), [], chunks);
    assert Waited([]) == 0 by { NothingWaited(); }
    MemoAt(ext, [], AwaitLine(0), [], chunks, k);
    assert [] + calls[..k] == calls[..k];
  }

  lemma NothingWaited()
    ensures Waited([]) == 0
  {
  }

  /** So the assumption fails when `+O` and `K\r\n` arrive in two reads: the third call takes the fast path with memo 2. */
  lemma SplitOkMemo(ext: External)
    ensures var calls := Calls(ext, AwaitLine(0), [], [[43, 79], [75, CR, LF]]);
      |calls| >= 3 && TakesFastPath(calls[2]) && calls[2].status == AwaitLine(2)
  {
    hide Decode, Calls;
    var halves: seq<Bytes> := [[43, 79], [75, CR, LF]];
    NothingToDecode(ext);
    HalfAnOk(ext);
    CallsCons(ext, AwaitLine(0), [], halves);
    assert [] + halves[0] == [43, 79] && halves[1..] == [[75, CR, LF]];
    CallsCons(ext, AwaitLine(0), [43, 79], [[75, CR, LF]]);
    assert [43, 79] + [75, CR, LF] == OK_CRLF && OK_CRLF[..|OK_CRLF|] == OK_CRLF;
    CallsCons(ext, AwaitLine(2), OK_CRLF, [[75, CR, LF]][1..]);
  }

  lemma HalfAnOk(ext: External)
    ensures Decode(ext, AwaitLine(0), [43, 79]) == Decoded(Ok(None), AwaitLine(2), [43, 79])
  {
    var buf: Bytes := [43, 79];
    assert FindCrlf(buf).None?;
  }

  // ----- The head limit depends on the cut -----

  /** A call refuses a head as too long exactly when it waits for a line and finds no CRLF in a buffer past the limit. */
  lemma HeadTooLongExactly(ext: External, st: Status, buf: Bytes)
    requires Bounded(st)
    ensures TooLong(Decode(ext, st, buf).result) <==> st.AwaitLine? && |buf| >= MAX_HEAD_LEN && FindCrlf(buf).None?
    ensures TooLong(Decode(ext, st, buf).result) ==> Decode(ext, st, buf) == Decoded(Err(HeadTooLong(|buf|)), st, buf)
  {
    hide LineStep, BodyStep;
    if !st.AwaitLine? {
      BodyNotTooLong(ext, st, buf);
    } else {
      var s := DecodeStep(ext, st, buf);
      if StartsWith(buf, OK_CRLF) {
        FastPathIsSlowPath(ext, st, buf);
      } else if s.Goto? {
        BodyNotTooLong(ext, s.status, s.rest);
      }
    }
  }

  /** A PING line as long as the limit is answered when its end comes in the same read, and refused when it comes later. */
  lemma CutDecidesHeadLimit(ext: External, line: Bytes)
    requires StartsWith(line, ClientOps.PING) && LineSafe(line) && |line| >= MAX_HEAD_LEN
    ensures Run(ext, [line + CRLF]).events == [Op(ServerPing)]
    ensures Run(ext, [line, CRLF]).events == [Failed(HeadTooLong(|line|))]
  {
    hide Decode, ReadSession;
    NothingToDecode(ext);
    assert [] + (line + CRLF) == line + CRLF && [] + line == line;
    assert [line + CRLF] + [] == [line + CRLF] && [line] + [CRLF] == [line, CRLF];
    ReadOn(ext, AwaitLine(0), [], line + CRLF, []);
    ReadOn(ext, AwaitLine(0), [], line, [CRLF]);
    LongPingDecoded(ext, line);
    LongPingRefused(ext, line);
    SessionEndsIn(ext, AwaitLine(0), line + CRLF, ServerPing);
    SessionFails(ext, AwaitLine(0), line, [CRLF]);
  }

  lemma LongPingDecoded(ext: External, line: Bytes)
    requires StartsWith(line, ClientOps.PING) && LineSafe(line)
    ensures Decode(ext, AwaitLine(0), line + CRLF) == Decoded(Ok(Some(ServerPing)), AwaitLine(0), [])
  {
    hide LineStep, DecodeStep;
    assert line + CRLF + [] == line + CRLF;
    LineDecoded(ext, 0, line, []);
    PingLine(ext, line, []);
  }

  lemma PingLine(ext: External, line: Bytes, rest: Bytes)
    requires StartsWith(line, ClientOps.PING)
    ensures LineStep(ext, AwaitLine(0), line, rest) == Emit(ServerPing, AwaitLine(0), rest)
  {
    assert line[0] == line[..4][0] == 80;
  }

  lemma LongPingRefused(ext: External, line: Bytes)
    requires LineSafe(line) && |line| >= MAX_HEAD_LEN
    ensures Decode(ext, AwaitLine(0), line) == Decoded(Err(HeadTooLong(|line|)), AwaitLine(0), line)
  {
    hide Decode;
    assert forall i :: !CrlfAt(line, i);
    HeadTooLongExactly(ext, AwaitLine(0), line);
  }

  lemma SessionEndsIn(ext: External, st: Status, buf: Bytes, op: ServerOp)
    requires Bounded(st) && Decode(ext, st, buf) == Decoded(Ok(Some(op)), AwaitLine(0), [])
    ensures ReadSession(ext, st, buf, []).events == [Op(op)]
  {
    hide Decode;
    NothingToDecode(ext);
    assert ReadSession(ext, AwaitLine(0), [], []).events == [];
  }

  lemma SessionFails(ext: External, st: Status, buf: Bytes, chunks: seq<Bytes>)
    requires Bounded(st) && Decode(ext, st, buf).result.Err?
    ensures ReadSession(ext, st, buf, chunks).events == [Failed(Decode(ext, st, buf).result.error)]
  {
    hide Decode;
  }

  /** Such lines exist. */
  lemma LongPingExists() returns (line: Bytes)
    ensures StartsWith(line, ClientOps.PING) && LineSafe(line) && |line| >= MAX_HEAD_LEN
  {
    line := ClientOps.PING + seq(MAX_HEAD_LEN, _ => SPACE);
    assert line[..4] == ClientOps.PING;
  }
}
