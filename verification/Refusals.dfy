/** Which input the decoder refuses, and the error it answers: the counterpart of `Spelling`. */
module Refusals {
  import opened Wrappers
  import opened ByteStrings
  import opened Decoder
  import opened Utf8
  import opened RoundTrip
  import opened Fragmentation
  import opened HeaderBlocks
  import opened Spelling
  import LinesIter
  import SplitSpaces
  import Uint

  // ----- The arguments of a message -----

  predicate IsNumber(max: nat, s: Bytes) {
    s != [] && Uint.AllDigits(s) && Uint.Value(s) <= max
  }

  /** Subject, id and reply are each readable. */
  predicate AddressReadable(subject: Bytes, id: Bytes, reply: Option<Bytes>) {
    ReadableSubjects(subject, reply) && IsNumber(U64_MAX, id)
  }

  /** The first unreadable one of them decides. */
  ghost predicate AddressRefused(subject: Bytes, id: Bytes, reply: Option<Bytes>, e: DecoderError) {
    match e
    case SubjectInvalidUtf8 => !IsUtf8(subject)
    case InvalidSubscriptionId(cause) => IsUtf8(subject) && Uint.Refused(U64_MAX, id, cause)
    case ReplySubjectInvalidUtf8 => IsUtf8(subject) && IsNumber(U64_MAX, id) && !ReadableSubjects(subject, reply)
    case _ => false
  }

  /** No number of the machine, or one past the sanity limit. */
  ghost predicate LengthRefused(s: Bytes, cause: Uint.ParseUintError) {
    Uint.Refused(USIZE_MAX, s, cause) || (cause == Uint.Overflow && IsNumber(USIZE_MAX, s) && Uint.Value(s) > MAX_MSG_LEN)
  }

  ghost predicate MsgRefused(args: Bytes, e: DecoderError) {
    var t := SplitSpaces.Tokens(args);
    if |t| != 3 && |t| != 4 then e == InvalidMsgArgsCount
    else
      var reply, size := if |t| == 4 then Some(t[2]) else None, t[|t| - 1];
      || AddressRefused(t[0], t[1], reply, e)
      || (AddressReadable(t[0], t[1], reply) && e.InvalidPayloadLength? && LengthRefused(size, e.cause))
  }

  ghost predicate HmsgRefused(args: Bytes, e: DecoderError) {
    var t := SplitSpaces.Tokens(args);
    if |t| != 4 && |t| != 5 then e == InvalidHmsgArgsCount
    else
      var reply, head, total := if |t| == 5 then Some(t[2]) else None, t[|t| - 2], t[|t| - 1];
      || AddressRefused(t[0], t[1], reply, e)
      || (AddressReadable(t[0], t[1], reply) && LengthsRefused(head, total, e))
  }

  /** The header length, then the total, then the two together. */
  ghost predicate LengthsRefused(head: Bytes, total: Bytes, e: DecoderError) {
    match e
    case InvalidHeaderLength(cause) => Uint.Refused(USIZE_MAX, head, cause)
    case InvalidPayloadLength(cause) => IsNumber(USIZE_MAX, head) && LengthRefused(total, cause)
    case InvalidTotalLength =>
      IsNumber(USIZE_MAX, head) && IsNumber(MAX_MSG_LEN, total) && Uint.Value(total) < Uint.Value(head)
    case _ => false
  }

  lemma NumberExact(max: nat, s: Bytes)
    ensures Uint.Parse(max, s).Ok? <==> IsNumber(max, s)
    ensures IsNumber(max, s) ==> Uint.Parse(max, s) == Ok(Uint.Value(s))
    ensures forall cause :: Uint.Parse(max, s) == Err(cause) <==> Uint.Refused(max, s, cause)
  {
    var r := Uint.Parse(max, s);
    if r.Ok? {
      Uint.ParseOk(max, s, r.value);
    }
    if IsNumber(max, s) {
      Uint.ParseOk(max, s, Uint.Value(s));
    }
    forall cause
      ensures r == Err(cause) <==> Uint.Refused(max, s, cause)
    {
      Uint.ParseRefused(max, s, cause);
    }
  }

  lemma AddressExact(subject: Bytes, id: Bytes, reply: Option<Bytes>)
    ensures DecodeAddress(subject, id, reply).Ok? <==> AddressReadable(subject, id, reply)
    ensures forall e :: DecodeAddress(subject, id, reply) == Err(e) <==> AddressRefused(subject, id, reply, e)
  {
    hide IsUtf8, Uint.Parse, Uint.Refused, IsNumber;
    NumberExact(U64_MAX, id);
  }

  lemma LargeNumber(s: Bytes)
    ensures IsNumber(MAX_MSG_LEN, s) <==> IsNumber(USIZE_MAX, s) && Uint.Value(s) <= MAX_MSG_LEN
  {
  }

  /** The arguments of MSG are refused exactly when there are too few or many, or with the error of the first bad one. */
  lemma MsgRefusedExactly(args: Bytes, e: DecoderError)
    ensures DecodeMsg(args) == Err(e) <==> MsgRefused(args, e)
  {
    hide SplitSpaces.Tokens, DecodeAddress, AddressReadable, AddressRefused, IsUtf8, Uint.Parse, Uint.Refused, IsNumber;
    var t := SplitSpaces.Tokens(args);
    if |t| == 3 || |t| == 4 {
      AddressExact(t[0], t[1], if |t| == 4 then Some(t[2]) else None);
      NumberExact(USIZE_MAX, t[|t| - 1]);
    }
  }

  lemma HmsgRefusedExactly(args: Bytes, e: DecoderError)
    ensures DecodeHmsg(args) == Err(e) <==> HmsgRefused(args, e)
  {
    hide SplitSpaces.Tokens, DecodeAddress, AddressReadable, AddressRefused, IsUtf8, Uint.Parse, Uint.Refused, IsNumber;
    var t := SplitSpaces.Tokens(args);
    if |t| == 4 || |t| == 5 {
      AddressExact(t[0], t[1], if |t| == 5 then Some(t[2]) else None);
      NumberExact(USIZE_MAX, t[|t| - 2]);
      NumberExact(USIZE_MAX, t[|t| - 1]);
      LargeNumber(t[|t| - 1]);
    }
  }

  // ----- The control line -----

  ghost predicate LineRefused(ext: External, line: Bytes, e: DecoderError) {
    || (!KnownVerb(line) && e == InvalidCommand)
    || (StartsWith(line, MSG_SP) && MsgRefused(line[|MSG_SP|..], e))
    || (StartsWith(line, HMSG_SP) && HmsgRefused(line[|HMSG_SP|..], e))
    || (StartsWith(line, ERR_SP) && e == InvalidErrorMessage && !QuotedText(line))
    || (StartsWith(line, INFO_SP) && e == InvalidInfo && !ext.infoOk(line[|INFO_SP|..]))
  }

  ghost predicate QuotedText(line: Bytes) {
    exists text: Bytes :: line == ERR_SP + [QUOTE] + text + [QUOTE] && IsUtf8(text)
  }

  lemma ErrorRefused(ext: External, line: Bytes)
    requires StartsWith(line, ERR_SP)
    ensures ErrorOp(ext, line[|ERR_SP|..]).Err? <==> !QuotedText(line)
    ensures ErrorOp(ext, line[|ERR_SP|..]).Err? ==> ErrorOp(ext, line[|ERR_SP|..]) == Err(InvalidErrorMessage)
  {
    hide ErrorOp, IsUtf8;
    var r := ErrorOp(ext, line[|ERR_SP|..]);
    ErrorSpelled(ext, line, Success);
    if r.Ok? {
      ErrorSpelled(ext, line, r.value);
    }
    forall text: Bytes | line == ERR_SP + [QUOTE] + text + [QUOTE] && IsUtf8(text)
      ensures r.Ok?
    {
      ErrorSpelled(ext, line, Error(ServerError(text, ext.fatality(text))));
    }
  }

  lemma LineRefusedExactly(ext: External, now: Status, line: Bytes, rest: Bytes, e: DecoderError)
    requires Bounded(now)
    ensures LineStep(ext, now, line, rest) == Fail(e, now, rest) <==> LineRefused(ext, line, e)
  {
    hide DecodeMsg, DecodeHmsg, ErrorOp, MsgRefused, HmsgRefused, QuotedText, StartsWith;
    OneVerb(line);
    if StartsWith(line, MSG_SP) {
      MsgRefusedExactly(line[|MSG_SP|..], e);
    }
    if StartsWith(line, HMSG_SP) {
      HmsgRefusedExactly(line[|HMSG_SP|..], e);
    }
    if StartsWith(line, ERR_SP) {
      ErrorRefused(ext, line);
    }
  }

  // ----- One call -----

  /** The buffer starts with a line that is refused and dropped; the decoder still waits for a line. */
  ghost predicate LineRefusedIn(ext: External, buf: Bytes, e: DecoderError, left: Bytes) {
    exists line: Bytes :: buf == line + CRLF + left && LinesIter.CrlfFree(line) && LineRefused(ext, line, e)
  }

  /** The buffer starts with a line announcing a header block that is complete and refused; both are dropped. */
  ghost predicate BlockRefusedIn(buf: Bytes, e: DecoderError, left: Bytes) {
    exists line: Bytes, block: Bytes ::
      buf == line + CRLF + (block + left) && LinesIter.CrlfFree(line) && BlockRefusedAfter(line, block, e)
  }

  ghost predicate BlockRefusedAfter(line: Bytes, block: Bytes, e: DecoderError) {
    exists st: Status :: Announces(line, st) && st.AwaitHeaders? && st.headerLen == |block| && BlockRefused(block, e)
  }

  /** A head past the limit without an end in sight; it stays. */
  predicate HeadTooLongIn(buf: Bytes, e: DecoderError, left: Bytes) {
    FindCrlf(buf).None? && |buf| >= MAX_HEAD_LEN && e == HeadTooLong(|buf|) && left == buf
  }

  lemma AnnouncedFails(ext: External, line: Bytes, st: Status, rest: Bytes, e: DecoderError, left: Bytes)
    requires Bounded(st) && Announces(line, st)
    ensures var d := Decode(ext, st, rest);
      && (d.result.Err? ==> d.status.Poisoned?)
      && (d.result == Err(e) && d.buf == left <==>
        && st.AwaitHeaders? && st.headerLen <= |rest| && left == rest[st.headerLen..]
        && BlockRefused(rest[..st.headerLen], e))
  {
    hide DecodeHeaderBlock, BlockRefused, MsgLine, HmsgLine, ReadableSubjects, StartsWith;
    if st.AwaitHeaders? && st.headerLen <= |rest| {
      BlockRefusedExactly(rest[..st.headerLen], e);
      var s := BodyStep(st, rest);
      if s.Goto? {
        assert s.status.AwaitPayload?;
      }
    }
  }

  /** What follows an announcing line is a refused block and the bytes left, cut where the line says. */
  lemma BlockCut(line: Bytes, st: Status, rest: Bytes, e: DecoderError, left: Bytes)
    requires Announces(line, st) && forall st' :: Announces(line, st') ==> st' == st
    ensures (exists block: Bytes :: rest == block + left && BlockRefusedAfter(line, block, e)) <==>
      && st.AwaitHeaders? && st.headerLen <= |rest| && left == rest[st.headerLen..]
      && BlockRefused(rest[..st.headerLen], e)
  {
    hide Announces, BlockRefused;
    forall block: Bytes | rest == block + left && BlockRefusedAfter(line, block, e)
      ensures
        && st.AwaitHeaders? && st.headerLen <= |rest| && left == rest[st.headerLen..]
        && BlockRefused(rest[..st.headerLen], e)
    {
      assert rest[..|block|] == block;
    }
    if st.AwaitHeaders? && st.headerLen <= |rest| && left == rest[st.headerLen..] && BlockRefused(rest[..st.headerLen], e) {
      var block := rest[..st.headerLen];
      assert rest == block + left && BlockRefusedAfter(line, block, e);
    }
  }

  lemma LineThenFails(ext: External, last: nat, line: Bytes, rest: Bytes, e: DecoderError, left: Bytes)
    requires LinesIter.CrlfFree(line) && last < MAX_HEAD_LEN && last != |line + CRLF + rest|
    ensures var d := Decode(ext, AwaitLine(last), line + CRLF + rest);
      && (d == Decoded(Err(e), AwaitLine(last), left) <==> left == rest && LineRefused(ext, line, e))
      && (d == Decoded(Err(e), Poisoned, left) <==>
        exists block: Bytes :: rest == block + left && BlockRefusedAfter(line, block, e))
      && (d.result.Err? ==> d.status == AwaitLine(last) || d.status == Poisoned)
  {
    hide LineStep, DecodeStep, LineRefused, Announces, BlockRefused;
    var now, buf := AwaitLine(last), line + CRLF + rest;
    LineFound(ext, last, line, rest);
    EmittedAsIs(ext, now, line, rest);
    var s := LineStep(ext, now, line, rest);
    LineRefusedExactly(ext, now, line, rest, e);
    forall st: Status | Announces(line, st)
      ensures s == Goto(st, rest)
    {
      AnnounceExact(ext, now, line, rest, st);
    }
    if s.Goto? {
      AnnounceExact(ext, now, line, rest, s.status);
      AnnouncedFails(ext, line, s.status, rest, e, left);
      BlockCut(line, s.status, rest, e, left);
      assert Decode(ext, now, buf) == Decode(ext, s.status, rest);
    }
  }

  lemma NoLineFails(ext: External, last: nat, buf: Bytes, e: DecoderError, left: Bytes)
    requires last < MAX_HEAD_LEN && FindCrlf(buf).None?
    ensures var d := Decode(ext, AwaitLine(last), buf);
      && (d == Decoded(Err(e), AwaitLine(last), left) <==> HeadTooLongIn(buf, e, left))
      && (d.result.Err? ==> d.status == AwaitLine(last))
  {
    if StartsWith(buf, OK_CRLF) {
      FastPathIsSlowPath(ext, AwaitLine(last), buf);
    }
  }

  lemma NoLineHere(line: Bytes, rest: Bytes)
    requires LinesIter.CrlfFree(line)
    ensures FindCrlf(line + CRLF + rest).Some?
  {
    LinesIter.FindCrlfFree(line, rest);
  }

  /**
   * One call that waits for a line answers an error exactly when the head is past the limit without an end, or the buffer
   * starts with a line that is refused, or with a message whose complete header block is. In the first case nothing is
   * consumed, in the second the line, in the third the line and the block, and only then the decoder is poisoned.
   */
  lemma RefusedExactly(ext: External, last: nat, buf: Bytes, e: DecoderError, left: Bytes)
    requires last < MAX_HEAD_LEN && last != |buf|
    ensures var d := Decode(ext, AwaitLine(last), buf);
      && (d == Decoded(Err(e), AwaitLine(last), left) <==>
        HeadTooLongIn(buf, e, left) || LineRefusedIn(ext, buf, e, left))
      && (d == Decoded(Err(e), Poisoned, left) <==> BlockRefusedIn(buf, e, left))
      && (d.result.Err? ==> d.status == AwaitLine(last) || d.status == Poisoned)
  {
    hide Decode, LineRefused, BlockRefusedAfter;
    var found := FindCrlf(buf);
    if found.None? {
      NoLineFails(ext, last, buf, e, left);
      forall line: Bytes, rest: Bytes | LinesIter.CrlfFree(line)
        ensures buf != line + CRLF + rest
      {
        NoLineHere(line, rest);
      }
    } else {
      var line, rest := buf[..found.value], buf[found.value + 2..];
      LinesIter.PrefixCrlfFree(buf, found.value);
      LinesIter.CutAt(buf, found.value);
      LineThenFails(ext, last, line, rest, e, left);
      hide LineRefusedIn, BlockRefusedIn;
      LineCutOnce(ext, line, rest, e, left);
      BlockCutOnce(line, rest, e, left);
      NotTooLong(buf, e, left);
    }
  }

  lemma NotTooLong(buf: Bytes, e: DecoderError, left: Bytes)
    requires FindCrlf(buf).Some?
    ensures !HeadTooLongIn(buf, e, left)
  {
  }

  lemma SameCut(line: Bytes, rest: Bytes, line': Bytes, rest': Bytes)
    requires LinesIter.CrlfFree(line) && LinesIter.CrlfFree(line') && line + CRLF + rest == line' + CRLF + rest'
    ensures line == line' && rest == rest'
  {
    LinesIter.FindCrlfFree(line, rest);
    LinesIter.FindCrlfFree(line', rest');
    Parts(line, CRLF, rest);
    Parts(line', CRLF, rest');
  }

  lemma LineCutOnce(ext: External, line: Bytes, rest: Bytes, e: DecoderError, left: Bytes)
    requires LinesIter.CrlfFree(line)
    ensures LineRefusedIn(ext, line + CRLF + rest, e, left) <==> left == rest && LineRefused(ext, line, e)
  {
    hide LineRefused, LinesIter.CrlfFree;
    forall line': Bytes | line + CRLF + rest == line' + CRLF + left && LinesIter.CrlfFree(line')
      ensures line' == line && left == rest
    {
      SameCut(line, rest, line', left);
    }
  }

  lemma BlockCutOnce(line: Bytes, rest: Bytes, e: DecoderError, left: Bytes)
    requires LinesIter.CrlfFree(line)
    ensures BlockRefusedIn(line + CRLF + rest, e, left) <==>
      exists block: Bytes :: rest == block + left && BlockRefusedAfter(line, block, e)
  {
    hide BlockRefusedAfter, LinesIter.CrlfFree;
    forall line': Bytes, block: Bytes |
      line + CRLF + rest == line' + CRLF + (block + left) && LinesIter.CrlfFree(line')
      ensures line' == line && rest == block + left
    {
      SameCut(line, rest, line', block + left);
    }
  }
}
