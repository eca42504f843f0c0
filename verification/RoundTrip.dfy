/** What is printed is read back: header blocks, client frames, streams of frames, and published messages. */
module RoundTrip {
  import opened Wrappers
  import opened ByteStrings
  import opened HeaderMaps
  import opened ClientOps
  import opened Decoder
  import opened Utf8
  import opened Server
  import opened SplitSpaces
  import LinesIter
  import Subjects
  import Uint

  /** A map whose names and values passed their validators. */
  predicate ValidHeaders(h: Headers) {
    && HeaderMaps.Valid(h)
    && forall i :: 0 <= i < |h.entries| ==> ValidEntry(h.entries[i])
  }

  predicate ValidEntry(e: Entry) {
    ValidName(e.name) && forall j :: 0 <= j < |e.values.Items()| ==> ValidValue(e.values.Items()[j])
  }

  predicate ValidSubject(s: Bytes) {
    Subjects.Valid(s) && IsUtf8(s)
  }

  predicate ValidMessage(m: Message) {
    && ValidSubject(m.subject)
    && (m.reply.Some? ==> ValidSubject(m.reply.value))
    && ValidHeaders(m.headers)
    && BodyLen(m) <= USIZE_MAX
  }

  /** The length a publication declares: the payload, and the header block when there are headers. */
  function BodyLen(m: Message): nat {
    (if m.headers.entries == [] then 0 else |HeaderBlock(m.headers)|) + |m.payload|
  }

  /** What the types of an operation guarantee about its parts. */
  predicate ValidOp(op: ClientOp) {
    match op
    case Connect(json) => LineSafe(json)
    case Publish(m) => ValidMessage(m)
    case Subscribe(id, subject, queueGroup) =>
      id <= U64_MAX && ValidSubject(subject) && (queueGroup.Some? ==> Subjects.ValidQueueGroup(queueGroup.value))
    case Unsubscribe(id, max) => id <= U64_MAX && (max.Some? ==> max.value <= U64_MAX)
    case Ping => true
    case Pong => true
  }

  // ----- The header block -----

  predicate GoodPair(p: (Bytes, Bytes)) {
    ValidName(p.0) && ValidValue(p.1)
  }

  lemma {:induction false} PairsAreGood(e: seq<Entry>)
    requires forall i :: 0 <= i < |e| ==> ValidEntry(e[i])
    ensures forall i :: 0 <= i < |Pairs(e)| ==> GoodPair(Pairs(e)[i])
  {
    if e != [] {
      PairsAreGood(e[..|e| - 1]);
    }
  }

  lemma HeaderLineSafe(p: (Bytes, Bytes))
    requires GoodPair(p)
    ensures LineSafe(HeaderLine(p)) && HeaderLine(p) != []
  {
    LineSafeConcat(p.0, COLON_SP);
    LineSafeConcat(p.0 + COLON_SP, p.1);
  }

  /** One header line round-trips, for empty values and for values that start with a space too. */
  lemma HeaderLineRoundTrip(p: (Bytes, Bytes))
    requires GoodPair(p)
    ensures DecodeHeaderLine(HeaderLine(p)) == Ok(p)
  {
    hide IsUtf8;
    var (name, value) := p;
    var line := name + [COLON] + ([SPACE] + value);
    assert HeaderLine(p) == line;
    Parts(name, [COLON], [SPACE] + value);
    assert line[|name|] == COLON;
    assert forall j :: 0 <= j < |name| ==> line[j] == name[j];
    assert FindByte(line, COLON) == Some(|name|);
    assert ([SPACE] + value)[1..] == value;
    AsciiIsUtf8(name);
  }

  lemma {:induction false} HeaderLinesRoundTrip(pairs: seq<(Bytes, Bytes)>, h: Headers)
    requires forall i :: 0 <= i < |pairs| ==> GoodPair(pairs[i])
    ensures DecodeHeaderLines(HeaderLines(pairs) + [[]], h) == Ok(Collect(h, pairs))
    decreases |pairs|
  {
    hide DecodeHeaderLine, Append;
    var lines := HeaderLines(pairs) + [[]];
    if pairs == [] {
      assert lines == [[]];
      assert lines[1..] == [];
      assert DecodeHeaderLines([], h) == Ok(h);
    } else {
      HeaderLineRoundTrip(pairs[0]);
      HeaderLineSafe(pairs[0]);
      assert lines[1..] == HeaderLines(pairs[1..]) + [[]];
      HeaderLinesRoundTrip(pairs[1..], Append(h, pairs[0].0, pairs[0].1));
    }
  }

  /** A header block's first line: the version, then optionally a status code and its description. */
  function StatusLine(code: Option<nat>, description: Option<Bytes>): Bytes {
    NATS_HEAD
    + if code.Some? then SP + Uint.Print(code.value) + (if description.Some? then SP + description.value else []) else []
  }

  /** The header block of a server message. */
  function StatusBlock(code: Option<nat>, description: Option<Bytes>, h: Headers): Bytes {
    LinesIter.Unlines([StatusLine(code, description)] + HeaderLines(Pairs(h.entries)) + [[]], [])
  }

  predicate ValidStatus(code: Option<nat>, description: Option<Bytes>) {
    && (code.Some? ==> 100 <= code.value < 1000)
    && (description.Some? ==> code.Some? && ValidDescription(description.value))
  }

  /** A description without surrounding whitespace. */
  predicate ValidDescription(d: Bytes) {
    && d != [] && IsUtf8(d) && LineSafe(d)
    && !IsAsciiWhitespace(d[0]) && !IsAsciiWhitespace(d[|d| - 1])
  }

  lemma ThreeDigits(n: nat)
    requires 100 <= n < 1000
    ensures |Uint.Print(n)| == 3 && DecodeStatusCode(Uint.Print(n)) == Ok(n)
  {
    Uint.ParsePrint(0xFFFF, n);
    var q := n / 10;
    assert |Uint.Print(q / 10)| == 1;
    assert |Uint.Print(q)| == 2;
  }

  lemma PlainStatusLine()
    ensures StatusLine(None, None) == NATS_HEAD
    ensures DecodeStatusLine(NATS_HEAD) == Ok((None, None))
    ensures LineSafe(NATS_HEAD)
  {
    assert NATS_HEAD[..|NATS_HEAD|] == NATS_HEAD;
  }

  /** What follows the version on the first line. */
  function StatusTail(code: nat, description: Option<Bytes>): Bytes {
    SP + Uint.Print(code) + (if description.Some? then SP + description.value else [])
  }

  lemma StatusTailSafe(code: nat, description: Option<Bytes>)
    requires ValidStatus(Some(code), description)
    ensures LineSafe(StatusTail(code, description)) && |StatusTail(code, description)| >= 4
  {
    hide IsUtf8, IsAsciiWhitespace;
    ThreeDigits(code);
    NumberWordy(code);
    LineSafeConcat(SP, Uint.Print(code));
    if description.Some? {
      LineSafeConcat(SP, description.value);
      LineSafeConcat(SP + Uint.Print(code), SP + description.value);
    }
  }

  lemma StatusTailParts(code: nat, description: Option<Bytes>)
    requires ValidStatus(Some(code), description)
    ensures var rest := StatusTail(code, description);
      && |rest| >= 4 && DecodeStatusCode(rest[1..4]) == Ok(code)
      && rest[4..] == if description.Some? then SP + description.value else []
  {
    hide DecodeStatusCode, ValidDescription;
    var tail := if description.Some? then SP + description.value else [];
    ThreeDigits(code);
    Parts(SP, Uint.Print(code), tail);
  }

  lemma AlreadyTrimmed(d: Bytes)
    requires ValidDescription(d)
    ensures TrimEnd(TrimStart(d)) == d
  {
  }

  /** The first line reads back: no status, a status code, or a status code with its description. */
  lemma StatusLineRoundTrip(code: Option<nat>, description: Option<Bytes>)
    requires ValidStatus(code, description)
    ensures LineSafe(StatusLine(code, description)) && StatusLine(code, description) != []
    ensures DecodeStatusLine(StatusLine(code, description)) == Ok((code, description))
  {
    PlainStatusLine();
    if code.Some? {
      hide StatusTail, DecodeStatusCode, TrimStart, TrimEnd, IsUtf8;
      var head, rest := StatusLine(code, description), StatusTail(code.value, description);
      StatusLineIs(code.value, description);
      StatusTailSafe(code.value, description);
      StatusTailParts(code.value, description);
      LineSafeConcat(NATS_HEAD, rest);
      assert head[..|NATS_HEAD|] == NATS_HEAD && head[|NATS_HEAD|..] == rest;
      if description.Some? {
        AlreadyTrimmed(description.value);
        assert rest[4] == rest[4..][0] && rest[5..] == rest[4..][1..] == description.value;
      }
    }
  }

  lemma StatusLineIs(code: nat, description: Option<Bytes>)
    ensures StatusLine(Some(code), description) == NATS_HEAD + StatusTail(code, description)
  {
  }

  /** Decoding a header block rebuilds the very map and the status it was written with. */
  lemma StatusBlockRoundTrip(code: Option<nat>, description: Option<Bytes>, h: Headers)
    requires ValidHeaders(h) && ValidStatus(code, description)
    ensures DecodeHeaderBlock(StatusBlock(code, description, h)) == Ok(HeaderBlockContents(code, description, h))
  {
    hide DecodeStatusLine, DecodeHeaderLines, HeaderMaps.Valid, HeaderLines, StatusLine, ValidStatus,
      LinesIter.Lines, LinesIter.Unlines;
    var pairs, first := Pairs(h.entries), StatusLine(code, description);
    var lines := [first] + HeaderLines(pairs) + [[]];
    PairsAreGood(h.entries);
    StatusLineRoundTrip(code, description);
    BlockLinesCrlfFree(first, pairs);
    LinesIter.LinesOfUnlines(lines, []);
    assert lines + [] == lines;
    assert lines[1..] == HeaderLines(pairs) + [[]];
    HeaderLinesRoundTrip(pairs, EMPTY);
    CollectPairs(h);
  }

  /** Decoding the block `encode_headers` emits rebuilds the very map, with no status. */
  lemma HeaderBlockRoundTrip(h: Headers)
    requires ValidHeaders(h)
    ensures HeaderBlock(h) == StatusBlock(None, None, h)
    ensures DecodeHeaderBlock(HeaderBlock(h)) == Ok(HeaderBlockContents(None, None, h))
  {
    hide DecodeHeaderBlock, ValidHeaders;
    PlainStatusLine();
    StatusBlockRoundTrip(None, None, h);
  }

  lemma BlockLinesCrlfFree(first: Bytes, pairs: seq<(Bytes, Bytes)>)
    requires LineSafe(first) && forall i :: 0 <= i < |pairs| ==> GoodPair(pairs[i])
    ensures var lines := [first] + HeaderLines(pairs) + [[]];
      forall i :: 0 <= i < |lines| ==> LinesIter.CrlfFree(lines[i])
  {
    var lines := [first] + HeaderLines(pairs) + [[]];
    forall i | 0 <= i < |lines|
      ensures LinesIter.CrlfFree(lines[i])
    {
      if 0 < i <= |pairs| {
        HeaderLineSafe(pairs[i - 1]);
      }
      LinesIter.LineSafeIsCrlfFree(lines[i]);
    }
  }

  // ----- What the decoder accepts -----

  /** A header line is accepted exactly when it is a valid name, a colon, at most one dropped whitespace, and a valid value. */
  lemma HeaderLineExact(line: Bytes, name: Bytes, value: Bytes)
    ensures DecodeHeaderLine(line) == Ok((name, value)) <==>
      ValidName(name) && ValidValue(value)
      && exists skipped: Bytes :: line == name + [COLON] + skipped + value && SkippedBefore(skipped, value)
  {
    hide DecodeHeaderLine, ValidName, ValidValue, SkippedBefore;
    if DecodeHeaderLine(line) == Ok((name, value)) {
      var skipped := HeaderLineShape(line, name, value);
    }
    if ValidName(name) && ValidValue(value) {
      forall skipped: Bytes | line == name + [COLON] + skipped + value && SkippedBefore(skipped, value)
        ensures DecodeHeaderLine(line) == Ok((name, value))
      {
        HeaderLineAccepted(name, skipped, value);
      }
    }
  }

  lemma HeaderLineShape(line: Bytes, name: Bytes, value: Bytes) returns (skipped: Bytes)
    requires DecodeHeaderLine(line) == Ok((name, value))
    ensures ValidName(name) && ValidValue(value)
    ensures line == name + [COLON] + skipped + value && SkippedBefore(skipped, value)
  {
    hide IsUtf8, ValidName, ValidValue, IsAsciiWhitespace;
    var i := FindByte(line, COLON).value;
    var raw := line[i + 1..];
    skipped := if raw != [] && IsAsciiWhitespace(raw[0]) then raw[..1] else [];
    Cut(line, i, |skipped|);
  }

  lemma Cut(line: Bytes, i: nat, n: nat)
    requires i + 1 + n <= |line|
    ensures line == line[..i] + [line[i]] + line[i + 1..][..n] + line[i + 1..][n..]
  {
  }

  predicate SkippedBefore(skipped: Bytes, value: Bytes) {
    if skipped == [] then value == [] || !IsAsciiWhitespace(value[0])
    else |skipped| == 1 && IsAsciiWhitespace(skipped[0])
  }

  lemma HeaderLineAccepted(name: Bytes, skipped: Bytes, value: Bytes)
    requires ValidName(name) && ValidValue(value) && SkippedBefore(skipped, value)
    ensures DecodeHeaderLine(name + [COLON] + skipped + value) == Ok((name, value))
  {
    hide IsUtf8;
    var raw := skipped + value;
    var line := name + [COLON] + raw;
    assert line == name + [COLON] + skipped + value;
    Parts(name, [COLON], raw);
    assert line[|name|] == COLON;
    assert forall j :: 0 <= j < |name| ==> line[j] == name[j];
    assert FindByte(line, COLON) == Some(|name|);
    assert skipped != [] ==> raw[1..] == value;
    AsciiIsUtf8(name);
  }

  lemma {:induction false} AppendedValid(h: Headers, name: Bytes, value: Bytes)
    requires ValidHeaders(h) && ValidName(name) && ValidValue(value)
    ensures ValidHeaders(Append(h, name, value))
  {
    AppendValid(h, name, value);
    var p, e, e' := Position(h.entries, name), h.entries, Append(h, name, value).entries;
    forall i | 0 <= i < |e'|
      ensures ValidEntry(e'[i])
    {
      if Occupied(e, name) {
        assert ValidEntry(e[i]);
        if i == p {
          var items := e[p].values.Items();
          assert e'[p].values.Items() == items + [value];
          assert forall j :: 0 <= j < |items| ==> (items + [value])[j] == items[j];
        }
      } else if i != p {
        assert e'[i] == e[if i < p then i else i - 1];
      }
    }
  }

  lemma {:induction false} DecodedLinesValid(lines: seq<Bytes>, h: Headers)
    requires ValidHeaders(h)
    ensures DecodeHeaderLines(lines, h).Ok? ==> ValidHeaders(DecodeHeaderLines(lines, h).value)
    decreases |lines|
  {
    hide ValidHeaders, Append;
    if lines != [] {
      if lines[0] == [] {
        DecodedLinesValid(lines[1..], h);
      } else if DecodeHeaderLine(lines[0]).Ok? {
        var (name, value) := DecodeHeaderLine(lines[0]).value;
        AppendedValid(h, name, value);
        DecodedLinesValid(lines[1..], Append(h, name, value));
      }
    }
  }

  /** Whatever block the decoder accepts, the map it builds is well formed, so a received message can be published again. */
  lemma DecodedHeadersValid(block: Bytes)
    ensures DecodeHeaderBlock(block).Ok? ==> ValidHeaders(DecodeHeaderBlock(block).value.headers)
  {
    var lines := LinesIter.Lines(block);
    if lines != [] {
      DecodedLinesValid(lines[1..], EMPTY);
    }
  }

  // ----- Which control lines announce a message -----

  /** The arguments of a message's control line, whatever separates them. */
  function MessageArgs(subject: Bytes, id: Bytes, reply: Option<Bytes>, sizes: seq<Bytes>): seq<Bytes> {
    [subject, id] + (if reply.Some? then [reply.value] else []) + sizes
  }

  predicate Denotes(digits: Bytes, n: nat, max: nat) {
    digits != [] && Uint.AllDigits(digits) && Uint.Value(digits) == n && n <= max
  }

  predicate ReadableSubjects(subject: Bytes, reply: Option<Bytes>) {
    IsUtf8(subject) && (reply.Some? ==> IsUtf8(reply.value))
  }

  ghost predicate MsgLine(args: Bytes, st: Status)
    requires st.AwaitPayload?
  {
    exists id: Bytes, size: Bytes ::
      && Tokens(args) == MessageArgs(st.subject, id, st.reply, [size])
      && Denotes(id, st.subscriptionId, U64_MAX) && Denotes(size, st.payloadLen, MAX_MSG_LEN)
  }

  /** MSG arguments are accepted exactly when they spell the status they leave: readable subjects, and numbers in range. */
  lemma DecodeMsgExact(args: Bytes, st: Status)
    ensures DecodeMsg(args) == Ok(st) <==>
      && st.AwaitPayload? && st.statusCode.None? && st.statusDescription.None? && st.headers == EMPTY
      && ReadableSubjects(st.subject, st.reply) && MsgLine(args, st)
  {
    hide Tokens, IsUtf8, Uint.Parse, Denotes;
    var t := Tokens(args);
    if |t| == 3 || |t| == 4 {
      ParsedIsDenoted(U64_MAX, t[1]);
      ParsedIsDenoted(USIZE_MAX, t[|t| - 1]);
      SmallerBound(t[|t| - 1]);
      if DecodeMsg(args) == Ok(st) {
        assert t == MessageArgs(st.subject, t[1], st.reply, [t[|t| - 1]]);
      }
    }
  }

  ghost predicate HmsgLine(args: Bytes, st: Status)
    requires st.AwaitHeaders?
  {
    exists id: Bytes, headerSize: Bytes, totalSize: Bytes ::
      && Tokens(args) == MessageArgs(st.subject, id, st.reply, [headerSize, totalSize])
      && Denotes(id, st.subscriptionId, U64_MAX) && Denotes(headerSize, st.headerLen, USIZE_MAX)
      && Denotes(totalSize, st.headerLen + st.payloadLen, MAX_MSG_LEN)
  }

  /** HMSG arguments too: the payload is what the header block leaves of the total. */
  lemma DecodeHmsgExact(args: Bytes, st: Status)
    ensures DecodeHmsg(args) == Ok(st) <==>
      st.AwaitHeaders? && ReadableSubjects(st.subject, st.reply) && HmsgLine(args, st)
  {
    hide Tokens, IsUtf8, Uint.Parse, Denotes;
    var t := Tokens(args);
    if |t| == 4 || |t| == 5 {
      ParsedIsDenoted(U64_MAX, t[1]);
      ParsedIsDenoted(USIZE_MAX, t[|t| - 2]);
      ParsedIsDenoted(USIZE_MAX, t[|t| - 1]);
      SmallerBound(t[|t| - 1]);
      if DecodeHmsg(args) == Ok(st) {
        assert t == MessageArgs(st.subject, t[1], st.reply, [t[|t| - 2], t[|t| - 1]]);
      }
    }
  }

  lemma SmallerBound(s: Bytes)
    ensures forall n: nat :: Denotes(s, n, MAX_MSG_LEN) <==> Denotes(s, n, USIZE_MAX) && n <= MAX_MSG_LEN
  {
  }

  lemma ParsedIsDenoted(max: nat, s: Bytes)
    ensures forall n: nat :: Uint.Parse(max, s) == Ok(n) <==> Denotes(s, n, max)
  {
    forall n: nat
      ensures Uint.Parse(max, s) == Ok(n) <==> Denotes(s, n, max)
    {
      Uint.ParseOk(max, s, n);
    }
  }

  // ----- Tokens -----

  predicate Wordy(t: Bytes) {
    IsToken(t) && LineSafe(t)
  }

  lemma SubjectWordy(s: Bytes)
    requires Subjects.Valid(s) || Subjects.ValidQueueGroup(s)
    ensures Wordy(s)
  {
    Subjects.ValidIffGrammar(s);
    assert forall i :: 0 <= i < |s| ==> !Subjects.IsIllegal(s[i]);
  }

  lemma NumberWordy(n: nat)
    ensures Wordy(Uint.Print(n))
    ensures n <= U64_MAX ==> Number(Uint.Print(n)) == Some(n)
  {
    var s := Uint.Print(n);
    assert forall i :: 0 <= i < |s| ==> Uint.IsDigit(s[i]);
    Uint.ParsePrint(U64_MAX, n);
  }

  lemma WordsLine(verb: Bytes, words: seq<Bytes>)
    requires LineSafe(verb) && words != [] && forall i :: 0 <= i < |words| ==> Wordy(words[i])
    ensures var line := verb + Joined(words);
      LineSafe(line) && Tokens(line[|verb|..]) == words && line[..|verb|] == verb && StartsWith(line, verb)
  {
    JoinedLineSafe(words);
    TokensOfJoined(words);
    LineSafeConcat(verb, Joined(words));
    assert (verb + Joined(words))[|verb|..] == Joined(words);
  }

  // ----- Client frames -----

  /** The arguments of a publication's control line. */
  function PubWords(m: Message): seq<Bytes> {
    [m.subject] + (if m.reply.Some? then [m.reply.value] else [])
    + if m.headers.entries == [] then [Uint.Print(|m.payload|)]
      else [Uint.Print(|HeaderBlock(m.headers)|), Uint.Print(|HeaderBlock(m.headers)| + |m.payload|)]
  }

  function SubWords(id: nat, subject: Bytes, queueGroup: Option<Bytes>): seq<Bytes> {
    [subject] + (if queueGroup.Some? then [queueGroup.value] else []) + [Uint.Print(id)]
  }

  function UnsubWords(id: nat, max: Option<nat>): seq<Bytes> {
    [Uint.Print(id)] + if max.Some? then [Uint.Print(max.value)] else []
  }

  lemma JoinedTwo(a: Bytes, b: Bytes)
    ensures Joined([a, b]) == a + SP + b
  {
    assert [a, b][1..] == [b];
  }

  lemma JoinedThree(a: Bytes, b: Bytes, c: Bytes)
    ensures Joined([a, b, c]) == a + SP + b + SP + c
  {
    assert [a, b, c][1..] == [b, c];
    JoinedTwo(b, c);
  }

  lemma JoinedFour(a: Bytes, b: Bytes, c: Bytes, d: Bytes)
    ensures Joined([a, b, c, d]) == a + SP + b + SP + c + SP + d
  {
    assert [a, b, c, d][1..] == [b, c, d];
    JoinedThree(b, c, d);
  }

  lemma SpacedWords(v: Bytes, a: Bytes, b: Bytes, c: Bytes, d: Bytes)
    ensures v + a + SP + [] + b == v + (a + SP + b)
    ensures v + a + SP + (b + SP) + c == v + (a + SP + b + SP + c)
    ensures v + a + SP + [] + (b + SP + c) == v + (a + SP + b + SP + c)
    ensures v + a + SP + (b + SP) + (c + SP + d) == v + (a + SP + b + SP + c + SP + d)
  {
  }

  lemma PubHead(m: Message)
    ensures Head(Publish(m)) == (if m.headers.entries == [] then PUB_SP else HPUB_SP) + Joined(PubWords(m))
  {
    hide HeaderBlock, Joined;
    var n := |HeaderBlock(m.headers)|;
    var size, headerLen, total := Uint.Print(|m.payload|), Uint.Print(n), Uint.Print(n + |m.payload|);
    var verb := if m.headers.entries == [] then PUB_SP else HPUB_SP;
    if m.headers.entries == [] {
      if m.reply.Some? {
        assert PubWords(m) == [m.subject, m.reply.value, size];
        JoinedThree(m.subject, m.reply.value, size);
        SpacedWords(verb, m.subject, m.reply.value, size, []);
      } else {
        assert PubWords(m) == [m.subject, size];
        JoinedTwo(m.subject, size);
        SpacedWords(verb, m.subject, size, [], []);
      }
    } else if m.reply.Some? {
      assert PubWords(m) == [m.subject, m.reply.value, headerLen, total];
      JoinedFour(m.subject, m.reply.value, headerLen, total);
      SpacedWords(verb, m.subject, m.reply.value, headerLen, total);
    } else {
      assert PubWords(m) == [m.subject, headerLen, total];
      JoinedThree(m.subject, headerLen, total);
      SpacedWords(verb, m.subject, headerLen, total, []);
    }
  }

  lemma SubHead(id: nat, subject: Bytes, queueGroup: Option<Bytes>)
    ensures Head(Subscribe(id, subject, queueGroup)) == SUB_SP + Joined(SubWords(id, subject, queueGroup))
  {
    hide Joined;
    if queueGroup.Some? {
      JoinedThree(subject, queueGroup.value, Uint.Print(id));
      SpacedWords(SUB_SP, subject, queueGroup.value, Uint.Print(id), []);
      assert SubWords(id, subject, queueGroup) == [subject, queueGroup.value, Uint.Print(id)];
    } else {
      JoinedTwo(subject, Uint.Print(id));
      SpacedWords(SUB_SP, subject, Uint.Print(id), [], []);
      assert SubWords(id, subject, queueGroup) == [subject, Uint.Print(id)];
    }
  }

  lemma UnsubHead(id: nat, max: Option<nat>)
    ensures Head(Unsubscribe(id, max)) == UNSUB_SP + Joined(UnsubWords(id, max))
  {
    if max.Some? {
      JoinedTwo(Uint.Print(id), Uint.Print(max.value));
      assert UnsubWords(id, max) == [Uint.Print(id), Uint.Print(max.value)];
    }
  }

  /** The request a server makes of an operation. */
  function RequestOf(op: ClientOp): Request {
    match op
    case Connect(json) => ConnectRequest(json)
    case Publish(m) =>
      if m.headers.entries == [] then PubRequest(m.subject, m.reply, None, m.payload)
      else PubRequest(m.subject, m.reply, Some(|HeaderBlock(m.headers)|), HeaderBlock(m.headers) + m.payload)
    case Subscribe(id, subject, queueGroup) => SubRequest(subject, queueGroup, id)
    case Unsubscribe(id, max) => UnsubRequest(id, max)
    case Ping => PingRequest
    case Pong => PongRequest
  }

  lemma TakeBodyOf(subject: Bytes, reply: Option<Bytes>, headerLen: Option<nat>, body: Bytes, rest: Bytes)
    ensures TakeBody(subject, reply, headerLen, |body|, body + CRLF + rest)
         == Some((PubRequest(subject, reply, headerLen, body), rest))
  {
    Parts(body, CRLF, rest);
  }

  lemma PubWordsWordy(m: Message)
    requires ValidMessage(m)
    ensures forall i :: 0 <= i < |PubWords(m)| ==> Wordy(PubWords(m)[i])
  {
    hide HeaderBlock, Subjects.Valid, ValidHeaders, Wordy;
    SubjectWordy(m.subject);
    if m.reply.Some? {
      SubjectWordy(m.reply.value);
    }
    NumberWordy(|m.payload|);
    NumberWordy(|HeaderBlock(m.headers)|);
    NumberWordy(|HeaderBlock(m.headers)| + |m.payload|);
  }

  lemma PlainPubParsed(m: Message, rest: Bytes)
    requires ValidMessage(m) && m.headers.entries == []
    ensures LineSafe(Head(Publish(m)))
    ensures ParseLine(Head(Publish(m)), Body(Publish(m)) + rest) == Some((RequestOf(Publish(m)), rest))
  {
    hide HeaderBlock, Joined, Subjects.Valid, ValidHeaders, Tokens, Head, Wordy, TakeBody;
    PubWordsWordy(m);
    PubHead(m);
    WordsLine(PUB_SP, PubWords(m));
    NumberWordy(|m.payload|);
    TakeBodyOf(m.subject, m.reply, None, m.payload, rest);
    assert Body(Publish(m)) + rest == m.payload + CRLF + rest;
  }

  lemma HeaderedPubParsed(m: Message, rest: Bytes)
    requires ValidMessage(m) && m.headers.entries != []
    ensures LineSafe(Head(Publish(m)))
    ensures ParseLine(Head(Publish(m)), Body(Publish(m)) + rest) == Some((RequestOf(Publish(m)), rest))
  {
    hide HeaderBlock, Joined, Subjects.Valid, ValidHeaders, Tokens, Head, Wordy, TakeBody;
    var n, body := |HeaderBlock(m.headers)|, HeaderBlock(m.headers) + m.payload;
    PubWordsWordy(m);
    PubHead(m);
    WordsLine(HPUB_SP, PubWords(m));
    NumberWordy(n);
    NumberWordy(n + |m.payload|);
    assert Head(Publish(m))[..|HPUB_SP|][0] == 72;
    TakeBodyOf(m.subject, m.reply, Some(n), body, rest);
    assert Body(Publish(m)) + rest == body + CRLF + rest;
  }

  lemma SubParsed(id: nat, subject: Bytes, queueGroup: Option<Bytes>, rest: Bytes)
    requires ValidOp(Subscribe(id, subject, queueGroup))
    ensures LineSafe(Head(Subscribe(id, subject, queueGroup)))
    ensures ParseLine(Head(Subscribe(id, subject, queueGroup)), rest) == Some((SubRequest(subject, queueGroup, id), rest))
  {
    hide Joined, Tokens, Head, Subjects.Valid;
    SubjectWordy(subject);
    if queueGroup.Some? {
      SubjectWordy(queueGroup.value);
    }
    NumberWordy(id);
    SubHead(id, subject, queueGroup);
    WordsLine(SUB_SP, SubWords(id, subject, queueGroup));
    assert Head(Subscribe(id, subject, queueGroup))[0] == 83;
  }

  lemma UnsubParsed(id: nat, max: Option<nat>, rest: Bytes)
    requires ValidOp(Unsubscribe(id, max))
    ensures LineSafe(Head(Unsubscribe(id, max)))
    ensures ParseLine(Head(Unsubscribe(id, max)), rest) == Some((UnsubRequest(id, max), rest))
  {
    hide Joined, Tokens, Head;
    NumberWordy(id);
    if max.Some? {
      NumberWordy(max.value);
    }
    UnsubHead(id, max);
    WordsLine(UNSUB_SP, UnsubWords(id, max));
    assert Head(Unsubscribe(id, max))[0] == 85;
  }

  /** The control line of an operation, and the body behind it, parse back to its request. */
  lemma HeadParsed(op: ClientOp, rest: Bytes)
    requires ValidOp(op)
    ensures LineSafe(Head(op))
    ensures ParseLine(Head(op), Body(op) + rest) == Some((RequestOf(op), rest))
  {
    match op {
      case Publish(m) =>
        if m.headers.entries == [] {
          PlainPubParsed(m, rest);
        } else {
          HeaderedPubParsed(m, rest);
        }
      case Subscribe(id, subject, queueGroup) =>
        SubParsed(id, subject, queueGroup, rest);
        assert Body(op) + rest == rest;
      case Unsubscribe(id, max) =>
        UnsubParsed(id, max, rest);
        assert Body(op) + rest == rest;
      case Connect(json) =>
        LineSafeConcat(CONNECT_SP, json);
        var line := CONNECT_SP + json;
        assert line[0] == 67 && line[|CONNECT_SP|..] == json && line[..|CONNECT_SP|] == CONNECT_SP;
        assert Body(op) + rest == rest;
      case Ping =>
        assert PING[0] == 80 && PING[1] == 73;
        assert Body(op) + rest == rest;
      case Pong =>
        assert PONG[0] == 80 && PONG[1] == 79;
        assert Body(op) + rest == rest;
    }
  }

  /** A frame at the front of a stream parses to its request, whatever follows: the declared lengths are exact. */
  lemma FrameParsed(op: ClientOp, rest: Bytes)
    requires ValidOp(op)
    ensures ParseRequest(Wire(op) + rest) == Some((RequestOf(op), rest))
  {
    hide Wire, ParseLine, Head, Body, ValidOp, RequestOf;
    WireShape(op);
    HeadParsed(op, rest);
    var buf := Head(op) + CRLF + (Body(op) + rest);
    assert Wire(op) + rest == buf;
    FindCrlfAfterLine(Head(op), Body(op) + rest);
    Parts(Head(op), CRLF, Body(op) + rest);
  }

  /** The request carries the whole operation. */
  lemma RequestRoundTrip(op: ClientOp)
    requires ValidOp(op)
    ensures ToOp(RequestOf(op)) == Some(op)
  {
    if op.Publish? {
      hide HeaderBlock, DecodeHeaderBlock;
      var h := op.message.headers;
      if h.entries == [] {
        assert h == EMPTY;
      } else {
        HeaderBlockRoundTrip(h);
        assert DecodeHeaderBlock(HeaderBlock(h)) == Ok(HeaderBlockContents(None, None, h));
        var body := HeaderBlock(h) + op.message.payload;
        assert body[..|HeaderBlock(h)|] == HeaderBlock(h) && body[|HeaderBlock(h)|..] == op.message.payload;
      }
    }
  }

  /** Unique decodability: the concatenated encodings of any operations parse back to exactly those operations. */
  lemma {:induction false} ClientStreamRoundTrip(ops: seq<ClientOp>)
    requires forall i :: 0 <= i < |ops| ==> ValidOp(ops[i])
    ensures ParseAll(WireAll(ops)) == Some(ops)
  {
    hide ParseRequest, ToOp, Wire, ValidOp, RequestOf;
    if ops != [] {
      var rest := WireAll(ops[1..]);
      ClientStreamRoundTrip(ops[1..]);
      FrameParsed(ops[0], rest);
      RequestRoundTrip(ops[0]);
      assert Wires(ops) == [Wire(ops[0])] + Wires(ops[1..]);
      FlattenConcat([Wire(ops[0])], Wires(ops[1..]));
      FlattenOne(Wire(ops[0]));
      WireShape(ops[0]);
      assert WireAll(ops) == Wire(ops[0]) + rest;
      assert |Wire(ops[0])| >= 2;
      assert [ops[0]] + ops[1..] == ops;
    }
  }

  /** So two different sequences of operations never have the same encoding. */
  lemma ClientStreamInjective(a: seq<ClientOp>, b: seq<ClientOp>)
    requires forall i :: 0 <= i < |a| ==> ValidOp(a[i])
    requires forall i :: 0 <= i < |b| ==> ValidOp(b[i])
    requires WireAll(a) == WireAll(b)
    ensures a == b
  {
    hide ParseAll, WireAll;
    ClientStreamRoundTrip(a);
    ClientStreamRoundTrip(b);
  }
}
