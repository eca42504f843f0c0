/** The client's operations, the writes that print them, and the bytes they put on the wire. */
module ClientOps {
  import opened Wrappers
  import opened ByteStrings
  import opened HeaderMaps
  import LinesIter
  import Uint

  datatype Message = Message(subject: Bytes, reply: Option<Bytes>, headers: Headers, payload: Bytes)

  /** CONNECT carries its JSON already serialised. */
  datatype ClientOp =
    | Connect(json: Bytes)
    | Publish(message: Message)
    | Subscribe(id: nat, subject: Bytes, queueGroup: Option<Bytes>)
    | Unsubscribe(id: nat, maxMessages: Option<nat>)
    | Ping
    | Pong

  /** One call made on a `FrameEncoder`: `small_write`, or `write` of an owned buffer. */
  datatype Write = Small(bytes: Bytes) | Whole(bytes: Bytes)

  const PUB_SP: Bytes := [80, 85, 66, 32]
  const HPUB_SP: Bytes := [72, 80, 85, 66, 32]
  const SUB_SP: Bytes := [83, 85, 66, 32]
  const UNSUB_SP: Bytes := [85, 78, 83, 85, 66, 32]
  const CONNECT_SP: Bytes := [67, 79, 78, 78, 69, 67, 84, 32]
  const PING: Bytes := [80, 73, 78, 71]
  const PONG: Bytes := [80, 79, 78, 71]
  /** `NATS/1.0` */
  const NATS_HEAD: Bytes := [78, 65, 84, 83, 47, 49, 46, 48]
  const COLON_SP: Bytes := [COLON, SPACE]
  const SP: Bytes := [SPACE]

  /** The slices yielded by `encode_headers` between its head and its footer. */
  function HeaderSlices(pairs: seq<(Bytes, Bytes)>): seq<Bytes> {
    if pairs == [] then []
    else [pairs[0].0, COLON_SP, pairs[0].1, CRLF] + HeaderSlices(pairs[1..])
  }

  function EncodeHeaders(h: Headers): seq<Bytes> {
    [NATS_HEAD + CRLF] + HeaderSlices(Pairs(h.entries)) + [CRLF]
  }

  /** `encode_headers(headers).fold(0, |len, s| len + s.len())` */
  function SumLengths(slices: seq<Bytes>, len: nat := 0): nat
    decreases |slices|
  {
    if slices == [] then len else SumLengths(slices[1..], len + |slices[0]|)
  }

  function SmallWrites(slices: seq<Bytes>): (writes: seq<Write>)
    ensures Contents(writes) == slices
  {
    seq(|slices|, i requires 0 <= i < |slices| => Small(slices[i]))
  }

  function Contents(writes: seq<Write>): (chunks: seq<Bytes>)
    ensures |chunks| == |writes|
    ensures forall i :: 0 <= i < |writes| ==> chunks[i] == writes[i].bytes
  {
    seq(|writes|, i requires 0 <= i < |writes| => writes[i].bytes)
  }

  /** The verb and the subjects of a publication. */
  function OpeningWrites(m: Message): seq<Write> {
    [Small(if m.headers.entries == [] then PUB_SP else HPUB_SP), Small(m.subject), Small(SP)]
    + if m.reply.Some? then [Small(m.reply.value), Small(SP)] else []
  }

  /** Its sizes and, when there are headers, the header block. */
  function SizeWrites(m: Message): seq<Write> {
    if m.headers.entries == [] then [Small(Uint.Print(|m.payload|)), Small(CRLF)]
    else
      var headersLen := SumLengths(EncodeHeaders(m.headers));
      var totalLen := headersLen + |m.payload|;
      [Small(Uint.Print(headersLen)), Small(SP), Small(Uint.Print(totalLen)), Small(CRLF)]
      + SmallWrites(EncodeHeaders(m.headers))
  }

  /** `encode`: the writes an operation makes, in order. */
  function Writes(op: ClientOp): seq<Write> {
    match op
    case Publish(m) => OpeningWrites(m) + SizeWrites(m) + [Whole(m.payload), Small(CRLF)]
    case Subscribe(id, subject, queueGroup) =>
      [Small(SUB_SP), Small(subject), Small(SP)]
      + (if queueGroup.Some? then [Small(queueGroup.value), Small(SP)] else [])
      + [Small(Uint.Print(id)), Small(CRLF)]
    case Unsubscribe(id, max) =>
      [Small(UNSUB_SP), Small(Uint.Print(id))]
      + (if max.Some? then [Small(SP), Small(Uint.Print(max.value))] else [])
      + [Small(CRLF)]
    case Connect(json) => [Small(CONNECT_SP), Small(json), Small(CRLF)]
    case Ping => [Small(PING + CRLF)]
    case Pong => [Small(PONG + CRLF)]
  }

  /** The bytes an operation puts on the wire. */
  function Wire(op: ClientOp): Bytes {
    Flatten(Contents(Writes(op)))
  }

  function Wires(ops: seq<ClientOp>): (frames: seq<Bytes>)
    ensures |frames| == |ops|
    ensures forall i :: 0 <= i < |ops| ==> frames[i] == Wire(ops[i])
  {
    seq(|ops|, i requires 0 <= i < |ops| => Wire(ops[i]))
  }

  function WireAll(ops: seq<ClientOp>): Bytes {
    Flatten(Wires(ops))
  }

  lemma WireAllSnoc(a: seq<ClientOp>, op: ClientOp)
    ensures WireAll(a + [op]) == WireAll(a) + Wire(op)
  {
    assert Wires(a + [op]) == Wires(a) + [Wire(op)];
    FlattenSnoc(Wires(a), Wire(op));
  }

  // ----- What the writes amount to -----

  function HeaderLine(pair: (Bytes, Bytes)): Bytes {
    pair.0 + COLON_SP + pair.1
  }

  function HeaderLines(pairs: seq<(Bytes, Bytes)>): (lines: seq<Bytes>)
    ensures |lines| == |pairs|
    ensures forall i :: 0 <= i < |pairs| ==> lines[i] == HeaderLine(pairs[i])
  {
    seq(|pairs|, i requires 0 <= i < |pairs| => HeaderLine(pairs[i]))
  }

  /** The header block, line by line: the version, one line per value, and a blank line. */
  function HeaderBlock(h: Headers): Bytes {
    LinesIter.Unlines([NATS_HEAD] + HeaderLines(Pairs(h.entries)) + [[]], [])
  }

  function Opening(m: Message): Bytes {
    (if m.headers.entries == [] then PUB_SP else HPUB_SP) + m.subject + SP
    + if m.reply.Some? then m.reply.value + SP else []
  }

  function Sizes(m: Message): Bytes {
    var n := |HeaderBlock(m.headers)|;
    if m.headers.entries == [] then Uint.Print(|m.payload|) else Uint.Print(n) + SP + Uint.Print(n + |m.payload|)
  }

  /** The control line of an operation: everything an operation says before its body. */
  function Head(op: ClientOp): Bytes {
    match op
    case Publish(m) =>
      Opening(m) + Sizes(m)
    case Subscribe(id, subject, queueGroup) =>
      SUB_SP + subject + SP + (if queueGroup.Some? then queueGroup.value + SP else []) + Uint.Print(id)
    case Unsubscribe(id, max) =>
      UNSUB_SP + Uint.Print(id) + if max.Some? then SP + Uint.Print(max.value) else []
    case Connect(json) => CONNECT_SP + json
    case Ping => PING
    case Pong => PONG
  }

  /** What follows the control line. */
  function Body(op: ClientOp): Bytes {
    if op.Publish? then
      (if op.message.headers.entries == [] then [] else HeaderBlock(op.message.headers)) + op.message.payload + CRLF
    else []
  }

  lemma {:induction false} SumLengthsIsTotal(slices: seq<Bytes>, len: nat)
    ensures SumLengths(slices, len) == len + |Flatten(slices)|
    decreases |slices|
  {
    if slices != [] {
      SumLengthsIsTotal(slices[1..], len + |slices[0]|);
    }
  }

  lemma {:induction false} HeaderSlicesAreLines(pairs: seq<(Bytes, Bytes)>)
    ensures Flatten(HeaderSlices(pairs) + [CRLF]) == LinesIter.Unlines(HeaderLines(pairs) + [[]], [])
  {
    var lines := HeaderLines(pairs) + [[]];
    if pairs == [] {
      FlattenOne(CRLF);
      assert HeaderSlices(pairs) + [CRLF] == [CRLF];
      assert lines == [[]];
      assert LinesIter.Unlines(lines[1..], []) == [];
    } else {
      var (name, value) := pairs[0];
      var first, rest := [name, COLON_SP, value, CRLF], HeaderSlices(pairs[1..]) + [CRLF];
      assert HeaderSlices(pairs) + [CRLF] == first + rest;
      FlattenConcat(first, rest);
      FlattenFour(name, COLON_SP, value, CRLF);
      HeaderSlicesAreLines(pairs[1..]);
      assert lines[1..] == HeaderLines(pairs[1..]) + [[]];
    }
  }

  /** The declared header length is exact, and the slices are the header block. */
  lemma HeadersLengthExact(h: Headers)
    ensures Flatten(EncodeHeaders(h)) == HeaderBlock(h)
    ensures SumLengths(EncodeHeaders(h)) == |HeaderBlock(h)|
  {
    var pairs := Pairs(h.entries);
    var rest := HeaderSlices(pairs) + [CRLF];
    SumLengthsIsTotal(EncodeHeaders(h), 0);
    assert EncodeHeaders(h) == [NATS_HEAD + CRLF] + rest;
    FlattenConcat([NATS_HEAD + CRLF], rest);
    FlattenOne(NATS_HEAD + CRLF);
    HeaderSlicesAreLines(pairs);
    var lines := [NATS_HEAD] + HeaderLines(pairs) + [[]];
    assert lines[1..] == HeaderLines(pairs) + [[]];
  }

  /** The writes of an operation are its control line, CRLF, and its body. */
  lemma WireShape(op: ClientOp)
    ensures Wire(op) == Head(op) + CRLF + Body(op)
  {
    match op {
      case Publish(m) => PublishShape(m);
      case Subscribe(id, subject, queueGroup) => SubscribeShape(id, subject, queueGroup);
      case Unsubscribe(id, max) => UnsubscribeShape(id, max);
      case Connect(json) =>
        assert Contents(Writes(op)) == [CONNECT_SP, json, CRLF];
        FlattenThree(CONNECT_SP, json, CRLF);
      case Ping => FlattenOne(PING + CRLF);
      case Pong => FlattenOne(PONG + CRLF);
    }
  }

  lemma SubscribeShape(id: nat, subject: Bytes, queueGroup: Option<Bytes>)
    ensures Wire(Subscribe(id, subject, queueGroup)) == Head(Subscribe(id, subject, queueGroup)) + CRLF
  {
    var first, last := [SUB_SP, subject, SP], [Uint.Print(id), CRLF];
    var group := if queueGroup.Some? then [queueGroup.value, SP] else [];
    assert Contents(Writes(Subscribe(id, subject, queueGroup))) == first + group + last;
    FlattenConcat(first + group, last);
    FlattenConcat(first, group);
    FlattenThree(SUB_SP, subject, SP);
    FlattenTwo(Uint.Print(id), CRLF);
    if queueGroup.Some? {
      FlattenTwo(queueGroup.value, SP);
    }
    assert Flatten(group) == if queueGroup.Some? then queueGroup.value + SP else [];
  }

  lemma UnsubscribeShape(id: nat, max: Option<nat>)
    ensures Wire(Unsubscribe(id, max)) == Head(Unsubscribe(id, max)) + CRLF
  {
    var first := [UNSUB_SP, Uint.Print(id)];
    var limit := if max.Some? then [SP, Uint.Print(max.value)] else [];
    assert Contents(Writes(Unsubscribe(id, max))) == first + limit + [CRLF];
    FlattenSnoc(first + limit, CRLF);
    FlattenConcat(first, limit);
    FlattenTwo(UNSUB_SP, Uint.Print(id));
    if max.Some? {
      FlattenTwo(SP, Uint.Print(max.value));
    }
    assert Flatten(limit) == if max.Some? then SP + Uint.Print(max.value) else [];
  }

  lemma PublishChunks(m: Message)
    ensures Contents(Writes(Publish(m))) == Contents(OpeningWrites(m)) + Contents(SizeWrites(m)) + [m.payload, CRLF]
  {
    hide OpeningWrites, SizeWrites;
  }

  lemma PublishShape(m: Message)
    ensures Wire(Publish(m)) == Head(Publish(m)) + CRLF + Body(Publish(m))
  {
    hide Writes, OpeningWrites, SizeWrites, HeaderBlock, Opening, Sizes, Flatten;
    var opening, sizes := Contents(OpeningWrites(m)), Contents(SizeWrites(m));
    PublishChunks(m);
    FlattenConcat(opening + sizes, [m.payload, CRLF]);
    FlattenConcat(opening, sizes);
    FlattenTwo(m.payload, CRLF);
    OpeningShape(m);
    SizesShape(m);
    var h := if m.headers.entries == [] then [] else HeaderBlock(m.headers);
    var o, s, p := Opening(m), Sizes(m), m.payload;
    assert o + (s + CRLF + h) + (p + CRLF) == o + s + CRLF + (h + p + CRLF);
  }

  lemma OpeningShape(m: Message)
    ensures Flatten(Contents(OpeningWrites(m))) == Opening(m)
  {
    var verb := if m.headers.entries == [] then PUB_SP else HPUB_SP;
    FlattenThree(verb, m.subject, SP);
    if m.reply.Some? {
      assert Contents(OpeningWrites(m)) == [verb, m.subject, SP] + [m.reply.value, SP];
      FlattenConcat([verb, m.subject, SP], [m.reply.value, SP]);
      FlattenTwo(m.reply.value, SP);
    } else {
      assert Contents(OpeningWrites(m)) == [verb, m.subject, SP];
    }
  }

  lemma SizesShape(m: Message)
    ensures Flatten(Contents(SizeWrites(m))) == Sizes(m) + CRLF + if m.headers.entries == [] then [] else HeaderBlock(m.headers)
  {
    hide HeaderBlock, EncodeHeaders, SumLengths, Flatten;
    HeadersLengthExact(m.headers);
    var n := |HeaderBlock(m.headers)|;
    if m.headers.entries == [] {
      assert Contents(SizeWrites(m)) == [Uint.Print(|m.payload|), CRLF];
      FlattenTwo(Uint.Print(|m.payload|), CRLF);
    } else {
      var sizes := [Uint.Print(n), SP, Uint.Print(n + |m.payload|), CRLF];
      assert Contents(SizeWrites(m)) == sizes + EncodeHeaders(m.headers);
      FlattenFour(Uint.Print(n), SP, Uint.Print(n + |m.payload|), CRLF);
      FlattenConcat(sizes, EncodeHeaders(m.headers));
    }
  }

  /** The simple encoder: every write is appended to one flat buffer, which is then handed over. */
  class FramedEncoder {
    var buf: Bytes

    constructor ()
      ensures buf == []
    {
      buf := [];
    }

    method SmallWrite(bytes: Bytes)
      modifies this
      ensures buf == old(buf) + bytes
    {
      buf := buf + bytes;
    }

    method WriteAll(writes: seq<Write>)
      modifies this
      ensures buf == old(buf) + Flatten(Contents(writes))
    {
      for i := 0 to |writes|
        invariant buf == old(buf) + Flatten(Contents(writes[..i]))
      {
        assert Contents(writes[..i + 1]) == Contents(writes[..i]) + [writes[i].bytes];
        FlattenSnoc(Contents(writes[..i]), writes[i].bytes);
        SmallWrite(writes[i].bytes);
      }
      assert writes[..|writes|] == writes;
    }

    method Encode(op: ClientOp) returns (frame: Bytes)
      modifies this
      ensures frame == old(buf) + Wire(op) && buf == []
    {
      WriteAll(Writes(op));
      frame := buf;
      buf := [];
    }
  }
}
