/** A reference NATS server's side of the wire: parsing client frames and re-heading publications for a subscriber. */
module Server {
  import opened Wrappers
  import opened ByteStrings
  import opened HeaderMaps
  import opened ClientOps
  import Decoder
  import SplitSpaces
  import Uint

  /** A client frame as the server sees it: headers and payload are one opaque body. */
  datatype Request =
    | ConnectRequest(json: Bytes)
    | PubRequest(subject: Bytes, reply: Option<Bytes>, headerLen: Option<nat>, body: Bytes)
    | SubRequest(subject: Bytes, queueGroup: Option<Bytes>, id: nat)
    | UnsubRequest(id: nat, maxMessages: Option<nat>)
    | PingRequest
    | PongRequest

  function Number(s: Bytes): Option<nat> {
    match Uint.Parse(U64_MAX, s)
    case Ok(n) => Some(n)
    case Err(_) => None
  }

  /** The body of a publication: exactly `size` bytes, then CRLF. */
  function TakeBody(subject: Bytes, reply: Option<Bytes>, headerLen: Option<nat>, size: nat, rest: Bytes)
    : Option<(Request, Bytes)>
  {
    if |rest| < size + 2 || rest[size..size + 2] != CRLF then None
    else Some((PubRequest(subject, reply, headerLen, rest[..size]), rest[size + 2..]))
  }

  function ParsePub(t: seq<Bytes>, rest: Bytes): Option<(Request, Bytes)> {
    if |t| != 2 && |t| != 3 then None
    else match Number(t[|t| - 1])
      case None => None
      case Some(size) => TakeBody(t[0], if |t| == 3 then Some(t[1]) else None, None, size, rest)
  }

  function ParseHpub(t: seq<Bytes>, rest: Bytes): Option<(Request, Bytes)> {
    if |t| != 3 && |t| != 4 then None
    else match (Number(t[|t| - 2]), Number(t[|t| - 1]))
      case (Some(headerLen), Some(size)) =>
        if headerLen > size then None
        else TakeBody(t[0], if |t| == 4 then Some(t[1]) else None, Some(headerLen), size, rest)
      case _ => None
  }

  function ParseSub(t: seq<Bytes>, rest: Bytes): Option<(Request, Bytes)> {
    if |t| != 2 && |t| != 3 then None
    else match Number(t[|t| - 1])
      case None => None
      case Some(id) => Some((SubRequest(t[0], if |t| == 3 then Some(t[1]) else None, id), rest))
  }

  function ParseUnsub(t: seq<Bytes>, rest: Bytes): Option<(Request, Bytes)> {
    if |t| == 1 then
      match Number(t[0])
      case None => None
      case Some(id) => Some((UnsubRequest(id, None), rest))
    else if |t| == 2 then
      match (Number(t[0]), Number(t[1]))
      case (Some(id), Some(max)) => Some((UnsubRequest(id, Some(max)), rest))
      case _ => None
    else None
  }

  function ParseLine(line: Bytes, rest: Bytes): Option<(Request, Bytes)> {
    if StartsWith(line, PUB_SP) then ParsePub(SplitSpaces.Tokens(line[|PUB_SP|..]), rest)
    else if StartsWith(line, HPUB_SP) then ParseHpub(SplitSpaces.Tokens(line[|HPUB_SP|..]), rest)
    else if StartsWith(line, SUB_SP) then ParseSub(SplitSpaces.Tokens(line[|SUB_SP|..]), rest)
    else if StartsWith(line, UNSUB_SP) then ParseUnsub(SplitSpaces.Tokens(line[|UNSUB_SP|..]), rest)
    else if StartsWith(line, CONNECT_SP) then Some((ConnectRequest(line[|CONNECT_SP|..]), rest))
    else if line == PING then Some((PingRequest, rest))
    else if line == PONG then Some((PongRequest, rest))
    else None
  }

  function ParseRequest(buf: Bytes): Option<(Request, Bytes)> {
    match FindCrlf(buf)
    case None => None
    case Some(i) => ParseLine(buf[..i], buf[i + 2..])
  }

  /** The operation behind a request, its header block read by the client's own header parser. */
  function ToOp(r: Request): Option<ClientOp> {
    match r
    case ConnectRequest(json) => Some(Connect(json))
    case PubRequest(subject, reply, None, body) => Some(Publish(Message(subject, reply, EMPTY, body)))
    case PubRequest(subject, reply, Some(n), body) =>
      if n > |body| then None
      else
        (match Decoder.DecodeHeaderBlock(body[..n])
         case Ok(c) => Some(Publish(Message(subject, reply, c.headers, body[n..])))
         case Err(_) => None)
    case SubRequest(subject, queueGroup, id) => Some(Subscribe(id, subject, queueGroup))
    case UnsubRequest(id, max) => Some(Unsubscribe(id, max))
    case PingRequest => Some(Ping)
    case PongRequest => Some(Pong)
  }

  /** Parses frames until the stream is used up. */
  function ParseAll(buf: Bytes): Option<seq<ClientOp>>
    decreases |buf|
  {
    if buf == [] then Some([])
    else match ParseRequest(buf)
      case None => None
      case Some((request, rest)) =>
        if |rest| >= |buf| then None
        else match (ToOp(request), ParseAll(rest))
          case (Some(op), Some(ops)) => Some([op] + ops)
          case _ => None
  }

  /** The arguments of the control line announcing a publication to the subscription `id`. */
  function ForwardWords(r: Request, id: nat): seq<Bytes>
    requires r.PubRequest?
  {
    [r.subject, Uint.Print(id)] + (if r.reply.Some? then [r.reply.value] else [])
    + (if r.headerLen.Some? then [Uint.Print(r.headerLen.value)] else [])
    + [Uint.Print(|r.body|)]
  }

  /** A publication forwarded to a subscription: the control line is rewritten, the body is not touched. */
  function Forward(r: Request, id: nat): Bytes
    requires r.PubRequest?
  {
    (if r.headerLen.Some? then Decoder.HMSG_SP else Decoder.MSG_SP)
    + SplitSpaces.Joined(ForwardWords(r, id)) + CRLF + (r.body + CRLF)
  }
}
