/**
 One request on one connection, on the server and on the client.  The state machine comes
 first, then the callbacks and the stub that run it over a socket.
 */
module Connections {
  import opened Wrappers
  import opened Decimals
  import opened Signatures
  import opened Arguments
  import opened Terminated
  import opened Headers
  import opened Messages
  import opened Payloads
  import opened Preparation

  // ---------------------------------------------------------------- what a server does

  /** What running the code of a service can end in. */
  datatype Invocation = Raised(message: string) | ReturnedNull | Returned(reply: Reply)

  /** The installed services: a text, the key of the factory, and the code behind it. */
  type Skeletons = map<string, seq<Argument> -> Invocation>

  /** A response that can be put on the wire. */
  predicate Complete(r: ReplyFields) {
    r.successful ==> |r.args| == |r.signature.outputs|
  }

  function Refusal(sig: Fields, message: string): Reply {
    Reply(sig, false, message, [])
  }

  const NO_RESPONSE := "Internal server error: produced a NULL response."

  /** The response that is put on the wire after an invocation. */
  function Answer(sig: Fields, i: Invocation): Reply {
    match i
    case Raised(m) => Refusal(sig, "Internal server error: " + m)
    case ReturnedNull => Refusal(sig, NO_RESPONSE)
    case Returned(r) =>
      match ResponseBuffers(r)
      case Success(_) => r
      case Failure(m) => Refusal(sig, "Internal server error: " + m)
  }

  /** Whatever an invocation ends in, the response has all its outputs if it is successful; it is
      successful exactly if the service returned such a response itself. */
  lemma {:induction false} AnswerComplete(sig: Fields, i: Invocation)
    ensures Complete(Answer(sig, i))
    ensures Answer(sig, i).successful <==> i.Returned? && i.reply.successful && Complete(i.reply)
    ensures Answer(sig, i).successful ==> Answer(sig, i) == i.reply
  {
    if i.Returned? {
      var r := i.reply;
      assert ResponseBuffers(r).Success? <==> Complete(r);
    }
  }

  /** The factory runs the code behind a signature; an unknown one is an error. */
  function Serve(skeletons: Skeletons, sig: Fields, args: seq<Argument>): Reply {
    Answer(sig, if sig.text in skeletons then skeletons[sig.text](args)
                else Raised(UnknownService(sig.text)))
  }

  function UnknownService(text: string): string {
    "ServiceSkeleton: Unknown message type: \"" + text + "\"."
  }

  function CountMessage(what: string, expected: nat, received: nat): string {
    "Received an invalid " + what + " (expected " + Decimal(expected) + " argument blocks, received "
    + Decimal(received) + ")."
  }

  /** A header is refused, or it announces arguments to read. */
  datatype Reading = Reject(signature: Fields, message: string)
                   | Await(signature: Fields, args: seq<Argument>)

  function ReadHeader(services: set<string>, text: string): (r: Reading)
    ensures r.Await? ==> r.signature.text in services
  {
    ReadDocument(services, Decode(text))
  }

  function ReadDocument(services: set<string>, doc: Option<Doc>): (r: Reading)
    ensures r.Await? ==> r.signature.text in services
  {
    if doc.None? then Reject(ANY, "Malformed header")
    else if doc.value.service.None? then Reject(ANY, "Key not found: service")
    else ReadRequest(services, Parse(doc.value.service.value), doc.value.blocks)
  }

  function ReadRequest(services: set<string>, sig: Fields, node: Option<seq<Option<int>>>): (r: Reading)
    ensures r.signature == sig && (r.Await? ==> sig.text in services)
  {
    if sig.text !in services then Reject(sig, "Service not available.")
    else
      match ReadSizes(node)
      case Failure(e) => Reject(sig, e)
      case Success(blocks) =>
        if |blocks| != |sig.inputs| then Reject(sig, CountMessage("request", |sig.inputs|, |blocks|))
        else
          match Prepared(sig.inputs, blocks, |sig.inputs|)
          case Failure(e) => Reject(sig, e)
          case Success(args) => Await(sig, args)
  }

  // ---------------------------------------------------------------- the state machine

  /** How a server reads a header and answers a call. */
  datatype Server = Server(read: string -> Reading, run: (Fields, seq<Argument>) -> Reply)

  function ServerOf(skeletons: Skeletons): Server {
    Server(text => ReadHeader(skeletons.Keys, text), (sig, args) => Serve(skeletons, sig, args))
  }

  /** The asynchronous operation whose callback is due. */
  datatype Pending = ReadingHeader | ReadingPayload | Writing | Closed

  /** `replies` are the responses whose write was started, `calls` the arguments of every
      invocation. */
  datatype Conn = Conn(pending: Pending, signature: Fields, args: seq<Argument>, offsets: seq<nat>,
                       replies: seq<Reply>, calls: seq<seq<Argument>>)

  const INITIAL := Conn(ReadingHeader, ANY, [], [], [], [])

  datatype Event =
    | HeaderFailed(error: string)
    | HeaderArrived(buffered: string)
    | PayloadFailed(error: string)
    | PayloadArrived(bytes: string)
    | Written

  /** The events that can complete the pending operation. */
  predicate Enabled(c: Conn, e: Event) {
    match e
    case HeaderFailed(_) => c.pending == ReadingHeader
    case HeaderArrived(b) => c.pending == ReadingHeader && Next('\0', b, 0) < |b|
    case PayloadFailed(_) => c.pending == ReadingPayload
    case PayloadArrived(b) =>
      && c.pending == ReadingPayload
      && OffsetsOk(c.args, c.offsets) && |b| == ResidualSize(c.args, c.offsets)
    case Written => c.pending == Writing
  }

  function Send(c: Conn, r: Reply): Conn {
    c.(pending := Writing, replies := c.replies + [r])
  }

  function OnHeader(server: Server, c: Conn, buffered: string): Conn {
    var d := Next('\0', buffered, 0);
    OnReading(c, server.read(buffered[..d]), Beyond(buffered))
  }

  /** A header is refused, or its payload is awaited. */
  function OnReading(c: Conn, reading: Reading, fetched: string): Conn {
    match reading
    case Reject(sig, m) => Send(c.(signature := sig), Refusal(sig, m))
    case Await(sig, args) => AwaitPayload(c.(signature := sig), args, fetched)
  }

  function AwaitPayload(c: Conn, args: seq<Argument>, fetched: string): Conn {
    var s := Scatter(args, fetched);
    c.(pending := ReadingPayload, args := s.args, offsets := s.offsets)
  }

  /** The bytes beyond the terminator of the header. */
  function Beyond(stream: string): string {
    var d := Next('\0', stream, 0);
    if d == |stream| then "" else stream[d + 1..]
  }

  function OnPayload(server: Server, c: Conn, bytes: string): Conn
    requires Enabled(c, PayloadArrived(bytes))
  {
    var args := Fill(c.args, c.offsets, bytes);
    Send(c.(args := [], calls := c.calls + [args]), server.run(c.signature, args))
  }

  function Step(server: Server, c: Conn, e: Event): Conn
    requires Enabled(c, e)
  {
    match e
    case HeaderFailed(m) => Send(c, Refusal(c.signature, "Cannot receive header: " + m))
    case HeaderArrived(b) => OnHeader(server, c, b)
    case PayloadFailed(m) => Send(c, Refusal(c.signature, "Cannot receive payload: " + m))
    case PayloadArrived(b) => OnPayload(server, c, b)
    case Written => c.(pending := Closed)
  }

  /** The state after a run of events; `None` if an event was not due. */
  function After(server: Server, es: seq<Event>): Option<Conn> {
    if es == [] then Some(INITIAL)
    else
      var last := |es| - 1;
      var c := After(server, es[..last]);
      if c.Some? && Enabled(c.value, es[last]) then Some(Step(server, c.value, es[last])) else None
  }

  /** The call was made with the arguments that the header announced, cut from the payload:
      what was fetched with the header, followed by what the socket delivered. */
  ghost predicate WholePayloadIn(server: Server, header: string, bytes: string, call: seq<Argument>) {
    && var d := Next('\0', header, 0);
    && d < |header| && server.read(header[..d]).Await?
    && var args := server.read(header[..d]).args;
    && Total(args) <= |Beyond(header) + bytes|
    && call == Cut(args, Beyond(header) + bytes)
  }

  /** The runs of a server, by the operation that is pending after them. */
  ghost predicate Shape(server: Server, es: seq<Event>, c: Conn) {
    match c.pending
    case ReadingHeader => es == [] && c == INITIAL
    case ReadingPayload =>
      && |es| == 1 && es[0].HeaderArrived? && Enabled(INITIAL, es[0])
      && c == OnHeader(server, INITIAL, es[0].buffered)
    case Writing => 1 <= |es| <= 2 && Answered(server, es, c)
    case Closed => 2 <= |es| <= 3 && es == es[..|es| - 1] + [Written] && Answered(server, es[..|es| - 1], c)
  }

  /** One reply.  If the payload arrived it is that of the one call, which was made on the whole
      payload; otherwise there was no call, and it is a refusal. */
  ghost predicate Answered(server: Server, es: seq<Event>, c: Conn) {
    && |c.replies| == 1 && 1 <= |es| <= 2
    && (if |es| == 2 && es[1].PayloadArrived? then
          && es[0].HeaderArrived? && |c.calls| == 1
          && WholePayloadIn(server, es[0].buffered, es[1].bytes, c.calls[0])
          && c.replies[0] == server.run(c.signature, c.calls[0])
        else c.calls == [] && !es[0].PayloadArrived? && !c.replies[0].successful)
  }

  lemma {:induction false} RunShape(server: Server, es: seq<Event>)
    requires After(server, es).Some?
    ensures Shape(server, es, After(server, es).value)
  {
    if es == [] {
    } else {
      var before, e := es[..|es| - 1], es[|es| - 1];
      var c := AfterLast(server, es, before, e);
      RunShape(server, before);
      StepShape(server, before, c, e);
    }
  }

  lemma {:induction false} AfterLast(server: Server, es: seq<Event>, before: seq<Event>, e: Event) returns (c: Conn)
    requires After(server, es).Some? && es != [] && before == es[..|es| - 1] && e == es[|es| - 1]
    ensures es == before + [e] && After(server, before) == Some(c)
    ensures Enabled(c, e) && After(server, es) == Some(Step(server, c, e))
  {
    c := After(server, before).value;
  }

  lemma {:induction false} StepShape(server: Server, es: seq<Event>, c: Conn, e: Event)
    requires Shape(server, es, c) && Enabled(c, e)
    ensures Shape(server, es + [e], Step(server, c, e))
  {
    match e
    case HeaderFailed(_) => HeaderStepShape(server, e);
    case HeaderArrived(_) => HeaderStepShape(server, e);
    case PayloadFailed(_) => PayloadStepShape(server, es[0], c, e);
    case PayloadArrived(_) => PayloadStepShape(server, es[0], c, e);
    case Written => WrittenShape(server, es, c);
  }

  lemma {:induction false} HeaderStepShape(server: Server, e: Event)
    requires Enabled(INITIAL, e)
    ensures Shape(server, [] + [e], Step(server, INITIAL, e))
  {
    assert [] + [e] == [e];
  }

  lemma {:induction false} PayloadStepShape(server: Server, header: Event, c: Conn, e: Event)
    requires header.HeaderArrived? && Enabled(INITIAL, header) && c.pending == ReadingPayload
    requires c == OnHeader(server, INITIAL, header.buffered) && Enabled(c, e)
    ensures Shape(server, [header] + [e], Step(server, c, e))
  {
    assert [header] + [e] == [header, e];
    if e.PayloadArrived? {
      PayloadShape(server, header.buffered, c, e.bytes);
    }
  }

  lemma {:induction false} WrittenShape(server: Server, es: seq<Event>, c: Conn)
    requires Shape(server, es, c) && c.pending == Writing
    ensures Shape(server, es + [Written], c.(pending := Closed))
  {
    assert (es + [Written])[..|es|] == es;
  }

  lemma {:induction false} PayloadShape(server: Server, header: string, c: Conn, bytes: string)
    requires Enabled(INITIAL, HeaderArrived(header)) && c == OnHeader(server, INITIAL, header)
    requires Enabled(c, PayloadArrived(bytes))
    ensures WholePayloadIn(server, header, bytes, OnPayload(server, c, bytes).calls[0])
  {
    var d := Next('\0', header, 0);
    var args := server.read(header[..d]).args;
    Conservation(args, Beyond(header));
    PrefetchIndependence(args, Beyond(header), bytes);
  }

  /** One write at most, and none before it is due; one call at most, when the payload arrived
      and on the whole of it; a response is what the call gave, or it is a refusal. */
  ghost predicate Safe(server: Server, es: seq<Event>, c: Conn) {
    && |c.replies| == (if c.pending in {Writing, Closed} then 1 else 0)
    && |c.calls| <= 1 && |es| <= 3
    && (c.calls != [] <==> exists i | 0 <= i < |es| :: es[i].PayloadArrived?)
    && (c.calls != [] ==>
          && es[0].HeaderArrived? && es[1].PayloadArrived?
          && WholePayloadIn(server, es[0].buffered, es[1].bytes, c.calls[0])
          && c.replies == [server.run(c.signature, c.calls[0])])
    && (c.calls == [] ==> forall r | r in c.replies :: !r.successful)
  }

  lemma {:induction false} ShapeSafe(server: Server, es: seq<Event>, c: Conn)
    requires Shape(server, es, c)
    ensures Safe(server, es, c)
  {
    match c.pending
    case ReadingHeader =>
    case ReadingPayload =>
    case Writing => AnsweredSafe(server, es, es, c);
    case Closed => AnsweredSafe(server, es[..|es| - 1], es, c);
  }

  lemma {:induction false} AnsweredSafe(server: Server, es: seq<Event>, all: seq<Event>, c: Conn)
    requires Answered(server, es, c) && c.pending in {Writing, Closed}
    requires all == es || all == es + [Written]
    ensures Safe(server, all, c)
  {
    assert forall i | 0 <= i < |es| :: all[i] == es[i];
    if c.calls == [] {
      assert forall i | 0 <= i < |es| :: !es[i].PayloadArrived?;
    } else {
      assert all[1].PayloadArrived?;
    }
  }

  /** Every run of every server, whatever fails in it: one write is started and only one; the
      service is invoked at most once, when the payload has arrived and on the whole of it; and
      only what the service then returns can be a successful response, which is complete. */
  lemma {:induction false} ConnectionSafety(skeletons: Skeletons, es: seq<Event>)
    requires After(ServerOf(skeletons), es).Some?
    ensures var c := After(ServerOf(skeletons), es).value;
            && Safe(ServerOf(skeletons), es, c)
            && (c.calls != [] ==> c.replies == [Serve(skeletons, c.signature, c.calls[0])])
            && forall r | r in c.replies :: Complete(r)
  {
    var server := ServerOf(skeletons);
    RunShape(server, es);
    var c := After(server, es).value;
    ShapeSafe(server, es, c);
    if c.calls != [] {
      ServeComplete(skeletons, c.signature, c.calls[0]);
    }
  }

  lemma {:induction false} ServeComplete(skeletons: Skeletons, sig: Fields, args: seq<Argument>)
    ensures Complete(Serve(skeletons, sig, args))
  {
    AnswerComplete(sig, if sig.text in skeletons then skeletons[sig.text](args) else Raised(UnknownService(sig.text)));
  }
}
