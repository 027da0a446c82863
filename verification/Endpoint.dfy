/** The two ends of a connection as they run: sockets, the callbacks of a server, the stub. */
module Endpoints {
  import opened Wrappers
  import opened Signatures
  import opened Arguments
  import opened ArgumentQueues
  import opened Terminated
  import opened Headers
  import opened Messages
  import opened Payloads
  import opened Preparation
  import opened Connections
  import opened Rpc

  /** A connected socket: the bytes that will still arrive before the peer closes or the
      connection breaks, the error that is reported then, and the messages that were written. */
  class Socket {
    const closed: string
    var incoming: string
    var outgoing: seq<string>

    constructor (incoming: string, closed: string)
      ensures this.incoming == incoming && this.closed == closed && outgoing == []
    {
      this.incoming, this.closed, outgoing := incoming, closed, [];
    }

    /** Some bytes, as many as the network happens to deliver. */
    method ReadSome() returns (bytes: string)
      requires incoming != ""
      modifies this`incoming
      ensures bytes != "" && bytes + incoming == old(incoming)
    {
      var k: nat :| 1 <= k <= |incoming|;
      bytes := incoming[..k];
      incoming := incoming[k..];
    }

    /** Reads until the buffer holds a NUL; any number of bytes may be fetched beyond it. */
    method ReadUntil(buffer: string) returns (error: Option<string>, buffered: string)
      modifies this`incoming
      ensures buffered + incoming == buffer + old(incoming)
      ensures error == if Next('\0', buffer + old(incoming), 0) < |buffer + old(incoming)| then None else Some(closed)
      ensures error.None? ==> Next('\0', buffered, 0) < |buffered|
    {
      buffered := buffer;
      while Next('\0', buffered, 0) == |buffered|
        invariant buffered + incoming == buffer + old(incoming)
        decreases |incoming|
      {
        if incoming == "" {
          assert buffered + incoming == buffered;
          return Some(closed), buffered;
        }
        var bytes := ReadSome();
        assert buffered + bytes + incoming == buffered + (bytes + incoming);
        buffered := buffered + bytes;
      }
      NextInPrefix(buffered, incoming);
      return None, buffered;
    }

    /** Reads exactly `n` bytes, in as many pieces as it takes. */
    method Read(n: nat) returns (error: Option<string>, bytes: string)
      modifies this`incoming
      ensures error == if n <= |old(incoming)| then None else Some(closed)
      ensures error.None? ==> bytes == old(incoming)[..n] && incoming == old(incoming)[n..]
    {
      if n > |incoming| {
        return Some(closed), "";
      }
      bytes := incoming[..n];
      incoming := incoming[n..];
      return None, bytes;
    }

    method Write(buffers: seq<string>)
      modifies this`outgoing
      ensures outgoing == old(outgoing) + [Wire(buffers)]
    {
      outgoing := outgoing + [Wire(buffers)];
    }
  }

  lemma {:induction false} NextInPrefix(s: string, more: string)
    requires Next('\0', s, 0) < |s|
    ensures Next('\0', s + more, 0) == Next('\0', s, 0)
    ensures s[..Next('\0', s, 0)] == (s + more)[..Next('\0', s, 0)]
    ensures Beyond(s + more) == Beyond(s) + more
  {
    var d := Next('\0', s, 0);
    NextIs(s + more, d);
  }

  lemma {:induction false} NextIs(s: string, d: nat)
    requires d < |s| && s[d] == '\0' && forall k | 0 <= k < d :: s[k] != '\0'
    ensures Next('\0', s, 0) == d
  {
  }

  /** `ServiceSkeletonSerializationHelper`: one request on one socket. */
  class Connection {
    const skeletons: Skeletons
    const socket: Socket
    var pending: Pending
    var headerBuffer: string
    var payloadBuffers: seq<nat>
    var signature: Fields
    var arguments: seq<Argument>
    var response: Option<Reply>
    ghost var replies: seq<Reply>
    ghost var calls: seq<seq<Argument>>

    ghost function State(): Conn
      reads this
    {
      Conn(pending, signature, arguments, payloadBuffers, replies, calls)
    }

    /** What was written are the responses. */
    ghost predicate Valid()
      reads this, socket
    {
      && |socket.outgoing| == |replies|
      && forall i | 0 <= i < |replies| :: socket.outgoing[i] == ResponseBytes(replies[i])
    }

    constructor (skeletons: Skeletons, socket: Socket)
      requires socket.outgoing == []
      ensures Valid() && State() == INITIAL && headerBuffer == ""
      ensures this.skeletons == skeletons && this.socket == socket
    {
      this.skeletons, this.socket := skeletons, socket;
      pending, headerBuffer, payloadBuffers, signature := ReadingHeader, "", [], ANY;
      arguments, response := [], None;
      replies, calls := [], [];
    }

    /** Starts the write of a response; an incomplete one is refused before anything is written. */
    method SendResponse(r: Option<Reply>) returns (error: Option<string>)
      requires Valid()
      modifies this`response, this`pending, this`replies, socket`outgoing
      ensures Valid()
      ensures var reply: ReplyFields := if r.None? then Refusal(signature, NO_RESPONSE) else r.value;
              match ResponseBuffers(reply)
              case Success(_) => error == None && Complete(reply) && State() == Send(old(State()), reply)
              case Failure(m) => error == Some(m) && State() == old(State())
    {
      var reply := if r.None? then Refusal(signature, NO_RESPONSE) else r.value;
      response := Some(reply);
      var buffers := ResponseBuffers(reply);
      if buffers.Failure? {
        return Some(buffers.error);
      }
      Transmit(reply, buffers.value);
      return None;
    }

    method Transmit(reply: Reply, buffers: seq<string>)
      requires Valid() && ResponseBuffers(reply) == Success(buffers)
      modifies this`pending, this`replies, socket`outgoing
      ensures Valid() && State() == Send(old(State()), reply)
    {
      socket.Write(buffers);
      pending := Writing;
      replies := replies + [reply];
    }

    /** A refusal always goes out. */
    method SendRefusal(message: string)
      requires Valid()
      modifies this`response, this`pending, this`replies, socket`outgoing
      ensures Valid() && State() == Send(old(State()), Refusal(signature, message))
    {
      var error := SendResponse(Some(Refusal(signature, message)));
    }

    method OnHeaderReceived(error: Option<string>)
      requires Valid() && pending == ReadingHeader && signature == ANY
      requires error.None? ==> Next('\0', headerBuffer, 0) < |headerBuffer|
      modifies this, socket`outgoing
      ensures Valid()
      ensures State() == Connections.Step(ServerOf(skeletons), old(State()),
                              if error.Some? then HeaderFailed(error.value) else HeaderArrived(old(headerBuffer)))
    {
      if error.Some? {
        SendRefusal("Cannot receive header: " + error.value);
        return;
      }
      ReceiveHeaderText();
    }

    method ReceiveHeaderText()
      requires Valid() && pending == ReadingHeader && signature == ANY
      requires Next('\0', headerBuffer, 0) < |headerBuffer|
      modifies this, socket`outgoing
      ensures Valid()
      ensures State() == OnHeader(ServerOf(skeletons), old(State()), old(headerBuffer))
    {
      var n := Next('\0', headerBuffer, 0);
      var header := headerBuffer[..n];
      HeaderStep(skeletons, State(), headerBuffer);
      ReceiveDocument(Decode(header), n + 1);
    }

    /** The header callback, once the document is parsed. */
    method ReceiveDocument(doc: Option<Doc>, bytesTransferred: nat)
      requires Valid() && pending == ReadingHeader && signature == ANY && bytesTransferred <= |headerBuffer|
      modifies this, socket`outgoing
      ensures Valid()
      ensures State() == OnReading(old(State()), ReadDocument(skeletons.Keys, doc),
                                   old(headerBuffer)[bytesTransferred..])
    {
      if doc.None? {
        SendRefusal("Malformed header");
        return;
      }
      if doc.value.service.None? {
        SendRefusal("Key not found: service");
        return;
      }
      signature := Construct(doc.value.service.value);
      ReceiveRequest(doc.value.blocks, bytesTransferred);
    }

    /** The rest of the header callback, once the signature is known. */
    method ReceiveRequest(node: Option<seq<Option<int>>>, bytesTransferred: nat)
      requires Valid() && pending == ReadingHeader && bytesTransferred <= |headerBuffer|
      modifies this, socket`outgoing
      ensures Valid() && signature == old(signature)
      ensures State() == OnReading(old(State()), ReadRequest(skeletons.Keys, signature, node),
                                   old(headerBuffer)[bytesTransferred..])
    {
      if signature.text !in skeletons {
        SendRefusal("Service not available.");
        return;
      }
      var blocks := ReadBlockSizes(node);
      if blocks.Failure? {
        SendRefusal(blocks.error);
        return;
      }
      if |blocks.value| != |signature.inputs| {
        SendRefusal(CountMessage("request", |signature.inputs|, |blocks.value|));
        return;
      }
      ReceiveArguments(blocks.value, bytesTransferred);
    }

    /** The loop over the arguments, and the start of the read of what was not fetched. */
    method ReceiveArguments(blocks: seq<nat>, bytesTransferred: nat)
      requires Valid() && |blocks| == |signature.inputs| && bytesTransferred <= |headerBuffer|
      modifies this, socket`outgoing
      ensures Valid() && signature == old(signature)
      ensures match Prepared(signature.inputs, blocks, |signature.inputs|)
              case Failure(m) => State() == Send(old(State()), Refusal(signature, m))
              case Success(args) => State() == AwaitPayload(old(State()), args, old(headerBuffer)[bytesTransferred..])
    {
      headerBuffer := headerBuffer[bytesTransferred..];
      var p := PrepareArguments(signature.inputs, blocks, headerBuffer);
      if p.Failure? {
        SendRefusal(p.error);
        return;
      }
      arguments, payloadBuffers, headerBuffer := p.value.args, p.value.offsets, p.value.left;
      pending := ReadingPayload;
    }

    /** The payload is in the arguments, or could not be read. */
    method OnPayloadReceived(error: Option<string>)
      requires Valid() && pending == ReadingPayload
      modifies this, socket`outgoing
      ensures Valid()
      ensures error.Some? ==>
        State() == Send(old(State()), Refusal(signature, "Cannot receive payload: " + error.value))
      ensures error.None? ==>
        State() == Send(old(State()).(args := [], calls := old(calls) + [old(arguments)]),
                        Serve(skeletons, signature, old(arguments)))
    {
      if error.Some? {
        SendRefusal("Cannot receive payload: " + error.value);
        return;
      }
      var args := arguments;
      arguments := [];
      calls := calls + [args];
      if signature.text in skeletons {
        SendOutcome(skeletons[signature.text](args));
      } else {
        SendOutcome(Raised(UnknownService(signature.text)));
      }
    }

    /** Sends the response of an invocation, or reports what was thrown instead of it. */
    method SendOutcome(outcome: Invocation)
      requires Valid()
      modifies this`response, this`pending, this`replies, socket`outgoing
      ensures Valid() && State() == Send(old(State()), Answer(signature, outcome))
    {
      var thrown := TrySend(outcome);
      if thrown.Some? {
        SendRefusal("Internal server error: " + thrown.value);
      }
    }

    /** Sends what was returned, unless an exception comes before the write. */
    method TrySend(outcome: Invocation) returns (thrown: Option<string>)
      requires Valid()
      modifies this`response, this`pending, this`replies, socket`outgoing
      ensures Valid()
      ensures thrown.None? ==> State() == Send(old(State()), Answer(signature, outcome))
      ensures thrown.Some? ==>
        && State() == old(State())
        && Answer(signature, outcome) == Refusal(signature, "Internal server error: " + thrown.value)
    {
      match outcome {
        case Raised(m) =>
          thrown := Some(m);
        case ReturnedNull =>
          thrown := SendResponse(None);
        case Returned(r) =>
          thrown := SendResponse(Some(r));
      }
    }

    method OnWriteResponse()
      requires Valid() && pending == Writing
      modifies this`pending
      ensures Valid() && State() == Connections.Step(ServerOf(skeletons), old(State()), Written)
    {
      pending := Closed;
    }

    /** The response that is still owed while the payload is awaited. */
    ghost function Owed(): Reply
      requires OffsetsOk(arguments, payloadBuffers)
      reads this, socket
    {
      var need := ResidualSize(arguments, payloadBuffers);
      if need < 0 || need > |socket.incoming| then Refusal(signature, "Cannot receive payload: " + socket.closed)
      else Serve(skeletons, signature, Fill(arguments, payloadBuffers, socket.incoming[..need]))
    }

    method ReceiveHeader()
      requires Valid() && State() == INITIAL && headerBuffer == ""
      modifies this, socket
      ensures Valid()
      ensures var reply := ServeStream(ServerOf(skeletons), old(socket.incoming), socket.closed);
              || (pending == Writing && replies == [reply])
              || (pending == ReadingPayload && replies == []
                  && OffsetsOk(arguments, payloadBuffers) && reply == Owed())
    {
      assert "" + socket.incoming == socket.incoming;
      var e, buffered := socket.ReadUntil(headerBuffer);
      headerBuffer := buffered;
      OnHeaderReceived(e);
      if e.None? {
        HeaderServed(ServerOf(skeletons), buffered, socket.incoming, socket.closed);
      }
    }

    method ReceivePayload()
      requires Valid() && pending == ReadingPayload && replies == [] && OffsetsOk(arguments, payloadBuffers)
      modifies this, socket
      ensures Valid() && pending == Writing && replies == [old(Owed())]
      ensures var need := ResidualSize(old(arguments), old(payloadBuffers));
              0 <= need && State() == Connections.Step(
                ServerOf(skeletons), old(State()),
                if need <= |old(socket.incoming)| then PayloadArrived(old(socket.incoming)[..need])
                else PayloadFailed(socket.closed))
    {
      ResidualBounds(arguments, payloadBuffers);
      var e, bytes := socket.Read(ResidualSize(arguments, payloadBuffers));
      if e.None? {
        arguments := Fill(arguments, payloadBuffers, bytes);
      }
      OnPayloadReceived(e);
    }

    /** The whole connection.  However the network cuts up the stream, one message is written:
        the response to the stream. */
    method Run()
      requires Valid() && State() == INITIAL && headerBuffer == ""
      modifies this, socket
      ensures Valid() && pending == Closed
      ensures socket.outgoing == [ResponseBytes(ServeStream(ServerOf(skeletons), old(socket.incoming), socket.closed))]
    {
      ReceiveHeader();
      if pending == ReadingPayload {
        ReceivePayload();
      }
      OnWriteResponse();
    }
  }

  /** The header step in terms of the document and of the bytes fetched beyond the header. */
  lemma {:induction false} HeaderStep(skeletons: Skeletons, c: Conn, buffered: string)
    requires Next('\0', buffered, 0) < |buffered|
    ensures var n := Next('\0', buffered, 0);
            OnHeader(ServerOf(skeletons), c, buffered)
            == OnReading(c, ReadDocument(skeletons.Keys, Decode(buffered[..n])), buffered[n + 1..])
  {
  }

  /** What is left to do after the header callback, in terms of the stream. */
  lemma {:induction false} HeaderServed(server: Server, buffered: string, rest: string, closed: string)
    requires Next('\0', buffered, 0) < |buffered|
    ensures var c := OnHeader(server, INITIAL, buffered);
            var reply := ServeStream(server, buffered + rest, closed);
            && (c.pending == Writing ==> c.replies == [reply])
            && (c.pending == ReadingPayload ==>
                  && OffsetsOk(c.args, c.offsets) && c.replies == []
                  && var need := ResidualSize(c.args, c.offsets);
                  && need >= 0
                  && reply == (if need > |rest| then Refusal(c.signature, "Cannot receive payload: " + closed)
                               else server.run(c.signature, Fill(c.args, c.offsets, rest[..need]))))
  {
    NextInPrefix(buffered, rest);
    var r := server.read(buffered[..Next('\0', buffered, 0)]);
    if r.Await? {
      PayloadServed(r.args, Beyond(buffered), rest);
    }
  }

  lemma {:induction false} PayloadServed(args: seq<Argument>, fetched: string, rest: string)
    ensures var s := Scatter(args, fetched);
            && OffsetsOk(s.args, s.offsets)
            && var need := ResidualSize(s.args, s.offsets);
            && 0 <= need && (need > |rest| <==> |fetched + rest| < Total(args))
            && (need <= |rest| ==> Fill(s.args, s.offsets, rest[..need]) == Cut(args, fetched + rest))
  {
    Conservation(args, fetched);
    if ResidualSize(Scatter(args, fetched).args, Scatter(args, fetched).offsets) <= |rest| {
      PayloadFilled(args, fetched, rest);
    }
  }

  lemma {:induction false} PayloadFilled(args: seq<Argument>, fetched: string, rest: string)
    requires var s := Scatter(args, fetched);
             OffsetsOk(s.args, s.offsets) && 0 <= ResidualSize(s.args, s.offsets) <= |rest|
    requires Total(args) <= |fetched + rest|
    ensures var s := Scatter(args, fetched);
            Fill(s.args, s.offsets, rest[..ResidualSize(s.args, s.offsets)]) == Cut(args, fetched + rest)
  {
    Conservation(args, fetched);
    var s := Scatter(args, fetched);
    var need := ResidualSize(s.args, s.offsets);
    PrefetchIndependence(args, fetched, rest[..need]);
    CutLocal(args, fetched + rest[..need], rest[need..]);
    Divided(fetched, rest, need);
  }

  lemma {:induction false} Divided(fetched: string, rest: string, need: nat)
    requires need <= |rest|
    ensures fetched + rest == fetched + rest[..need] + rest[need..]
  {
  }

  /** Only the bytes of the payload matter. */
  lemma {:induction false} CutLocal(args: seq<Argument>, payload: string, more: string)
    requires Total(args) <= |payload|
    ensures Cut(args, payload + more) == Cut(args, payload)
  {
    if args == [] {
    } else {
      var n := |args[0].data|;
      assert (payload + more)[..n] == payload[..n];
      assert (payload + more)[n..] == payload[n..] + more;
      CutLocal(args[1..], payload[n..], more);
    }
  }

  /** A decoded header, and the arguments it announces with what was fetched beyond it. */
  datatype Decoded = Decoded(signature: Fields, successful: bool, status: string, payload: Scattering)

  /** What a decoded header comes to once the fetched bytes are spread over its arguments. */
  function WithFetched(head: Result<Head>, fetched: string): Result<Decoded> {
    match head
    case Failure(m) => Failure(m)
    case Success(h) => Success(Decoded(h.signature, h.successful, h.status, Scatter(h.args, fetched)))
  }

  method DecodeHead(header: string, fetched: string) returns (r: Result<Decoded>)
    ensures r == WithFetched(ReadHead(header), fetched)
  {
    var doc := Decode(header);
    if doc.None? {
      return Failure("Malformed header");
    }
    if doc.value.service.None? {
      return Failure("Key not found: service");
    }
    if doc.value.successful.None? {
      return Failure("Key not found: successful");
    }
    if doc.value.status.None? {
      return Failure("Key not found: status");
    }
    var signature := Construct(doc.value.service.value);
    r := DecodeReply(signature, doc.value.successful.value, doc.value.status.value, doc.value.blocks, fetched);
  }

  method DecodeReply(
    signature: Fields, successful: bool, status: string, node: Option<seq<Option<int>>>, fetched: string)
    returns (r: Result<Decoded>)
    ensures r == WithFetched(ReadReply(signature, successful, status, node), fetched)
  {
    var blocks := ReadBlockSizes(node);
    if blocks.Failure? {
      return Failure(blocks.error);
    }
    if successful == false {
      return Success(Decoded(signature, false, status, Scattering([], [], fetched)));
    }
    if |blocks.value| != |signature.outputs| {
      return Failure(CountMessage("response", |signature.outputs|, |blocks.value|));
    }
    var p := PrepareArguments(signature.outputs, blocks.value, fetched);
    if p.Failure? {
      return Failure(p.error);
    }
    return Success(Decoded(signature, true, status, p.value));
  }

  /** The arguments that a successful header announces make a response. */
  lemma {:induction false} HeadFits(header: string, payload: string)
    requires ReadHead(header).Success? && ReadHead(header).value.successful
    requires Total(ReadHead(header).value.args) <= |payload|
    ensures var h := ReadHead(header).value;
            var args := Cut(h.args, payload);
            |args| == |h.signature.outputs| && Typed(h.signature.outputs, args) && Sound(args)
  {
    var h := ReadHead(header).value;
    var blocks := ReadSizes(Decode(header).value.blocks).value;
    PreparedFits(h.signature.outputs, blocks, |h.signature.outputs|);
    PayloadCut(h.args, payload);
  }

  /** Decodes a response from a socket, however the network cuts up the stream. */
  method Deserialize(socket: Socket) returns (r: Result<Response>)
    modifies socket`incoming
    ensures match Receive(old(socket.incoming), socket.closed)
            case Failure(m) => r == Failure(m)
            case Success(reply) =>
              && r.Success? && fresh(r.value) && r.value.Valid() && r.value.Value() == reply
              && r.value.outs == [] && r.value.ins == reply.args
  {
    assert "" + socket.incoming == socket.incoming;
    var e, buffered := socket.ReadUntil("");
    if e.Some? {
      return Failure(e.value);
    }
    ghost var rest := socket.incoming;
    NextInPrefix(buffered, rest);
    var n := Next('\0', buffered, 0);
    var head := DecodeHead(buffered[..n], buffered[n + 1..]);
    if head.Failure? {
      return Failure(head.error);
    }
    var h := head.value;
    ghost var awaited := ReadHead(buffered[..n]).value.args;
    if h.successful == false {
      FailedHasNoArguments(buffered[..n]);
      var failed := new Response(h.signature, false, h.status);
      return Success(failed);
    }
    PayloadServed(awaited, Beyond(buffered), rest);
    var e2, bytes := socket.Read(ResidualSize(h.payload.args, h.payload.offsets));
    if e2.Some? {
      return Failure(e2.value);
    }
    HeadFits(buffered[..n], Beyond(buffered) + rest);
    var arguments := Fill(h.payload.args, h.payload.offsets, bytes);
    var response := new Response.FromArguments(h.signature, h.status, arguments);
    return Success(response);
  }

  lemma {:induction false} FailedHasNoArguments(header: string)
    requires ReadHead(header).Success? && !ReadHead(header).value.successful
    ensures ReadHead(header).value.args == []
  {
  }

  /** What a client makes of a server's answer to its request. */
  function Called(skeletons: Skeletons, sig: Fields, args: seq<Argument>, closed: string): Result<ReplyFields>
    requires |args| >= |sig.inputs|
  {
    Receive(Roundtrip(skeletons, sig, args, "", closed), closed)
  }

  /** A remote call, from the stub's request to its response, over any network, of any service of any
      server.  For a request that the server understands and a response that can be read this is
      the response of the direct call. */
  method RemoteCall(request: Service, skeletons: Skeletons, closed: string) returns (r: Result<Response>)
    modifies request`header
    ensures |request.arguments| < |request.signature.inputs| ==>
      r == Failure(Missing(|request.signature.inputs| - |request.arguments|))
    ensures |request.arguments| >= |request.signature.inputs| ==>
      match Called(skeletons, request.signature, request.arguments, closed)
      case Failure(m) => r == Failure(m)
      case Success(reply) => r.Success? && r.value.Valid() && r.value.Value() == reply && r.value.outs == []
    ensures
      && request.Fifo() && |request.arguments| == |request.signature.inputs|
      && Sound(request.arguments) && Transferable(request.arguments)
      && Reaches(skeletons.Keys, request.signature)
      && Travels(Direct(skeletons, request.signature, request.arguments))
      ==> Called(skeletons, request.signature, request.arguments, closed)
          == Received(Direct(skeletons, request.signature, request.arguments))
  {
    var buffers := request.GetConstBuffers();
    if buffers.Failure? {
      return Failure(buffers.error);
    }
    r := Exchange(skeletons, request.signature, request.arguments, Wire(buffers.value), closed);
    if request.Fifo() && |request.arguments| == |request.signature.inputs| {
      FullyPushed(request);
      CallArrives(skeletons, request.signature, request.arguments, closed);
    }
  }

  /** The request goes out, and the response comes in. */
  method Exchange(skeletons: Skeletons, sig: Fields, args: seq<Argument>, stream: string, closed: string)
    returns (r: Result<Response>)
    requires |args| >= |sig.inputs| && stream == RequestBytes(sig, args)
    ensures match Called(skeletons, sig, args, closed)
            case Failure(m) => r == Failure(m)
            case Success(reply) =>
              r.Success? && fresh(r.value) && r.value.Valid() && r.value.Value() == reply && r.value.outs == []
  {
    assert stream + "" == stream;
    var message := Accept(skeletons, stream, closed);
    var toClient := new Socket(message, closed);
    r := Deserialize(toClient);
  }

  /** The server's side of a connection: the message it writes in answer to a stream. */
  method Accept(skeletons: Skeletons, stream: string, closed: string) returns (message: string)
    ensures message == ResponseBytes(ServeStream(ServerOf(skeletons), stream, closed))
  {
    var socket := new Socket(stream, closed);
    var connection := new Connection(skeletons, socket);
    connection.Run();
    return socket.outgoing[0];
  }

  lemma {:induction false} CallArrives(skeletons: Skeletons, sig: Fields, args: seq<Argument>, closed: string)
    ensures Callable(skeletons, sig, args) && Travels(Direct(skeletons, sig, args)) ==>
      Called(skeletons, sig, args, closed) == Received(Direct(skeletons, sig, args))
  {
    if Callable(skeletons, sig, args) && Travels(Direct(skeletons, sig, args)) {
      var reply := Roundtrip(skeletons, sig, args, "", closed);
      assert reply + "" == reply;
      Transparency(skeletons, sig, args, "", closed, "", closed);
    }
  }

  lemma {:induction false} FullyPushed(request: Service)
    requires request.Fifo() && |request.arguments| >= |request.signature.inputs|
    ensures |request.arguments| == |request.signature.inputs|
    ensures Typed(request.signature.inputs, request.arguments)
  {
    assert request.outs == [];
  }
}
