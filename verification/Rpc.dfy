/**
 Remote calls: what each end makes of the bytes it receives, and why a remote call gives what
 calling the code of the service directly would give.
 */
module Rpc {
  import opened Wrappers
  import opened Signatures
  import opened Arguments
  import opened ArgumentQueues
  import opened Terminated
  import opened Headers
  import opened Messages
  import opened Payloads
  import opened Preparation
  import opened Connections

  // ---------------------------------------------------------------- the two ends, on whole streams

  /** The response of a server to a stream that ends with the error `closed`. */
  function ServeStream(server: Server, stream: string, closed: string): Reply {
    var d := Next('\0', stream, 0);
    if d == |stream| then Refusal(ANY, "Cannot receive header: " + closed)
    else
      match server.read(stream[..d])
      case Reject(sig, m) => Refusal(sig, m)
      case Await(sig, args) =>
        if |Beyond(stream)| < Total(args) then Refusal(sig, "Cannot receive payload: " + closed)
        else server.run(sig, Cut(args, Beyond(stream)))
  }

  /** What a client learns from the header of a response; `args` are the arguments to read. */
  datatype Head = Head(signature: Fields, successful: bool, status: string, args: seq<Argument>)

  function ReadHead(text: string): Result<Head> {
    match Decode(text)
    case None => Failure("Malformed header")
    case Some(doc) => ReadDoc(doc)
  }

  function ReadDoc(doc: Doc): Result<Head> {
    if doc.service.None? then Failure("Key not found: service")
    else if doc.successful.None? then Failure("Key not found: successful")
    else if doc.status.None? then Failure("Key not found: status")
    else ReadReply(Parse(doc.service.value), doc.successful.value, doc.status.value, doc.blocks)
  }

  function ReadReply(sig: Fields, successful: bool, status: string, node: Option<seq<Option<int>>>): Result<Head> {
    match ReadSizes(node)
    case Failure(e) => Failure(e)
    case Success(blocks) =>
      if !successful then Success(Head(sig, false, status, []))
      else if |blocks| != |sig.outputs| then Failure(CountMessage("response", |sig.outputs|, |blocks|))
      else
        match Prepared(sig.outputs, blocks, |sig.outputs|)
        case Failure(e) => Failure(e)
        case Success(args) => Success(Head(sig, true, status, args))
  }

  /** The response that a client decodes from a stream, or the exception it throws. */
  function Receive(stream: string, closed: string): Result<ReplyFields> {
    var d := Next('\0', stream, 0);
    if d == |stream| then Failure(closed)
    else
      match ReadHead(stream[..d])
      case Failure(e) => Failure(e)
      case Success(h) =>
        if |Beyond(stream)| < Total(h.args) then Failure(closed)
        else Success(Reply(h.signature, h.successful, h.status, Cut(h.args, Beyond(stream))))
  }

  /** The bytes of a request and of a response. */
  function RequestBytes(sig: Fields, args: seq<Argument>): string
    requires |args| >= |sig.inputs|
  {
    Wire(RequestBuffers(sig, args).value)
  }

  /** An incomplete response puts nothing on the wire. */
  function ResponseBytes(r: ReplyFields): string {
    match ResponseBuffers(r)
    case Success(buffers) => Wire(buffers)
    case Failure(_) => ""
  }

  // ---------------------------------------------------------------- framing

  lemma {:induction false} WireDatas(args: seq<Argument>)
    ensures Wire(Datas(args)) == PayloadOf(args)
  {
    if args == [] {
    } else {
      assert Datas(args)[1..] == Datas(args[1..]);
      WireDatas(args[1..]);
    }
  }

  /** A message is a header, its terminator and a payload, and is taken apart as such. */
  lemma {:induction false} TakenApart(text: string, args: seq<Argument>, trailing: string)
    requires Free('\0', text)
    ensures var stream := Wire([text + "\0"] + Datas(args)) + trailing;
            && Next('\0', stream, 0) == |text| < |stream|
            && stream[..|text|] == text
            && Beyond(stream) == PayloadOf(args) + trailing
  {
    var buffers := [text + "\0"] + Datas(args);
    assert buffers[1..] == Datas(args);
    WireDatas(args);
    var stream := Wire(buffers) + trailing;
    assert stream == text + "\0" + (PayloadOf(args) + trailing);
    NextTerminator(text, PayloadOf(args) + trailing);
  }

  lemma {:induction false} NextTerminator(text: string, rest: string)
    requires Free('\0', text)
    ensures var stream := text + "\0" + rest;
            && Next('\0', stream, 0) == |text| && stream[..|text|] == text && stream[|text| + 1..] == rest
  {
    var stream := text + "\0" + rest;
    assert stream[|text|] == '\0';
    assert forall i | 0 <= i < |text| :: stream[i] == text[i];
  }

  // ---------------------------------------------------------------- shapes

  /** The sizes that a header can carry. */
  predicate Transferable(args: seq<Argument>) {
    forall i | 0 <= i < |args| :: |args[i].data| < 0x1_0000_0000
  }

  ghost predicate Sound(args: seq<Argument>) {
    forall i | 0 <= i < |args| :: WellSized(args[i])
  }

  /** The other end prepares arguments of the shape that was sent: the text of the signature
      stands for the types of the arguments there too, and the sizes fit. */
  ghost predicate ShapeArrives(there: seq<string>, args: seq<Argument>) {
    var blocks := ReadSizes(Some(Blocks(args))).value;
    && |there| == |args| && Prepared(there, blocks, |there|).Success?
    && SameShape(Prepared(there, blocks, |there|).value, args)
  }

  lemma {:induction false} ShapeExact(there: seq<string>, params: seq<string>, args: seq<Argument>)
    requires |args| == |params| && Typed(params, args) && Sound(args)
    ensures ShapeArrives(there, args) <==> there == params && Transferable(args)
  {
    SizesRoundTrip(args);
    var blocks := ReadSizes(Some(Blocks(args))).value;
    if there == params && Transferable(args) {
      PreparedFor(there, blocks, args, |args|);
      assert args[..|args|] == args;
    }
    if ShapeArrives(there, args) {
      PreparedFits(there, blocks, |there|);
      SameTypes(there, params, blocks, args);
    }
  }

  lemma {:induction false} SameTypes(there: seq<string>, params: seq<string>, blocks: seq<nat>, args: seq<Argument>)
    requires |there| == |params| == |args| == |blocks| && Typed(params, args)
    requires forall i | 0 <= i < |args| :: TypeName(args[i].kind) == there[i] && |args[i].data| == blocks[i]
    requires forall i | 0 <= i < |args| :: blocks[i] < 0x1_0000_0000
    ensures there == params && Transferable(args)
  {
  }

  // ---------------------------------------------------------------- requests

  /** The server has a service under the signature that it reads, with the same inputs. */
  predicate Reaches(services: set<string>, sig: Fields) {
    Parse(sig.text).text in services && Parse(sig.text).inputs == sig.inputs
  }

  /** A valid signature is read as it was written, so it reaches every service that has it. */
  lemma {:induction false} ValidReaches(services: set<string>, sig: Fields)
    requires Constructed(sig) && sig.valid
    ensures Parse(sig.text) == sig
    ensures Reaches(services, sig) <==> sig.text in services
  {
    ValidIsStable(sig);
  }

  /** The server reads back the shape of the arguments exactly when there is such a service and
      the sizes fit. */
  lemma {:induction false} RequestShape(services: set<string>, sig: Fields, args: seq<Argument>)
    requires |args| == |sig.inputs| && Typed(sig.inputs, args) && Sound(args)
    ensures Free('\0', Encode(RequestDoc(sig, args)))
    ensures var r := ReadHeader(services, Encode(RequestDoc(sig, args)));
            && r.signature == Parse(sig.text)
            && (r.Await? && SameShape(r.args, args) <==> Reaches(services, sig) && Transferable(args))
  {
    HeaderRoundTrip(RequestDoc(sig, args));
    SizesRoundTrip(args);
    ShapeExact(Parse(sig.text).inputs, sig.inputs, args);
  }

  /** The server runs the service on exactly the arguments that the client sent. */
  lemma {:induction false} RequestArrives(
    skeletons: Skeletons, sig: Fields, args: seq<Argument>, trailing: string, closed: string)
    requires |args| == |sig.inputs| && Typed(sig.inputs, args) && Sound(args)
    requires Reaches(skeletons.Keys, sig) && Transferable(args)
    ensures ServeStream(ServerOf(skeletons), RequestBytes(sig, args) + trailing, closed)
         == Serve(skeletons, Parse(sig.text), args)
  {
    var text := Encode(RequestDoc(sig, args));
    RequestShape(skeletons.Keys, sig, args);
    var r := ReadHeader(skeletons.Keys, text);
    RequestServed(ServerOf(skeletons), text, Parse(sig.text), r.args, args, trailing, closed);
  }

  lemma {:induction false} RequestServed(
    server: Server, text: string, sig: Fields, prepared: seq<Argument>, args: seq<Argument>,
    trailing: string, closed: string)
    requires Free('\0', text) && server.read(text) == Await(sig, prepared) && SameShape(prepared, args)
    ensures ServeStream(server, Wire([text + "\0"] + Datas(args)) + trailing, closed) == server.run(sig, args)
  {
    TakenApart(text, args, trailing);
    CutPayload(prepared, args, trailing);
  }

  /** A request for a service that is not installed is refused, and the client learns why. */
  lemma {:induction false} NotInstalled(
    skeletons: Skeletons, sig: Fields, args: seq<Argument>, more: string, closed: string)
    requires Parse(sig.text).text !in skeletons && |args| >= |sig.inputs|
    ensures ServeStream(ServerOf(skeletons), RequestBytes(sig, args) + more, closed)
         == Refusal(Parse(sig.text), "Service not available.")
  {
    var text := Encode(RequestDoc(sig, args));
    HeaderRoundTrip(RequestDoc(sig, args));
    TakenApart(text, args, more);
    assert ReadHeader(skeletons.Keys, text) == Reject(Parse(sig.text), "Service not available.");
  }

  // ---------------------------------------------------------------- responses

  /** What the client is to make of a response: a successful one with its status and its outputs,
      but only if there is a status; of a failed one the name of the service and the status. */
  function Received(r: Reply): Result<ReplyFields> {
    if !r.successful then Success(Reply(Parse(r.signature.text), false, r.status, []))
    else if r.status == "" then Failure("Key not found: status")
    else Success(Reply(Parse(r.signature.text), true, r.status, r.args))
  }

  /** The outputs of a successful response can be read: the text of its signature stands for
      them, and a header can carry their sizes. */
  predicate Travels(r: Reply) {
    r.successful ==> Parse(r.signature.text).outputs == r.signature.outputs && Transferable(r.args)
  }

  /** The client received the outputs and the status of a response. */
  predicate Delivered(received: Result<ReplyFields>, r: Reply) {
    received.Success? && received.value.successful && received.value.status == r.status && received.value.args == r.args
  }

  lemma {:induction false} ReceiveTaken(text: string, args: seq<Argument>, trailing: string, closed: string)
    requires Free('\0', text)
    ensures Receive(Wire([text + "\0"] + Datas(args)) + trailing, closed)
         == match ReadHead(text)
            case Failure(e) => Failure(e)
            case Success(h) =>
              if Total(args) + |trailing| < Total(h.args) then Failure(closed)
              else Success(Reply(h.signature, h.successful, h.status, Cut(h.args, PayloadOf(args) + trailing)))
  {
    TakenApart(text, args, trailing);
  }

  lemma {:induction false} HeadRead(r: Reply)
    ensures Free('\0', Encode(ResponseDoc(r)))
    ensures ReadHead(Encode(ResponseDoc(r)))
         == if r.successful && r.status == "" then Failure("Key not found: status")
            else ReadReply(Parse(r.signature.text), r.successful, r.status, Some(Blocks(r.args)))
  {
    HeaderRoundTrip(ResponseDoc(r));
  }

  /** The client decodes every response whose outputs can be read. */
  lemma {:induction false} ResponseArrives(r: Reply, trailing: string, closed: string)
    requires Complete(r) && Travels(r)
    ensures Receive(ResponseBytes(r) + trailing, closed) == Received(r)
  {
    if r.successful {
      SuccessRead(r, trailing, closed);
    } else {
      FailureRead(r, trailing, closed);
    }
  }

  lemma {:induction false} FailureRead(r: Reply, trailing: string, closed: string)
    requires !r.successful
    ensures Receive(ResponseBytes(r) + trailing, closed) == Received(r)
  {
    HeadRead(r);
    SizesRoundTrip(r.args);
    ReceiveTaken(Encode(ResponseDoc(r)), r.args, trailing, closed);
  }

  lemma {:induction false} SuccessRead(r: Reply, trailing: string, closed: string)
    requires r.successful && Complete(r) && Travels(r)
    ensures Receive(ResponseBytes(r) + trailing, closed) == Received(r)
  {
    HeadRead(r);
    ReceiveTaken(Encode(ResponseDoc(r)), r.args, trailing, closed);
    if r.status != "" {
      var h := ReplyRead(Parse(r.signature.text), r.status, r.args);
      CutPayload(h.args, r.args, trailing);
    }
  }

  lemma {:induction false} ReplyRead(sig: Fields, status: string, args: seq<Argument>) returns (h: Head)
    requires |args| == |sig.outputs| && Typed(sig.outputs, args) && Sound(args) && Transferable(args)
    ensures ReadReply(sig, true, status, Some(Blocks(args))) == Success(h)
    ensures h == Head(sig, true, status, h.args) && SameShape(h.args, args)
  {
    SizesRoundTrip(args);
    ShapeExact(sig.outputs, sig.outputs, args);
    h := Head(sig, true, status, Prepared(sig.outputs, ReadSizes(Some(Blocks(args))).value, |args|).value);
  }

  /** And no others: the outputs and the status of a complete success reach the client exactly if
      there is a status, the text of the signature stands for the outputs, and the sizes fit. */
  lemma {:induction false} OutputsArrive(r: Reply, trailing: string, closed: string)
    requires r.successful && Complete(r)
    ensures Delivered(Receive(ResponseBytes(r) + trailing, closed), r) <==> r.status != "" && Travels(r)
  {
    if Travels(r) {
      SuccessRead(r, trailing, closed);
    } else {
      HeadRead(r);
      ReceiveTaken(Encode(ResponseDoc(r)), r.args, trailing, closed);
      var sig := Parse(r.signature.text);
      ShapeExact(sig.outputs, r.signature.outputs, r.args);
      Misread(sig, r.status, r.args, PayloadOf(r.args) + trailing);
    }
  }

  lemma {:induction false} Misread(sig: Fields, status: string, args: seq<Argument>, payload: string)
    requires !ShapeArrives(sig.outputs, args)
    ensures var head := ReadReply(sig, true, status, Some(Blocks(args)));
            head.Success? && Total(head.value.args) <= |payload| ==> Cut(head.value.args, payload) != args
  {
    var head := ReadReply(sig, true, status, Some(Blocks(args)));
    SizesRoundTrip(args);
    if head.Success? && Total(head.value.args) <= |payload| {
      assert !SameShape(head.value.args, args);
      PayloadCut(head.value.args, payload);
    }
  }

  /** Every argument can be lost in a complete success: if the signature was built from a text that
      is no signature but lists the type, its canonical string no longer lists it. */
  lemma {:induction false} LostOutputs(a: Argument, status: string, trailing: string, closed: string)
    returns (r: Reply)
    requires WellSized(a)
    ensures Constructed(r.signature) && r.successful && r.status == status && r.args == [a] && Complete(r)
    ensures !Delivered(Receive(ResponseBytes(r) + trailing, closed), r)
  {
    KindIsWord(a.kind);
    var sig := TypesLost(Param(Out, TypeName(a.kind)));
    r := LoneOutput(sig, status, a);
    OutputsArrive(r, trailing, closed);
  }

  lemma {:induction false} LoneOutput(sig: Fields, status: string, a: Argument) returns (r: Reply)
    requires sig.outputs == [TypeName(a.kind)] && Parse(sig.text).outputs == [] && WellSized(a)
    ensures r.signature == sig && r.successful && r.status == status && r.args == [a]
    ensures Complete(r) && !Travels(r)
  {
    r := Reply(sig, true, status, [a]);
  }

  lemma {:induction false} KindIsWord(k: Kind)
    ensures WordText(TypeName(k))
  {
  }

  /** A failed response arrives as it is exactly if it had no arguments to lose. */
  lemma {:induction false} FailureArrives(r: Reply, trailing: string, closed: string)
    requires !r.successful
    ensures Receive(ResponseBytes(r) + trailing, closed) == Success(r)
        <==> r.args == [] && Parse(r.signature.text) == r.signature
  {
    FailureRead(r, trailing, closed);
  }

  // ---------------------------------------------------------------- transparency

  /** The stream that a server's response travels in, for a request that a client sent. */
  function Roundtrip(skeletons: Skeletons, sig: Fields, args: seq<Argument>, more: string, closed: string): string
    requires |args| >= |sig.inputs|
  {
    ResponseBytes(ServeStream(ServerOf(skeletons), RequestBytes(sig, args) + more, closed))
  }

  /** What the client can ask of a server: all arguments, of the right types and of sizes that
      fit, for a service that the server has. */
  ghost predicate Callable(skeletons: Skeletons, sig: Fields, args: seq<Argument>) {
    && |args| == |sig.inputs| && Typed(sig.inputs, args) && Sound(args) && Transferable(args)
    && Reaches(skeletons.Keys, sig)
  }

  /** The response that running the service directly leads to. */
  function Direct(skeletons: Skeletons, sig: Fields, args: seq<Argument>): Reply
    requires Reaches(skeletons.Keys, sig)
  {
    Answer(Parse(sig.text), skeletons[Parse(sig.text).text](args))
  }

  /** RPC transparency: whatever the service does, the client receives what it would make of the
      response that running the service directly on its arguments leads to. */
  lemma {:induction false} Transparency(
    skeletons: Skeletons, sig: Fields, args: seq<Argument>, more: string, closed: string,
    trailing: string, closed': string)
    requires Callable(skeletons, sig, args) && Travels(Direct(skeletons, sig, args))
    ensures Receive(Roundtrip(skeletons, sig, args, more, closed) + trailing, closed')
         == Received(Direct(skeletons, sig, args))
  {
    RequestArrives(skeletons, sig, args, more, closed);
    AnswerComplete(Parse(sig.text), skeletons[Parse(sig.text).text](args));
    ResponseArrives(Direct(skeletons, sig, args), trailing, closed');
  }

  /** In particular, the outputs and the status of a direct call that succeeds reach the client
      exactly if they are complete, there is a status, the text of the signature stands for the
      outputs, and the sizes fit; the whole response does if its signature is read back. */
  lemma {:induction false} SuccessArrives(
    skeletons: Skeletons, sig: Fields, args: seq<Argument>, more: string, closed: string,
    trailing: string, closed': string, direct: Reply)
    requires Callable(skeletons, sig, args)
    requires skeletons[Parse(sig.text).text](args) == Returned(direct) && direct.successful
    ensures var received := Receive(Roundtrip(skeletons, sig, args, more, closed) + trailing, closed');
            && (Delivered(received, direct) <==> Complete(direct) && direct.status != "" && Travels(direct))
            && (received == Success(direct) <==>
                  Delivered(received, direct) && Parse(direct.signature.text) == direct.signature)
  {
    RequestArrives(skeletons, sig, args, more, closed);
    AnswerComplete(Parse(sig.text), Returned(direct));
    var answer := Answer(Parse(sig.text), Returned(direct));
    if Complete(direct) {
      OutputsArrive(direct, trailing, closed');
      if direct.status != "" && Travels(direct) {
        ResponseArrives(direct, trailing, closed');
      }
    } else {
      FailureRead(answer, trailing, closed');
    }
  }
}
