/**
 What the two ends say to each other, word by word: the response to every request that is not
 served, what the client is told of every call that fails, and the errors of the client itself.
 */
module Replies {
  import opened Wrappers
  import opened Decimals
  import opened Signatures
  import opened Arguments
  import opened ArgumentQueues
  import opened Terminated
  import opened Headers
  import opened Messages
  import opened Payloads
  import opened Preparation
  import opened Connections
  import opened Rpc

  // ---------------------------------------------------------------- calls that fail

  /** The client is told the status of every failure, and the service it is about. */
  lemma {:induction false} ClientTold(r: Reply, trailing: string, closed: string)
    requires !r.successful
    ensures Receive(ResponseBytes(r) + trailing, closed) == Success(Reply(Parse(r.signature.text), false, r.status, []))
  {
    FailureRead(r, trailing, closed);
  }

  /** An exception of the service: the client is told its text. */
  lemma {:induction false} ExceptionTold(
    skeletons: Skeletons, sig: Fields, args: seq<Argument>, more: string, closed: string,
    trailing: string, closed': string, m: string)
    requires Callable(skeletons, sig, args) && skeletons[Parse(sig.text).text](args) == Raised(m)
    ensures Receive(Roundtrip(skeletons, sig, args, more, closed) + trailing, closed')
         == Success(Reply(Parse(Parse(sig.text).text), false, "Internal server error: " + m, []))
  {
    Transparency(skeletons, sig, args, more, closed, trailing, closed');
  }

  /** No response from the service. */
  lemma {:induction false} NullTold(
    skeletons: Skeletons, sig: Fields, args: seq<Argument>, more: string, closed: string,
    trailing: string, closed': string)
    requires Callable(skeletons, sig, args) && skeletons[Parse(sig.text).text](args) == ReturnedNull
    ensures Receive(Roundtrip(skeletons, sig, args, more, closed) + trailing, closed')
         == Success(Reply(Parse(Parse(sig.text).text), false,
                          "Internal server error: produced a NULL response.", []))
  {
    Transparency(skeletons, sig, args, more, closed, trailing, closed');
  }

  /** A failure that the service reports itself: the client is told its status. */
  lemma {:induction false} FailureTold(
    skeletons: Skeletons, sig: Fields, args: seq<Argument>, more: string, closed: string,
    trailing: string, closed': string, r: Reply)
    requires Callable(skeletons, sig, args) && skeletons[Parse(sig.text).text](args) == Returned(r) && !r.successful
    ensures Receive(Roundtrip(skeletons, sig, args, more, closed) + trailing, closed')
         == Success(Reply(Parse(r.signature.text), false, r.status, []))
  {
    Transparency(skeletons, sig, args, more, closed, trailing, closed');
  }

  /** A success with outputs missing: the client is told how many. */
  lemma {:induction false} IncompleteTold(
    skeletons: Skeletons, sig: Fields, args: seq<Argument>, more: string, closed: string,
    trailing: string, closed': string, r: Reply)
    requires Callable(skeletons, sig, args) && skeletons[Parse(sig.text).text](args) == Returned(r)
    requires r.successful && |r.args| < |r.signature.outputs|
    ensures var missing := |r.signature.outputs| - |r.args|;
            Receive(Roundtrip(skeletons, sig, args, more, closed) + trailing, closed')
            == Success(Reply(Parse(Parse(sig.text).text), false,
                             "Internal server error: " + ("Still missing " + Decimal(missing) + " argument(s)."), []))
  {
    ResponseLayout(r);
    Transparency(skeletons, sig, args, more, closed, trailing, closed');
  }

  /** Running a service that is not installed. */
  lemma {:induction false} UninstalledRun(skeletons: Skeletons, sig: Fields, args: seq<Argument>)
    requires sig.text !in skeletons
    ensures Serve(skeletons, sig, args)
         == Reply(sig, false, "Internal server error: "
                  + ("ServiceSkeleton: Unknown message type: \"" + sig.text + "\"."), [])
  {
  }

  // ---------------------------------------------------------------- requests that are not served

  /** A stream with a header, and what follows its terminator. */
  ghost predicate Headed(stream: string, text: string, rest: string) {
    Free('\0', text) && stream == text + "\0" + rest
  }

  lemma {:induction false} HeadedParts(stream: string, text: string, rest: string)
    requires Headed(stream, text, rest)
    ensures Next('\0', stream, 0) == |text| < |stream| && stream[..|text|] == text && Beyond(stream) == rest
  {
    NextTerminator(text, rest);
  }

  lemma {:induction false} NoHeader(skeletons: Skeletons, stream: string, closed: string)
    requires Free('\0', stream)
    ensures ServeStream(ServerOf(skeletons), stream, closed)
         == Reply(Fields("*", "*", [], [], false), false, "Cannot receive header: " + closed, [])
  {
  }

  lemma {:induction false} BadHeader(skeletons: Skeletons, stream: string, text: string, rest: string, closed: string)
    requires Headed(stream, text, rest)
    ensures Decode(text).None? ==>
      ServeStream(ServerOf(skeletons), stream, closed)
      == Reply(Fields("*", "*", [], [], false), false, "Malformed header", [])
    ensures Decode(text).Some? && Decode(text).value.service.None? ==>
      ServeStream(ServerOf(skeletons), stream, closed)
      == Reply(Fields("*", "*", [], [], false), false, "Key not found: service", [])
  {
    HeadedParts(stream, text, rest);
  }

  /** From here on the header names a service. */
  ghost predicate Requests(stream: string, doc: Doc, rest: string) {
    doc.service.Some? && exists text :: Headed(stream, text, rest) && Decode(text) == Some(doc)
  }

  lemma {:induction false} RequestRead(skeletons: Skeletons, stream: string, doc: Doc, rest: string, closed: string)
    requires Requests(stream, doc, rest)
    ensures ServeStream(ServerOf(skeletons), stream, closed)
         == match ReadRequest(skeletons.Keys, Parse(doc.service.value), doc.blocks)
            case Reject(sig, m) => Refusal(sig, m)
            case Await(sig, args) =>
              if |rest| < Total(args) then Refusal(sig, "Cannot receive payload: " + closed)
              else Serve(skeletons, sig, Cut(args, rest))
  {
    var text :| Headed(stream, text, rest) && Decode(text) == Some(doc);
    HeadedParts(stream, text, rest);
  }

  /** A service that is not installed. */
  lemma {:induction false} UnknownTold(skeletons: Skeletons, stream: string, doc: Doc, rest: string, closed: string)
    requires Requests(stream, doc, rest) && Parse(doc.service.value).text !in skeletons
    ensures ServeStream(ServerOf(skeletons), stream, closed)
         == Reply(Parse(doc.service.value), false, "Service not available.", [])
  {
    RequestRead(skeletons, stream, doc, rest, closed);
  }

  /** From here on it names an installed service, and the sizes of its blocks. */
  ghost predicate Announces(skeletons: Skeletons, stream: string, doc: Doc, sizes: seq<nat>, rest: string) {
    && Requests(stream, doc, rest) && Parse(doc.service.value).text in skeletons
    && ReadSizes(doc.blocks) == Success(sizes)
  }

  /** No sizes, or not all of them numbers. */
  lemma {:induction false} BadBlocks(skeletons: Skeletons, stream: string, doc: Doc, rest: string, closed: string)
    requires Requests(stream, doc, rest) && Parse(doc.service.value).text in skeletons
    ensures doc.blocks.None? ==>
      ServeStream(ServerOf(skeletons), stream, closed)
      == Reply(Parse(doc.service.value), false, "Key not found: blocks", [])
    ensures doc.blocks.Some? && None in doc.blocks.value ==>
      ServeStream(ServerOf(skeletons), stream, closed)
      == Reply(Parse(doc.service.value), false, "Invalid scalar in blocks", [])
  {
    RequestRead(skeletons, stream, doc, rest, closed);
  }

  /** The wrong number of blocks. */
  lemma {:induction false} WrongCount(
    skeletons: Skeletons, stream: string, doc: Doc, sizes: seq<nat>, rest: string, closed: string)
    requires Announces(skeletons, stream, doc, sizes, rest) && |sizes| != |Parse(doc.service.value).inputs|
    ensures var sig := Parse(doc.service.value);
            ServeStream(ServerOf(skeletons), stream, closed)
            == Reply(sig, false, "Received an invalid " + "request" + " (expected " + Decimal(|sig.inputs|)
                     + " argument blocks, received " + Decimal(|sizes|) + ").", [])
  {
    RequestRead(skeletons, stream, doc, rest, closed);
  }

  /** The first block that does not fit its type. */
  lemma {:induction false} WrongSize(
    skeletons: Skeletons, stream: string, doc: Doc, sizes: seq<nat>, rest: string, closed: string, i: nat, m: string)
    requires Announces(skeletons, stream, doc, sizes, rest) && |sizes| == |Parse(doc.service.value).inputs|
    requires i < |sizes| && Prepare(Parse(doc.service.value).inputs[i], sizes[i]) == Failure(m)
    requires forall j | 0 <= j < i :: Prepare(Parse(doc.service.value).inputs[j], sizes[j]).Success?
    ensures ServeStream(ServerOf(skeletons), stream, closed) == Reply(Parse(doc.service.value), false, m, [])
  {
    RequestRead(skeletons, stream, doc, rest, closed);
    FirstError(Parse(doc.service.value).inputs, sizes, i, m);
  }

  /** The sizes of the blocks together. */
  function Sum(sizes: seq<nat>): nat {
    if sizes == [] then 0 else sizes[0] + Sum(sizes[1..])
  }

  lemma {:induction false} TotalIsSum(args: seq<Argument>, sizes: seq<nat>)
    requires |args| == |sizes| && forall i | 0 <= i < |args| :: |args[i].data| == sizes[i]
    ensures Total(args) == Sum(sizes)
  {
    if args == [] {
    } else {
      TotalIsSum(args[1..], sizes[1..]);
    }
  }

  /** A payload that breaks off. */
  lemma {:induction false} PayloadBroken(
    skeletons: Skeletons, stream: string, doc: Doc, sizes: seq<nat>, rest: string, closed: string)
    requires Announces(skeletons, stream, doc, sizes, rest) && |sizes| == |Parse(doc.service.value).inputs|
    requires forall j | 0 <= j < |sizes| :: Prepare(Parse(doc.service.value).inputs[j], sizes[j]).Success?
    requires |rest| < Sum(sizes)
    ensures ServeStream(ServerOf(skeletons), stream, closed)
         == Reply(Parse(doc.service.value), false, "Cannot receive payload: " + closed, [])
  {
    RequestRead(skeletons, stream, doc, rest, closed);
    var sig := Parse(doc.service.value);
    PreparedSoFar(sig.inputs, sizes, |sizes|);
    PreparedFits(sig.inputs, sizes, |sizes|);
    TotalIsSum(Prepared(sig.inputs, sizes, |sizes|).value, sizes);
  }

  /** And the client that asked for a service that is not installed is told so. */
  lemma {:induction false} NotInstalledTold(
    skeletons: Skeletons, sig: Fields, args: seq<Argument>, more: string, closed: string,
    trailing: string, closed': string)
    requires Parse(sig.text).text !in skeletons && |args| >= |sig.inputs|
    ensures ServeStream(ServerOf(skeletons), RequestBytes(sig, args) + more, closed)
         == Reply(Parse(sig.text), false, "Service not available.", [])
    ensures Receive(Roundtrip(skeletons, sig, args, more, closed) + trailing, closed')
         == Success(Reply(Parse(Parse(sig.text).text), false, "Service not available.", []))
  {
    NotInstalled(skeletons, sig, args, more, closed);
    ClientTold(Reply(Parse(sig.text), false, "Service not available.", []), trailing, closed');
  }

  /** The failures of the operations on the socket. */
  lemma {:induction false} SocketFailures(server: Server, c: Conn, m: string)
    ensures c.pending == ReadingHeader ==>
      Connections.Step(server, c, HeaderFailed(m)).replies
      == c.replies + [Reply(c.signature, false, "Cannot receive header: " + m, [])]
    ensures c.pending == ReadingPayload ==>
      Connections.Step(server, c, PayloadFailed(m)).replies
      == c.replies + [Reply(c.signature, false, "Cannot receive payload: " + m, [])]
    ensures c.pending == ReadingHeader ==>
      Connections.Step(server, c, HeaderFailed(m)).pending == Writing
    ensures c.pending == ReadingPayload ==>
      Connections.Step(server, c, PayloadFailed(m)).pending == Writing
  {
  }

  // ---------------------------------------------------------------- errors of the client

  lemma {:induction false} NoResponse(stream: string, closed: string)
    requires Free('\0', stream)
    ensures Receive(stream, closed) == Failure(closed)
  {
  }

  lemma {:induction false} BadResponse(stream: string, text: string, rest: string, closed: string)
    requires Headed(stream, text, rest)
    ensures Decode(text).None? ==> Receive(stream, closed) == Failure("Malformed header")
    ensures Decode(text).Some? ==>
      var doc := Decode(text).value;
      Receive(stream, closed)
      == if doc.service.None? then Failure("Key not found: service")
         else if doc.successful.None? then Failure("Key not found: successful")
         else if doc.status.None? then Failure("Key not found: status")
         else ResponseRead(Parse(doc.service.value), doc.successful.value, doc.status.value, doc.blocks, rest, closed)
  {
    HeadedParts(stream, text, rest);
  }

  /** What a client makes of the fields of a header, and of the bytes after it. */
  function ResponseRead(
    sig: Fields, successful: bool, status: string, node: Option<seq<Option<int>>>, rest: string, closed: string)
    : Result<ReplyFields>
  {
    match ReadReply(sig, successful, status, node)
    case Failure(m) => Failure(m)
    case Success(h) =>
      if |rest| < Total(h.args) then Failure(closed)
      else Success(Reply(h.signature, h.successful, h.status, Cut(h.args, rest)))
  }

  lemma {:induction false} FailedResponse(
    sig: Fields, status: string, node: Option<seq<Option<int>>>, sizes: seq<nat>, rest: string, closed: string)
    requires ReadSizes(node) == Success(sizes)
    ensures ResponseRead(sig, false, status, node, rest, closed) == Success(Reply(sig, false, status, []))
  {
  }

  lemma {:induction false} WrongResponseCount(
    sig: Fields, status: string, node: Option<seq<Option<int>>>, sizes: seq<nat>, rest: string, closed: string)
    requires ReadSizes(node) == Success(sizes) && |sizes| != |sig.outputs|
    ensures ResponseRead(sig, true, status, node, rest, closed)
         == Failure("Received an invalid " + "response" + " (expected " + Decimal(|sig.outputs|)
                    + " argument blocks, received " + Decimal(|sizes|) + ").")
  {
  }

  lemma {:induction false} WrongResponseSize(
    sig: Fields, status: string, node: Option<seq<Option<int>>>, sizes: seq<nat>, rest: string, closed: string,
    i: nat, m: string)
    requires ReadSizes(node) == Success(sizes) && i < |sizes| == |sig.outputs|
    requires Prepare(sig.outputs[i], sizes[i]) == Failure(m)
    requires forall j | 0 <= j < i :: Prepare(sig.outputs[j], sizes[j]).Success?
    ensures ResponseRead(sig, true, status, node, rest, closed) == Failure(m)
  {
    FirstError(sig.outputs, sizes, i, m);
  }

  lemma {:induction false} ResponseBroken(
    sig: Fields, status: string, node: Option<seq<Option<int>>>, sizes: seq<nat>, rest: string, closed: string)
    requires ReadSizes(node) == Success(sizes) && |sizes| == |sig.outputs|
    requires forall j | 0 <= j < |sizes| :: Prepare(sig.outputs[j], sizes[j]).Success?
    requires |rest| < Sum(sizes)
    ensures ResponseRead(sig, true, status, node, rest, closed) == Failure(closed)
  {
    PreparedSoFar(sig.outputs, sizes, |sizes|);
    PreparedFits(sig.outputs, sizes, |sizes|);
    TotalIsSum(Prepared(sig.outputs, sizes, |sizes|).value, sizes);
  }
}
