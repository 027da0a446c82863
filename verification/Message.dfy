/**
 The typed argument queue that requests and responses share: arguments are pushed in the
 order of the signature, and popped in that order once all of them have been pushed.
 */
module ArgumentQueues {
  import opened Wrappers
  import opened Arguments

  /** `params` are the types that the signature lists; `args` are the arguments still held. */
  datatype Queue = Queue(params: seq<string>, pushed: nat, args: seq<Argument>)

  function Fresh(params: seq<string>): Queue {
    Queue(params, 0, [])
  }

  /** The counts that the code relies on when it indexes the signature. */
  predicate Counted(q: Queue) {
    |q.args| <= q.pushed <= |q.params|
  }

  function Push(q: Queue, a: Argument): (r: Result<Queue>)
    requires Counted(q)
    ensures r.Success? <==> q.pushed < |q.params| && q.params[q.pushed] == TypeName(a.kind)
    ensures r.Success? ==> Counted(r.value)
  {
    if q.pushed == |q.params| then Failure("All arguments already pushed.")
    else if q.params[q.pushed] != TypeName(a.kind) then
      Failure("Invalid argument (must be '" + q.params[q.pushed] + "').")
    else Success(q.(pushed := q.pushed + 1, args := q.args + [a]))
  }

  /** The front argument and what remains; a failed pop changes nothing. */
  function Pop(q: Queue, k: Kind): (r: Result<(Argument, Queue)>)
    requires Counted(q)
    ensures r.Success? <==> q.pushed == |q.params| && q.args != [] && q.args[0].kind == k
    ensures r.Success? ==> Counted(r.value.1)
  {
    if q.pushed != |q.params| then Failure("Not all arguments have been pushed.")
    else if q.args == [] then Failure("All arguments already popped.")
    else if q.args[0].kind != k then
      Failure("Invalid argument (must be '" + q.params[|q.params| - |q.args|] + "').")
    else Success((q.args[0], q.(args := q.args[1..])))
  }

  // ---------------------------------------------------------------- runs

  datatype Op = PushOp(arg: Argument) | PopOp(kind: Kind)

  datatype Outcome = Pushed(arg: Argument) | Popped(arg: Argument) | Threw(error: string)

  function Step(q: Queue, op: Op): (r: (Queue, Outcome))
    requires Counted(q)
    ensures Counted(r.0)
    ensures r.1.Threw? ==> r.0 == q
  {
    match op
    case PushOp(a) =>
      var r := Push(q, a);
      if r.Success? then (r.value, Pushed(a)) else (q, Threw(r.error))
    case PopOp(k) =>
      var r := Pop(q, k);
      if r.Success? then (r.value.1, Popped(r.value.0)) else (q, Threw(r.error))
  }

  /** The queue after a sequence of calls, and what each call did. */
  function RunOps(q: Queue, ops: seq<Op>): (r: (Queue, seq<Outcome>))
    requires Counted(q)
    ensures Counted(r.0) && |r.1| == |ops|
  {
    if ops == [] then (q, [])
    else
      var last := |ops| - 1;
      var before := RunOps(q, ops[..last]);
      var step := Step(before.0, ops[last]);
      (step.0, before.1 + [step.1])
  }

  function AllPushed(os: seq<Outcome>): seq<Argument> {
    if os == [] then []
    else
      var last := os[|os| - 1];
      AllPushed(os[..|os| - 1]) + if last.Pushed? then [last.arg] else []
  }

  function AllPopped(os: seq<Outcome>): seq<Argument> {
    if os == [] then []
    else
      var last := os[|os| - 1];
      AllPopped(os[..|os| - 1]) + if last.Popped? then [last.arg] else []
  }

  predicate Typed(params: seq<string>, args: seq<Argument>) {
    |args| <= |params| && forall i | 0 <= i < |args| :: TypeName(args[i].kind) == params[i]
  }

  /** Whatever is called on a fresh queue, successfully or not: the pushed arguments match the
      signature, they come out in the order they went in, and none comes out before all are in. */
  lemma {:induction false} QueueRun(params: seq<string>, ops: seq<Op>)
    ensures var (q, os) := RunOps(Fresh(params), ops);
            && q.params == params && q.pushed == |AllPushed(os)|
            && Typed(params, AllPushed(os))
            && AllPushed(os) == AllPopped(os) + q.args
            && (AllPopped(os) != [] ==> |AllPushed(os)| == |params|)
  {
    if ops == [] {
    } else {
      var last := |ops| - 1;
      QueueRun(params, ops[..last]);
      var (q, os) := RunOps(Fresh(params), ops[..last]);
      var (q', o) := Step(q, ops[last]);
      assert (os + [o])[..|os|] == os;
      QueueStep(params, q, AllPushed(os), AllPopped(os), ops[last]);
      assert AllPushed(os + [o]) == AllPushed(os) + if o.Pushed? then [o.arg] else [];
      assert AllPopped(os + [o]) == AllPopped(os) + if o.Popped? then [o.arg] else [];
    }
  }

  ghost predicate QueueInvariant(params: seq<string>, q: Queue, ins: seq<Argument>, outs: seq<Argument>) {
    && q.params == params && q.pushed == |ins| && Typed(params, ins)
    && ins == outs + q.args && (outs != [] ==> |ins| == |params|)
  }

  lemma {:induction false} QueueStep(params: seq<string>, q: Queue, ins: seq<Argument>, outs: seq<Argument>, op: Op)
    requires Counted(q) && QueueInvariant(params, q, ins, outs)
    ensures var (q', o) := Step(q, op);
            QueueInvariant(params, q', ins + (if o.Pushed? then [o.arg] else []),
                           outs + (if o.Popped? then [o.arg] else []))
  {
    assert ins + [] == ins && outs + [] == outs;
    match op
    case PushOp(a) => PushStep(params, q, ins, outs, a);
    case PopOp(k) => PopStep(params, q, ins, outs, k);
  }

  lemma {:induction false} PushStep(params: seq<string>, q: Queue, ins: seq<Argument>, outs: seq<Argument>, a: Argument)
    requires Counted(q) && QueueInvariant(params, q, ins, outs)
    ensures Push(q, a).Success? ==> QueueInvariant(params, Push(q, a).value, ins + [a], outs)
  {
    assert outs + (q.args + [a]) == outs + q.args + [a];
    if Push(q, a).Success? {
      assert outs == [] || |ins| == |params|;
    }
  }

  lemma {:induction false} PopStep(params: seq<string>, q: Queue, ins: seq<Argument>, outs: seq<Argument>, k: Kind)
    requires Counted(q) && QueueInvariant(params, q, ins, outs)
    ensures Pop(q, k).Success? ==> QueueInvariant(params, Pop(q, k).value.1, ins, outs + [Pop(q, k).value.0])
  {
    if Pop(q, k).Success? {
      assert q.args == [q.args[0]] + q.args[1..];
      assert outs + q.args == outs + [q.args[0]] + q.args[1..];
    }
  }

  /** What a failed push says: nothing is missing, or the type that is expected next. */
  lemma {:induction false} PushErrors(
    params: seq<string>, q: Queue, ins: seq<Argument>, outs: seq<Argument>, a: Argument)
    requires Counted(q) && QueueInvariant(params, q, ins, outs) && Push(q, a).Failure?
    ensures |ins| == |params| ==> Push(q, a) == Failure("All arguments already pushed.")
    ensures |ins| < |params| ==> Push(q, a) == Failure("Invalid argument (must be '" + params[|ins|] + "').")
  {
  }

  /** What a failed pop says: something is missing, nothing is left, or the type of the front. */
  lemma {:induction false} PopErrors(params: seq<string>, q: Queue, ins: seq<Argument>, outs: seq<Argument>, k: Kind)
    requires Counted(q) && QueueInvariant(params, q, ins, outs) && Pop(q, k).Failure?
    ensures |ins| < |params| ==> Pop(q, k) == Failure("Not all arguments have been pushed.")
    ensures |ins| == |params| && outs == ins ==> Pop(q, k) == Failure("All arguments already popped.")
    ensures |ins| == |params| && outs != ins ==>
      && |outs| < |ins|
      && Pop(q, k) == Failure("Invalid argument (must be '" + TypeName(ins[|outs|].kind) + "').")
  {
    if q.args == [] {
      assert ins == outs;
    } else if |ins| == |params| {
      FrontIndex(params, q, ins, outs);
      assert ins[|outs|] == q.args[0];
    }
  }

  /** The parameter that a failed pop names is the one that the front argument was pushed for. */
  lemma {:induction false} FrontIndex(params: seq<string>, q: Queue, ins: seq<Argument>, outs: seq<Argument>)
    requires QueueInvariant(params, q, ins, outs) && q.pushed == |params| && q.args != []
    ensures |outs| == |params| - |q.args|
    ensures TypeName(q.args[0].kind) == params[|params| - |q.args|]
  {
    assert ins[|outs|] == q.args[0];
  }
}

/** Requests and responses, and the buffers that put them on the wire. */
module Messages {
  import opened Wrappers
  import opened Decimals
  import opened Signatures
  import opened Arguments
  import opened ArgumentQueues
  import opened Headers

  /** The bytes that writing a sequence of buffers sends. */
  function Wire(buffers: seq<string>): string {
    if buffers == [] then "" else buffers[0] + Wire(buffers[1..])
  }

  function Datas(args: seq<Argument>): (ds: seq<string>)
    ensures |ds| == |args|
  {
    seq(|args|, i requires 0 <= i < |args| => args[i].data)
  }

  /** The sizes that a header declares: each is converted to `int`. */
  function Blocks(args: seq<Argument>): (bs: seq<Option<int>>)
    ensures |bs| == |args|
  {
    seq(|args|, i requires 0 <= i < |args| => Some(Signed(|args[i].data|) as int))
  }

  function Missing(n: nat): string {
    "Still missing " + Decimal(n) + " argument(s)."
  }

  function RequestDoc(sig: Fields, args: seq<Argument>): Doc {
    Doc(Some(sig.text), None, None, Some(Blocks(args)))
  }

  /** The buffers of a request: the header with its terminator, then one per argument. */
  function RequestBuffers(sig: Fields, args: seq<Argument>): Result<seq<string>> {
    if |args| < |sig.inputs| then Failure(Missing(|sig.inputs| - |args|))
    else Success([Encode(RequestDoc(sig, args)) + "\0"] + Datas(args))
  }

  /** What a `Response` holds. */
  datatype ReplyFields = Reply(signature: Fields, successful: bool, status: string, args: seq<Argument>)

  /** A response holds no more arguments than outputs, and all of them match when none is missing. */
  ghost predicate ReplyOk(r: ReplyFields) {
    && |r.args| <= |r.signature.outputs|
    && (|r.args| == |r.signature.outputs| ==> Typed(r.signature.outputs, r.args))
    && forall i | 0 <= i < |r.args| :: WellSized(r.args[i])
  }

  type Reply = r: ReplyFields | ReplyOk(r) witness Reply(ANY, false, "", [])

  /** The status of a successful response is left out when it is empty. */
  function ResponseDoc(r: ReplyFields): Doc {
    Doc(Some(r.signature.text), Some(r.successful),
        if !r.successful || r.status != "" then Some(r.status) else None, Some(Blocks(r.args)))
  }

  function ResponseBuffers(r: ReplyFields): Result<seq<string>> {
    if r.successful && |r.args| < |r.signature.outputs| then
      Failure(Missing(|r.signature.outputs| - |r.args|))
    else Success([Encode(ResponseDoc(r)) + "\0"] + Datas(r.args))
  }

  lemma {:induction false} WireAppend(a: seq<string>, b: seq<string>)
    ensures Wire(a + b) == Wire(a) + Wire(b)
  {
    if a == [] {
      assert a + b == b;
    } else {
      WireAppend(a[1..], b);
      assert (a + b)[1..] == a[1..] + b;
      ConcatAssociative(a[0], Wire(a[1..]), Wire(b));
    }
  }

  lemma {:induction false} WireOne(s: string)
    ensures Wire([s]) == s
  {
    assert [s][1..] == [];
  }

  /** The size that a header declares for an argument. */
  lemma {:induction false} DeclaredSize(args: seq<Argument>, i: nat)
    requires i < |args|
    ensures var size, declared := |args[i].data|, Blocks(args)[i];
            && declared.Some? && -0x8000_0000 <= declared.value < 0x8000_0000
            && (declared.value - size) % 0x1_0000_0000 == 0
            && (size < 0x8000_0000 ==> declared.value == size)
  {
  }

  /** A request on the wire: the header names the service and lists the sizes, and the data of the
      arguments follow in order; or it is not sent. */
  lemma {:induction false} RequestLayout(sig: Fields, args: seq<Argument>)
    ensures |args| < |sig.inputs| ==>
      RequestBuffers(sig, args) == Failure("Still missing " + Decimal(|sig.inputs| - |args|) + " argument(s).")
    ensures |args| >= |sig.inputs| ==>
      && RequestBuffers(sig, args).Success?
      && var buffers := RequestBuffers(sig, args).value;
      && |buffers| == 1 + |args| && (forall i | 0 <= i < |args| :: buffers[1 + i] == args[i].data)
      && buffers[0] == Encode(Doc(Some(sig.text), None, None, Some(Blocks(args)))) + "\0"
  {
  }

  /** A response on the wire, with its success and, unless a success has none, its status. */
  lemma {:induction false} ResponseLayout(r: ReplyFields)
    ensures r.successful && |r.args| < |r.signature.outputs| ==>
      ResponseBuffers(r) == Failure("Still missing " + Decimal(|r.signature.outputs| - |r.args|) + " argument(s).")
    ensures !r.successful || |r.args| >= |r.signature.outputs| ==>
      && ResponseBuffers(r).Success?
      && var buffers := ResponseBuffers(r).value;
      var status := if r.successful && r.status == "" then None else Some(r.status);
      && |buffers| == 1 + |r.args| && (forall i | 0 <= i < |r.args| :: buffers[1 + i] == r.args[i].data)
      && buffers[0] == Encode(Doc(Some(r.signature.text), Some(r.successful), status, Some(Blocks(r.args)))) + "\0"
  {
  }

  /** A service, on the client and on the server. */
  class Service {
    const signature: Fields
    var arguments: seq<Argument>
    var pushed: nat
    var header: string
    /** All arguments ever pushed, and all ever popped. */
    ghost var ins: seq<Argument>
    ghost var outs: seq<Argument>

    ghost function State(): Queue
      reads this
    {
      Queue(signature.inputs, pushed, arguments)
    }

    ghost predicate Valid()
      reads this
    {
      Counted(State())
    }

    /** A service that started out empty. */
    ghost predicate Fifo()
      reads this
    {
      Valid() && QueueInvariant(signature.inputs, State(), ins, outs)
    }

    constructor (signature: Fields)
      ensures Fifo() && this.signature == signature && State() == Fresh(signature.inputs)
      ensures ins == [] && outs == []
    {
      this.signature := signature;
      arguments, pushed, header := [], 0, "";
      ins, outs := [], [];
    }

    /** The skeleton side: the arguments were read from the payload. */
    constructor FromArguments(signature: Fields, arguments: seq<Argument>)
      ensures this.signature == signature && (Valid() <==> |arguments| <= |signature.inputs|)
      ensures State() == Queue(signature.inputs, |arguments|, arguments)
      ensures |arguments| == |signature.inputs| && Typed(signature.inputs, arguments)
          ==> Fifo() && ins == arguments && outs == []
    {
      this.signature := signature;
      this.arguments, pushed, header := arguments, |arguments|, "";
      ins, outs := arguments, [];
    }

    method PushArgument(a: Argument) returns (error: Option<string>)
      requires Valid()
      modifies this
      ensures Valid() && (old(Fifo()) ==> Fifo())
      ensures var r := Push(old(State()), a);
              if r.Success? then error == None && State() == r.value && ins == old(ins) + [a] && outs == old(outs)
              else error == Some(r.error) && unchanged(this)
    {
      ghost var before := State();
      if pushed == |signature.inputs| {
        return Some("All arguments already pushed.");
      }
      var expected := signature.inputs[pushed];
      if expected != TypeName(a.kind) {
        return Some("Invalid argument (must be '" + expected + "').");
      }
      if old(Fifo()) {
        PushStep(signature.inputs, before, ins, outs, a);
      }
      arguments := arguments + [a];
      pushed := pushed + 1;
      ins := ins + [a];
      return None;
    }

    method PopArgument(k: Kind) returns (r: Result<Argument>)
      requires Valid()
      modifies this
      ensures Valid() && (old(Fifo()) ==> Fifo())
      ensures var p := Pop(old(State()), k);
              if p.Success? then
                && r == Success(p.value.0) && State() == p.value.1
                && outs == old(outs) + [p.value.0] && ins == old(ins)
              else r == Failure(p.error) && unchanged(this)
    {
      ghost var before := State();
      if pushed != |signature.inputs| {
        return Failure("Not all arguments have been pushed.");
      }
      if |arguments| <= 0 {
        return Failure("All arguments already popped.");
      }
      var a := arguments[0];
      if a.kind != k {
        var index := |signature.inputs| - |arguments|;
        return Failure("Invalid argument (must be '" + signature.inputs[index] + "').");
      }
      if old(Fifo()) {
        PopStep(signature.inputs, before, ins, outs, k);
      }
      arguments := arguments[1..];
      outs := outs + [a];
      return Success(a);
    }

    method GetConstBuffers() returns (r: Result<seq<string>>)
      modifies this`header
      ensures r == RequestBuffers(signature, arguments)
      ensures r.Success? ==> header + "\0" == r.value[0]
      ensures r.Failure? ==> unchanged(this)
    {
      if |arguments| < |signature.inputs| {
        return Failure(Missing(|signature.inputs| - |arguments|));
      }
      var blocks := BlockList(arguments);
      header := Encode(Doc(Some(signature.text), None, None, Some(blocks)));
      var buffers := AddPayload([header + "\0"], arguments);
      return Success(buffers);
    }
  }

  /** The loop that lists the block sizes in a header. */
  method BlockList(arguments: seq<Argument>) returns (blocks: seq<Option<int>>)
    ensures blocks == Blocks(arguments)
  {
    blocks := [];
    for i := 0 to |arguments|
      invariant blocks == Blocks(arguments)[..i]
    {
      blocks := blocks + [Some(Signed(|arguments[i].data|) as int)];
    }
  }

  /** The loop that appends the data of the arguments to the buffers. */
  method AddPayload(start: seq<string>, arguments: seq<Argument>) returns (buffers: seq<string>)
    ensures buffers == start + Datas(arguments)
  {
    buffers := start;
    for i := 0 to |arguments|
      invariant buffers == start + Datas(arguments)[..i]
    {
      buffers := buffers + [arguments[i].data];
    }
  }

  /** A response, on the server and on the client. */
  class Response {
    const signature: Fields
    const successful: bool
    const status: string
    var arguments: seq<Argument>
    var pushed: nat
    var header: string
    ghost var ins: seq<Argument>
    ghost var outs: seq<Argument>

    ghost function State(): Queue
      reads this
    {
      Queue(signature.outputs, pushed, arguments)
    }

    ghost function Value(): ReplyFields
      reads this
    {
      Reply(signature, successful, status, arguments)
    }

    ghost predicate Valid()
      reads this
    {
      && Counted(State()) && QueueInvariant(signature.outputs, State(), ins, outs)
      && forall i | 0 <= i < |arguments| :: WellSized(arguments[i])
    }

    /** Every response is a reply: complete means typed. */
    lemma ValidIsReply()
      requires Valid()
      ensures ReplyOk(Value())
    {
      if |arguments| == |signature.outputs| {
        assert outs == [] && ins == arguments;
      }
    }

    constructor (signature: Fields, successful: bool, status: string)
      ensures Valid() && Value() == Reply(signature, successful, status, [])
      ensures State() == Fresh(signature.outputs) && ins == [] && outs == []
    {
      this.signature, this.successful, this.status := signature, successful, status;
      arguments, pushed, header := [], 0, "";
      ins, outs := [], [];
    }

    /** The client side: the arguments were read from the payload. */
    constructor FromArguments(signature: Fields, status: string, arguments: seq<Argument>)
      requires |arguments| == |signature.outputs| && Typed(signature.outputs, arguments)
      requires forall i | 0 <= i < |arguments| :: WellSized(arguments[i])
      ensures Valid() && Value() == Reply(signature, true, status, arguments)
      ensures State() == Queue(signature.outputs, |arguments|, arguments) && ins == arguments && outs == []
    {
      this.signature, this.successful, this.status := signature, true, status;
      this.arguments, pushed, header := arguments, |arguments|, "";
      ins, outs := arguments, [];
    }

    method PushArgument(a: Argument) returns (error: Option<string>)
      requires Valid() && WellSized(a)
      modifies this
      ensures Valid()
      ensures var r := Push(old(State()), a);
              if r.Success? then error == None && State() == r.value && ins == old(ins) + [a] && outs == old(outs)
              else error == Some(r.error) && unchanged(this)
    {
      if pushed == |signature.outputs| {
        return Some("All arguments already pushed.");
      }
      var expected := signature.outputs[pushed];
      if expected != TypeName(a.kind) {
        return Some("Invalid argument (must be '" + expected + "').");
      }
      PushStep(signature.outputs, State(), ins, outs, a);
      arguments := arguments + [a];
      pushed := pushed + 1;
      ins := ins + [a];
      return None;
    }

    method PopArgument(k: Kind) returns (r: Result<Argument>)
      requires Valid()
      modifies this
      ensures Valid()
      ensures var p := Pop(old(State()), k);
              if p.Success? then
                && r == Success(p.value.0) && State() == p.value.1
                && outs == old(outs) + [p.value.0] && ins == old(ins)
              else r == Failure(p.error) && unchanged(this)
    {
      if pushed != |signature.outputs| {
        return Failure("Not all arguments have been pushed.");
      }
      if |arguments| <= 0 {
        return Failure("All arguments already popped.");
      }
      var a := arguments[0];
      if a.kind != k {
        var index := |signature.outputs| - |arguments|;
        return Failure("Invalid argument (must be '" + signature.outputs[index] + "').");
      }
      PopStep(signature.outputs, State(), ins, outs, k);
      arguments := arguments[1..];
      outs := outs + [a];
      return Success(a);
    }

    method GetConstBuffers() returns (r: Result<seq<string>>)
      requires Valid()
      modifies this`header
      ensures r == ResponseBuffers(Value())
      ensures r.Success? ==> header + "\0" == r.value[0]
      ensures r.Failure? ==> unchanged(this)
    {
      if successful && |arguments| < |signature.outputs| {
        return Failure(Missing(|signature.outputs| - |arguments|));
      }
      var blocks := BlockList(arguments);
      var shown := if successful == false || status != "" then Some(status) else None;
      header := Encode(Doc(Some(signature.text), Some(successful), shown, Some(blocks)));
      var buffers := AddPayload([header + "\0"], arguments);
      return Success(buffers);
    }
  }
}
