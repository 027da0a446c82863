/**
 Reading a payload.  Waiting for the header's terminator may fetch bytes beyond it; the loop
 that prepares the arguments hands those out first and leaves the socket to fill the rest.
 */
module Payloads {
  import opened Arguments

  function Min(a: int, b: int): int {
    if a < b then a else b
  }

  // ---------------------------------------------------------------- layout of a payload

  function Total(args: seq<Argument>): nat {
    if args == [] then 0 else |args[0].data| + Total(args[1..])
  }

  /** The data of the arguments, one after the other. */
  function PayloadOf(args: seq<Argument>): (s: string)
    ensures |s| == Total(args)
  {
    if args == [] then "" else args[0].data + PayloadOf(args[1..])
  }

  lemma {:induction false} PayloadAppend(args: seq<Argument>, more: seq<Argument>)
    ensures PayloadOf(args + more) == PayloadOf(args) + PayloadOf(more)
  {
    if args == [] {
      assert args + more == more;
    } else {
      PayloadAppend(args[1..], more);
      assert (args + more)[1..] == args[1..] + more;
      Reassociate(args[0].data, PayloadOf(args[1..]), PayloadOf(more));
    }
  }

  lemma {:induction false} PayloadOne(a: Argument)
    ensures PayloadOf([a]) == a.data
  {
    assert [a][1..] == [];
  }

  lemma {:induction false} Reassociate(a: string, b: string, c: string)
    ensures a + (b + c) == a + b + c
  {
  }

  /** Arguments of the given kinds and sizes, with their data cut in order from a payload. */
  function Cut(args: seq<Argument>, payload: string): (r: seq<Argument>)
    requires Total(args) <= |payload|
    ensures |r| == |args|
  {
    if args == [] then []
    else
      var n := |args[0].data|;
      [Argument(args[0].kind, payload[..n])] + Cut(args[1..], payload[n..])
  }

  predicate SameShape(args: seq<Argument>, more: seq<Argument>) {
    |args| == |more| && forall i | 0 <= i < |args| ::
      args[i].kind == more[i].kind && |args[i].data| == |more[i].data|
  }

  /** Cutting a payload into arguments of the shape that was sent gives back what was sent,
      whatever follows the payload. */
  lemma {:induction false} CutPayload(args: seq<Argument>, sent: seq<Argument>, trailing: string)
    requires SameShape(args, sent)
    ensures Total(args) == Total(sent)
    ensures Cut(args, PayloadOf(sent) + trailing) == sent
  {
    if args == [] {
    } else {
      CutPayload(args[1..], sent[1..], trailing);
      var n := |sent[0].data|;
      var p := PayloadOf(sent) + trailing;
      assert p == sent[0].data + (PayloadOf(sent[1..]) + trailing);
      assert p[..n] == sent[0].data && p[n..] == PayloadOf(sent[1..]) + trailing;
      assert sent == [sent[0]] + sent[1..];
    }
  }

  /** And cutting keeps every byte: the cut arguments flatten to the payload again. */
  lemma {:induction false} PayloadCut(args: seq<Argument>, payload: string)
    requires Total(args) <= |payload|
    ensures PayloadOf(Cut(args, payload)) == payload[..Total(args)]
    ensures SameShape(Cut(args, payload), args)
  {
    if args == [] {
    } else {
      var n := |args[0].data|;
      PayloadCut(args[1..], payload[n..]);
      var head := Argument(args[0].kind, payload[..n]);
      var r := [head] + Cut(args[1..], payload[n..]);
      assert r[1..] == Cut(args[1..], payload[n..]);
      assert payload[..n] + payload[n..][..Total(args[1..])] == payload[..Total(args)];
      ShapeCons(head, Cut(args[1..], payload[n..]), args);
    }
  }

  lemma {:induction false} ShapeCons(head: Argument, rest: seq<Argument>, args: seq<Argument>)
    requires args != [] && SameShape(rest, args[1..])
    requires head.kind == args[0].kind && |head.data| == |args[0].data|
    ensures SameShape([head] + rest, args)
  {
    forall i | 0 <= i < |args|
      ensures ([head] + rest)[i].kind == args[i].kind && |([head] + rest)[i].data| == |args[i].data|
    {
      if i > 0 {
        assert ([head] + rest)[i] == rest[i - 1] && args[i] == args[1..][i - 1];
      }
    }
  }

  // ---------------------------------------------------------------- handing out fetched bytes

  /** Arguments that hold the fetched bytes; from its offset on, each is still to be filled.
      `left` are the fetched bytes that no argument took. */
  datatype Scattering = Scattering(args: seq<Argument>, offsets: seq<nat>, left: string)

  /** The start of the data, overwritten with as many bytes as it can hold. */
  function CopyInto(data: string, bytes: string): (r: string)
    ensures |r| == |data|
  {
    var k := Min(|data|, |bytes|);
    bytes[..k] + data[k..]
  }

  function Scatter(args: seq<Argument>, fetched: string): (r: Scattering)
    ensures |r.args| == |r.offsets| == |args|
  {
    if args == [] then Scattering([], [], fetched)
    else
      var k := Min(|args[0].data|, |fetched|);
      var more := Scatter(args[1..], fetched[k..]);
      Scattering([Argument(args[0].kind, CopyInto(args[0].data, fetched))] + more.args,
                 [k] + more.offsets, more.left)
  }

  predicate OffsetsOk(args: seq<Argument>, offsets: seq<nat>) {
    |offsets| == |args| && forall i | 0 <= i < |args| :: offsets[i] <= |args[i].data|
  }

  /** How many bytes are still to be filled. */
  function ResidualSize(args: seq<Argument>, offsets: seq<nat>): int
    requires |offsets| == |args|
  {
    if args == [] then 0 else |args[0].data| - offsets[0] + ResidualSize(args[1..], offsets[1..])
  }

  /** Reading from the socket into the rest of every argument, one after the other. */
  function Fill(args: seq<Argument>, offsets: seq<nat>, bytes: string): (r: seq<Argument>)
    requires OffsetsOk(args, offsets) && ResidualSize(args, offsets) == |bytes|
    ensures |r| == |args|
  {
    if args == [] then []
    else
      ResidualBounds(args[1..], offsets[1..]);
      var k := |args[0].data| - offsets[0];
      [Argument(args[0].kind, args[0].data[..offsets[0]] + bytes[..k])]
      + Fill(args[1..], offsets[1..], bytes[k..])
  }

  lemma {:induction false} ResidualBounds(args: seq<Argument>, offsets: seq<nat>)
    requires OffsetsOk(args, offsets)
    ensures 0 <= ResidualSize(args, offsets)
  {
    if args == [] {
    } else {
      ResidualBounds(args[1..], offsets[1..]);
    }
  }

  lemma {:induction false} ScatterFirst(args: seq<Argument>, fetched: string)
    requires args != []
    ensures var k := Min(|args[0].data|, |fetched|);
            var more := Scatter(args[1..], fetched[k..]);
            var a := Argument(args[0].kind, CopyInto(args[0].data, fetched));
            Scatter(args, fetched) == Scattering([a] + more.args, [k] + more.offsets, more.left)
  {
  }

  lemma {:induction false} ResidualFirst(a: Argument, k: nat, args: seq<Argument>, offsets: seq<nat>)
    requires OffsetsOk(args, offsets) && k <= |a.data|
    ensures OffsetsOk([a] + args, [k] + offsets)
    ensures ResidualSize([a] + args, [k] + offsets) == |a.data| - k + ResidualSize(args, offsets)
  {
    assert ([a] + args)[1..] == args && ([k] + offsets)[1..] == offsets;
  }

  lemma {:induction false} DropDrop(s: string, k: nat, m: nat)
    requires k + m <= |s|
    ensures s[k..][m..] == s[k + m..]
  {
  }

  /** Conservation: the bytes that were handed out and the bytes still to be filled add up to
      the blocks, and as many fetched bytes were handed out as the blocks can hold. */
  lemma {:induction false} Conservation(args: seq<Argument>, fetched: string)
    ensures var s := Scatter(args, fetched);
            && OffsetsOk(s.args, s.offsets)
            && ResidualSize(s.args, s.offsets) + (|fetched| - |s.left|) == Total(args)
            && s.left == fetched[Min(Total(args), |fetched|)..]
  {
    if args == [] {
    } else {
      var k := Min(|args[0].data|, |fetched|);
      var rest := fetched[k..];
      var more := Scatter(args[1..], rest);
      Conservation(args[1..], rest);
      ScatterFirst(args, fetched);
      ResidualFirst(Argument(args[0].kind, CopyInto(args[0].data, fetched)), k, more.args, more.offsets);
      DropDrop(fetched, k, Min(Total(args[1..]), |rest|));
    }
  }

  /** Once an argument needs the socket, no later argument holds a fetched byte: what the socket
      delivers fills one contiguous suffix of the payload. */
  lemma {:induction false} SocketFillsSuffix(args: seq<Argument>, fetched: string, i: nat, j: nat)
    requires i < j < |args|
    requires Scatter(args, fetched).offsets[i] < |args[i].data|
    ensures Scatter(args, fetched).offsets[j] == 0
  {
    var k := Min(|args[0].data|, |fetched|);
    var more := Scatter(args[1..], fetched[k..]);
    assert Scatter(args, fetched).offsets == [k] + more.offsets;
    if i == 0 {
      assert fetched[k..] == "";
      NothingFetched(args[1..], j - 1);
    } else {
      SocketFillsSuffix(args[1..], fetched[k..], i - 1, j - 1);
    }
  }

  lemma {:induction false} NothingFetched(args: seq<Argument>, j: nat)
    requires j < |args|
    ensures Scatter(args, "").offsets[j] == 0
  {
    assert ""[0..] == "";
    if j == 0 {
    } else {
      NothingFetched(args[1..], j - 1);
    }
  }

  lemma {:induction false} FillFirst(a: Argument, k: nat, args: seq<Argument>, offsets: seq<nat>, bytes: string)
    requires OffsetsOk(args, offsets) && k <= |a.data| <= k + |bytes|
    requires ResidualSize(args, offsets) == |bytes| - (|a.data| - k)
    ensures OffsetsOk([a] + args, [k] + offsets) && ResidualSize([a] + args, [k] + offsets) == |bytes|
    ensures var n := |a.data| - k;
            Fill([a] + args, [k] + offsets, bytes)
            == [Argument(a.kind, a.data[..k] + bytes[..n])] + Fill(args, offsets, bytes[n..])
  {
    ResidualFirst(a, k, args, offsets);
    assert ([a] + args)[1..] == args && ([k] + offsets)[1..] == offsets;
  }

  lemma {:induction false} CutFirst(args: seq<Argument>, payload: string)
    requires args != [] && Total(args) <= |payload|
    ensures var n := |args[0].data|;
            && Total(args) == n + Total(args[1..])
            && Cut(args, payload) == [Argument(args[0].kind, payload[..n])] + Cut(args[1..], payload[n..])
  {
  }

  lemma {:induction false} FirstFilled(
    args: seq<Argument>, payload: string,
    first: Argument, k: nat, more: seq<Argument>, offsets: seq<nat>, bytes: string)
    requires args != [] && Total(args) <= |payload|
    requires first.kind == args[0].kind && |first.data| == |args[0].data| && k <= |first.data| <= k + |bytes|
    requires first.data[..k] + bytes[..|first.data| - k] == payload[..|first.data|]
    requires OffsetsOk(more, offsets) && ResidualSize(more, offsets) == |bytes| - (|first.data| - k)
    requires Fill(more, offsets, bytes[|first.data| - k..]) == Cut(args[1..], payload[|first.data|..])
    ensures OffsetsOk([first] + more, [k] + offsets) && ResidualSize([first] + more, [k] + offsets) == |bytes|
    ensures Fill([first] + more, [k] + offsets, bytes) == Cut(args, payload)
  {
    FillFirst(first, k, more, offsets, bytes);
    CutFirst(args, payload);
  }

  /** Prefetch independence: however the payload is divided between what was fetched with the
      header and what the socket delivers later, the arguments are cut from the payload. */
  lemma {:induction false} PrefetchIndependence(args: seq<Argument>, fetched: string, bytes: string)
    requires |bytes| == Total(args) - Min(Total(args), |fetched|)
    ensures var s := Scatter(args, fetched);
            && OffsetsOk(s.args, s.offsets) && ResidualSize(s.args, s.offsets) == |bytes|
            && Fill(s.args, s.offsets, bytes) == Cut(args, fetched + bytes)
  {
    if args == [] {
    } else {
      var n := |args[0].data|;
      var k := Min(n, |fetched|);
      var more := Scatter(args[1..], fetched[k..]);
      PrefetchIndependence(args[1..], fetched[k..], bytes[n - k..]);
      ScatterFirst(args, fetched);
      FirstPiece(args[0].data, fetched, bytes);
      var first := Argument(args[0].kind, CopyInto(args[0].data, fetched));
      FirstFilled(args, fetched + bytes, first, k, more.args, more.offsets, bytes);
    }
  }

  lemma {:induction false} FirstPiece(data: string, fetched: string, bytes: string)
    requires |data| <= |fetched| + |bytes|
    ensures var n, k := |data|, Min(|data|, |fetched|);
            && n - k <= |bytes|
            && CopyInto(data, fetched)[..k] + bytes[..n - k] == (fetched + bytes)[..n]
            && fetched[k..] + bytes[n - k..] == (fetched + bytes)[n..]
  {
  }
}

/** The loop that both ends run between reading a header and reading the payload. */
module Preparation {
  import opened Wrappers
  import opened ArgumentQueues
  import opened Arguments
  import opened Messages
  import opened Payloads

  /** Empty arguments for the first `n` parameters, or the error of the first that fails. */
  function Prepared(params: seq<string>, blocks: seq<nat>, n: nat): (r: Result<seq<Argument>>)
    requires n <= |params| == |blocks|
    ensures r.Success? ==> |r.value| == n
  {
    if n == 0 then Success([])
    else
      match Prepared(params, blocks, n - 1)
      case Failure(e) => Failure(e)
      case Success(before) =>
        match Prepare(params[n - 1], blocks[n - 1])
        case Failure(e) => Failure(e)
        case Success(a) => Success(before + [a])
  }

  lemma {:induction false} FailureStays(params: seq<string>, blocks: seq<nat>, n: nat, m: nat)
    requires n <= m <= |params| == |blocks| && Prepared(params, blocks, n).Failure?
    ensures Prepared(params, blocks, m) == Prepared(params, blocks, n)
    decreases m
  {
    if n == m {
    } else {
      FailureStays(params, blocks, n, m - 1);
    }
  }

  /** The error is that of the first argument that cannot be prepared. */
  lemma {:induction false} FirstError(params: seq<string>, blocks: seq<nat>, i: nat, m: string)
    requires i < |params| == |blocks| && Prepare(params[i], blocks[i]) == Failure(m)
    requires forall j | 0 <= j < i :: Prepare(params[j], blocks[j]).Success?
    ensures Prepared(params, blocks, |params|) == Failure(m)
  {
    PreparedSoFar(params, blocks, i);
    assert Prepared(params, blocks, i + 1) == Failure(m);
    FailureStays(params, blocks, i + 1, |params|);
  }

  lemma {:induction false} PreparedSoFar(params: seq<string>, blocks: seq<nat>, n: nat)
    requires n <= |params| == |blocks|
    requires forall j | 0 <= j < n :: Prepare(params[j], blocks[j]).Success?
    ensures Prepared(params, blocks, n).Success?
  {
    if n == 0 {
    } else {
      PreparedSoFar(params, blocks, n - 1);
    }
  }

  /** What is prepared has the types of the signature and the sizes of the header. */
  lemma {:induction false} PreparedFits(params: seq<string>, blocks: seq<nat>, n: nat)
    requires n <= |params| == |blocks| && Prepared(params, blocks, n).Success?
    ensures var args := Prepared(params, blocks, n).value;
            forall i | 0 <= i < n ::
              && TypeName(args[i].kind) == params[i] && |args[i].data| == blocks[i] && WellSized(args[i])
  {
    if n == 0 {
    } else {
      PreparedFits(params, blocks, n - 1);
    }
  }

  /** Arguments that exist can be prepared for: the result has their shape. */
  lemma {:induction false} PreparedFor(params: seq<string>, blocks: seq<nat>, sent: seq<Argument>, n: nat)
    requires n <= |params| == |blocks| == |sent| && Typed(params, sent)
    requires forall i | 0 <= i < |sent| :: WellSized(sent[i]) && blocks[i] == |sent[i].data|
    ensures Prepared(params, blocks, n).Success?
    ensures SameShape(Prepared(params, blocks, n).value, sent[..n])
  {
    if n == 0 {
    } else {
      PreparedFor(params, blocks, sent, n - 1);
      var before, last := Prepared(params, blocks, n - 1).value, sent[n - 1];
      InstalledKind(last.kind);
      var a := Prepare(params[n - 1], blocks[n - 1]).value;
      assert a.kind == last.kind && |a.data| == |last.data|;
      ShapeSnoc(before, a, sent[..n - 1], last);
      assert sent[..n] == sent[..n - 1] + [last];
    }
  }

  lemma {:induction false} ShapeSnoc(xs: seq<Argument>, x: Argument, ys: seq<Argument>, y: Argument)
    requires SameShape(xs, ys) && x.kind == y.kind && |x.data| == |y.data|
    ensures SameShape(xs + [x], ys + [y])
  {
  }

  lemma {:induction false} ScatterLast(args: seq<Argument>, a: Argument, fetched: string)
    ensures var s := Scatter(args, fetched);
            var k := Min(|a.data|, |s.left|);
            var copy := Argument(a.kind, CopyInto(a.data, s.left));
            Scatter(args + [a], fetched) == Scattering(s.args + [copy], s.offsets + [k], s.left[k..])
  {
    if args == [] {
      assert [a][1..] == [];
    } else {
      var all := args + [a];
      assert all[0] == args[0] && all[1..] == args[1..] + [a];
      var rest := fetched[Min(|args[0].data|, |fetched|)..];
      ScatterLast(args[1..], a, rest);
      ScatterFirst(args, fetched);
      ScatterFirst(all, fetched);
      var s := Scatter(args[1..], rest);
      var first := Argument(args[0].kind, CopyInto(args[0].data, fetched));
      ConsSnoc(first, s.args, Argument(a.kind, CopyInto(a.data, s.left)));
      ConsSnoc(Min(|args[0].data|, |fetched|), s.offsets, Min(|a.data|, |s.left|));
    }
  }

  lemma {:induction false} ConsSnoc<T>(x: T, ys: seq<T>, z: T)
    ensures [x] + (ys + [z]) == [x] + ys + [z]
  {
  }

  /** The loop: each argument is prepared, takes what it can of the fetched bytes, which are
      consumed, and leaves a buffer for the rest. */
  method PrepareArguments(params: seq<string>, blocks: seq<nat>, fetched: string)
    returns (r: Result<Scattering>)
    requires |params| == |blocks|
    ensures var p := Prepared(params, blocks, |params|);
            r == if p.Failure? then Failure(p.error) else Success(Scatter(p.value, fetched))
  {
    var headerBuffer := fetched;
    var arguments: seq<Argument> := [];
    var payloadBuffers: seq<nat> := [];
    ghost var prepared := [];
    for i := 0 to |params|
      invariant Prepared(params, blocks, i) == Success(prepared)
      invariant Scatter(prepared, fetched) == Scattering(arguments, payloadBuffers, headerBuffer)
    {
      var p := Prepare(params[i], blocks[i]);
      if p.Failure? {
        assert Prepared(params, blocks, i + 1) == Failure(p.error);
        FailureStays(params, blocks, i + 1, |params|);
        return Failure(p.error);
      }
      var a := p.value;
      ScatterLast(prepared, a, fetched);
      prepared := prepared + [a];
      var fetchedSize := |headerBuffer|;
      if fetchedSize > 0 {
        arguments := arguments + [Argument(a.kind, CopyInto(a.data, headerBuffer))];
        payloadBuffers := payloadBuffers + [Min(|a.data|, fetchedSize)];
        headerBuffer := headerBuffer[if blocks[i] < fetchedSize then blocks[i] else fetchedSize..];
      } else {
        assert CopyInto(a.data, "") == a.data && ""[0..] == "";
        arguments := arguments + [a];
        payloadBuffers := payloadBuffers + [0];
      }
    }
    return Success(Scattering(arguments, payloadBuffers, headerBuffer));
  }

  // ---------------------------------------------------------------- block lists

  /** The block sizes of a header, converted to unsigned, or the error of the first bad one. */
  function ReadSizes(blocks: Option<seq<Option<int>>>): (r: Result<seq<nat>>)
    ensures r.Success? ==> blocks.Some? && |r.value| == |blocks.value|
  {
    if blocks.None? then Failure("Key not found: blocks")
    else if None in blocks.value then Failure("Invalid scalar in blocks")
    else Success(seq(|blocks.value|, i requires 0 <= i < |blocks.value| =>
      assert blocks.value[i] in blocks.value; Unsigned(blocks.value[i].value)))
  }

  method ReadBlockSizes(node: Option<seq<Option<int>>>) returns (r: Result<seq<nat>>)
    ensures r == ReadSizes(node)
  {
    if node.None? {
      return Failure("Key not found: blocks");
    }
    var blocks: seq<nat> := [];
    for i := 0 to |node.value|
      invariant None !in node.value[..i] && |blocks| == i
      invariant forall k | 0 <= k < i :: node.value[k].Some? && blocks[k] == Unsigned(node.value[k].value)
    {
      if node.value[i].None? {
        assert None in node.value;
        return Failure("Invalid scalar in blocks");
      }
      blocks := blocks + [Unsigned(node.value[i].value)];
    }
    assert node.value[..|node.value|] == node.value;
    assert blocks == ReadSizes(node).value;
    return Success(blocks);
  }

  /** All numbers are needed, and a negative one stands for a size of 2^31 and more. */
  lemma {:induction false} SizesRead(node: Option<seq<Option<int>>>)
    ensures ReadSizes(node).Success? <==> node.Some? && None !in node.value
    ensures ReadSizes(node).Success? ==>
      && |ReadSizes(node).value| == |node.value|
      && forall i | 0 <= i < |node.value| && -0x8000_0000 <= node.value[i].value < 0x8000_0000 ::
        ReadSizes(node).value[i] == node.value[i].value + if node.value[i].value < 0 then 0x1_0000_0000 else 0
  {
  }

  /** The sizes that are read are the sizes that were declared, modulo 2^32. */
  lemma {:induction false} SizesRoundTrip(args: seq<Argument>)
    ensures ReadSizes(Some(Blocks(args))).Success?
    ensures var sizes := ReadSizes(Some(Blocks(args))).value;
            |sizes| == |args| && forall i | 0 <= i < |args| :: sizes[i] == |args[i].data| % 0x1_0000_0000
  {
    forall i | 0 <= i < |args|
      ensures Unsigned(Signed(|args[i].data|)) == |args[i].data| % 0x1_0000_0000
    {
    }
  }
}
