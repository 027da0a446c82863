/**
 The textual form of a service signature, `Name(in type, out type)`.

 The two regular expressions of the parser are given a declarative meaning: a split names the
 positions at which the pieces of the pattern end, and a text matches when a split exists.
 The scanners compute the split that a backtracking matcher finds first.
 */
module Signatures {
  import opened Wrappers

  // ---------------------------------------------------------------- character classes

  datatype CharClass = Space | Word

  predicate Is(cl: CharClass, c: char) {
    match cl
    case Space => c == ' ' || '\t' <= c <= '\r'
    case Word => 'a' <= c <= 'z' || 'A' <= c <= 'Z' || '0' <= c <= '9' || c == '_'
  }

  predicate AllIn(cl: CharClass, s: string, i: nat, j: nat)
    requires j <= |s|
  {
    forall k | i <= k < j :: Is(cl, s[k])
  }

  /** End of the longest run of the class that starts at `i`. */
  function RunEnd(cl: CharClass, s: string, i: nat): (j: nat)
    requires i <= |s|
    ensures i <= j <= |s| && AllIn(cl, s, i, j)
    ensures j < |s| ==> !Is(cl, s[j])
    decreases |s| - i
  {
    if i == |s| || !Is(cl, s[i]) then i else RunEnd(cl, s, i + 1)
  }

  lemma {:induction false} RunEndIs(cl: CharClass, s: string, i: nat, j: nat)
    requires i <= j <= |s| && AllIn(cl, s, i, j)
    requires j < |s| ==> !Is(cl, s[j])
    ensures RunEnd(cl, s, i) == j
  {
  }

  // ---------------------------------------------------------------- parameters

  datatype Direction = In | Out

  datatype Param = Param(dir: Direction, typ: string)

  function DirText(d: Direction): string {
    if d == In then "in" else "out"
  }

  /** The types of the parameters that have the given direction, in order. */
  function Types(ps: seq<Param>, d: Direction): seq<string> {
    if ps == [] then []
    else (if ps[0].dir == d then [ps[0].typ] else []) + Types(ps[1..], d)
  }

  lemma {:induction false} ConcatAssociative<T>(a: seq<T>, b: seq<T>, c: seq<T>)
    ensures a + (b + c) == a + b + c
  {
  }

  lemma {:induction false} TypesAppend(ps: seq<Param>, p: Param, d: Direction)
    ensures Types(ps + [p], d) == Types(ps, d) + (if p.dir == d then [p.typ] else [])
  {
    if ps == [] {
      assert [p][1..] == [];
    } else {
      assert (ps + [p])[1..] == ps[1..] + [p];
      TypesAppend(ps[1..], p, d);
      ConcatAssociative(if ps[0].dir == d then [ps[0].typ] else [], Types(ps[1..], d),
                        if p.dir == d then [p.typ] else []);
    }
  }

  /** The types are listed in the order of the parameters, each in the list of its direction. */
  lemma {:induction false} TypesParts(ps: seq<Param>, qs: seq<Param>, p: Param, d: Direction)
    ensures Types([], d) == [] && Types([p], d) == if p.dir == d then [p.typ] else []
    ensures Types(ps + qs, d) == Types(ps, d) + Types(qs, d)
  {
    assert [p][1..] == [];
    if ps == [] {
      assert ps + qs == qs;
    } else {
      assert (ps + qs)[1..] == ps[1..] + qs;
      TypesParts(ps[1..], qs, p, d);
      ConcatAssociative(if ps[0].dir == d then [ps[0].typ] else [], Types(ps[1..], d), Types(qs, d));
    }
  }

  function ParamText(p: Param): string {
    DirText(p.dir) + " " + p.typ
  }

  function JoinParams(ps: seq<Param>): string {
    if ps == [] then ""
    else if |ps| == 1 then ParamText(ps[0])
    else ParamText(ps[0]) + ", " + JoinParams(ps[1..])
  }

  lemma {:induction false} JoinAppend(ps: seq<Param>, p: Param)
    ensures JoinParams(ps + [p])
         == (if ps == [] then "" else JoinParams(ps) + ", ") + ParamText(p)
    ensures ps != [] ==> JoinParams(ps) != ""
  {
    if ps == [] {
    } else {
      assert (ps + [p])[1..] == ps[1..] + [p];
      JoinAppend(ps[1..], p);
      if |ps| > 1 {
        ConcatAssociative(ParamText(ps[0]) + ", ", JoinParams(ps[1..]) + ", ", ParamText(p));
        ConcatAssociative(ParamText(ps[0]) + ", ", JoinParams(ps[1..]), ", ");
      }
    }
  }

  /** The canonical string: single spaces, `", "` between parameters. */
  function Canonical(name: string, ps: seq<Param>): string {
    name + "(" + JoinParams(ps) + ")"
  }

  // ---------------------------------------------------------------- argPattern

  /** Where the pieces of `(in|out)\s+(\w+)\s*(,\s*|$)` end. */
  datatype ArgCut = ArgCut(dir: Direction, gap: nat, typ: nat, pad: nat, end: nat)

  predicate StartsAt(s: string, i: nat, d: Direction)
    requires i <= |s|
  {
    if d == In then i + 2 <= |s| && s[i] == 'i' && s[i + 1] == 'n'
    else i + 3 <= |s| && s[i] == 'o' && s[i + 1] == 'u' && s[i + 2] == 't'
  }

  /** The first alternative of the pattern matches `s` at `i`, split as `c` says. */
  predicate ArgSplit(s: string, i: nat, c: ArgCut)
    requires i <= |s|
  {
    && StartsAt(s, i, c.dir)
    && i + |DirText(c.dir)| < c.gap < c.typ <= c.pad <= c.end <= |s|
    && AllIn(Space, s, i + |DirText(c.dir)|, c.gap)
    && AllIn(Word, s, c.gap, c.typ)
    && AllIn(Space, s, c.typ, c.pad)
    && (if c.pad == |s| then c.end == c.pad
        else s[c.pad] == ',' && c.pad < c.end && AllIn(Space, s, c.pad + 1, c.end))
  }

  function ArgParam(s: string, c: ArgCut): Param
    requires c.gap <= c.typ <= |s|
  {
    Param(c.dir, s[c.gap..c.typ])
  }

  function ScanArg(s: string, i: nat): (r: Option<ArgCut>)
    requires i <= |s|
    ensures r.Some? ==> ArgSplit(s, i, r.value)
  {
    if !StartsAt(s, i, In) && !StartsAt(s, i, Out) then None
    else
      var dir := if StartsAt(s, i, In) then In else Out;
      var start := i + |DirText(dir)|;
      var gap := RunEnd(Space, s, start);
      var typ := RunEnd(Word, s, gap);
      var pad := RunEnd(Space, s, typ);
      if gap == start || typ == gap then None
      else if pad == |s| then Some(ArgCut(dir, gap, typ, pad, pad))
      else if s[pad] == ',' then Some(ArgCut(dir, gap, typ, pad, RunEnd(Space, s, pad + 1)))
      else None
  }

  /** However the pattern can match, the scanner matches too.  Only the blanks after a comma
      can be shared out in more than one way, and the scanner takes all of them. */
  lemma {:induction false} ScanArgGreedy(s: string, i: nat, c: ArgCut)
    requires i <= |s| && ArgSplit(s, i, c)
    ensures ScanArg(s, i).Some?
    ensures ScanArg(s, i).value.(end := c.end) == c && c.end <= ScanArg(s, i).value.end
  {
    ArgRuns(s, i, c);
    OneDirection(s, i, c.dir);
    if c.pad < |s| {
      RunEndCovers(Space, s, c.pad + 1, c.end);
    }
  }

  lemma {:induction false} OneDirection(s: string, i: nat, d: Direction)
    requires i <= |s| && StartsAt(s, i, d)
    ensures d == if StartsAt(s, i, In) then In else Out
  {
  }

  lemma {:induction false} RunEndCovers(cl: CharClass, s: string, i: nat, j: nat)
    requires i <= j <= |s| && AllIn(cl, s, i, j)
    ensures j <= RunEnd(cl, s, i)
  {
  }

  lemma {:induction false} ArgRuns(s: string, i: nat, c: ArgCut)
    requires i <= |s| && ArgSplit(s, i, c)
    ensures RunEnd(Space, s, i + |DirText(c.dir)|) == c.gap
    ensures RunEnd(Word, s, c.gap) == c.typ && RunEnd(Space, s, c.typ) == c.pad
  {
    assert Is(Word, s[c.gap]);
    RunEndIs(Space, s, i + |DirText(c.dir)|, c.gap);
    RunEndIs(Word, s, c.gap, c.typ);
    RunEndIs(Space, s, c.typ, c.pad);
  }

  lemma {:induction false} ScanArgExact(s: string, i: nat, c: ArgCut)
    requires i <= |s| && ArgSplit(s, i, c)
    requires c.end < |s| ==> !Is(Space, s[c.end])
    ensures ScanArg(s, i) == Some(c)
  {
    ScanArgGreedy(s, i, c);
  }

  // ---------------------------------------------------------------- parameter lists

  /** From `i` on, the text is a list of parameters: each argument ends at a comma or at the
      end of the text, and a comma at the very end is allowed. */
  ghost predicate DerivesArgs(s: string, i: nat, ps: seq<Param>)
    requires i <= |s|
    decreases |ps|
  {
    ps != [] && exists c :: DerivesArgsBy(s, i, ps, c)
  }

  ghost predicate DerivesArgsBy(s: string, i: nat, ps: seq<Param>, c: ArgCut)
    requires i <= |s| && ps != []
    decreases |ps|, 0
  {
    && ArgSplit(s, i, c) && ArgParam(s, c) == ps[0]
    && (if c.end == |s| then |ps| == 1 else |ps| > 1 && DerivesArgs(s, c.end, ps[1..]))
  }

  /** The parameters matched before the loop stops; complete unless it reached `\G(.+)`. */
  datatype ArgScan = ArgScan(params: seq<Param>, complete: bool)

  function ScanArgs(s: string, i: nat): ArgScan
    requires i <= |s|
    decreases |s| - i
  {
    if i == |s| then ArgScan([], true)
    else
      var c := ScanArg(s, i);
      if c.None? then ArgScan([], false)
      else
        var more := ScanArgs(s, c.value.end);
        ArgScan([ArgParam(s, c.value)] + more.params, more.complete)
  }

  lemma {:induction false} ScanArgsSound(s: string, i: nat)
    requires i < |s| && ScanArgs(s, i).complete
    ensures DerivesArgs(s, i, ScanArgs(s, i).params)
    decreases |s| - i
  {
    var c := ScanArg(s, i).value;
    var ps := ScanArgs(s, i).params;
    if c.end == |s| {
    } else {
      ScanArgsSound(s, c.end);
      assert ps[1..] == ScanArgs(s, c.end).params;
      assert ps[1..] != [];
    }
    assert DerivesArgsBy(s, i, ps, c);
  }

  lemma {:induction false} DerivesStart(s: string, i: nat, ps: seq<Param>)
    requires i <= |s| && DerivesArgs(s, i, ps)
    ensures i < |s| && !Is(Space, s[i])
  {
    var c :| DerivesArgsBy(s, i, ps, c);
    assert s[i] == DirText(c.dir)[0];
  }

  lemma {:induction false} FirstArg(s: string, i: nat, ps: seq<Param>) returns (c: ArgCut)
    requires i <= |s| && DerivesArgs(s, i, ps)
    ensures ps != [] && ArgSplit(s, i, c) && ArgParam(s, c) == ps[0]
    ensures c.end == |s| ==> ps[1..] == []
    ensures c.end < |s| ==> DerivesArgs(s, c.end, ps[1..]) && !Is(Space, s[c.end])
  {
    c :| DerivesArgsBy(s, i, ps, c);
    if c.end < |s| {
      DerivesStart(s, c.end, ps[1..]);
    }
  }

  lemma {:induction false} ScanArgsComplete(s: string, i: nat, ps: seq<Param>)
    requires i <= |s| && DerivesArgs(s, i, ps)
    ensures i < |s| && ScanArgs(s, i) == ArgScan(ps, true)
    decreases |ps|
  {
    var c := FirstArg(s, i, ps);
    if c.end == |s| {
    } else {
      ScanArgsComplete(s, c.end, ps[1..]);
    }
    ScanArgsFirst(s, i, c, ps, true);
  }

  lemma {:induction false} ScanArgsFirst(s: string, i: nat, c: ArgCut, ps: seq<Param>, complete: bool)
    requires i <= |s| && ArgSplit(s, i, c)
    requires c.end < |s| ==> !Is(Space, s[c.end])
    requires ps != [] && ps[0] == ArgParam(s, c)
    requires ScanArgs(s, c.end) == ArgScan(ps[1..], complete)
    ensures ScanArgs(s, i) == ArgScan(ps, complete)
  {
    ScanArgExact(s, i, c);
    assert ps == [ps[0]] + ps[1..];
  }

  // ---------------------------------------------------------------- sigPattern

  /** Where the pieces of `\s*(\w+)\s*\(\s*(.+)\)\s*` end; `mid` and `close` are the
      positions of the parentheses. */
  datatype SigCut = SigCut(lead: nat, name: nat, mid: nat, open: nat, close: nat, end: nat)

  /** The pattern matches `s` at `i`, split as `c` says. */
  predicate SigSplit(s: string, i: nat, c: SigCut) {
    && i <= c.lead < c.name <= c.mid < c.open < c.close < c.end <= |s|
    && AllIn(Space, s, i, c.lead)
    && AllIn(Word, s, c.lead, c.name)
    && AllIn(Space, s, c.name, c.mid)
    && s[c.mid] == '('
    && AllIn(Space, s, c.mid + 1, c.open)
    && s[c.close] == ')'
    && AllIn(Space, s, c.close + 1, c.end)
  }

  /** A backtracking matcher tries `c` no later than `d`: it tries longer pieces first. */
  predicate NoLater(c: SigCut, d: SigCut) {
    || c.lead > d.lead || (c.lead == d.lead
    && (c.name > d.name || (c.name == d.name
    && (c.mid > d.mid || (c.mid == d.mid
    && (c.open > d.open || (c.open == d.open
    && (c.close > d.close || (c.close == d.close && c.end >= d.end)))))))))
  }

  /** The order in which a matcher tries splits leaves no choice: of two different ones it tries
      exactly one first. */
  lemma {:induction false} NoLaterIsTotal(c: SigCut, d: SigCut)
    ensures NoLater(c, d) || NoLater(d, c)
    ensures NoLater(c, d) && NoLater(d, c) <==> c == d
  {
  }

  /** Position of the last `)` before `n`, or -1. */
  function LastClose(s: string, n: nat): (r: int)
    requires n <= |s|
    ensures -1 <= r < n
    ensures r >= 0 ==> s[r] == ')'
    ensures forall i | r < i < n :: s[i] != ')'
  {
    if n == 0 then -1
    else if s[n - 1] == ')' then n - 1
    else LastClose(s, n - 1)
  }

  function ScanSig(s: string, i: nat): (r: Option<SigCut>)
    requires i <= |s|
    ensures r.Some? ==> SigSplit(s, i, r.value) && r.value.close == LastClose(s, |s|)
  {
    var lead := RunEnd(Space, s, i);
    var name := RunEnd(Word, s, lead);
    var mid := RunEnd(Space, s, name);
    var close := LastClose(s, |s|);
    if name == lead || mid == |s| || s[mid] != '(' || close < mid + 2 then None
    else
      var blanks := RunEnd(Space, s, mid + 1);
      var open := if blanks < close then blanks else close - 1;
      Some(SigCut(lead, name, mid, open, close, RunEnd(Space, s, close + 1)))
  }

  /** The scanner fails only when no split exists, and otherwise finds the split that greedy
      backtracking reports: no other split is tried before it. */
  lemma {:induction false} ScanSigGreedy(s: string, i: nat, c: SigCut)
    requires i <= |s| && SigSplit(s, i, c)
    ensures ScanSig(s, i).Some? && NoLater(ScanSig(s, i).value, c)
    ensures var g := ScanSig(s, i).value; g.lead == c.lead && g.name == c.name && g.mid == c.mid
  {
    assert Is(Word, s[c.lead]);
    RunEndIs(Space, s, i, c.lead);
    RunEndIs(Word, s, c.lead, c.name);
    RunEndIs(Space, s, c.name, c.mid);
    assert LastClose(s, |s|) >= c.close;
  }

  /** The leftmost match in a text: where it starts and how it splits. */
  datatype Found = Found(start: nat, cut: SigCut)

  ghost predicate IsFirstMatch(s: string, f: Found) {
    && f.start <= |s| && SigSplit(s, f.start, f.cut)
    && NoMatchBefore(s, f.start)
    && (forall c | SigSplit(s, f.start, c) :: NoLater(f.cut, c))
  }

  /** The first position with a match. */
  function FirstHit(hits: seq<Option<SigCut>>, i: nat): (r: Option<Found>)
    requires i <= |hits|
    ensures r.Some? ==> i <= r.value.start < |hits| && hits[r.value.start] == Some(r.value.cut)
    ensures forall j | i <= j < (if r.Some? then r.value.start else |hits|) :: hits[j] == None
    decreases |hits| - i
  {
    if i == |hits| then None
    else if hits[i].Some? then Some(Found(i, hits[i].value))
    else FirstHit(hits, i + 1)
  }

  lemma {:induction false} FirstHitIs(hits: seq<Option<SigCut>>, d: nat)
    requires d < |hits| && hits[d].Some? && forall j | 0 <= j < d :: hits[j] == None
    ensures FirstHit(hits, 0) == Some(Found(d, hits[d].value))
  {
  }

  /** What the scanner finds at every position, the end included. */
  function Hits(s: string): (hits: seq<Option<SigCut>>)
    ensures |hits| == |s| + 1
  {
    seq(|s| + 1, i requires 0 <= i <= |s| => ScanSig(s, i))
  }

  function Search(s: string): (r: Option<Found>)
    ensures r.Some? ==> r.value.start <= |s| && ScanSig(s, r.value.start) == Some(r.value.cut)
  {
    FirstHit(Hits(s), 0)
  }

  lemma {:induction false} ScanSigFirst(s: string, i: nat)
    requires i <= |s|
    ensures forall c | SigSplit(s, i, c) :: ScanSig(s, i).Some? && NoLater(ScanSig(s, i).value, c)
  {
    forall c | SigSplit(s, i, c)
      ensures ScanSig(s, i).Some? && NoLater(ScanSig(s, i).value, c)
    {
      ScanSigGreedy(s, i, c);
    }
  }

  /** The search returns the match that a leftmost, greedy regular expression engine returns,
      and fails only when the pattern matches nowhere. */
  lemma {:induction false} SearchIsFirstMatch(s: string)
    ensures Search(s).Some? ==> IsFirstMatch(s, Search(s).value)
    ensures Search(s).None? ==> NoMatchBefore(s, |s| + 1)
  {
    var r := Search(s);
    var end := if r.Some? then r.value.start else |s| + 1;
    forall j: nat | j < end
      ensures NoMatchAt(s, j)
    {
      assert Hits(s)[j] == None;
      NoneNoMatch(s, j);
    }
    if r.Some? {
      ScanSigFirst(s, r.value.start);
    }
  }

  ghost predicate NoMatchAt(s: string, i: nat) {
    forall c :: !SigSplit(s, i, c)
  }

  ghost predicate NoMatchBefore(s: string, i: nat) {
    forall j: nat | j < i :: NoMatchAt(s, j)
  }

  lemma {:induction false} NoneNoMatch(s: string, i: nat)
    requires i <= |s| && ScanSig(s, i) == None
    ensures NoMatchAt(s, i)
  {
    ScanSigFirst(s, i);
  }

  /** `regex_replace` rewrites at most one match: a second one would need a `)` of its own. */
  lemma {:induction false} SearchOnlyOnce(s: string, j: nat, c: SigCut)
    requires Search(s).Some? && Search(s).value.cut.end <= j
    ensures !SigSplit(s, j, c)
  {
  }

  /** `regex_match` on the whole text, against the search that `regex_replace` makes. */
  lemma {:induction false} WholeMatch(s: string)
    ensures (exists c :: SigSplit(s, 0, c) && c.end == |s|) <==> MatchesWhole(s)
  {
    if c :| SigSplit(s, 0, c) && c.end == |s| {
      WholeSplit(s, c);
    }
  }

  predicate MatchesWhole(s: string) {
    var f := Search(s);
    f.Some? && f.value.start == 0 && f.value.cut.end == |s|
  }

  lemma {:induction false} WholeSplit(s: string, c: SigCut)
    requires SigSplit(s, 0, c) && c.end == |s|
    ensures ScanSig(s, 0).Some? && ScanSig(s, 0).value.(open := c.open) == c
    ensures !Is(Space, s[c.open]) ==> ScanSig(s, 0).value == c
  {
    ScanSigGreedy(s, 0, c);
    assert LastClose(s, |s|) == c.close;
    RunEndIs(Space, s, c.close + 1, |s|);
    if !Is(Space, s[c.open]) {
      RunEndIs(Space, s, c.mid + 1, c.open);
    }
  }

  // ---------------------------------------------------------------- signatures

  /** The fields of a `ServiceSignature`; `text` is the canonical string, its identity. */
  datatype Fields = Fields(name: string, text: string,
                           inputs: seq<string>, outputs: seq<string>, valid: bool)

  const ANY := Fields("*", "*", [], [], false)

  /** The fields that belong to a name and a list of parameters. */
  function Meaning(name: string, ps: seq<Param>, valid: bool): Fields {
    Fields(name, Canonical(name, ps), Types(ps, In), Types(ps, Out), valid)
  }

  /** What `regex_replace` leaves: the match, if any, gives way to one of its captures. */
  function Replaced(s: string, f: Option<Found>, from: nat, to: nat): string
    requires from <= to <= |s|
    requires f.Some? ==> f.value.start <= |s| && f.value.cut.end <= |s|
  {
    if f.None? then s else s[..f.value.start] + s[from..to] + s[f.value.cut.end..]
  }

  function NameCapture(s: string): string {
    var f := Search(s);
    if f.None? then s else Replaced(s, f, f.value.cut.lead, f.value.cut.name)
  }

  function ArgsCapture(s: string): string {
    var f := Search(s);
    if f.None? then s else Replaced(s, f, f.value.cut.open, f.value.cut.close)
  }

  function Parse(s: string): Fields {
    var scan := ScanArgs(ArgsCapture(s), 0);
    Meaning(NameCapture(s), scan.params, MatchesWhole(s) && scan.complete)
  }

  ghost predicate ScannedTo(args: string, i: nat, ps: seq<Param>)
    requires i <= |args|
  {
    var more := ScanArgs(args, i);
    ScanArgs(args, 0) == ArgScan(ps + more.params, more.complete)
  }

  lemma {:induction false} ScanArgsStep(args: string, i: nat, ps: seq<Param>)
    requires i < |args| && ScannedTo(args, i, ps) && ScanArg(args, i).Some?
    ensures var c := ScanArg(args, i).value; ScannedTo(args, c.end, ps + [ArgParam(args, c)])
  {
    var c := ScanArg(args, i).value;
    var more := ScanArgs(args, c.end).params;
    assert ps + ([ArgParam(args, c)] + more) == ps + [ArgParam(args, c)] + more;
  }

  lemma {:induction false} Appended(ps: seq<Param>, p: Param)
    ensures JoinParams(ps + [p]) == (if ps == [] then "" else JoinParams(ps) + ", ") + ParamText(p)
    ensures JoinParams(ps + [p]) != ""
    ensures Types(ps + [p], p.dir) == Types(ps, p.dir) + [p.typ]
    ensures forall d | d != p.dir :: Types(ps + [p], d) == Types(ps, d)
  {
    JoinAppend(ps, p);
    TypesAppend(ps, p, In);
    TypesAppend(ps, p, Out);
  }

  /** The loop of the constructor moves through the argument text, one match at a time. */
  method ParseArgs(args: string)
    returns (arguments: string, inputs: seq<string>, outputs: seq<string>, complete: bool)
    ensures var scan := ScanArgs(args, 0);
            && complete == scan.complete && arguments == JoinParams(scan.params)
            && inputs == Types(scan.params, In) && outputs == Types(scan.params, Out)
  {
    arguments, inputs, outputs, complete := "", [], [], true;
    var i := 0;
    ghost var ps := [];
    while i < |args|
      invariant i <= |args| && complete
      invariant arguments == JoinParams(ps) && (arguments == "" <==> ps == [])
      invariant inputs == Types(ps, In) && outputs == Types(ps, Out)
      invariant ScannedTo(args, i, ps)
      decreases |args| - i
    {
      var hit := ScanArg(args, i);
      if hit.None? {
        complete := false;
        break;
      }
      var p := ArgParam(args, hit.value);
      Appended(ps, p);
      ScanArgsStep(args, i, ps);
      if arguments != "" {
        arguments := arguments + ", ";
      }
      arguments := arguments + ParamText(p);
      if p.dir == In {
        inputs := inputs + [p.typ];
      } else {
        outputs := outputs + [p.typ];
      }
      ps := ps + [p];
      i := hit.value.end;
    }
    assert ps + [] == ps;
  }

  /** The parsing constructor. */
  method Construct(s: string) returns (r: Fields)
    ensures r == Parse(s)
  {
    var name := NameCapture(s);
    var arguments, inputs, outputs, complete := ParseArgs(ArgsCapture(s));
    r := Fields(name, name + "(" + arguments + ")", inputs, outputs, MatchesWhole(s) && complete);
  }

  // ---------------------------------------------------------------- the grammar

  /** The grammar of valid texts, with the name and the parameters a text derives. */
  ghost predicate Derives(s: string, name: string, ps: seq<Param>) {
    exists c :: DerivesBy(s, name, ps, c)
  }

  ghost predicate DerivesBy(s: string, name: string, ps: seq<Param>, c: SigCut) {
    && SigSplit(s, 0, c) && c.end == |s|
    && name == s[c.lead..c.name] && DerivesArgs(s[c.open..c.close], 0, ps)
  }

  /** A match of the whole text: both replacements leave just the capture. */
  lemma {:induction false} WholeCaptures(s: string, c: SigCut)
    requires ScanSig(s, 0) == Some(c) && c.end == |s|
    ensures MatchesWhole(s)
    ensures NameCapture(s) == s[c.lead..c.name] && ArgsCapture(s) == s[c.open..c.close]
  {
    assert s[..0] == "" && s[c.end..] == "";
  }

  /** A text of the grammar is valid, and its fields are determined by what it derives. */
  lemma {:induction false} ParseComplete(s: string, name: string, ps: seq<Param>)
    requires Derives(s, name, ps)
    ensures Parse(s) == Meaning(name, ps, true)
    ensures ScanArgs(ArgsCapture(s), 0).params == ps
  {
    var c :| DerivesBy(s, name, ps, c);
    var args := s[c.open..c.close];
    ScanArgsComplete(args, 0, ps);
    DerivesStart(args, 0, ps);
    assert args[0] == s[c.open];
    WholeSplit(s, c);
    WholeCaptures(s, c);
  }

  lemma {:induction false} WholeDerives(s: string, c: SigCut, args: string)
    requires SigSplit(s, 0, c) && c.end == |s| && args == s[c.open..c.close]
    requires ScanArgs(args, 0).complete
    ensures Derives(s, s[c.lead..c.name], ScanArgs(args, 0).params)
  {
    var ps := ScanArgs(args, 0).params;
    ScanArgsSound(args, 0);
    assert DerivesBy(s, s[c.lead..c.name], ps, c);
  }

  /** Only texts of the grammar are valid. */
  lemma {:induction false} ParseSound(s: string)
    requires Parse(s).valid
    ensures Derives(s, NameCapture(s), ScanArgs(ArgsCapture(s), 0).params)
  {
    var c := Search(s).value.cut;
    WholeCaptures(s, c);
    WholeDerives(s, c, s[c.open..c.close]);
  }

  lemma {:induction false} ValidIffDerivable(s: string)
    ensures Parse(s).valid <==> exists name, ps :: Derives(s, name, ps)
    ensures forall name, ps | Derives(s, name, ps) :: Parse(s) == Meaning(name, ps, true)
  {
    forall name, ps | Derives(s, name, ps)
      ensures Parse(s) == Meaning(name, ps, true)
    {
      ParseComplete(s, name, ps);
    }
    if Parse(s).valid {
      ParseSound(s);
    }
  }

  /** Layout does not matter: texts that derive the same tokens are the same signature. */
  lemma {:induction false} LayoutIndependent(s: string, t: string, name: string, ps: seq<Param>)
    requires Derives(s, name, ps) && Derives(t, name, ps)
    ensures Parse(s) == Parse(t)
  {
    ParseComplete(s, name, ps);
    ParseComplete(t, name, ps);
  }

  // ---------------------------------------------------------------- canonical strings

  predicate WordText(w: string) {
    w != "" && AllIn(Word, w, 0, |w|)
  }

  ghost predicate TokensOk(name: string, ps: seq<Param>) {
    WordText(name) && ps != [] && forall p | p in ps :: WordText(p.typ)
  }

  lemma {:induction false} DerivedTypesAreWords(s: string, i: nat, ps: seq<Param>)
    requires i <= |s| && DerivesArgs(s, i, ps)
    ensures forall p | p in ps :: WordText(p.typ)
    decreases |ps|
  {
    var c :| DerivesArgsBy(s, i, ps, c);
    assert WordText(ps[0].typ);
    if c.end == |s| {
    } else {
      DerivedTypesAreWords(s, c.end, ps[1..]);
    }
    assert ps == [ps[0]] + ps[1..];
  }

  lemma {:induction false} DerivedTokensOk(s: string, name: string, ps: seq<Param>)
    requires Derives(s, name, ps)
    ensures TokensOk(name, ps)
  {
    var c :| DerivesBy(s, name, ps, c);
    DerivedTypesAreWords(s[c.open..c.close], 0, ps);
  }

  lemma {:induction false} JoinDerives(s: string, i: nat, ps: seq<Param>)
    requires i <= |s| && s[i..] == JoinParams(ps)
    requires ps != [] && forall p | p in ps :: WordText(p.typ)
    ensures DerivesArgs(s, i, ps)
    decreases |ps|
  {
    var tail := if |ps| == 1 then "" else ", " + JoinParams(ps[1..]);
    assert s[i..] == ParamText(ps[0]) + tail;
    var c := ParamTextSplit(s, i, ps[0], tail);
    if |ps| == 1 {
    } else {
      assert s[c.end..] == s[i..][c.end - i..] == tail[2..] == JoinParams(ps[1..]);
      JoinDerives(s, c.end, ps[1..]);
      DerivesStart(s, c.end, ps[1..]);
    }
    assert DerivesArgsBy(s, i, ps, c);
  }

  lemma {:induction false} ParamTextSplit(s: string, i: nat, p: Param, tail: string) returns (c: ArgCut)
    requires i <= |s| && s[i..] == ParamText(p) + tail && WordText(p.typ)
    requires tail == "" || (|tail| >= 2 && tail[0] == ',' && tail[1] == ' ')
    ensures ArgSplit(s, i, c) && ArgParam(s, c) == p
    ensures c.pad == i + |ParamText(p)| && c.end == c.pad + (if tail == "" then 0 else 2)
  {
    var gap := i + |DirText(p.dir)| + 1;
    var typ := i + |ParamText(p)|;
    c := ArgCut(p.dir, gap, typ, typ, if tail == "" then typ else typ + 2);
    assert forall k | i <= k < |s| :: s[k] == s[i..][k - i];
    assert forall k | gap <= k < typ :: s[k] == p.typ[k - gap];
    assert s[gap..typ] == p.typ;
    if tail != "" {
      assert s[typ] == tail[0] && s[typ + 1] == tail[1];
    }
  }

  lemma {:induction false} CanonicalDerives(name: string, ps: seq<Param>)
    requires TokensOk(name, ps)
    ensures Derives(Canonical(name, ps), name, ps)
  {
    var s := Canonical(name, ps);
    var args := JoinParams(ps);
    JoinDerives(args, 0, ps);
    DerivesStart(args, 0, ps);
    var n := |name|;
    var c := SigCut(0, n, n, n + 1, n + 1 + |args|, n + 2 + |args|);
    assert s[..n] == name && s[n + 1..n + 1 + |args|] == args;
    assert forall k | 0 <= k < n :: s[k] == name[k];
    assert DerivesBy(s, name, ps, c);
  }

  /** Parsing a canonical string gives the signature it was printed from. */
  lemma {:induction false} CanonicalRoundTrip(s: string)
    requires Parse(s).valid
    ensures Parse(Parse(s).text) == Parse(s)
  {
    var name, ps := NameCapture(s), ScanArgs(ArgsCapture(s), 0).params;
    ParseSound(s);
    DerivedTokensOk(s, name, ps);
    CanonicalDerives(name, ps);
    ParseComplete(Canonical(name, ps), name, ps);
  }

  /** The signatures that constructors build. */
  ghost predicate Constructed(f: Fields) {
    f == ANY || exists s :: Parse(s) == f
  }

  lemma {:induction false} ValidIsStable(f: Fields)
    requires Constructed(f) && f.valid
    ensures Parse(f.text) == f
  {
    var s :| Parse(s) == f;
    CanonicalRoundTrip(s);
  }

  /** No text parses to the wildcard, `*`: the text of every other signature has parentheses. */
  lemma {:induction false} WildcardIsUnique(f: Fields)
    requires Constructed(f)
    ensures f.text == "*" <==> f == Fields("*", "*", [], [], false)
  {
    if f != ANY {
      var s :| Parse(s) == f;
      ParsedTextIsLonger(NameCapture(s), ScannedParams(s));
    }
  }

  lemma {:induction false} ParsedTextIsLonger(name: string, ps: seq<Param>)
    ensures |Canonical(name, ps)| >= 2
  {
  }

  // ---------------------------------------------------------------- identity

  /** The tokens that a text was scanned into, valid or not. */
  function ScannedParams(s: string): seq<Param> {
    ScanArgs(ArgsCapture(s), 0).params
  }

  lemma {:induction false} ScannedTypesAreWords(s: string, i: nat)
    requires i <= |s|
    ensures forall p | p in ScanArgs(s, i).params :: WordText(p.typ)
    decreases |s| - i
  {
    if i == |s| || ScanArg(s, i).None? {
    } else {
      var c := ScanArg(s, i).value;
      assert WordText(ArgParam(s, c).typ);
      ScannedTypesAreWords(s, c.end);
    }
  }

  predicate JoinChar(c: char) {
    Is(Word, c) || c == ' ' || c == ','
  }

  lemma {:induction false} JoinChars(ps: seq<Param>)
    requires forall p | p in ps :: WordText(p.typ)
    ensures forall i | 0 <= i < |JoinParams(ps)| :: JoinChar(JoinParams(ps)[i])
  {
    if ps == [] {
    } else {
      assert forall i | 0 <= i < |ps[0].typ| :: JoinChar(ps[0].typ[i]);
      JoinChars(ps[1..]);
    }
  }

  /** Names come first and the parameters cannot hide a parenthesis. */
  lemma {:induction false} SameName(n1: string, j1: string, n2: string, j2: string)
    requires n1 + "(" + j1 + ")" == n2 + "(" + j2 + ")"
    requires AllIn(Word, n2, 0, |n2|) && forall i | 0 <= i < |j2| :: JoinChar(j2[i])
    ensures n1 == n2 && j1 == j2
  {
    var c := n1 + "(" + j1 + ")";
    assert c == n2 + "(" + j2 + ")";
    assert c[|n1|] == '(';
    assert forall k | 0 <= k < |n2| :: c[k] == n2[k];
    assert forall k | |n2| < k < |c| :: c[k] == (j2 + ")")[k - |n2| - 1];
    assert |n1| == |n2|;
    assert c[..|n1|] == n1 && c[..|n2|] == n2;
    assert c[|n1| + 1..|c| - 1] == j1 && c[|n2| + 1..|c| - 1] == j2;
  }

  lemma {:induction false} SameParams(ps: seq<Param>, qs: seq<Param>)
    requires forall p | p in ps :: WordText(p.typ)
    requires forall p | p in qs :: WordText(p.typ)
    requires JoinParams(ps) == JoinParams(qs) && ps != []
    ensures ps == qs
  {
    var s := JoinParams(ps);
    JoinDerives(s, 0, ps);
    ScanArgsComplete(s, 0, ps);
    if qs != [] {
      JoinDerives(s, 0, qs);
      ScanArgsComplete(s, 0, qs);
    }
  }

  /** String equality with a valid signature decides structural equality, of any text: the name
      and the ordered directions and types coincide. */
  lemma {:induction false} IdentityIsStructural(s: string, t: string)
    requires Parse(t).valid
    ensures Parse(s).text == Parse(t).text
        <==> NameCapture(s) == NameCapture(t) && ScannedParams(s) == ScannedParams(t)
  {
    if Parse(s).text == Parse(t).text {
      var n1, ps1, n2, ps2 := NameCapture(s), ScannedParams(s), NameCapture(t), ScannedParams(t);
      ParseSound(t);
      DerivedTokensOk(t, n2, ps2);
      ScannedTypesAreWords(ArgsCapture(s), 0);
      JoinChars(ps2);
      SameName(n1, JoinParams(ps1), n2, JoinParams(ps2));
      SameParams(ps2, ps1);
    }
  }

  // ---------------------------------------------------------------- identity without validity

  lemma {:induction false} TypesCount(ps: seq<Param>)
    ensures |Types(ps, In)| + |Types(ps, Out)| == |ps|
  {
    if ps == [] {
    } else {
      TypesCount(ps[1..]);
    }
  }

  /** But string equality does not decide validity.  The identity of a text is that of a valid
      signature exactly if its name is a word and it has a parameter; and then it is valid exactly
      if the whole text matched and the loop used up the parameters. */
  lemma {:induction false} SharedIdentity(s: string)
    ensures (exists t :: Parse(t).valid && Parse(t).text == Parse(s).text)
        <==> WordText(Parse(s).name) && Parse(s).inputs + Parse(s).outputs != []
    ensures Parse(s).valid <==> MatchesWhole(s) && ScanArgs(ArgsCapture(s), 0).complete
    ensures Parse(s).valid ==> WordText(Parse(s).name) && Parse(s).inputs + Parse(s).outputs != []
  {
    var name, ps := NameCapture(s), ScannedParams(s);
    TypesCount(ps);
    if t :| Parse(t).valid && Parse(t).text == Parse(s).text {
      IdentityIsStructural(s, t);
      ParseSound(t);
      DerivedTokensOk(t, name, ps);
    }
    if WordText(name) && ps != [] {
      ScannedTypesAreWords(ArgsCapture(s), 0);
      CanonicalDerives(name, ps);
      ParseComplete(Canonical(name, ps), name, ps);
      assert Parse(Canonical(name, ps)).text == Parse(s).text;
    }
    if Parse(s).valid {
      ParseSound(s);
      DerivedTokensOk(s, name, ps);
    }
  }

  // ---------------------------------------------------------------- junk after the parameters

  function Shift(c: ArgCut, i: nat): ArgCut {
    ArgCut(c.dir, i + c.gap, i + c.typ, i + c.pad, i + c.end)
  }

  lemma {:induction false} AllInShift(cl: CharClass, s: string, t: string, i: nat, a: nat, b: nat)
    requires i <= |s| && t == s[i..] && b <= |t|
    ensures AllIn(cl, t, a, b) <==> AllIn(cl, s, i + a, i + b)
  {
    if AllIn(cl, t, a, b) {
      assert forall k | i + a <= k < i + b :: s[k] == t[k - i];
    }
    if AllIn(cl, s, i + a, i + b) {
      assert forall k | a <= k < b :: t[k] == s[i + k];
    }
  }

  lemma {:induction false} StartsAtShift(s: string, t: string, i: nat, d: Direction)
    requires i <= |s| && t == s[i..]
    ensures StartsAt(t, 0, d) <==> StartsAt(s, i, d)
  {
  }

  lemma {:induction false} ArgSplitUp(s: string, t: string, i: nat, c: ArgCut)
    requires i <= |s| && t == s[i..] && ArgSplit(t, 0, c)
    ensures ArgSplit(s, i, Shift(c, i)) && ArgParam(s, Shift(c, i)) == ArgParam(t, c)
  {
    assert t[c.gap..c.typ] == s[i + c.gap..i + c.typ];
    StartsAtShift(s, t, i, c.dir);
    AllInShift(Space, s, t, i, |DirText(c.dir)|, c.gap);
    AllInShift(Word, s, t, i, c.gap, c.typ);
    AllInShift(Space, s, t, i, c.typ, c.pad);
    AllInShift(Space, s, t, i, c.pad + 1, c.end);
  }

  lemma {:induction false} ArgSplitDown(s: string, t: string, i: nat, c: ArgCut)
    requires i <= |s| && t == s[i..] && ArgSplit(s, i, Shift(c, i))
    ensures ArgSplit(t, 0, c)
  {
    StartsAtShift(s, t, i, c.dir);
    AllInShift(Space, s, t, i, |DirText(c.dir)|, c.gap);
    AllInShift(Word, s, t, i, c.gap, c.typ);
    AllInShift(Space, s, t, i, c.typ, c.pad);
    AllInShift(Space, s, t, i, c.pad + 1, c.end);
  }

  lemma {:induction false} ScanArgUp(s: string, t: string, i: nat, c: ArgCut)
    requires i <= |s| && t == s[i..] && ScanArg(t, 0) == Some(c)
    ensures ScanArg(s, i).Some?
    ensures ScanArg(s, i).value.(end := i + c.end) == Shift(c, i) && i + c.end <= ScanArg(s, i).value.end
  {
    ArgSplitUp(s, t, i, c);
    ScanArgGreedy(s, i, Shift(c, i));
  }

  lemma {:induction false} ScanArgDown(s: string, t: string, i: nat, g: ArgCut)
    requires i <= |s| && t == s[i..] && ScanArg(s, i) == Some(g)
    ensures ScanArg(t, 0).Some? && g.end <= i + ScanArg(t, 0).value.end
  {
    var c := ArgCut(g.dir, g.gap - i, g.typ - i, g.pad - i, g.end - i);
    assert Shift(c, i) == g;
    ArgSplitDown(s, t, i, c);
    ScanArgGreedy(t, 0, c);
  }

  /** Scanning depends only on what is still to be scanned. */
  lemma {:induction false} ScanArgShift(s: string, t: string, i: nat)
    requires i <= |s| && t == s[i..]
    ensures ScanArg(s, i).None? <==> ScanArg(t, 0).None?
    ensures ScanArg(s, i).Some? ==>
      && ScanArg(s, i).value == Shift(ScanArg(t, 0).value, i)
      && ArgParam(s, ScanArg(s, i).value) == ArgParam(t, ScanArg(t, 0).value)
  {
    if ScanArg(s, i).Some? {
      ScanArgDown(s, t, i, ScanArg(s, i).value);
    }
    if ScanArg(t, 0).Some? {
      ScanArgUp(s, t, i, ScanArg(t, 0).value);
      ArgSplitUp(s, t, i, ScanArg(t, 0).value);
    }
  }

  /** The scanner takes these parameters from `i` on and is then at `k`. */
  ghost predicate Scans(s: string, i: nat, ps: seq<Param>, k: nat)
    decreases |ps|
  {
    && i <= |s|
    && (if ps == [] then i == k
        else i < |s| && ScanArg(s, i).Some? && ArgParam(s, ScanArg(s, i).value) == ps[0]
             && Scans(s, ScanArg(s, i).value.end, ps[1..], k))
  }

  lemma {:induction false} ScansAll(s: string, i: nat, ps: seq<Param>, k: nat)
    requires k <= |s| && Scans(s, i, ps, k)
    ensures ScanArgs(s, i) == AfterParams(ps, ScanArgs(s, k))
    decreases |ps|
  {
    if ps == [] {
      assert ps + ScanArgs(s, k).params == ScanArgs(s, k).params;
    } else {
      var c := ScanArg(s, i).value;
      ScansAll(s, c.end, ps[1..], k);
      ScanArgsNext(s, i, c, ScanArgs(s, c.end));
      AfterFirst(ps, ScanArgs(s, k));
    }
  }

  function AfterParams(ps: seq<Param>, scan: ArgScan): ArgScan {
    ArgScan(ps + scan.params, scan.complete)
  }

  lemma {:induction false} AfterFirst(ps: seq<Param>, scan: ArgScan)
    requires ps != []
    ensures AfterParams(ps, scan).params == [ps[0]] + AfterParams(ps[1..], scan).params
  {
  }

  lemma {:induction false} ScanArgsNext(s: string, i: nat, c: ArgCut, more: ArgScan)
    requires i < |s| && ScanArg(s, i) == Some(c) && ScanArgs(s, c.end) == more
    ensures ScanArgs(s, i) == ArgScan([ArgParam(s, c)] + more.params, more.complete)
  {
  }

  lemma {:induction false} JoinedScans(s: string, i: nat, ps: seq<Param>, junk: string, k: nat)
    requires i <= |s| && s[i..] == JoinParams(ps) + (", " + junk) && junk != "" && !Is(Space, junk[0])
    requires ps != [] && (forall p | p in ps :: WordText(p.typ)) && k + |junk| == |s|
    ensures Scans(s, i, ps, k)
    decreases |ps|
  {
    var more := if |ps| == 1 then junk else JoinParams(ps[1..]) + (", " + junk);
    FirstAndMore(ps, ", " + junk);
    var c := OneOfMany(s, i, ps[0], more);
    NextIsWord(s, c.end, more, ps, junk);
    ScanArgExact(s, i, c);
    if |ps| == 1 {
      assert |s| - c.end == |more|;
    } else {
      JoinedScans(s, c.end, ps[1..], junk, k);
    }
  }

  lemma {:induction false} NextIsWord(s: string, i: nat, more: string, ps: seq<Param>, junk: string)
    requires ps != [] && i <= |s| && s[i..] == more && junk != "" && !Is(Space, junk[0])
    requires more == if |ps| == 1 then junk else JoinParams(ps[1..]) + (", " + junk)
    ensures i < |s| && !Is(Space, s[i])
  {
    if |ps| > 1 {
      StartsWithWord(ps[1..]);
      assert more[0] == JoinParams(ps[1..])[0];
    }
    assert s[i] == more[0];
  }

  lemma {:induction false} OneOfMany(s: string, i: nat, p: Param, more: string) returns (c: ArgCut)
    requires i <= |s| && s[i..] == ParamText(p) + (", " + more) && WordText(p.typ)
    ensures ArgSplit(s, i, c) && ArgParam(s, c) == p && s[c.end..] == more
  {
    c := ParamTextSplit(s, i, p, ", " + more);
    AfterPrefix(s, i, ParamText(p), ", ", more);
  }

  lemma {:induction false} FirstAndMore(ps: seq<Param>, tail: string)
    requires ps != []
    ensures JoinParams(ps) + tail
         == ParamText(ps[0]) + (if |ps| == 1 then tail else ", " + (JoinParams(ps[1..]) + tail))
  {
    if |ps| > 1 {
      ConcatAssociative(ParamText(ps[0]) + ", ", JoinParams(ps[1..]), tail);
      ConcatAssociative(ParamText(ps[0]), ", ", JoinParams(ps[1..]) + tail);
    }
  }

  lemma {:induction false} AfterPrefix(s: string, i: nat, a: string, b: string, c: string)
    requires i <= |s| && s[i..] == a + (b + c)
    ensures i + |a| + |b| <= |s| && s[i + |a| + |b|..] == c
  {
    var t := s[i..];
    assert t[|a| + |b|..] == c;
    assert s[i + |a| + |b|..] == t[|a| + |b|..];
  }

  lemma {:induction false} StartsWithWord(ps: seq<Param>)
    requires ps != []
    ensures JoinParams(ps) != "" && !Is(Space, JoinParams(ps)[0])
  {
    assert JoinParams(ps)[0] == DirText(ps[0].dir)[0];
  }

  /** Parameters with more text after them, and a signature that has it. */
  function TailArgs(ps: seq<Param>, tail: string): string {
    JoinParams(ps) + (", " + tail)
  }

  function WithTail(name: string, ps: seq<Param>, tail: string): string {
    name + "(" + TailArgs(ps, tail) + ")"
  }

  /** The tail counts for as many parameters as can be scanned from it, and only for them. */
  lemma {:induction false} TailParsed(name: string, ps: seq<Param>, tail: string)
    requires TokensOk(name, ps) && tail != "" && !Is(Space, tail[0])
    ensures var args := TailArgs(ps, tail);
            var more := ScanArgs(args, |args| - |tail|);
            Parse(WithTail(name, ps, tail)) == Meaning(name, ps + more.params, more.complete)
  {
    var args := TailArgs(ps, tail);
    assert args[0..] == args;
    JoinedScans(args, 0, ps, tail, |args| - |tail|);
    ScansAll(args, 0, ps, |args| - |tail|);
    StartsWithWord(ps);
    assert args[0] == JoinParams(ps)[0];
    Enclosed(name, args);
  }

  lemma {:induction false} ScanTail(ps: seq<Param>, tail: string)
    requires tail != ""
    ensures var args := TailArgs(ps, tail);
            ScanArgs(args, |args| - |tail|) == ArgScan([], false) <==> ScanArg(tail, 0) == None
  {
    var args := TailArgs(ps, tail);
    assert args[|args| - |tail|..] == tail;
    ScanArgShift(args, tail, |args| - |tail|);
  }

  lemma {:induction false} MeaningCounts(name: string, ps: seq<Param>, more: seq<Param>, complete: bool)
    ensures Meaning(name, ps + more, complete) == Meaning(name, ps, false) <==> more == [] && !complete
  {
    assert ps + [] == ps;
    TypesCount(ps);
    TypesCount(ps + more);
  }

  /** So a text with a tail is invalid, and yet has the identity of the signature without the tail,
      exactly if no parameter can be scanned from the tail. */
  lemma {:induction false} IdentityIgnoresJunk(name: string, ps: seq<Param>, junk: string)
    requires TokensOk(name, ps) && junk != "" && !Is(Space, junk[0])
    ensures Parse(WithTail(name, ps, junk)) == Meaning(name, ps, false) <==> ScanArg(junk, 0) == None
    ensures Parse(Canonical(name, ps)) == Meaning(name, ps, true)
  {
    CanonicalDerives(name, ps);
    ParseComplete(Canonical(name, ps), name, ps);
    TailParsed(name, ps, junk);
    ScanTail(ps, junk);
    var args := TailArgs(ps, junk);
    var more := ScanArgs(args, |args| - |junk|);
    MeaningCounts(name, ps, more.params, more.complete);
  }

  /** Name and arguments of a text without blanks around them. */
  lemma {:induction false} Enclosed(name: string, args: string)
    requires WordText(name) && args != "" && !Is(Space, args[0])
    ensures var s := name + "(" + args + ")";
            MatchesWhole(s) && NameCapture(s) == name && ArgsCapture(s) == args
  {
    var s := name + "(" + args + ")";
    var n := |name|;
    var c := SigCut(0, n, n, n + 1, n + 1 + |args|, n + 2 + |args|);
    assert s[..n] == name && s[n + 1..n + 1 + |args|] == args;
    assert forall k | 0 <= k < n :: s[k] == name[k];
    assert s[n + 1] == args[0];
    WholeSplit(s, c);
    WholeCaptures(s, c);
  }

  // ---------------------------------------------------------------- text after the match

  lemma {:induction false} FoundFirst(s: string, c: SigCut)
    requires ScanSig(s, 0) == Some(c)
    ensures Search(s) == Some(Found(0, c))
  {
    FirstHitIs(Hits(s), 0);
  }

  lemma {:induction false} MatchBefore(name: string, args: string, tail: string, s: string)
    requires WordText(name) && args != "" && !Is(Space, args[0]) && WordText(tail)
    requires s == name + ("(" + (args + (")" + tail)))
    ensures var n, m := |name|, |name| + 1 + |args|;
            ScanSig(s, 0) == Some(SigCut(0, n, n, n + 1, m, m + 1))
  {
    var n, m := |name|, |name| + 1 + |args|;
    assert forall k | 0 <= k < n :: s[k] == name[k];
    assert s[n] == '(' && s[n + 1] == args[0] && s[m] == ')';
    assert forall k | m < k < |s| :: s[k] == tail[k - m - 1];
    LastCloseIs(s, m);
    RunEndIs(Space, s, 0, 0);
    RunEndIs(Word, s, 0, n);
    RunEndIs(Space, s, n, n);
    RunEndIs(Space, s, n + 1, n + 1);
    RunEndIs(Space, s, m + 1, m + 1);
  }

  lemma {:induction false} LastCloseIs(s: string, m: nat)
    requires m < |s| && s[m] == ')' && forall k | m < k < |s| :: s[k] != ')'
    ensures LastClose(s, |s|) == m
  {
  }

  /** What follows the closing parenthesis makes a text invalid, and the replacement leaves it after
      the name and after the parameters. */
  lemma {:induction false} TailAfterMatch(name: string, args: string, tail: string, s: string)
    requires WordText(name) && args != "" && !Is(Space, args[0]) && WordText(tail)
    requires s == name + ("(" + (args + (")" + tail)))
    ensures NameCapture(s) == name + tail && ArgsCapture(s) == args + tail && !Parse(s).valid
  {
    MatchBefore(name, args, tail, s);
    var n, m := |name|, |name| + 1 + |args|;
    FoundFirst(s, SigCut(0, n, n, n + 1, m, m + 1));
    TailSlices(name, args, tail, s);
  }

  lemma {:induction false} TailSlices(name: string, args: string, tail: string, s: string)
    requires s == name + ("(" + (args + (")" + tail)))
    ensures var n, m := |name|, |name| + 1 + |args|;
            && m + 1 <= |s| && s[..0] + s[0..n] + s[m + 1..] == name + tail
            && s[..0] + s[n + 1..m] + s[m + 1..] == args + tail && (tail != "" ==> m + 1 < |s|)
  {
    var n, m := |name|, |name| + 1 + |args|;
    assert s[0..n] == name && s[n + 1..m] == args && s[m + 1..] == tail;
  }

  // ---------------------------------------------------------------- text without its types

  lemma {:induction false} NoClose(s: string)
    requires forall k | 0 <= k < |s| :: s[k] != ')'
    ensures Search(s) == None
  {
    assert LastClose(s, |s|) == -1;
  }

  /** But the text of an invalid signature need not stand for its types.  A lone parameter lists its
      type; in its canonical string the match begins inside the name, what precedes the match
      stays in front of the parameters, and no type is read from that. */
  lemma {:induction false} TypesLost(p: Param) returns (f: Fields)
    requires WordText(p.typ)
    ensures f == Parse(ParamText(p)) && (if p.dir == In then f.inputs else f.outputs) == [p.typ]
    ensures Parse(f.text).inputs == [] && Parse(f.text).outputs == []
  {
    var s := ParamText(p);
    f := Parse(s);
    LoneParam(p, s);
    ParamTextShape(p, s);
    MatchInside(DirText(p.dir), s, f.text);
    NoParam(p.dir, s);
  }

  lemma {:induction false} ParamTextShape(p: Param, s: string)
    requires WordText(p.typ) && s == ParamText(p)
    ensures var d := DirText(p.dir);
            && WordText(d) && |d| + 1 < |s| && s[..|d|] == d && s[|d|] == ' '
            && !Is(Space, s[0]) && AllIn(Word, s, |d| + 1, |s|)
  {
    var d := DirText(p.dir);
    assert forall k | |d| < k < |s| :: s[k] == p.typ[k - |d| - 1];
    assert s[0] == d[0];
  }

  lemma {:induction false} LoneParam(p: Param, s: string)
    requires WordText(p.typ) && s == ParamText(p)
    ensures NameCapture(s) == s && ScannedParams(s) == [p]
    ensures Types([p], p.dir) == [p.typ] && Parse(s).text == s + "(" + s + ")"
  {
    assert forall k | 0 <= k < |p.typ| :: Is(Word, p.typ[k]);
    NoClose(s);
    assert s + "" == s && s[0..] == s;
    var c := ParamTextSplit(s, 0, p, "");
    assert [p][1..] == [];
    ScanArgsFirst(s, 0, c, [p], true);
  }

  lemma {:induction false} NoParam(d: Direction, s: string)
    requires s != "" && !Is(Space, s[0])
    ensures ScanArgs(DirText(d) + s, 0).params == []
  {
    var t := DirText(d) + s;
    var i := |DirText(d)|;
    assert t[i] == s[0];
    RunEndIs(Space, t, i, i);
    assert StartsAt(t, 0, d);
    assert ScanArg(t, 0) == None;
  }

  lemma {:induction false} MatchInside(first: string, args: string, s: string)
    requires args != "" && !Is(Space, args[0])
    requires WordText(first) && |first| + 1 < |args| && args[..|first|] == first
    requires args[|first|] == ' ' && AllIn(Word, args, |first| + 1, |args|)
    requires s == args + "(" + args + ")"
    ensures ArgsCapture(s) == first + args
  {
    var d, n := |first|, |args|;
    StartsWithArgs(args, s, d);
    MatchAfter(first, args, s);
    FoundAfter(first, args, s, SigCut(d + 1, n, n, n + 1, 2 * n + 1, 2 * n + 2));
    InsideCaptured(first, args, s);
  }

  lemma {:induction false} StartsWithArgs(args: string, s: string, d: nat)
    requires d + 1 < |args| && s == args + "(" + args + ")"
    ensures s[..d] == args[..d] && s[d] == args[d] && s[d + 1] == args[d + 1]
  {
  }

  lemma {:induction false} FoundAfter(first: string, args: string, s: string, c: SigCut)
    requires |first| + 1 < |args| < |s| && WordText(first)
    requires s[..|first|] == first && s[|first|] == ' ' && Is(Word, s[|first| + 1])
    requires ScanSig(s, |first|) == Some(c)
    ensures Search(s) == Some(Found(|first|, c))
  {
    var hits := Hits(s);
    forall i | 0 <= i < |first|
      ensures hits[i] == None
    {
      BlockedAt(first, args, s, i);
    }
    FirstHitIs(hits, |first|);
  }

  lemma {:induction false} InsideCaptured(first: string, args: string, s: string)
    requires |first| < |args| && args[..|first|] == first && s == args + "(" + args + ")"
    ensures s[..|first|] + s[|args| + 1..2 * |args| + 1] + s[2 * |args| + 2..] == first + args
  {
    assert s[..|first|] == first;
    assert s[|args| + 1..2 * |args| + 1] == args;
    assert s[2 * |args| + 2..] == "";
  }

  lemma {:induction false} BlockedAt(first: string, args: string, s: string, i: nat)
    requires i < |first| < |args| < |s| && WordText(first) && |first| + 1 < |args|
    requires s[..|first|] == first && s[|first|] == ' ' && Is(Word, s[|first| + 1])
    ensures ScanSig(s, i) == None
  {
    var d := |first|;
    assert forall k | 0 <= k < d :: s[k] == first[k];
    RunEndIs(Space, s, i, i);
    RunEndIs(Word, s, i, d);
    RunEndIs(Space, s, d, d + 1);
  }

  lemma {:induction false} MatchAfter(first: string, args: string, s: string)
    requires args != "" && !Is(Space, args[0])
    requires |first| + 1 < |args|
    requires args[|first|] == ' ' && AllIn(Word, args, |first| + 1, |args|)
    requires s == args + "(" + args + ")"
    ensures var d, n := |first|, |args|;
      ScanSig(s, d) == Some(SigCut(d + 1, n, n, n + 1, 2 * n + 1, 2 * n + 2))
  {
    var d, n := |first|, |args|;
    assert forall k | 0 <= k < n :: s[k] == args[k];
    assert s[n] == '(' && s[n + 1] == args[0] && s[2 * n + 1] == ')';
    RunEndIs(Space, s, d, d + 1);
    RunEndIs(Word, s, d + 1, n);
    RunEndIs(Space, s, n, n);
    RunEndIs(Space, s, n + 1, n + 1);
    RunEndIs(Space, s, 2 * n + 2, 2 * n + 2);
  }
}
