/**
 The written form of service signatures, letter by letter: a text is spelled out from its pieces,
 keywords, blanks and punctuation.  The parser accepts exactly what can be spelled this way.
 */
module Grammars {
  import opened Wrappers
  import opened Signatures

  predicate BlankChar(c: char) {
    c in {' ', '\t', '\n', '\U{b}', '\U{c}', '\r'}
  }

  predicate WordChar(c: char) {
    c in {'a', 'b', 'c', 'd', 'e', 'f', 'g', 'h', 'i', 'j', 'k', 'l', 'm',
          'n', 'o', 'p', 'q', 'r', 's', 't', 'u', 'v', 'w', 'x', 'y', 'z',
          'A', 'B', 'C', 'D', 'E', 'F', 'G', 'H', 'I', 'J', 'K', 'L', 'M',
          'N', 'O', 'P', 'Q', 'R', 'S', 'T', 'U', 'V', 'W', 'X', 'Y', 'Z',
          '0', '1', '2', '3', '4', '5', '6', '7', '8', '9', '_'}
  }

  predicate Blanks(s: string) {
    forall i | 0 <= i < |s| :: BlankChar(s[i])
  }

  predicate IsWord(s: string) {
    s != "" && forall i | 0 <= i < |s| :: WordChar(s[i])
  }

  /** A parameter with the blanks after its keyword and its type, and the comma after it, if there
      is one, with the blanks that follow. */
  datatype Piece = Piece(input: bool, gap: string, typ: string, pad: string, comma: Option<string>)

  /** The name and the pieces, with the blanks around them. */
  datatype Spelling = Spelling(lead: string, name: string, mid: string, open: string,
                               pieces: seq<Piece>, end: string)

  predicate PieceOk(p: Piece) {
    && p.gap != "" && Blanks(p.gap) && IsWord(p.typ) && Blanks(p.pad)
    && (p.comma.Some? ==> Blanks(p.comma.value))
  }

  /** Every parameter but the last needs its comma; the last may have one. */
  predicate PiecesOk(ps: seq<Piece>) {
    && ps != [] && PieceOk(ps[0])
    && (|ps| > 1 ==> ps[0].comma.Some? && PiecesOk(ps[1..]))
  }

  predicate SpellingOk(t: Spelling) {
    && Blanks(t.lead) && IsWord(t.name) && Blanks(t.mid) && Blanks(t.open)
    && PiecesOk(t.pieces) && Blanks(t.end)
  }

  function SpellComma(comma: Option<string>, more: string): string {
    if comma.None? then more else "," + (comma.value + more)
  }

  /** A piece, and what follows it. */
  function SpellPiece(p: Piece, more: string): string {
    (if p.input then "in" else "out") + (p.gap + (p.typ + (p.pad + SpellComma(p.comma, more))))
  }

  function SpellPieces(ps: seq<Piece>): string {
    if ps == [] then "" else SpellPiece(ps[0], SpellPieces(ps[1..]))
  }

  function Spell(t: Spelling): string {
    t.lead + (t.name + (t.mid + ("(" + (t.open + (SpellPieces(t.pieces) + (")" + t.end))))))
  }

  /** The types of the pieces with a keyword, in order. */
  function TypesOf(ps: seq<Piece>, input: bool): seq<string> {
    if ps == [] then []
    else if ps[0].input == input then [ps[0].typ] + TypesOf(ps[1..], input)
    else TypesOf(ps[1..], input)
  }

  /** The parameters with single blanks and without a last comma. */
  function SpellTight(ps: seq<Piece>): string {
    if ps == [] then ""
    else (if ps[0].input then "in " else "out ") + ps[0].typ + if |ps| == 1 then "" else ", " + SpellTight(ps[1..])
  }

  // ---------------------------------------------------------------- characters

  lemma {:induction false} BlankIs(c: char)
    ensures BlankChar(c) <==> Is(Space, c)
  {
  }

  lemma {:induction false} WordIs(c: char)
    ensures WordChar(c) <==> Is(Word, c)
  {
  }

  lemma {:induction false} BlanksIn(s: string)
    ensures Blanks(s) <==> AllIn(Space, s, 0, |s|)
  {
    forall i | 0 <= i < |s|
      ensures BlankChar(s[i]) <==> Is(Space, s[i])
    {
      BlankIs(s[i]);
    }
  }

  lemma {:induction false} WordIn(s: string)
    ensures IsWord(s) <==> WordText(s)
  {
    forall i | 0 <= i < |s|
      ensures WordChar(s[i]) <==> Is(Word, s[i])
    {
      WordIs(s[i]);
    }
  }

  // ---------------------------------------------------------------- parts of a text

  lemma {:induction false} Peel(s: string, i: nat, a: string, rest: string)
    requires i <= |s| && s[i..] == a + rest
    ensures i + |a| <= |s| && s[i..i + |a|] == a && s[i + |a|..] == rest
  {
    var t := s[i..];
    assert t[..|a|] == a && t[|a|..] == rest;
    assert s[i..i + |a|] == t[..|a|] && s[i + |a|..] == t[|a|..];
  }

  lemma {:induction false} AllInPart(cl: CharClass, s: string, i: nat, j: nat, a: string)
    requires i <= j <= |s| && s[i..j] == a
    ensures AllIn(cl, s, i, j) <==> AllIn(cl, a, 0, |a|)
  {
    if AllIn(cl, a, 0, |a|) {
      assert forall k | i <= k < j :: s[k] == a[k - i];
    }
    if AllIn(cl, s, i, j) {
      assert forall k | 0 <= k < |a| :: a[k] == s[i + k];
    }
  }

  lemma {:induction false} PeelBlanks(s: string, i: nat, a: string, rest: string)
    requires i <= |s| && s[i..] == a + rest && Blanks(a)
    ensures i + |a| <= |s| && s[i + |a|..] == rest && AllIn(Space, s, i, i + |a|)
  {
    Peel(s, i, a, rest);
    BlanksIn(a);
    AllInPart(Space, s, i, i + |a|, a);
  }

  lemma {:induction false} PeelWord(s: string, i: nat, a: string, rest: string)
    requires i <= |s| && s[i..] == a + rest && IsWord(a)
    ensures i < i + |a| <= |s| && s[i + |a|..] == rest && s[i..i + |a|] == a && AllIn(Word, s, i, i + |a|)
  {
    Peel(s, i, a, rest);
    WordIn(a);
    AllInPart(Word, s, i, i + |a|, a);
  }

  lemma {:induction false} PeelKeyword(s: string, i: nat, input: bool, rest: string)
    requires i <= |s| && s[i..] == (if input then "in" else "out") + rest
    ensures var n := if input then 2 else 3; i + n <= |s| && s[i + n..] == rest
    ensures StartsAt(s, i, if input then In else Out)
  {
    Peel(s, i, if input then "in" else "out", rest);
    assert forall k | 0 <= k < |s| - i :: s[i + k] == s[i..][k];
  }

  // ---------------------------------------------------------------- what is spelled is parsed

  function ParamsOf(ps: seq<Piece>): seq<Param> {
    if ps == [] then [] else [Param(if ps[0].input then In else Out, ps[0].typ)] + ParamsOf(ps[1..])
  }

  lemma {:induction false} PieceHead(s: string, i: nat, p: Piece, rest: string)
    requires i <= |s| && PieceOk(p)
    requires s[i..] == (if p.input then "in" else "out") + (p.gap + (p.typ + (p.pad + rest)))
    ensures var a := i + if p.input then 2 else 3;
            var b := a + |p.gap|;
            var c := b + |p.typ|;
            var d := c + |p.pad|;
            && a < b < c <= d <= |s| && StartsAt(s, i, if p.input then In else Out)
            && AllIn(Space, s, a, b) && AllIn(Word, s, b, c) && AllIn(Space, s, c, d)
            && s[b..c] == p.typ && s[d..] == rest
  {
    PeelKeyword(s, i, p.input, p.gap + (p.typ + (p.pad + rest)));
    var a := i + if p.input then 2 else 3;
    PeelBlanks(s, a, p.gap, p.typ + (p.pad + rest));
    PeelWord(s, a + |p.gap|, p.typ, p.pad + rest);
    PeelBlanks(s, a + |p.gap| + |p.typ|, p.pad, rest);
  }

  lemma {:induction false} PieceSplit(s: string, i: nat, p: Piece, more: string) returns (c: ArgCut)
    requires i <= |s| && PieceOk(p) && (p.comma.None? ==> more == "")
    requires s[i..] == SpellPiece(p, more)
    ensures ArgSplit(s, i, c) && ArgParam(s, c) == Param(if p.input then In else Out, p.typ)
    ensures c.end <= |s| && s[c.end..] == more
  {
    PieceHead(s, i, p, SpellComma(p.comma, more));
    var gap := i + (if p.input then 2 else 3) + |p.gap|;
    var typ := gap + |p.typ|;
    var pad := typ + |p.pad|;
    var end := PieceEnd(s, pad, p.comma, more);
    c := ArgCut(if p.input then In else Out, gap, typ, pad, end);
  }

  lemma {:induction false} PieceEnd(s: string, pad: nat, comma: Option<string>, more: string) returns (end: nat)
    requires pad <= |s| && s[pad..] == SpellComma(comma, more)
    requires (comma.None? ==> more == "") && (comma.Some? ==> Blanks(comma.value))
    ensures pad <= end <= |s| && s[end..] == more
    ensures if pad == |s| then end == pad else s[pad] == ',' && pad < end && AllIn(Space, s, pad + 1, end)
  {
    if comma.None? {
      end := pad;
    } else {
      Peel(s, pad, ",", comma.value + more);
      assert s[pad] == s[pad..pad + 1][0];
      PeelBlanks(s, pad + 1, comma.value, more);
      end := pad + 1 + |comma.value|;
    }
  }

  lemma {:induction false} PiecesDerive(s: string, i: nat, ps: seq<Piece>)
    requires i <= |s| && s[i..] == SpellPieces(ps) && PiecesOk(ps)
    ensures DerivesArgs(s, i, ParamsOf(ps))
    decreases |ps|
  {
    var more := SpellPieces(ps[1..]);
    var c := PieceSplit(s, i, ps[0], more);
    var params := ParamsOf(ps);
    assert params[1..] == ParamsOf(ps[1..]);
    ParamsCount(ps);
    if |ps| == 1 {
      assert c.end == |s|;
    } else {
      SpelledStart(ps[1..]);
      PiecesDerive(s, c.end, ps[1..]);
    }
    assert DerivesArgsBy(s, i, params, c);
  }

  lemma {:induction false} ParamsCount(ps: seq<Piece>)
    ensures |ParamsOf(ps)| == |ps|
  {
    if ps == [] {
    } else {
      ParamsCount(ps[1..]);
    }
  }

  lemma {:induction false} SpelledStart(ps: seq<Piece>)
    requires ps != []
    ensures SpellPieces(ps) != ""
  {
    assert SpellPieces(ps)[0] == if ps[0].input then 'i' else 'o';
  }

  lemma {:induction false} SpelledDerives(t: Spelling, s: string)
    requires SpellingOk(t) && s == Spell(t)
    ensures Derives(s, t.name, ParamsOf(t.pieces))
  {
    var args := SpellPieces(t.pieces);
    SpelledStart(t.pieces);
    var c := SpelledCut(t, s, args);
    assert args[0..] == args;
    PiecesDerive(args, 0, t.pieces);
    assert DerivesBy(s, t.name, ParamsOf(t.pieces), c);
  }

  lemma {:induction false} SpelledCut(t: Spelling, s: string, args: string) returns (c: SigCut)
    requires Blanks(t.lead) && IsWord(t.name) && Blanks(t.mid) && Blanks(t.open) && Blanks(t.end)
    requires s == t.lead + (t.name + (t.mid + ("(" + (t.open + (args + (")" + t.end)))))) && args != ""
    ensures SigSplit(s, 0, c) && c.end == |s|
    ensures s[c.lead..c.name] == t.name && s[c.open..c.close] == args
  {
    SpelledParts(t, s, args);
    var lead := |t.lead|;
    var name := lead + |t.name|;
    var mid := name + |t.mid|;
    var open := mid + 1 + |t.open|;
    c := SigCut(lead, name, mid, open, open + |args|, |s|);
  }

  lemma {:induction false} SpelledParts(t: Spelling, s: string, args: string)
    requires Blanks(t.lead) && IsWord(t.name) && Blanks(t.mid) && Blanks(t.open) && Blanks(t.end)
    requires s == t.lead + (t.name + (t.mid + ("(" + (t.open + (args + (")" + t.end))))))
    ensures var lead := |t.lead|;
            var name := lead + |t.name|;
            var mid := name + |t.mid|;
            var open := mid + 1 + |t.open|;
            var close := open + |args|;
            && lead < name <= mid < open <= close < |s|
            && AllIn(Space, s, 0, lead) && AllIn(Word, s, lead, name) && AllIn(Space, s, name, mid)
            && s[lead..name] == t.name && s[mid] == '(' && AllIn(Space, s, mid + 1, open)
            && s[open..close] == args && s[close] == ')' && AllIn(Space, s, close + 1, |s|)
  {
    HeadParts(s, t.lead, t.name, t.mid, "(" + (t.open + (args + (")" + t.end))));
    TailParts(s, |t.lead| + |t.name| + |t.mid|, t.open, args, t.end);
  }

  lemma {:induction false} HeadParts(s: string, lead: string, name: string, mid: string, rest: string)
    requires s == lead + (name + (mid + rest)) && Blanks(lead) && IsWord(name) && Blanks(mid)
    ensures var i, j, k := |lead|, |lead| + |name|, |lead| + |name| + |mid|;
            && i < j <= k <= |s| && s[i..j] == name && s[k..] == rest
            && AllIn(Space, s, 0, i) && AllIn(Word, s, i, j) && AllIn(Space, s, j, k)
  {
    assert s[0..] == s;
    PeelBlanks(s, 0, lead, name + (mid + rest));
    PeelWord(s, |lead|, name, mid + rest);
    PeelBlanks(s, |lead| + |name|, mid, rest);
  }

  lemma {:induction false} TailParts(s: string, mid: nat, open: string, args: string, end: string)
    requires mid <= |s| && s[mid..] == "(" + (open + (args + (")" + end))) && Blanks(open) && Blanks(end)
    ensures var i := mid + 1 + |open|;
            var j := i + |args|;
            && mid < i <= j < |s| && s[mid] == '(' && AllIn(Space, s, mid + 1, i)
            && s[i..j] == args && s[j] == ')' && AllIn(Space, s, j + 1, |s|)
  {
    PeelChar(s, mid, '(', open + (args + (")" + end)));
    PeelBlanks(s, mid + 1, open, args + (")" + end));
    Peel(s, mid + 1 + |open|, args, ")" + end);
    LastBlanks(s, mid + 1 + |open| + |args|, end);
  }

  lemma {:induction false} PeelChar(s: string, i: nat, c: char, rest: string)
    requires i <= |s| && s[i..] == [c] + rest
    ensures i < |s| && s[i] == c && s[i + 1..] == rest
  {
    Peel(s, i, [c], rest);
    assert s[i] == s[i..i + 1][0];
  }

  lemma {:induction false} LastBlanks(s: string, i: nat, end: string)
    requires i <= |s| && s[i..] == ")" + end && Blanks(end)
    ensures i < |s| && s[i] == ')' && AllIn(Space, s, i + 1, |s|)
  {
    PeelChar(s, i, ')', end);
    assert s[i + 1..|s|] == end;
    BlanksIn(end);
    AllInPart(Space, s, i + 1, |s|, end);
  }

  // ---------------------------------------------------------------- what is parsed was spelled

  lemma {:induction false} Slices(s: string, i: nat, j: nat)
    requires i <= j <= |s|
    ensures s[i..] == s[i..j] + s[j..]
  {
  }

  lemma {:induction false} FourSlices(s: string, a: nat, b: nat, c: nat, d: nat)
    requires a <= b <= c <= d <= |s|
    ensures s[a..] == s[a..b] + (s[b..c] + (s[c..d] + s[d..]))
  {
    Slices(s, c, d);
    Slices(s, b, c);
    Slices(s, a, b);
  }

  lemma {:induction false} PieceOf(s: string, i: nat, c: ArgCut) returns (p: Piece)
    requires i <= |s| && ArgSplit(s, i, c)
    ensures PieceOk(p) && ArgParam(s, c) == Param(if p.input then In else Out, p.typ)
    ensures p.comma.None? ==> c.end == |s|
    ensures s[i..] == SpellPiece(p, s[c.end..])
  {
    var start := i + |DirText(c.dir)|;
    var comma := CommaOf(s, c.pad, c.end);
    PieceParts(s, i, c);
    p := Piece(c.dir == In, s[start..c.gap], s[c.gap..c.typ], s[c.typ..c.pad], comma);
    PieceSlices(s, i, c);
    Chained(s[i..], if p.input then "in" else "out", s[start..], p.gap, p.typ, p.pad, s[c.pad..],
            SpellComma(comma, s[c.end..]));
  }

  lemma {:induction false} PieceParts(s: string, i: nat, c: ArgCut)
    requires i <= |s| && ArgSplit(s, i, c)
    ensures var start := i + |DirText(c.dir)|;
            && start < c.gap && Blanks(s[start..c.gap])
            && IsWord(s[c.gap..c.typ]) && Blanks(s[c.typ..c.pad])
  {
    BlankPart(s, i + |DirText(c.dir)|, c.gap);
    WordPart(s, c.gap, c.typ);
    BlankPart(s, c.typ, c.pad);
  }

  lemma {:induction false} PieceSlices(s: string, i: nat, c: ArgCut)
    requires i <= |s| && ArgSplit(s, i, c)
    ensures var start := i + |DirText(c.dir)|;
            && s[i..] == (if c.dir == In then "in" else "out") + s[start..]
            && s[start..] == s[start..c.gap] + (s[c.gap..c.typ] + (s[c.typ..c.pad] + s[c.pad..]))
  {
    KeywordPart(s, i, c.dir);
    FourSlices(s, i + |DirText(c.dir)|, c.gap, c.typ, c.pad);
  }

  lemma {:induction false} Chained(
    s: string, a: string, tail: string, b: string, c: string, d: string, last: string, e: string)
    requires s == a + tail && tail == b + (c + (d + last)) && last == e
    ensures s == a + (b + (c + (d + e)))
  {
  }

  lemma {:induction false} KeywordPart(s: string, i: nat, d: Direction)
    requires i <= |s| && StartsAt(s, i, d)
    ensures var n := if d == In then 2 else 3;
            && |DirText(d)| == n && i + n <= |s|
            && s[i..] == (if d == In then "in" else "out") + s[i + n..]
  {
    var n := if d == In then 2 else 3;
    Slices(s, i, i + n);
    assert s[i..i + n] == if d == In then "in" else "out";
  }

  lemma {:induction false} WordPart(s: string, i: nat, j: nat)
    requires i < j <= |s| && AllIn(Word, s, i, j)
    ensures IsWord(s[i..j])
  {
    AllInPart(Word, s, i, j, s[i..j]);
    WordIn(s[i..j]);
  }

  lemma {:induction false} BlankPart(s: string, i: nat, j: nat)
    requires i <= j <= |s| && AllIn(Space, s, i, j)
    ensures Blanks(s[i..j])
  {
    AllInPart(Space, s, i, j, s[i..j]);
    BlanksIn(s[i..j]);
  }

  lemma {:induction false} CommaOf(s: string, pad: nat, end: nat) returns (comma: Option<string>)
    requires pad <= end <= |s|
    requires if pad == |s| then end == pad else s[pad] == ',' && pad < end && AllIn(Space, s, pad + 1, end)
    ensures (comma.None? ==> end == |s|) && (comma.Some? ==> Blanks(comma.value))
    ensures s[pad..] == SpellComma(comma, s[end..])
  {
    if pad == |s| {
      comma := None;
    } else {
      var blanks := s[pad + 1..end];
      AllInPart(Space, s, pad + 1, end, blanks);
      BlanksIn(blanks);
      Slices(s, pad, pad + 1);
      Slices(s, pad + 1, end);
      assert s[pad..pad + 1] == ",";
      comma := Some(blanks);
    }
  }

  lemma {:induction false} PiecesOf(s: string, i: nat, ps: seq<Param>) returns (pieces: seq<Piece>)
    requires i <= |s| && DerivesArgs(s, i, ps)
    ensures PiecesOk(pieces) && s[i..] == SpellPieces(pieces) && ParamsOf(pieces) == ps
    decreases |ps|
  {
    var c := FirstArg(s, i, ps);
    var p := PieceOf(s, i, c);
    FirstParam(ps);
    if c.end == |s| {
      pieces := [p];
      LastPieces(p, s[c.end..]);
    } else {
      var more := PiecesOf(s, c.end, ps[1..]);
      pieces := [p] + more;
      MorePieces(p, more);
    }
  }

  lemma {:induction false} FirstParam(ps: seq<Param>)
    requires ps != []
    ensures ps == [ps[0]] + ps[1..]
    ensures ps[1..] == [] ==> ps == [ps[0]]
  {
  }

  lemma {:induction false} LastPieces(p: Piece, rest: string)
    requires PieceOk(p) && rest == ""
    ensures PiecesOk([p]) && ParamsOf([p]) == [Param(if p.input then In else Out, p.typ)]
    ensures SpellPieces([p]) == SpellPiece(p, rest)
  {
    assert [p][1..] == [];
  }

  lemma {:induction false} MorePieces(p: Piece, more: seq<Piece>)
    requires PieceOk(p) && p.comma.Some? && PiecesOk(more)
    ensures PiecesOk([p] + more)
    ensures ParamsOf([p] + more) == [Param(if p.input then In else Out, p.typ)] + ParamsOf(more)
    ensures SpellPieces([p] + more) == SpellPiece(p, SpellPieces(more))
  {
    assert ([p] + more)[1..] == more;
  }

  lemma {:induction false} SpellingOf(s: string, name: string, ps: seq<Param>) returns (t: Spelling)
    requires Derives(s, name, ps)
    ensures SpellingOk(t) && s == Spell(t) && t.name == name && ParamsOf(t.pieces) == ps
  {
    var c :| DerivesBy(s, name, ps, c);
    var args := s[c.open..c.close];
    assert args[0..] == args;
    var pieces := PiecesOf(args, 0, ps);
    t := Spelling(s[0..c.lead], name, s[c.name..c.mid], s[c.mid + 1..c.open], pieces, s[c.close + 1..|s|]);
    PartsOk(s, c);
    Reassembled(s, c);
  }

  lemma {:induction false} PartsOk(s: string, c: SigCut)
    requires SigSplit(s, 0, c) && c.end == |s|
    ensures Blanks(s[0..c.lead]) && IsWord(s[c.lead..c.name]) && Blanks(s[c.name..c.mid])
    ensures Blanks(s[c.mid + 1..c.open]) && Blanks(s[c.close + 1..|s|])
  {
    BlankPart(s, 0, c.lead);
    WordPart(s, c.lead, c.name);
    BlankPart(s, c.name, c.mid);
    BlankPart(s, c.mid + 1, c.open);
    BlankPart(s, c.close + 1, |s|);
  }

  lemma {:induction false} Reassembled(s: string, c: SigCut)
    requires SigSplit(s, 0, c) && c.end == |s|
    ensures s == s[0..c.lead] + (s[c.lead..c.name] + (s[c.name..c.mid] + ("(" + (s[c.mid + 1..c.open]
              + (s[c.open..c.close] + (")" + s[c.close + 1..|s|]))))))
  {
    HeadSlices(s, c);
    MidSlices(s, c);
    EndSlices(s, c);
    Nested(s, s[0..c.lead], s[c.lead..c.name], s[c.name..c.mid], s[c.mid..], s[c.mid + 1..c.open],
           s[c.open..c.close], s[c.close..], s[c.close + 1..|s|]);
  }

  lemma {:induction false} HeadSlices(s: string, c: SigCut)
    requires SigSplit(s, 0, c)
    ensures s == s[0..c.lead] + (s[c.lead..c.name] + (s[c.name..c.mid] + s[c.mid..]))
  {
    FourSlices(s, 0, c.lead, c.name, c.mid);
    assert s[0..] == s;
  }

  lemma {:induction false} MidSlices(s: string, c: SigCut)
    requires SigSplit(s, 0, c)
    ensures s[c.mid..] == "(" + (s[c.mid + 1..c.open] + (s[c.open..c.close] + s[c.close..]))
  {
    FourSlices(s, c.mid, c.mid + 1, c.open, c.close);
    assert s[c.mid..c.mid + 1] == "(";
  }

  lemma {:induction false} EndSlices(s: string, c: SigCut)
    requires SigSplit(s, 0, c)
    ensures s[c.close..] == ")" + s[c.close + 1..|s|]
  {
  }

  lemma {:induction false} Nested(
    s: string, a: string, b: string, c: string, tail: string, d: string, e: string, last: string, f: string)
    requires s == a + (b + (c + tail)) && tail == "(" + (d + (e + last)) && last == ")" + f
    ensures s == a + (b + (c + ("(" + (d + (e + (")" + f))))))
  {
  }

  // ---------------------------------------------------------------- the two together

  lemma {:induction false} TypesOfParams(ps: seq<Piece>)
    ensures Types(ParamsOf(ps), In) == TypesOf(ps, true)
    ensures Types(ParamsOf(ps), Out) == TypesOf(ps, false)
  {
    if ps == [] {
    } else {
      TypesOfParams(ps[1..]);
      var p := Param(if ps[0].input then In else Out, ps[0].typ);
      assert ParamsOf(ps)[0] == p && ParamsOf(ps)[1..] == ParamsOf(ps[1..]);
    }
  }

  lemma {:induction false} TightParams(ps: seq<Piece>)
    ensures JoinParams(ParamsOf(ps)) == SpellTight(ps)
  {
    if ps == [] {
    } else {
      TightParams(ps[1..]);
      ParamsCount(ps);
      var p := Param(if ps[0].input then In else Out, ps[0].typ);
      assert ParamsOf(ps)[0] == p && ParamsOf(ps)[1..] == ParamsOf(ps[1..]);
      KeywordText(p);
      ConcatAssociative(ParamText(p), ", ", SpellTight(ps[1..]));
    }
  }

  lemma {:induction false} KeywordText(p: Param)
    ensures ParamText(p) == (if p.dir == In then "in " else "out ") + p.typ
    ensures ParamText(p) + "" == ParamText(p)
  {
    assert "in" + " " == "in " && "out" + " " == "out ";
  }

  /** Whatever is spelled out by the rules is valid, and gives its name, the types after `in` and the
      types after `out`; its canonical string has single blanks and no last comma. */
  lemma {:induction false} SpelledIsParsed(t: Spelling)
    requires SpellingOk(t)
    ensures Parse(Spell(t)) == Fields(t.name, t.name + "(" + SpellTight(t.pieces) + ")",
                                      TypesOf(t.pieces, true), TypesOf(t.pieces, false), true)
  {
    SpelledDerives(t, Spell(t));
    ParseComplete(Spell(t), t.name, ParamsOf(t.pieces));
    TypesOfParams(t.pieces);
    TightParams(t.pieces);
  }

  /** And nothing else is valid. */
  lemma {:induction false} ParsedIsSpelled(s: string)
    ensures Parse(s).valid <==> exists t :: SpellingOk(t) && Spell(t) == s
  {
    if Parse(s).valid {
      ParseSound(s);
      var t := SpellingOf(s, NameCapture(s), ScanArgs(ArgsCapture(s), 0).params);
    }
    if t :| SpellingOk(t) && Spell(t) == s {
      SpelledIsParsed(t);
    }
  }

  /** For instance, with one parameter. */
  lemma {:induction false} OneParameter(name: string, typ: string)
    requires IsWord(name) && IsWord(typ)
    ensures Parse(name + "(in " + typ + ")") == Fields(name, name + "(in " + typ + ")", [typ], [], true)
    ensures Parse(name + "(out " + typ + ")") == Fields(name, name + "(out " + typ + ")", [], [typ], true)
  {
    OneCanonical(name, Param(In, typ), "(in ");
    OneCanonical(name, Param(Out, typ), "(out ");
  }

  lemma {:induction false} OneCanonical(name: string, p: Param, opening: string)
    requires IsWord(name) && IsWord(p.typ) && opening == if p.dir == In then "(in " else "(out "
    ensures var s := name + opening + p.typ + ")";
            Parse(s) == Fields(name, s, if p.dir == In then [p.typ] else [], if p.dir == In then [] else [p.typ], true)
  {
    WordIn(name);
    WordIn(p.typ);
    var s := name + opening + p.typ + ")";
    OpeningText(name, p, opening);
    OneMeaning(name, p, s);
    CanonicalDerives(name, [p]);
    ParseComplete(s, name, [p]);
  }

  lemma {:induction false} OneMeaning(name: string, p: Param, s: string)
    requires s == name + "(" + ParamText(p) + ")"
    ensures Canonical(name, [p]) == s
    ensures Meaning(name, [p], true)
         == Fields(name, s, if p.dir == In then [p.typ] else [], if p.dir == In then [] else [p.typ], true)
  {
    assert [p][1..] == [];
    OneType(p);
  }

  lemma {:induction false} OneType(p: Param)
    ensures Types([p], In) == if p.dir == In then [p.typ] else []
    ensures Types([p], Out) == if p.dir == In then [] else [p.typ]
  {
    assert [p][1..] == [];
  }

  lemma {:induction false} OpeningText(name: string, p: Param, opening: string)
    requires opening == if p.dir == In then "(in " else "(out "
    ensures name + opening + p.typ + ")" == name + "(" + ParamText(p) + ")"
  {
    KeywordText(p);
    assert opening == "(" + if p.dir == In then "in " else "out ";
  }
}
