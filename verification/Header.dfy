/** Lists of texts in which every text is followed by a terminator. */
module Terminated {

  ghost predicate Free(c: char, s: string) {
    forall i | 0 <= i < |s| :: s[i] != c
  }

  function Join(c: char, items: seq<string>): string {
    if items == [] then "" else items[0] + ([c] + Join(c, items[1..]))
  }

  /** Position of the first `c` at or after `i`; the length of the text if there is none. */
  function Next(c: char, s: string, i: nat): (j: nat)
    requires i <= |s|
    ensures i <= j <= |s| && (forall k | i <= k < j :: s[k] != c)
    ensures j < |s| ==> s[j] == c
    decreases |s| - i
  {
    if i == |s| || s[i] == c then i else Next(c, s, i + 1)
  }

  /** The pieces between terminators, from `i` on; a last piece may lack its terminator. */
  function Split(c: char, s: string, i: nat): seq<string>
    requires i <= |s|
    decreases |s| - i
  {
    if i == |s| then []
    else
      var j := Next(c, s, i);
      [s[i..j]] + (if j == |s| then [] else Split(c, s, j + 1))
  }

  lemma {:induction false} SplitJoinAt(c: char, items: seq<string>, s: string, i: nat)
    requires forall k | 0 <= k < |items| :: Free(c, items[k])
    requires i <= |s| && s[i..] == Join(c, items)
    ensures Split(c, s, i) == items
    decreases |items|
  {
    if items == [] {
    } else {
      var j := i + |items[0]|;
      var more := Join(c, items[1..]);
      JoinFirst(c, items[0], more, s, i);
      SplitJoinAt(c, items[1..], s, j + 1);
      SplitFirst(c, s, i, j);
      assert items == [items[0]] + items[1..];
    }
  }

  lemma {:induction false} JoinFirst(c: char, item: string, more: string, s: string, i: nat)
    requires i <= |s| && s[i..] == item + ([c] + more) && Free(c, item)
    ensures var j := i + |item|;
            && j < |s| && s[i..j] == item && s[j] == c && s[j + 1..] == more
            && forall k | i <= k < j :: s[k] != c
  {
    var j := i + |item|;
    var t := s[i..];
    assert |t| == |item| + 1 + |more|;
    assert t[..|item|] == item && t[|item|] == c && t[|item| + 1..] == more;
    assert forall k | i <= k < j :: s[k] == t[k - i] == item[k - i];
    assert s[j + 1..] == t[|item| + 1..];
  }

  lemma {:induction false} SplitFirst(c: char, s: string, i: nat, j: nat)
    requires i <= j < |s| && s[j] == c
    requires forall k | i <= k < j :: s[k] != c
    ensures Split(c, s, i) == [s[i..j]] + Split(c, s, j + 1)
  {
    var n := Next(c, s, i);
    assert n == j;
  }

  /** Splitting undoes joining, for items that do not contain the terminator. */
  lemma {:induction false} SplitJoin(c: char, items: seq<string>)
    requires forall k | 0 <= k < |items| :: Free(c, items[k])
    ensures Split(c, Join(c, items), 0) == items
  {
    SplitJoinAt(c, items, Join(c, items), 0);
  }

  lemma {:induction false} JoinFree(c: char, d: char, items: seq<string>)
    requires c != d && forall k | 0 <= k < |items| :: Free(d, items[k])
    ensures Free(d, Join(c, items))
  {
    if items == [] {
    } else {
      JoinFree(c, d, items[1..]);
    }
  }
}

/**
 Message headers.  The fields are those of the YAML map that precedes the payload; the
 encoding, one line a field and one line a block, stands in for the YAML emitter and parser.
 Like theirs, it never contains a NUL.
 */
module Headers {
  import opened Wrappers
  import opened Decimals
  import opened Terminated

  /** The map of a header: an absent key is `None`, and so is a block that is not a number. */
  datatype Doc = Doc(service: Option<string>, successful: Option<bool>,
                     status: Option<string>, blocks: Option<seq<Option<int>>>)

  /** One line of text that can travel in a header. */
  ghost predicate IsLine(s: string) {
    Free('\0', s) && Free('\n', s)
  }

  // ---------------------------------------------------------------- strings

  function Escape(c: char): string {
    if c == '\0' then "\\0" else if c == '\n' then "\\n" else if c == '\\' then "\\\\" else [c]
  }

  function EscapeAll(s: string): string {
    if s == "" then "" else Escape(s[0]) + EscapeAll(s[1..])
  }

  function Prepend(c: char, r: Option<string>): Option<string> {
    if r.None? then None else Some([c] + r.value)
  }

  function Unescape(t: string): Option<string> {
    if t == "" then Some("")
    else if t[0] != '\\' then Prepend(t[0], Unescape(t[1..]))
    else if |t| == 1 then None
    else if t[1] == '0' then Prepend('\0', Unescape(t[2..]))
    else if t[1] == 'n' then Prepend('\n', Unescape(t[2..]))
    else if t[1] == '\\' then Prepend('\\', Unescape(t[2..]))
    else None
  }

  lemma {:induction false} UnescapeFirst(c: char, more: string)
    ensures Unescape(Escape(c) + more) == Prepend(c, Unescape(more))
  {
    var t := Escape(c) + more;
    if |Escape(c)| == 1 {
      assert t[1..] == more;
    } else {
      assert t[2..] == more;
    }
  }

  lemma {:induction false} EscapeRoundTrip(s: string)
    ensures Unescape(EscapeAll(s)) == Some(s)
  {
    if s == "" {
    } else {
      EscapeRoundTrip(s[1..]);
      UnescapeFirst(s[0], EscapeAll(s[1..]));
      assert s == [s[0]] + s[1..];
    }
  }

  lemma {:induction false} EscapeIsLine(s: string)
    ensures IsLine(EscapeAll(s))
  {
    if s == "" {
    } else {
      EscapeIsLine(s[1..]);
    }
  }

  // ---------------------------------------------------------------- fields

  function StringLine(v: Option<string>): string {
    if v.None? then "-" else "+" + EscapeAll(v.value)
  }

  /** An absent, a malformed or a present value. */
  datatype Read<T> = Bad | Got(value: Option<T>)

  function ReadString(t: string): Read<string> {
    if t == "-" then Got(None)
    else if t == "" || t[0] != '+' || Unescape(t[1..]).None? then Bad
    else Got(Unescape(t[1..]))
  }

  lemma {:induction false} StringRoundTrip(v: Option<string>)
    ensures ReadString(StringLine(v)) == Got(v) && IsLine(StringLine(v))
  {
    if v.Some? {
      EscapeRoundTrip(v.value);
      EscapeIsLine(v.value);
      assert StringLine(v)[1..] == EscapeAll(v.value);
      assert StringLine(v)[0] == '+';
    }
  }

  function BoolLine(v: Option<bool>): string {
    if v.None? then "-" else if v.value then "t" else "f"
  }

  function ReadBool(t: string): Read<bool> {
    if t == "-" then Got(None)
    else if t == "t" then Got(Some(true))
    else if t == "f" then Got(Some(false))
    else Bad
  }

  function NumberLine(b: Option<int>): string {
    if b.None? then "?" else if b.value < 0 then "-" + Decimal(-b.value) else Decimal(b.value)
  }

  predicate Digits(t: string) {
    t != "" && forall i | 0 <= i < |t| :: IsDigit(t[i])
  }

  function ReadNumber(t: string): Option<int> {
    if Digits(t) then Some(Value(t))
    else if t != "" && t[0] == '-' && Digits(t[1..]) then Some(-(Value(t[1..]) as int))
    else None
  }

  lemma {:induction false} NumberRoundTrip(b: Option<int>)
    ensures ReadNumber(NumberLine(b)) == b && IsLine(NumberLine(b))
  {
    match b
    case None =>
      assert "?"[0] == '?';
    case Some(n) =>
      var digits := Decimal(if n < 0 then -n else n);
      DecimalRoundTrip(if n < 0 then -n else n);
      DigitsLine(digits);
  }

  lemma {:induction false} DigitsLine(t: string)
    requires Digits(t)
    ensures ReadNumber(t) == Some(Value(t)) && ReadNumber("-" + t) == Some(-(Value(t) as int))
    ensures IsLine(t) && IsLine("-" + t)
  {
    assert ("-" + t)[0] == '-' && ("-" + t)[1..] == t;
  }

  // ---------------------------------------------------------------- headers

  function Lines(d: Doc): seq<string> {
    [StringLine(d.service), BoolLine(d.successful), StringLine(d.status)]
    + if d.blocks.None? then [] else ["+"] + BlockLines(d.blocks.value)
  }

  function BlockLines(bs: seq<Option<int>>): (ls: seq<string>)
    ensures |ls| == |bs|
  {
    seq(|bs|, i requires 0 <= i < |bs| => NumberLine(bs[i]))
  }

  function ReadBlocks(ls: seq<string>): (bs: seq<Option<int>>)
    ensures |bs| == |ls|
  {
    seq(|ls|, i requires 0 <= i < |ls| => ReadNumber(ls[i]))
  }

  function ReadLines(ls: seq<string>): Option<Doc> {
    if |ls| < 3 then None
    else
      var service := ReadString(ls[0]);
      var successful := ReadBool(ls[1]);
      var status := ReadString(ls[2]);
      if service.Bad? || successful.Bad? || status.Bad? || (|ls| > 3 && ls[3] != "+") then None
      else
        var blocks := if |ls| == 3 then None else Some(ReadBlocks(ls[4..]));
        Some(Doc(service.value, successful.value, status.value, blocks))
  }

  function Encode(d: Doc): string {
    Join('\n', Lines(d))
  }

  /** The header that a text encodes; `None` if the text is malformed. */
  function Decode(t: string): Option<Doc> {
    ReadLines(Split('\n', t, 0))
  }

  lemma {:induction false} BlocksRoundTrip(bs: seq<Option<int>>)
    ensures ReadBlocks(BlockLines(bs)) == bs
    ensures forall i | 0 <= i < |bs| :: IsLine(BlockLines(bs)[i])
  {
    forall i | 0 <= i < |bs|
      ensures ReadNumber(NumberLine(bs[i])) == bs[i] && IsLine(NumberLine(bs[i]))
    {
      NumberRoundTrip(bs[i]);
    }
  }

  lemma {:induction false} LinesRoundTrip(d: Doc)
    ensures ReadLines(Lines(d)) == Some(d)
    ensures forall k | 0 <= k < |Lines(d)| :: IsLine(Lines(d)[k])
  {
    StringRoundTrip(d.service);
    StringRoundTrip(d.status);
    if d.blocks.Some? {
      BlocksRoundTrip(d.blocks.value);
    }
    LinesShape(d);
    LinesRead(d, Lines(d));
  }

  lemma {:induction false} LinesRead(d: Doc, ls: seq<string>)
    requires |ls| >= 3 && ReadString(ls[0]) == Got(d.service) && ls[1] == BoolLine(d.successful)
    requires ReadString(ls[2]) == Got(d.status) && (|ls| == 3 <==> d.blocks.None?)
    requires d.blocks.Some? ==> ls[3] == "+" && ReadBlocks(ls[4..]) == d.blocks.value
    ensures ReadLines(ls) == Some(d)
  {
  }

  lemma {:induction false} LinesShape(d: Doc)
    ensures var ls := Lines(d);
            && |ls| >= 3 && ls[0] == StringLine(d.service) && ls[1] == BoolLine(d.successful)
            && ls[2] == StringLine(d.status) && (|ls| == 3 <==> d.blocks.None?)
            && (d.blocks.Some? ==> ls[3] == "+" && ls[4..] == BlockLines(d.blocks.value))
  {
  }

  /** Decoding inverts encoding, and a header cannot be mistaken for the end of a header. */
  lemma {:induction false} HeaderRoundTrip(d: Doc)
    ensures Decode(Encode(d)) == Some(d)
    ensures Free('\0', Encode(d))
  {
    LinesRoundTrip(d);
    SplitJoin('\n', Lines(d));
    JoinFree('\n', '\0', Lines(d));
  }
}
