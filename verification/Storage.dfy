/** The list of stored files: how names are found, sent, and used again. */
module NameLists {
  import opened Terminated

  /** A maximal non-empty stretch without a NUL. */
  ghost predicate IsSegment(s: string, i: nat, j: nat) {
    && i < j <= |s| && (forall k | i <= k < j :: s[k] != '\0')
    && (i == 0 || s[i - 1] == '\0') && (j == |s| || s[j] == '\0')
  }

  predicate StartsSegment(s: string, i: nat)
    requires i < |s|
  {
    s[i] != '\0' && (i == 0 || s[i - 1] == '\0')
  }

  /** The segments that start at or after `i`. */
  function Segments(s: string, i: nat): seq<string>
    requires i <= |s|
    decreases |s| - i
  {
    if i == |s| then []
    else (if StartsSegment(s, i) then [s[i..Next('\0', s, i)]] else []) + Segments(s, i + 1)
  }

  /** Where they lie. */
  function Positions(s: string, i: nat): seq<(nat, nat)>
    requires i <= |s|
    decreases |s| - i
  {
    if i == |s| then []
    else (if StartsSegment(s, i) then [(i, Next('\0', s, i))] else []) + Positions(s, i + 1)
  }

  /** The positions are those of all segments of the text, once each and in order. */
  lemma {:induction false} PositionsExact(s: string, i: nat)
    requires i <= |s|
    ensures forall a: nat, b: nat :: (a, b) in Positions(s, i) <==> i <= a && IsSegment(s, a, b)
    decreases |s| - i
  {
    if i == |s| {
    } else {
      PositionsExact(s, i + 1);
      FirstPosition(s, i);
    }
  }

  lemma {:induction false} PositionsAscending(s: string, i: nat)
    requires i <= |s|
    ensures Ascending(Positions(s, i), i)
    decreases |s| - i
  {
    if i == |s| {
    } else {
      PositionsAscending(s, i + 1);
      var ps := Positions(s, i + 1);
      if StartsSegment(s, i) {
        assert Positions(s, i) == [(i, Next('\0', s, i))] + ps;
        AscendingFirst((i, Next('\0', s, i)), ps);
      } else {
        assert Positions(s, i) == ps;
      }
    }
  }

  lemma {:induction false} AscendingFirst(first: (nat, nat), ps: seq<(nat, nat)>)
    requires Ascending(ps, first.0 + 1)
    ensures Ascending([first] + ps, first.0)
  {
    assert ([first] + ps)[1..] == ps;
  }

  ghost predicate Ascending(ps: seq<(nat, nat)>, i: nat) {
    ps == [] || (i <= ps[0].0 && Ascending(ps[1..], ps[0].0 + 1))
  }

  lemma {:induction false} FirstPosition(s: string, i: nat)
    requires i < |s|
    ensures forall b: nat :: IsSegment(s, i, b) <==> StartsSegment(s, i) && b == Next('\0', s, i)
  {
    if StartsSegment(s, i) {
      SegmentEnd(s, i);
    }
  }

  lemma {:induction false} SegmentEnd(s: string, i: nat)
    requires i < |s| && StartsSegment(s, i)
    ensures forall b: nat :: IsSegment(s, i, b) <==> b == Next('\0', s, i)
  {
  }

  /** And the segments are the texts at those positions. */
  lemma {:induction false} SegmentsExact(s: string, i: nat)
    requires i <= |s|
    ensures |Segments(s, i)| == |Positions(s, i)|
    ensures forall k | 0 <= k < |Segments(s, i)| :: IsSegmentAt(s, Positions(s, i)[k], Segments(s, i)[k])
    decreases |s| - i
  {
    if i == |s| {
    } else {
      SegmentsExact(s, i + 1);
      var ps, ts := Positions(s, i + 1), Segments(s, i + 1);
      if StartsSegment(s, i) {
        SegmentEnd(s, i);
        var first, text := (i, Next('\0', s, i)), s[i..Next('\0', s, i)];
        assert Positions(s, i) == [first] + ps && Segments(s, i) == [text] + ts;
        forall k | 0 <= k < |ts| + 1
          ensures IsSegmentAt(s, ([first] + ps)[k], ([text] + ts)[k])
        {
          if k > 0 {
            assert IsSegmentAt(s, ps[k - 1], ts[k - 1]);
          }
        }
      } else {
        assert Positions(s, i) == ps && Segments(s, i) == ts;
      }
    }
  }

  ghost predicate IsSegmentAt(s: string, at: (nat, nat), text: string) {
    IsSegment(s, at.0, at.1) && text == s[at.0..at.1]
  }

  lemma {:induction false} InsideSegment(s: string, i: nat, j: nat)
    requires 0 < i <= j <= |s| && s[i - 1] != '\0' && forall k | i <= k < j :: s[k] != '\0'
    ensures Segments(s, i) == Segments(s, j)
    decreases j - i
  {
    if i == j {
    } else {
      InsideSegment(s, i + 1, j);
    }
  }

  /** One turn of the decoding loop, at the start of the buffer or just after a NUL. */
  lemma {:induction false} SegmentsTurn(s: string, i: nat)
    requires i < |s| && (i == 0 || s[i - 1] == '\0') && Next('\0', s, i) < |s|
    ensures var j := Next('\0', s, i);
            Segments(s, i) == (if i < j then [s[i..j]] else []) + Segments(s, j + 1)
  {
    var j := Next('\0', s, i);
    AtNul(s, j);
    FirstSegment(s, i);
    if i < j {
      InsideSegment(s, i + 1, j);
    }
  }

  lemma {:induction false} FirstSegment(s: string, i: nat)
    requires i < |s|
    ensures Segments(s, i)
         == (if StartsSegment(s, i) then [s[i..Next('\0', s, i)]] else []) + Segments(s, i + 1)
  {
  }

  lemma {:induction false} AtNul(s: string, j: nat)
    requires j < |s| && s[j] == '\0'
    ensures Segments(s, j) == Segments(s, j + 1)
  {
  }

  /** The NUL that the decoder adds for safety changes nothing. */
  lemma {:induction false} SafetyNul(s: string, i: nat)
    requires i <= |s|
    ensures Segments(s + "\0", i) == Segments(s, i)
    decreases |s| - i
  {
    var t := s + "\0";
    if i == |s| {
    } else {
      SafetyNul(s, i + 1);
      SameEnd('\0', s, i);
      assert t[i] == s[i] && (i > 0 ==> t[i - 1] == s[i - 1]);
    }
  }

  lemma {:induction false} SameEnd(c: char, s: string, i: nat)
    requires i <= |s|
    ensures Next(c, s + [c], i) == Next(c, s, i)
    ensures (s + [c])[i..Next(c, s, i)] == s[i..Next(c, s, i)]
    decreases |s| - i
  {
    if i == |s| || s[i] == c {
    } else {
      SameEnd(c, s, i + 1);
    }
  }

  lemma {:induction false} NamesTurn(names: seq<string>, s: string, i: nat)
    requires i < |s| && (i == 0 || s[i - 1] == '\0') && Next('\0', s, i) < |s|
    ensures var j := Next('\0', s, i);
            names + Segments(s, i) == (if i < j then names + [s[i..j]] else names) + Segments(s, j + 1)
  {
    SegmentsTurn(s, i);
    var j := Next('\0', s, i);
    AddNext(names, if i < j then [s[i..j]] else [], Segments(s, j + 1));
  }

  lemma {:induction false} AddNext(names: seq<string>, next: seq<string>, rest: seq<string>)
    ensures names + (next + rest) == names + next + rest
    ensures next == [] ==> names + next == names
  {
  }

  /** What is still to be decoded completes the list. */
  ghost predicate DecodedTo(names: seq<string>, buffer: string, ptr: nat, whole: seq<string>)
    requires ptr <= |buffer|
  {
    && (ptr == 0 || buffer[ptr - 1] == '\0')
    && names + Segments(buffer, ptr) == whole
  }

  lemma {:induction false} DecodedTurn(names: seq<string>, buffer: string, ptr: nat, whole: seq<string>)
    requires ptr < |buffer| && buffer[|buffer| - 1] == '\0' && DecodedTo(names, buffer, ptr, whole)
    ensures var end := Next('\0', buffer, ptr);
            && end < |buffer|
            && DecodedTo(if ptr < end then names + [buffer[ptr..end]] else names, buffer, end + 1, whole)
  {
    NamesTurn(names, buffer, ptr);
  }

  lemma {:induction false} DecodedEnd(names: seq<string>, buffer: string, whole: seq<string>)
    requires DecodedTo(names, buffer, |buffer|, whole)
    ensures names == whole
  {
  }

  /** The client: appends to the list the maximal non-empty NUL-free stretches of the buffer, in
      order; whatever the buffer, no read goes past the added terminator. */
  method DecodeNames(received: string, list: seq<string>) returns (names: seq<string>)
    ensures names == list + Segments(received, 0)
  {
    var buffer := received + "\0";
    SafetyNul(received, 0);
    ghost var whole := list + Segments(received, 0);
    names := list;
    var ptr := 0;
    while ptr < |buffer|
      invariant 0 <= ptr <= |buffer|
      invariant DecodedTo(names, buffer, ptr, whole)
      decreases |buffer| - ptr
    {
      DecodedTurn(names, buffer, ptr, whole);
      var end := Next('\0', buffer, ptr);
      var item := buffer[ptr..end];
      var size := |item|;
      if size > 0 {
        names := names + [item];
      }
      ptr := ptr + size + 1;
    }
    DecodedEnd(names, buffer, whole);
  }

  /** The server: every name followed by a NUL. */
  method EncodeNames(list: seq<string>) returns (buffer: string)
    ensures buffer == Join('\0', list)
  {
    buffer := "";
    for i := 0 to |list|
      invariant buffer == Join('\0', list[..i])
    {
      assert list[..i + 1] == list[..i] + [list[i]];
      JoinLast('\0', list[..i], list[i]);
      buffer := buffer + list[i];
      buffer := buffer + ['\0'];
    }
    assert list[..|list|] == list;
  }

  lemma {:induction false} JoinLast(c: char, items: seq<string>, item: string)
    ensures Join(c, items + [item]) == Join(c, items) + item + [c]
  {
    if items == [] {
    } else {
      JoinLast(c, items[1..], item);
      assert (items + [item])[1..] == items[1..] + [item];
      Regroup(items[0] + [c], Join(c, items[1..]), item, [c]);
      Regroup(items[0], [c], Join(c, items[1..] + [item]), "");
      Regroup(items[0], [c], Join(c, items[1..]), "");
    }
  }

  lemma {:induction false} Regroup(a: string, b: string, c: string, d: string)
    ensures a + (b + c + d) == a + b + c + d && a + (b + c) == a + b + c
  {
  }

  // ---------------------------------------------------------------- round trip

  predicate Sendable(name: string) {
    name != "" && forall i | 0 <= i < |name| :: name[i] != '\0'
  }

  lemma {:induction false} SegmentsOfJoin(names: seq<string>, s: string, i: nat)
    requires i <= |s| && s[i..] == Join('\0', names) && (i == 0 || s[i - 1] == '\0')
    requires forall k | 0 <= k < |names| :: Sendable(names[k])
    ensures Segments(s, i) == names
    decreases |names|
  {
    if names == [] {
    } else {
      var j := i + |names[0]|;
      JoinFirst('\0', names[0], Join('\0', names[1..]), s, i);
      SegmentsOfJoin(names[1..], s, j + 1);
      OneSegment(names[0], s, i, j);
      assert names == [names[0]] + names[1..];
    }
  }

  lemma {:induction false} OneSegment(name: string, s: string, i: nat, j: nat)
    requires i < j < |s| && s[j] == '\0' && (forall k | i <= k < j :: s[k] != '\0') && s[i..j] == name
    requires i == 0 || s[i - 1] == '\0'
    ensures Segments(s, i) == [name] + Segments(s, j + 1)
  {
    FirstTerminator(s, i, j);
    SegmentsTurn(s, i);
  }

  lemma {:induction false} FirstTerminator(s: string, i: nat, j: nat)
    requires i <= j < |s| && s[j] == '\0' && forall k | i <= k < j :: s[k] != '\0'
    ensures Next('\0', s, i) == j
    decreases j - i
  {
    if i == j {
    } else {
      FirstTerminator(s, i + 1, j);
    }
  }

  /** Decoding what was encoded gives the list back exactly when every name is a non-empty text
      without a NUL. */
  lemma {:induction false} NamesRoundTrip(names: seq<string>)
    ensures Segments(Join('\0', names), 0) == names <==> forall k | 0 <= k < |names| :: Sendable(names[k])
  {
    var s := Join('\0', names);
    if forall k | 0 <= k < |names| :: Sendable(names[k]) {
      SegmentsOfJoin(names, s, 0);
    }
    SegmentsSendable(s);
  }

  lemma {:induction false} SegmentsSendable(s: string)
    ensures forall k | 0 <= k < |Segments(s, 0)| :: Sendable(Segments(s, 0)[k])
  {
    SegmentsExact(s, 0);
    var ps, ts := Positions(s, 0), Segments(s, 0);
    forall k | 0 <= k < |ts|
      ensures Sendable(ts[k])
    {
      SegmentSendable(s, ps[k], ts[k]);
    }
  }

  lemma {:induction false} SegmentSendable(s: string, at: (nat, nat), text: string)
    requires IsSegmentAt(s, at, text)
    ensures Sendable(text)
  {
  }
}

/** Paths as sequences of components, and the base path that listed names leave out. */
module Paths {
  import opened Terminated
  import opened NameLists

  type Path = seq<string>

  /** What a path denotes: `.` components go nowhere. */
  function Denoted(p: Path): Path {
    if p == [] then [] else (if p[0] == "." then [] else [p[0]]) + Denoted(p[1..])
  }

  /** The end of the loop over the base path: what is left of the full path, and whether the whole
      base was matched; or a component was read past the end of the full path. */
  datatype Stripping = Stripped(rest: Path, complete: bool) | PastEnd

  function Strip(skip: Path, full: Path): Stripping
    decreases |skip| + |full|
  {
    if skip == [] then Stripped(full, true)
    else if full == [] then PastEnd
    else if skip[0] == full[0] then Strip(skip[1..], full[1..])
    else if skip[0] == "." then Strip(skip[1..], full)
    else if full[0] == "." then Strip(skip, full[1..])
    else Stripped(full, false)
  }

  /** The two iterators over the base path and the full path. */
  method StripBase(skipPath: Path, full: Path) returns (r: Stripping)
    ensures r == Strip(skipPath, full)
  {
    var itSkip, itCombined := 0, 0;
    assert skipPath[0..] == skipPath && full[0..] == full;
    while itSkip < |skipPath|
      invariant 0 <= itSkip <= |skipPath| && 0 <= itCombined <= |full|
      invariant Strip(skipPath, full) == Strip(skipPath[itSkip..], full[itCombined..])
      decreases |skipPath| - itSkip + |full| - itCombined
    {
      if itCombined == |full| {
        return PastEnd;
      }
      if skipPath[itSkip] == full[itCombined] {
        itSkip := itSkip + 1;
        itCombined := itCombined + 1;
      } else if skipPath[itSkip] == "." {
        itSkip := itSkip + 1;
      } else if full[itCombined] == "." {
        itCombined := itCombined + 1;
      } else {
        return Stripped(full[itCombined..], false);
      }
    }
    return Stripped(full[itCombined..], true);
  }

  /** The full path lies below the base, up to `.` components. */
  predicate Below(base: Path, full: Path) {
    Denoted(base) < Denoted(full)
  }

  lemma {:induction false} DenotedDrop(p: Path)
    requires p != [] && p[0] != "."
    ensures Denoted(p) != [] && Denoted(p)[0] == p[0] && Denoted(p)[1..] == Denoted(p[1..])
  {
  }

  /** The loop matches the base and leaves a remainder exactly for the paths below the base; then
      it reads nothing past the end, and what it leaves denotes the remainder. */
  lemma {:induction false} StripExact(skip: Path, full: Path)
    ensures var r := Strip(skip, full);
            && (r.Stripped? && r.complete && Denoted(r.rest) != [] <==> Below(skip, full))
            && (Below(skip, full) ==> Denoted(r.rest) == Denoted(full)[|Denoted(skip)|..])
    decreases |skip| + |full|
  {
    if skip == [] || full == [] {
    } else if skip[0] == full[0] {
      StripExact(skip[1..], full[1..]);
      BelowDrop(skip, full);
    } else if skip[0] == "." {
      DenotedDot(skip);
      StripExact(skip[1..], full);
    } else if full[0] == "." {
      DenotedDot(full);
      StripExact(skip, full[1..]);
    } else {
      DenotedDrop(skip);
      DenotedDrop(full);
    }
  }

  lemma {:induction false} BelowDrop(skip: Path, full: Path)
    requires skip != [] && full != [] && skip[0] == full[0]
    ensures Below(skip, full) <==> Below(skip[1..], full[1..])
    ensures Below(skip, full) ==>
      Denoted(full)[|Denoted(skip)|..] == Denoted(full[1..])[|Denoted(skip[1..])|..]
  {
    if skip[0] != "." {
      DenotedDrop(skip);
      DenotedDrop(full);
      PrefixCons(Denoted(skip), Denoted(full));
    } else {
      DenotedDot(skip);
      DenotedDot(full);
    }
  }

  lemma {:induction false} DenotedDot(p: Path)
    requires p != [] && p[0] == "."
    ensures Denoted(p) == Denoted(p[1..])
  {
  }

  lemma {:induction false} PrefixCons(a: Path, b: Path)
    requires a != [] && b != [] && a[0] == b[0]
    ensures a < b <==> a[1..] < b[1..]
    ensures a < b ==> b[|a|..] == b[1..][|a[1..]|..]
  {
    var n := |a|;
    assert a == [a[0]] + a[1..];
    if n <= |b| {
      assert b[..n] == [b[0]] + b[1..][..n - 1];
      assert a <= b <==> b[..n] == a;
      assert a[1..] <= b[1..] <==> b[1..][..n - 1] == a[1..];
    }
  }

  /** How many components two paths have in common at the start. */
  function Common(a: Path, b: Path): (n: nat)
    ensures n <= |a| && n <= |b| && a[..n] == b[..n]
    ensures n < |a| && n < |b| ==> a[n] != b[n]
  {
    if a == [] || b == [] || a[0] != b[0] then 0
    else
      var n := Common(a[1..], b[1..]);
      assert a[..n + 1] == [a[0]] + a[1..][..n] && b[..n + 1] == [b[0]] + b[1..][..n];
      n + 1
  }

  lemma {:induction false} CommonIs(a: Path, b: Path, n: nat)
    requires n <= |a| && n <= |b| && a[..n] == b[..n]
    requires n < |a| && n < |b| ==> a[n] != b[n]
    ensures Common(a, b) == n
  {
    PrefixPointwise(a, b, n);
    PrefixPointwise(a, b, Common(a, b));
  }

  lemma {:induction false} PrefixPointwise(a: Path, b: Path, n: nat)
    requires n <= |a| && n <= |b| && a[..n] == b[..n]
    ensures forall k | 0 <= k < n :: a[k] == b[k]
  {
    forall k | 0 <= k < n
      ensures a[k] == b[k]
    {
      assert a[k] == a[..n][k] == b[..n][k] == b[k];
    }
  }

  /** In general the loop leaves what the two paths do not have in common, wherever it stops; past
      the end it reads only if nothing is left of the full path. */
  lemma {:induction false} StripLeaves(skip: Path, full: Path)
    ensures var r := Strip(skip, full);
            var n := Common(Denoted(skip), Denoted(full));
            (r.Stripped? ==> Denoted(r.rest) == Denoted(full)[n..]) && (r.PastEnd? ==> n == |Denoted(full)|)
    decreases |skip| + |full|
  {
    if skip == [] || full == [] {
    } else if skip[0] == full[0] {
      StripLeaves(skip[1..], full[1..]);
      CommonDrop(skip, full);
    } else if skip[0] == "." {
      DenotedDot(skip);
      StripLeaves(skip[1..], full);
    } else if full[0] == "." {
      DenotedDot(full);
      StripLeaves(skip, full[1..]);
    } else {
      DenotedDrop(skip);
      DenotedDrop(full);
    }
  }

  /** What is left is the end of the full path as it stands; for a path that begins with the base,
      letter by letter, it is all that follows. */
  lemma {:induction false} StripRest(skip: Path, full: Path, more: Path)
    ensures var r := Strip(skip, full);
            r.Stripped? ==> |r.rest| <= |full| && r.rest == full[|full| - |r.rest|..]
    ensures Strip(skip, skip + more) == Stripped(more, true)
  {
    StripSuffix(skip, full);
    StripWhole(skip, more);
  }

  lemma {:induction false} StripSuffix(skip: Path, full: Path)
    ensures var r := Strip(skip, full);
            r.Stripped? ==> |r.rest| <= |full| && r.rest == full[|full| - |r.rest|..]
    decreases |skip| + |full|
  {
    if skip == [] || full == [] {
    } else if skip[0] == full[0] {
      StripSuffix(skip[1..], full[1..]);
    } else if skip[0] == "." {
      StripSuffix(skip[1..], full);
    } else if full[0] == "." {
      StripSuffix(skip, full[1..]);
    }
  }

  lemma {:induction false} StripWhole(skip: Path, more: Path)
    ensures Strip(skip, skip + more) == Stripped(more, true)
  {
    if skip == [] {
      assert skip + more == more;
    } else {
      StripWhole(skip[1..], more);
      assert (skip + more)[1..] == skip[1..] + more;
    }
  }

  /** How many `.` components a path ends with. */
  function EndDots(p: Path): nat {
    if Denoted(p) == [] then |p| else EndDots(p[1..])
  }

  /** The loop reads past the end exactly if the full path denotes an ancestor of the base, or the
      same as the base while the base ends with more `.` components. */
  lemma {:induction false} PastEndExact(skip: Path, full: Path)
    ensures Strip(skip, full).PastEnd?
        <==> Denoted(full) < Denoted(skip) || (Denoted(full) == Denoted(skip) && EndDots(full) < EndDots(skip))
    decreases |skip| + |full|
  {
    if skip == [] {
    } else if full == [] {
      AllDots(skip);
    } else if skip[0] == full[0] {
      PastEndExact(skip[1..], full[1..]);
      EndDotsDrop(skip);
      EndDotsDrop(full);
      SameFirst(skip, full);
    } else if skip[0] == "." {
      DenotedDot(skip);
      DenotedDrop(full);
      PastEndExact(skip[1..], full);
      EndDotsDrop(skip);
    } else if full[0] == "." {
      DenotedDot(full);
      DenotedDrop(skip);
      PastEndExact(skip, full[1..]);
      EndDotsDrop(full);
    } else {
      DenotedDrop(skip);
      DenotedDrop(full);
    }
  }

  lemma {:induction false} AllDots(p: Path)
    requires p != []
    ensures Denoted(p) == [] ==> EndDots(p) > 0
    ensures EndDots([]) == 0
  {
  }

  lemma {:induction false} EndDotsDrop(p: Path)
    requires p != []
    ensures Denoted(p) != [] ==> EndDots(p) == EndDots(p[1..])
    ensures Denoted(p) == [] ==> Denoted(p[1..]) == [] && EndDots(p) == |p| && EndDots(p[1..]) == |p| - 1
  {
    if Denoted(p) == [] {
      assert p[0] == ".";
      DenotedDot(p);
    }
  }

  lemma {:induction false} SameFirst(skip: Path, full: Path)
    requires skip != [] && full != [] && skip[0] == full[0]
    ensures Denoted(full) < Denoted(skip) <==> Denoted(full[1..]) < Denoted(skip[1..])
    ensures Denoted(full) == Denoted(skip) <==> Denoted(full[1..]) == Denoted(skip[1..])
    ensures skip[0] != "." ==> Denoted(skip) != [] && Denoted(full) != []
    ensures skip[0] == "." ==> Denoted(skip) == Denoted(skip[1..]) && Denoted(full) == Denoted(full[1..])
  {
    if skip[0] == "." {
      DenotedDot(skip);
      DenotedDot(full);
    } else {
      DenotedDrop(skip);
      DenotedDrop(full);
      PrefixCons(Denoted(full), Denoted(skip));
    }
  }

  lemma {:induction false} CommonDrop(skip: Path, full: Path)
    requires skip != [] && full != [] && skip[0] == full[0]
    ensures Denoted(full)[Common(Denoted(skip), Denoted(full))..]
         == Denoted(full[1..])[Common(Denoted(skip[1..]), Denoted(full[1..]))..]
    ensures Common(Denoted(skip[1..]), Denoted(full[1..])) == |Denoted(full[1..])|
        ==> Common(Denoted(skip), Denoted(full)) == |Denoted(full)|
  {
    if skip[0] == "." {
      DenotedDot(skip);
      DenotedDot(full);
    } else {
      DenotedDrop(skip);
      DenotedDrop(full);
    }
  }

  lemma {:induction false} DenotedConcat(a: Path, b: Path)
    ensures Denoted(a + b) == Denoted(a) + Denoted(b)
  {
    if a == [] {
      assert a + b == b;
    } else {
      assert (a + b)[1..] == a[1..] + b;
      DenotedConcat(a[1..], b);
    }
  }

  lemma {:induction false} DenotedOne(c: string)
    ensures Denoted([c]) == if c == "." then [] else [c]
  {
    assert [c][1..] == [];
  }

  // ---------------------------------------------------------------- names of files

  /** A component of a relative path. */
  predicate Component(c: string) {
    Sendable(c) && forall i | 0 <= i < |c| :: c[i] != '/'
  }

  /** A path without a root. */
  ghost predicate Rootless(p: Path) {
    forall k | 0 <= k < |p| :: Component(p[k])
  }

  /** `/=` for each component, and the text of the result. */
  function PathText(p: Path): string {
    if p == [] then "" else if |p| == 1 then p[0] else p[0] + (['/'] + PathText(p[1..]))
  }

  /** The components of a relative path that is given as text, without a slash at its end. */
  function Components(s: string): Path {
    if s == "" then [] else Split('/', s + ['/'], 0)
  }

  /** With a slash at the end it is the text that splitting undoes. */
  lemma {:induction false} PathTextJoin(p: Path)
    requires p != []
    ensures PathText(p) + ['/'] == Join('/', p)
  {
    var c := p[0];
    if |p| == 1 {
      assert p[1..] == [];
    } else {
      PathTextJoin(p[1..]);
      Regroup(c, ['/'], PathText(p[1..]), ['/']);
      Regroup(['/'], PathText(p[1..]), ['/'], "");
      assert PathText(p) + ['/'] == c + (['/'] + (PathText(p[1..]) + ['/']));
    }
  }

  lemma {:induction false} NameComponents(p: Path)
    requires p != [] && Rootless(p)
    ensures Components(PathText(p)) == p
  {
    PathTextJoin(p);
    assert Components(PathText(p)) == Split('/', Join('/', p), 0) by {
      PathTextSendable(p);
    }
    SplitJoin('/', p);
  }

  lemma {:induction false} PathTextSendable(p: Path)
    requires p != [] && Rootless(p)
    ensures Sendable(PathText(p))
  {
    if |p| == 1 {
    } else {
      PathTextSendable(p[1..]);
    }
  }

  /** The name under which a file is listed. */
  function Name(skip: Path, full: Path): string {
    PathText(Rest(skip, full))
  }

  function Rest(skip: Path, full: Path): Path {
    match Strip(skip, full)
    case Stripped(rest, _) => rest
    case PastEnd => []
  }

  /** The rest of the components, appended one by one. */
  method RelativePath(rest: Path) returns (relativePath: string)
    ensures relativePath == PathText(rest)
  {
    relativePath := "";
    for j := 0 to |rest|
      invariant relativePath == PathText(rest[..j])
    {
      PathTextLast(rest[..j], rest[j]);
      assert rest[..j + 1] == rest[..j] + [rest[j]];
      relativePath := if j == 0 then rest[j] else relativePath + ['/'] + rest[j];
    }
    assert rest[..|rest|] == rest;
  }

  /** `getList`: strips the base path from every file, or what it can of it. */
  method GetList(skipPath: Path, found: seq<Path>) returns (files: seq<string>)
    requires forall k | 0 <= k < |found| :: Strip(skipPath, found[k]).Stripped?
    ensures |files| == |found| && forall k | 0 <= k < |found| :: files[k] == Name(skipPath, found[k])
  {
    files := [];
    for i := 0 to |found|
      invariant |files| == i && forall k | 0 <= k < i :: files[k] == Name(skipPath, found[k])
    {
      var r := StripBase(skipPath, found[i]);
      var relativePath := RelativePath(r.rest);
      files := files + [relativePath];
    }
  }

  lemma {:induction false} PathTextLast(p: Path, c: string)
    ensures PathText(p + [c]) == if p == [] then c else PathText(p) + ['/'] + c
    ensures PathText([]) == ""
  {
    if |p| == 1 {
      assert (p + [c])[1..] == [c];
      Regroup(p[0], ['/'], c, "");
    } else if p != [] {
      assert (p + [c])[1..] == p[1..] + [c];
      PathTextLast(p[1..], c);
      Regroup(p[0] + ['/'], PathText(p[1..]), ['/'], c);
      Regroup(p[0], ['/'], PathText(p[1..]) + ['/'] + c, "");
      Regroup(p[0], ['/'], PathText(p[1..]), "");
    }
  }

  // ---------------------------------------------------------------- the files that paths lead to

  /** Where a component leads from a directory, given by its components below the root. */
  function Enter(dir: Path, c: string): Path {
    if c == "." then dir
    else if c == ".." then if dir == [] then [] else dir[..|dir| - 1]
    else if c == "/" then []
    else dir + [c]
  }

  /** Where a path leads from a directory, if all that it passes through are directories. */
  function Resolve(dir: Path, p: Path): Path
    decreases |p|
  {
    if p == [] then dir else Resolve(Enter(dir, p[0]), p[1..])
  }

  /** Names of files and directories: the components that a directory iterator adds. */
  ghost predicate Plain(p: Path) {
    forall k | 0 <= k < |p| :: Component(p[k]) && p[k] != "." && p[k] != ".."
  }

  lemma {:induction false} ResolveConcat(dir: Path, a: Path, b: Path)
    ensures Resolve(dir, a + b) == Resolve(Resolve(dir, a), b)
    decreases |a|
  {
    if a == [] {
      assert a + b == b;
    } else {
      assert (a + b)[1..] == a[1..] + b;
      ResolveConcat(Enter(dir, a[0]), a[1..], b);
    }
  }

  /** One step further: staying, going up, going to the root, and going down. */
  lemma {:induction false} ResolveLast(dir: Path, p: Path, c: string)
    ensures Resolve(dir, []) == dir
    ensures Resolve(dir, p + ["."]) == Resolve(dir, p)
    ensures Resolve(dir, p + [".."]) ==
      var at := Resolve(dir, p); if at == [] then [] else at[..|at| - 1]
    ensures Resolve(dir, p + ["/"]) == []
    ensures Plain([c]) ==> Resolve(dir, p + [c]) == Resolve(dir, p) + [c]
  {
    var at := Resolve(dir, p);
    forall x: string
      ensures Resolve(dir, p + [x]) == Enter(at, x)
    {
      ResolveConcat(dir, p, [x]);
      assert [x][1..] == [];
    }
    assert |".."| != |"."| && "/"[0] != '.' && ".."[0] != '/';
    if Plain([c]) {
      ResolvePlain(at, [c]);
      ResolveConcat(dir, p, [c]);
    }
  }

  lemma {:induction false} ResolveDenoted(dir: Path, p: Path)
    ensures Resolve(dir, p) == Resolve(dir, Denoted(p))
    decreases |p|
  {
    if p == [] {
    } else {
      ResolveDenoted(Enter(dir, p[0]), p[1..]);
      if p[0] == "." {
        DenotedDot(p);
      } else {
        DenotedDrop(p);
      }
    }
  }

  lemma {:induction false} ResolvePlain(dir: Path, p: Path)
    requires Plain(p)
    ensures Resolve(dir, p) == dir + p
    decreases |p|
  {
    if p == [] {
    } else {
      assert p[0][0] != '/';
      ResolvePlain(dir + [p[0]], p[1..]);
      assert dir + [p[0]] + p[1..] == dir + p;
    }
  }

  lemma {:induction false} PlainDenoted(p: Path)
    requires Plain(p)
    ensures Denoted(p) == p
  {
    if p == [] {
    } else {
      PlainDenoted(p[1..]);
    }
  }

  /** Going on from the base path through the components that normalizing did not keep leads back to
      where the base path leads. */
  predicate LeadsBack(cwd: Path, base: Path, skip: Path) {
    Resolve(cwd, base + Denoted(base)[Common(Denoted(skip), Denoted(base))..]) == Resolve(cwd, base)
  }

  /** A file below the base: what the loop leaves of its path, if normalizing adds no components. */
  lemma {:induction false} RestBelowBase(base: Path, skip: Path, f: Path)
    requires |Denoted(skip)| <= |Denoted(base)| && f != [] && Plain(f)
    ensures var n := Common(Denoted(skip), Denoted(base));
            && Strip(skip, base + f).Stripped? && Rest(skip, base + f) != []
            && Denoted(Rest(skip, base + f)) == Denoted(base)[n..] + f
  {
    DenotedConcat(base, f);
    PlainDenoted(f);
    StripLeaves(skip, base + f);
    var a, b := Denoted(skip), Denoted(base);
    CommonLonger(a, b, f);
    assert (b + f)[Common(a, b)..] == b[Common(a, b)..] + f;
  }

  lemma {:induction false} CommonLonger(a: Path, b: Path, f: Path)
    requires |a| <= |b|
    ensures Common(a, b + f) == Common(a, b)
  {
    var n := Common(a, b);
    assert (b + f)[..n] == b[..n];
    CommonIs(a, b + f, n);
  }

  lemma {:induction false} ResolveBelow(cwd: Path, base: Path, rest: Path, more: Path, f: Path)
    requires Denoted(rest) == more + f && Plain(f)
    ensures Resolve(cwd, base + rest) == Resolve(cwd, base + more) + f
  {
    var dir := Resolve(cwd, base);
    ResolveConcat(cwd, base, rest);
    ResolveConcat(cwd, base, more);
    ResolveDenoted(dir, rest);
    ResolveConcat(dir, more, f);
    ResolvePlain(Resolve(dir, more), f);
  }

  lemma {:induction false} SameBefore(a: Path, b: Path, f: Path)
    ensures a + f == b + f <==> a == b
  {
    if a + f == b + f {
      assert a == (a + f)[..|a|] && b == (b + f)[..|b|];
    }
  }

  /** The name under which a file is listed loads the file back, wherever the process runs, exactly
      if the base path leads back.  It always does if normalizing has not changed what it denotes. */
  lemma {:induction false} NameLoadsBack(cwd: Path, base: Path, skip: Path, f: Path)
    requires |Denoted(skip)| <= |Denoted(base)| && f != [] && Plain(f) && Rootless(Rest(skip, base + f))
    ensures Sendable(Name(skip, base + f))
    ensures Resolve(cwd, base + Components(Name(skip, base + f))) == Resolve(cwd, base + f)
        <==> LeadsBack(cwd, base, skip)
    ensures Denoted(skip) == Denoted(base) ==>
      && LeadsBack(cwd, base, skip)
      && Denoted(base + Components(Name(skip, base + f))) == Denoted(base + f)
  {
    RestBelowBase(base, skip, f);
    var rest, more := Rest(skip, base + f), Denoted(base)[Common(Denoted(skip), Denoted(base))..];
    PathTextSendable(rest);
    NameComponents(rest);
    ResolveBelow(cwd, base, rest, more, f);
    PlainDenoted(f);
    assert [] + f == f && base + [] == base;
    ResolveBelow(cwd, base, f, [], f);
    SameBefore(Resolve(cwd, base + more), Resolve(cwd, base), f);
    if Denoted(skip) == Denoted(base) {
      CommonIs(Denoted(skip), Denoted(base), |Denoted(base)|);
      DenotedConcat(base, rest);
      DenotedConcat(base, f);
    }
  }

  /** The base `a/../b`, normalized to `b`, leads back exactly if `a` is `b`. */
  lemma {:induction false} ParentInBase(cwd: Path, a: string, b: string, f: string)
    requires Plain([a]) && Plain([b]) && Plain([f])
    ensures var base, skip := [a, "..", b], [b];
            Resolve(cwd, base + Components(Name(skip, base + [f]))) == Resolve(cwd, base + [f]) <==> a == b
  {
    var base, skip, full := [a, "..", b], [b], [a, "..", b, f];
    assert [a][0] == a && [b][0] == b && [f][0] == f;
    assert base + [f] == full && |".."| != |"."|;
    NoDots(base);
    NoDots(skip);
    assert skip[1..] == [] && full[1..] == ["..", b, f];
    assert Strip(skip, full) == if a == b then Stripped(full[1..], true) else Stripped(full, false);
    NameLoadsBack(cwd, base, skip, [f]);
    UpAndDown(cwd, a, b);
  }

  lemma {:induction false} UpAndDown(cwd: Path, a: string, b: string)
    requires Plain([a]) && Plain([b])
    ensures var base := [a, "..", b]; LeadsBack(cwd, base, [b]) <==> a == b
  {
    var base := [a, "..", b];
    assert [a][0] == a && [b][0] == b && |".."| != |"."|;
    NoDots(base);
    NoDots([b]);
    UpDown(cwd, a, b);
    if a == b {
      CommonIs([b], base, 1);
      assert base[1..] == ["..", b];
      UpAgain(cwd + [b], b, cwd);
      ResolveConcat(cwd, base, base[1..]);
    } else {
      CommonIs([b], base, 0);
      assert base[0..] == base;
      ResolveConcat(cwd, base, base);
      UpDown(cwd + [b], a, b);
      assert |cwd + [b] + [b]| != |cwd + [b]|;
    }
  }

  lemma {:induction false} UpDown(dir: Path, a: string, b: string)
    requires Plain([a]) && Plain([b])
    ensures Resolve(dir, [a, "..", b]) == dir + [b]
  {
    assert [a][0] == a && a[0] != '/';
    var base := [a, "..", b];
    assert base[1..] == ["..", b];
    UpAgain(dir + [a], b, dir);
  }

  lemma {:induction false} UpAgain(dir: Path, b: string, up: Path)
    requires Plain([b]) && dir != [] && dir[..|dir| - 1] == up
    ensures Resolve(dir, ["..", b]) == up + [b]
  {
    assert ["..", b][1..] == [b];
    assert Enter(dir, "..") == up;
    ResolvePlain(up, [b]);
  }

  lemma {:induction false} NoDots(p: Path)
    requires forall k | 0 <= k < |p| :: p[k] != "."
    ensures Denoted(p) == p
  {
    if p == [] {
    } else {
      NoDots(p[1..]);
    }
  }

  /** From one end to the other: the names that a client decodes from the list are those that the
      server found, in the same order, and under the same condition all of them load the files. */
  lemma {:induction false} ListLoadsBack(cwd: Path, base: Path, skip: Path, found: seq<Path>, files: seq<string>)
    requires |Denoted(skip)| <= |Denoted(base)| && |files| == |found|
    requires forall k | 0 <= k < |found| ::
               found[k] != [] && Plain(found[k]) && Rootless(Rest(skip, base + found[k]))
    requires forall k | 0 <= k < |found| :: files[k] == Name(skip, base + found[k])
    ensures Segments(Join('\0', files), 0) == files
    ensures (forall k | 0 <= k < |found| ::
               Resolve(cwd, base + Components(files[k])) == Resolve(cwd, base + found[k]))
        <==> found == [] || LeadsBack(cwd, base, skip)
  {
    forall k | 0 <= k < |found|
      ensures Sendable(files[k])
      ensures Resolve(cwd, base + Components(files[k])) == Resolve(cwd, base + found[k]) <==> LeadsBack(cwd, base, skip)
    {
      NameLoadsBack(cwd, base, skip, found[k]);
    }
    NamesRoundTrip(files);
    if found != [] && !LeadsBack(cwd, base, skip) {
      assert Resolve(cwd, base + Components(files[0])) != Resolve(cwd, base + found[0]);
    }
  }
}
