/** Numbers as text: `lexical_cast` and the integers of a message header. */
module Decimals {
  function Digit(d: nat): char
    requires d < 10
  {
    "0123456789"[d]
  }

  predicate IsDigit(c: char) {
    '0' <= c <= '9'
  }

  function DigitValue(c: char): nat
    requires IsDigit(c)
  {
    c as int - '0' as int
  }

  function Decimal(n: nat): (s: string)
    ensures s != "" && forall i | 0 <= i < |s| :: IsDigit(s[i])
  {
    if n < 10 then [Digit(n)] else Decimal(n / 10) + [Digit(n % 10)]
  }

  function Value(s: string): nat
    requires forall i | 0 <= i < |s| :: IsDigit(s[i])
  {
    if s == "" then 0 else 10 * Value(s[..|s| - 1]) + DigitValue(s[|s| - 1])
  }

  lemma {:induction false} DecimalRoundTrip(n: nat)
    ensures Value(Decimal(n)) == n
  {
    var s := Decimal(n);
    if n < 10 {
      assert s[..0] == "";
    } else {
      DecimalRoundTrip(n / 10);
      assert s[..|s| - 1] == Decimal(n / 10);
    }
  }

  /** The texts have no leading zeros: a text of k + 1 digits is at least a one and k zeros. */
  lemma {:induction false} DecimalLength(n: nat)
    ensures |Decimal(n)| > 1 ==> n >= 10 && Decimal(n)[0] != '0'
    ensures |Decimal(n)| == 1 <==> n < 10
  {
    if n < 10 {
    } else {
      DecimalLength(n / 10);
      assert Decimal(n)[0] == Decimal(n / 10)[0];
      if n / 10 < 10 {
        OneDigit(n / 10);
      }
    }
  }

  lemma {:induction false} OneDigit(n: nat)
    requires n < 10
    ensures |Decimal(n)| == 1 && (Decimal(n)[0] == '0' <==> n == 0)
  {
    DecimalRoundTrip(n);
    assert Decimal(n)[..0] == "";
  }

  /** A digit is worth ten times as much one place further left. */
  lemma {:induction false} ValueShift(s: string, d: nat)
    requires (forall i | 0 <= i < |s| :: IsDigit(s[i])) && d < 10
    ensures var c := ('0' as int + d) as char; IsDigit(c) && Value(s + [c]) == 10 * Value(s) + d
  {
    var c := ('0' as int + d) as char;
    assert (s + [c])[..|s|] == s;
  }
}

/** Typed arguments: a kind, and the bytes that travel in the payload. */
module Arguments {
  import opened Wrappers
  import opened Decimals

  datatype Kind = IntKind | DoubleKind | StringKind | BufferKind

  /** A C++ `char` is a Dafny `char`, in texts and on the wire alike. */
  datatype Argument = Argument(kind: Kind, data: string)

  /** The identifier that `type()` returns. */
  function TypeName(k: Kind): string {
    match k
    case IntKind => "int"
    case DoubleKind => "double"
    case StringKind => "string"
    case BufferKind => "buffer"
  }

  /** The creation methods that `setup()` installs, found by type name. */
  function Installed(typ: string): (r: Option<Kind>)
    ensures r.Some? ==> TypeName(r.value) == typ
  {
    if typ == "int" then Some(IntKind)
    else if typ == "double" then Some(DoubleKind)
    else if typ == "string" then Some(StringKind)
    else if typ == "buffer" then Some(BufferKind)
    else None
  }

  lemma InstalledKind(k: Kind)
    ensures Installed(TypeName(k)) == Some(k)
  {
  }

  /** The size that a kind fixes, if any. */
  function FixedSize(k: Kind): Option<nat> {
    match k
    case IntKind => Some(4)
    case DoubleKind => Some(8)
    case _ => None
  }

  predicate WellSized(a: Argument) {
    FixedSize(a.kind).Some? ==> |a.data| == FixedSize(a.kind).value
  }

  function Zeros(n: nat): (s: string)
    ensures |s| == n
  {
    seq(n, _ => '\0')
  }

  /** A new argument of the named type, with room for `size` bytes. */
  function Prepare(typ: string, size: nat): (r: Result<Argument>)
    ensures r.Success? ==> WellSized(r.value) && |r.value.data| == size && TypeName(r.value.kind) == typ
    ensures r.Success? <==> Installed(typ).Some? && FixedSize(Installed(typ).value) in {None, Some(size)}
  {
    var k := Installed(typ);
    if k.None? then Failure("ServiceArgument: Unknown message type: \"" + typ + "\".")
    else
      var fixed := FixedSize(k.value);
      if fixed.Some? && fixed.value != size then
        Failure("Invalid argument size (must be " + Decimal(fixed.value) + " instead of " + Decimal(size) + ").")
      else Success(Argument(k.value, Zeros(size)))
  }

  /** The four types that can be prepared, by name, and the sizes that they demand. */
  lemma {:induction false} PrepareByName(n: nat)
    ensures Prepare("int", n).Success? <==> n == 4
    ensures Prepare("double", n).Success? <==> n == 8
    ensures Prepare("string", n).Success? && Prepare("buffer", n).Success?
    ensures n == 4 ==> Prepare("int", n).value.kind == IntKind
    ensures n == 8 ==> Prepare("double", n).value.kind == DoubleKind
    ensures Prepare("string", n).value.kind == StringKind && Prepare("buffer", n).value.kind == BufferKind
    ensures forall typ | Prepare(typ, n).Success? :: Prepare(typ, n).value.data == seq(n, _ => '\0')
  {
    assert |"string"| == 6 && |"buffer"| == 6 && |"double"| == 6 && |"int"| == 3;
    assert "string"[0] == 's' && "buffer"[0] == 'b' && "double"[0] == 'd';
  }

  /** What is thrown for any other size or type. */
  lemma {:induction false} PrepareErrors(typ: string, n: nat)
    ensures n != 4 ==>
      Prepare("int", n) == Failure("Invalid argument size (must be " + "4" + " instead of " + Decimal(n) + ").")
    ensures n != 8 ==>
      Prepare("double", n) == Failure("Invalid argument size (must be " + "8" + " instead of " + Decimal(n) + ").")
    ensures typ !in {"int", "double", "string", "buffer"} ==>
      Prepare(typ, n) == Failure("ServiceArgument: Unknown message type: \"" + typ + "\".")
  {
    if n != 4 {
      SizeError(IntKind, "int", 4, n);
    }
    if n != 8 {
      SizeError(DoubleKind, "double", 8, n);
    }
  }

  lemma {:induction false} SizeError(k: Kind, typ: string, expected: nat, n: nat)
    requires typ == TypeName(k) && FixedSize(k) == Some(expected) && n != expected
    ensures Prepare(typ, n)
         == Failure("Invalid argument size (must be " + Decimal(expected) + " instead of " + Decimal(n) + ").")
  {
    InstalledKind(k);
  }

  // ---------------------------------------------------------------- integers

  type int32 = v: int | -0x8000_0000 <= v < 0x8000_0000

  function Unsigned(v: int): (u: nat)
    ensures u < 0x1_0000_0000
  {
    v % 0x1_0000_0000
  }

  /** The conversion to `int`: the value modulo 2^32, with a sign. */
  function Signed(v: int): (r: int32)
    ensures (r - v) % 0x1_0000_0000 == 0
  {
    var u := v % 0x1_0000_0000;
    if u < 0x8000_0000 then u else u - 0x1_0000_0000
  }

  function ByteAt(u: nat, k: nat): char
    requires u < 0x1_0000_0000 && k < 4
  {
    match k
    case 0 => (u / 0x100_0000) as char
    case 1 => (u / 0x1_0000 % 0x100) as char
    case 2 => (u / 0x100 % 0x100) as char
    case _ => (u % 0x100) as char
  }

  /** An integer argument: the value in network byte order. */
  function IntArgument(v: int32): (a: Argument)
    ensures a.kind == IntKind && WellSized(a)
  {
    var u := Unsigned(v);
    Argument(IntKind, [ByteAt(u, 0), ByteAt(u, 1), ByteAt(u, 2), ByteAt(u, 3)])
  }

  /** The number that four bytes stand for. */
  function Word(b0: nat, b1: nat, b2: nat, b3: nat): nat {
    b0 * 0x100_0000 + b1 * 0x1_0000 + b2 * 0x100 + b3
  }

  function IntValue(a: Argument): int32
    requires a.kind == IntKind && WellSized(a)
  {
    Signed(Word(a.data[0] as int, a.data[1] as int, a.data[2] as int, a.data[3] as int))
  }

  lemma SignedUnsigned(v: int)
    ensures -0x8000_0000 <= v < 0x8000_0000 ==> Signed(Unsigned(v)) == v
    ensures 0 <= v < 0x1_0000_0000 ==> Unsigned(Signed(v)) == v
  {
  }

  lemma IntRoundTrip(v: int32)
    ensures IntValue(IntArgument(v)) == v
  {
    FromBytes(Unsigned(v));
    SignedUnsigned(v);
  }

  /** The bytes are in network order, the most significant first; a negative number is its
      two's complement. */
  lemma NetworkOrder(v: int32)
    ensures var data := IntArgument(v).data;
            && |data| == 4 && (forall i | 0 <= i < 4 :: data[i] as int < 0x100)
            && data[0] as int * 0x100_0000 + data[1] as int * 0x1_0000 + data[2] as int * 0x100 + data[3] as int
            == if v < 0 then v + 0x1_0000_0000 else v
  {
    var u := Unsigned(v);
    UnsignedIs(v);
    FromBytes(u);
    ByteSizes(u);
    var data := IntArgument(v).data;
    assert data[0] == ByteAt(u, 0) && data[1] == ByteAt(u, 1) && data[2] == ByteAt(u, 2) && data[3] == ByteAt(u, 3);
  }

  lemma UnsignedIs(v: int32)
    ensures Unsigned(v) == if v < 0 then v + 0x1_0000_0000 else v
  {
  }

  lemma ByteSizes(u: nat)
    requires u < 0x1_0000_0000
    ensures ByteAt(u, 0) as int < 0x100 && ByteAt(u, 1) as int < 0x100
    ensures ByteAt(u, 2) as int < 0x100 && ByteAt(u, 3) as int < 0x100
  {
  }

  /** On bytes, decoding loses nothing either. */
  lemma IntBytes(a: Argument)
    requires a.kind == IntKind && WellSized(a)
    requires forall i | 0 <= i < 4 :: a.data[i] as int < 0x100
    ensures IntArgument(IntValue(a)) == a
  {
    var b0, b1, b2, b3 := a.data[0] as int, a.data[1] as int, a.data[2] as int, a.data[3] as int;
    ToBytes(b0, b1, b2, b3);
    SignedUnsigned(Word(b0, b1, b2, b3));
    FourBytes(a.data);
  }

  lemma FourBytes(data: string)
    requires |data| == 4
    ensures data == [data[0], data[1], data[2], data[3]]
  {
  }

  lemma FromBytes(u: nat)
    requires u < 0x1_0000_0000
    ensures u == Word(ByteAt(u, 0) as int, ByteAt(u, 1) as int, ByteAt(u, 2) as int, ByteAt(u, 3) as int)
  {
    assert u / 0x1_0000 == u / 0x100 / 0x100;
    assert u / 0x100_0000 == u / 0x1_0000 / 0x100;
  }

  lemma ToBytes(b0: nat, b1: nat, b2: nat, b3: nat)
    requires b0 < 0x100 && b1 < 0x100 && b2 < 0x100 && b3 < 0x100
    ensures var u := Word(b0, b1, b2, b3);
            && u < 0x1_0000_0000
            && ByteAt(u, 0) as int == b0 && ByteAt(u, 1) as int == b1
            && ByteAt(u, 2) as int == b2 && ByteAt(u, 3) as int == b3
  {
    var u := Word(b0, b1, b2, b3);
    assert u / 0x100 == b0 * 0x1_0000 + b1 * 0x100 + b2;
    assert u / 0x1_0000 == b0 * 0x100 + b1;
  }
}
