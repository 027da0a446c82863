/** The registry over sequences of operations: what every run keeps, and whose turn it is. */
module RegistryRuns {
  import opened Wrappers
  import opened Signatures
  import opened Registries

  // ---------------------------------------------------------------- runs of operations

  datatype Op =
    | RegisterOp(sig: ServiceSignature, provider: Provider)
    | DeregisterOp(sig: ServiceSignature, provider: Provider)
    | DeregisterServerOp(provider: Provider)
    | LookupOp(sig: ServiceSignature)

  function Apply(s: Services, op: Op): (t: Services)
    requires Ok(s)
    ensures Ok(t)
  {
    match op
    case RegisterOp(sig, p) => RegisterOk(s, sig, p); Register(s, sig, p).0
    case DeregisterOp(sig, p) => DeregisterRefines(s, sig, p); Deregister(s, sig, p).0
    case DeregisterServerOp(p) => DropOk(s, p, Listing(s, p)); DeregisterServer(s, p).0
    case LookupOp(sig) => LookupOk(s, sig); Lookup(s, sig).0
  }

  /** The registry after a run.  Every reachable one is in order: lists without duplicates and
      never empty, cursors in range, every key the name of a valid signature. */
  function After(s: Services, ops: seq<Op>): (t: Services)
    requires Ok(s)
    ensures Ok(t)
    decreases |ops|
  {
    if ops == [] then s else After(Apply(s, ops[0]), ops[1..])
  }

  /** The name has a provider at the start and after every operation. */
  ghost predicate Stays(s: Services, ops: seq<Op>, name: string)
    requires Ok(s)
    decreases |ops|
  {
    name in s && (ops == [] || Stays(Apply(s, ops[0]), ops[1..], name))
  }

  /** As long as a name has a provider its signature does not change. */
  lemma {:induction false} SignatureFixed(s: Services, ops: seq<Op>, name: string)
    requires Ok(s) && Stays(s, ops, name)
    ensures name in After(s, ops) && After(s, ops)[name].signature == s[name].signature
    decreases |ops|
  {
    if ops == [] {
    } else {
      ApplyKeepsSignature(s, ops[0], name);
      SignatureFixed(Apply(s, ops[0]), ops[1..], name);
    }
  }

  lemma {:induction false} ApplyKeepsSignature(s: Services, op: Op, name: string)
    requires Ok(s) && name in s && name in Apply(s, op)
    ensures Apply(s, op)[name].signature == s[name].signature
  {
    assert EntryOk(name, s[name]);
  }

  // ---------------------------------------------------------------- one entry

  /** What an operation on the registry can do to an entry that it does not remove. */
  datatype EntryOp = Turn | Add(provider: Provider) | Remove(provider: Provider) | Nothing

  predicate InRange(e: Entry) {
    e.lastUsed < |e.providers|
  }

  function Change(e: Entry, o: EntryOp): (r: Entry)
    requires InRange(e)
    ensures InRange(r)
  {
    match o
    case Turn => Advance(e)
    case Add(p) => if p in e.providers then e else e.(providers := e.providers + [p])
    case Remove(p) => if DropFrom(e, p).Some? then DropFrom(e, p).value else e
    case Nothing => e
  }

  function Seen(e: Entry, name: string, op: Op): EntryOp {
    match op
    case RegisterOp(sig, p) =>
      if sig.valid && sig.name == name && sig.text == e.signature.text then Add(p) else Nothing
    case DeregisterOp(sig, p) =>
      if sig.text == ANY.text || (sig.name == name && sig.text == e.signature.text) then Remove(p) else Nothing
    case DeregisterServerOp(p) => Remove(p)
    case LookupOp(sig) => if sig.name == name then Turn else Nothing
  }

  /** Every operation acts on an entry as it is seen there, unless it removes the entry. */
  lemma {:induction false} ApplySeen(s: Services, op: Op, name: string)
    requires Ok(s) && name in s
    ensures var o := Seen(s[name], name, op);
            if o.Remove? && DropFrom(s[name], o.provider).None? then name !in Apply(s, op)
            else name in Apply(s, op) && Apply(s, op)[name] == Change(s[name], o)
  {
    assert EntryOk(name, s[name]);
    match op
    case RegisterOp(sig, p) => RegisterSeen(s, sig, p, name);
    case DeregisterOp(sig, p) => DropSeen(s, p, if sig.text == ANY.text then Listing(s, p) else {sig.name}, name);
    case DeregisterServerOp(p) => DropSeen(s, p, Listing(s, p), name);
    case LookupOp(sig) =>
  }

  lemma {:induction false} RegisterSeen(s: Services, sig: ServiceSignature, p: Provider, name: string)
    requires Ok(s) && name in s
    ensures InRange(s[name]) && name in Register(s, sig, p).0
    ensures Register(s, sig, p).0[name] == Change(s[name], Seen(s[name], name, RegisterOp(sig, p)))
  {
    assert EntryOk(name, s[name]);
  }

  lemma {:induction false} DropSeen(s: Services, p: Provider, names: set<string>, name: string)
    requires Ok(s) && name in s
    ensures InRange(s[name])
    ensures name in names ==>
      if DropFrom(s[name], p).None? then name !in Drop(s, p, names)
      else name in Drop(s, p, names) && Drop(s, p, names)[name] == Change(s[name], Remove(p))
    ensures name !in names ==> name in Drop(s, p, names) && Drop(s, p, names)[name] == s[name]
  {
    assert EntryOk(name, s[name]);
  }

  // ---------------------------------------------------------------- round robin

  /** The entry after `m` consecutive lookups, and the providers they returned. */
  function Turns(e: Entry, m: nat): (r: (Entry, seq<Provider>))
    requires InRange(e)
    ensures InRange(r.0) && r.0.providers == e.providers && |r.1| == m
  {
    if m == 0 then (e, [])
    else
      var (f, ps) := Turns(e, m - 1);
      (Advance(f), ps + [f.providers[f.lastUsed]])
  }

  function LookupMany(s: Services, sig: ServiceSignature, m: nat): (r: (Services, seq<Option<Provider>>))
    requires Ok(s)
    ensures Ok(r.0) && |r.1| == m
  {
    if m == 0 then (s, [])
    else
      var (t, ps) := LookupMany(s, sig, m - 1);
      LookupOk(t, sig);
      (Lookup(t, sig).0, ps + [Lookup(t, sig).1])
  }

  lemma {:induction false} LookupsAreTurns(s: Services, sig: ServiceSignature, m: nat)
    requires Ok(s) && sig.name in s
    ensures EntryOk(sig.name, s[sig.name])
    ensures var (t, ps) := LookupMany(s, sig, m);
            var (e, qs) := Turns(s[sig.name], m);
            t == s[sig.name := e] && forall k | 0 <= k < m :: ps[k] == Some(qs[k])
  {
    if m == 0 {
    } else {
      LookupsAreTurns(s, sig, m - 1);
      var (e, qs) := Turns(s[sig.name], m - 1);
      LookupAtEntry(s, sig, e);
      var ps := LookupMany(s, sig, m - 1).1;
      AllSomeLast(ps, qs, e.providers[e.lastUsed]);
    }
  }

  lemma {:induction false} AllSomeLast(ps: seq<Option<Provider>>, qs: seq<Provider>, q: Provider)
    requires |ps| == |qs| && forall k | 0 <= k < |qs| :: ps[k] == Some(qs[k])
    ensures forall k | 0 <= k < |qs| + 1 :: (ps + [Some(q)])[k] == Some((qs + [q])[k])
  {
  }

  lemma {:induction false} LookupAtEntry(s: Services, sig: ServiceSignature, e: Entry)
    requires Ok(s) && sig.name in s && Ok(s[sig.name := e])
    ensures InRange(e)
    ensures Lookup(s[sig.name := e], sig) == (s[sig.name := Advance(e)], Some(e.providers[e.lastUsed]))
  {
    var t := s[sig.name := e];
    assert EntryOk(sig.name, t[sig.name]);
    assert t[sig.name := Advance(e)] == s[sig.name := Advance(e)];
  }

  /** How many turns it takes until the provider at position `i` is next. */
  function Distance(e: Entry, i: nat): nat
    requires InRange(e) && i < |e.providers|
  {
    if i >= e.lastUsed then i - e.lastUsed else i - e.lastUsed + |e.providers|
  }

  lemma {:induction false} NextCursor(c: nat, n: nat)
    requires c < n
    ensures (c + 1) % n == if c + 1 == n then 0 else c + 1
  {
    if c + 1 < n {
      SmallMod(c + 1, n);
    }
  }

  lemma {:induction false} AdvanceDistance(e: Entry, i: nat)
    requires InRange(e) && i < |e.providers|
    ensures Distance(Advance(e), i) == if e.lastUsed == i then |e.providers| - 1 else Distance(e, i) - 1
  {
    NextCursor(e.lastUsed, |e.providers|);
  }

  function Count<T(==)>(ps: seq<T>, p: T): nat {
    if ps == [] then 0
    else Count(ps[..|ps| - 1], p) + if ps[|ps| - 1] == p then 1 else 0
  }

  lemma {:induction false} TurnsCount(e: Entry, m: nat, i: nat)
    requires InRange(e) && Distinct(e.providers) && i < |e.providers|
    ensures var (f, ps) := Turns(e, m);
            m + Distance(f, i) == Count(ps, e.providers[i]) * |e.providers| + Distance(e, i)
  {
    if m == 0 {
    } else {
      TurnsCount(e, m - 1, i);
      var (f, ps) := Turns(e, m - 1);
      AdvanceDistance(f, i);
      CountLast(ps, f.providers[f.lastUsed], e.providers[i]);
      assert f.providers[f.lastUsed] == e.providers[i] <==> f.lastUsed == i;
      Distribute(Count(ps, e.providers[i]), |e.providers|);
    }
  }

  lemma {:induction false} CountLast<T>(ps: seq<T>, last: T, p: T)
    ensures Count(ps + [last], p) == Count(ps, p) + if last == p then 1 else 0
  {
    assert (ps + [last])[..|ps|] == ps;
  }

  lemma {:induction false} Distribute(q: nat, n: nat)
    ensures (q + 1) * n == q * n + n
  {
  }

  /** Round robin is balanced: among `m` consecutive lookups every one of `n` providers is
      returned m/n times, rounded down or up. */
  lemma {:induction false} RoundRobinBalance(e: Entry, m: nat, i: nat)
    requires InRange(e) && Distinct(e.providers) && i < |e.providers|
    ensures var n := |e.providers|;
            var q := Count(Turns(e, m).1, e.providers[i]);
            q == m / n || (m % n != 0 && q == m / n + 1)
  {
    TurnsCount(e, m, i);
    Rounding(m, |e.providers|, Count(Turns(e, m).1, e.providers[i]));
  }

  lemma {:induction false} Rounding(m: nat, n: nat, q: nat)
    requires n > 0 && m - n < q * n < m + n
    ensures q == m / n || (m % n != 0 && q == m / n + 1)
  {
    var a, b := m / n, m % n;
    assert m == a * n + b;
    Distribute(q, n);
    Distribute(a, n);
    Distribute(a + 1, n);
    if q < a {
      Multiples(q + 1, a, n);
    } else if q > a + 1 {
      Multiples(a + 2, q, n);
    }
  }

  lemma {:induction false} Multiples(a: nat, b: nat, n: nat)
    requires a <= b
    ensures a * n <= b * n
  {
  }

  /** And any `n` consecutive lookups return the list of providers, rotated to the cursor. */
  lemma {:induction false} FullTurn(e: Entry)
    requires InRange(e)
    ensures Turns(e, |e.providers|) == (e, e.providers[e.lastUsed..] + e.providers[..e.lastUsed])
  {
    var c, n := e.lastUsed, |e.providers|;
    TurnsAhead(e, n - c);
    TurnsAround(e, n);
    assert e.providers[c..n] == e.providers[c..];
  }

  lemma {:induction false} TurnsAhead(e: Entry, m: nat)
    requires InRange(e) && e.lastUsed + m <= |e.providers|
    ensures var c, n := e.lastUsed, |e.providers|;
            Turns(e, m) == (e.(lastUsed := if c + m == n then 0 else c + m), e.providers[c..c + m])
  {
    var c := e.lastUsed;
    if m == 0 {
      assert e.providers[c..c + m] == [];
    } else {
      TurnsAhead(e, m - 1);
      NextCursor(c + m - 1, |e.providers|);
      assert e.providers[c..c + m - 1] + [e.providers[c + m - 1]] == e.providers[c..c + m];
    }
  }

  lemma {:induction false} TurnsAround(e: Entry, m: nat)
    requires InRange(e) && |e.providers| - e.lastUsed <= m <= |e.providers|
    ensures var c, n := e.lastUsed, |e.providers|;
            Turns(e, m) == (e.(lastUsed := c + m - n), e.providers[c..] + e.providers[..c + m - n])
  {
    var c, n := e.lastUsed, |e.providers|;
    if m == n - c {
      TurnsAhead(e, m);
      assert e.providers[c..] + e.providers[..0] == e.providers[c..c + m];
    } else {
      TurnsAround(e, m - 1);
      NextCursor(c + m - 1 - n, n);
      var k := c + m - 1 - n;
      assert e.providers[c..] + e.providers[..k] + [e.providers[k]] == e.providers[c..] + e.providers[..k + 1];
    }
  }

  // ---------------------------------------------------------------- bounded waiting

  /** The provider is listed at or after the cursor. */
  predicate Waiting(e: Entry, t: Provider) {
    InRange(e) && t in e.providers && e.lastUsed <= Find(e.providers, t)
  }

  /** Not the one kind of removal that makes a provider lose its turn: an entry before the cursor
      goes while the provider is next, and yet others remain.  Removing the provider itself is no
      fair game either. */
  predicate Benign(e: Entry, o: EntryOp, t: Provider)
    requires InRange(e)
  {
    o.Remove? ==>
      && o.provider != t
      && (Find(e.providers, o.provider) < e.lastUsed ==> e.providers[e.lastUsed] != t || |e.providers| == 2)
  }

  predicate AllBenign(e: Entry, os: seq<EntryOp>, t: Provider)
    requires InRange(e)
    decreases |os|
  {
    os == [] || (Benign(e, os[0], t) && AllBenign(Change(e, os[0]), os[1..], t))
  }

  /** One of the turns returns the provider. */
  predicate Serves(e: Entry, os: seq<EntryOp>, t: Provider)
    requires InRange(e)
    decreases |os|
  {
    os != [] && ((os[0] == Turn && e.providers[e.lastUsed] == t) || Serves(Change(e, os[0]), os[1..], t))
  }

  function TurnsIn(os: seq<EntryOp>): nat {
    if os == [] then 0 else (if os[0] == Turn then 1 else 0) + TurnsIn(os[1..])
  }

  lemma {:induction false} FindIs(list: seq<Provider>, i: nat)
    requires Distinct(list) && i < |list|
    ensures Find(list, list[i]) == i
  {
  }

  /** A step of another provider's: the waiting provider keeps its place or moves up. */
  lemma {:induction false} StepWaiting(e: Entry, o: EntryOp, t: Provider)
    requires Distinct(e.providers) && Waiting(e, t) && Benign(e, o, t)
    ensures Distinct(Change(e, o).providers)
    ensures (o == Turn && e.providers[e.lastUsed] == t) || Waiting(Change(e, o), t)
    ensures var before := Find(e.providers, t) - e.lastUsed;
            var after := Find(Change(e, o).providers, t) - Change(e, o).lastUsed;
            && (o == Turn && e.providers[e.lastUsed] != t ==> after == before - 1)
            && (o != Turn ==> after <= before)
            && ((o.Add? || o.Nothing?) ==> after == before)
  {
    match o
    case Turn => NextCursor(e.lastUsed, |e.providers|);
    case Add(p) => AddWaiting(e, p, t);
    case Remove(p) => RemoveWaiting(e, p, t);
    case Nothing =>
  }

  lemma {:induction false} AddWaiting(e: Entry, p: Provider, t: Provider)
    requires Distinct(e.providers) && t in e.providers
    ensures Distinct(e.providers + [p]) || p in e.providers
    ensures Find(e.providers + [p], t) == Find(e.providers, t)
  {
    var i := Find(e.providers, t);
    assert (e.providers + [p])[i] == t;
  }

  lemma {:induction false} RemoveWaiting(e: Entry, p: Provider, t: Provider)
    requires Distinct(e.providers) && Waiting(e, t) && Benign(e, Remove(p), t)
    ensures var f := Change(e, Remove(p));
            && Distinct(f.providers) && Waiting(f, t)
            && Find(f.providers, t) - f.lastUsed <= Find(e.providers, t) - e.lastUsed
  {
    if p in e.providers {
      var k, i := Find(e.providers, p), Find(e.providers, t);
      assert Change(e, Remove(p)) == Without(e, k);
      if |e.providers| == 2 {
        LastOfTwo(e, k, i);
      } else {
        WithoutWaiting(e, k, i);
      }
    }
  }

  lemma {:induction false} LastOfTwo(e: Entry, k: nat, i: nat)
    requires |e.providers| == 2 && k < 2 && i < 2 && k != i
    ensures Without(e, k).providers == [e.providers[i]] && Without(e, k).lastUsed == 0
    ensures Find([e.providers[i]], e.providers[i]) == 0
  {
  }

  /** And nothing less will do: a removal of another provider lets a waiting one wait no longer than
      before exactly if it is benign. */
  lemma {:induction false} RemovalExact(e: Entry, p: Provider, t: Provider)
    requires Distinct(e.providers) && Waiting(e, t) && p != t
    ensures var f := Change(e, Remove(p));
            Waiting(f, t) && Find(f.providers, t) - f.lastUsed <= Find(e.providers, t) - e.lastUsed
            <==> Benign(e, Remove(p), t)
  {
    if Benign(e, Remove(p), t) {
      RemoveWaiting(e, p, t);
    } else {
      LosesTurn(e, p, t);
      FindIs(e.providers, e.lastUsed);
    }
  }

  lemma {:induction false} WithoutWaiting(e: Entry, k: nat, i: nat)
    requires Distinct(e.providers) && e.lastUsed <= i < |e.providers| && k < |e.providers| && k != i
    requires k < e.lastUsed ==> e.lastUsed != i
    ensures |e.providers| > 1
    ensures var f, t := Without(e, k), e.providers[i];
            && Distinct(f.providers) && Waiting(f, t)
            && Find(f.providers, t) - f.lastUsed <= i - e.lastUsed
  {
    ErasedCursor(e, k, i);
    ErasedFind(e.providers, k, i);
  }

  lemma {:induction false} ErasedCursor(e: Entry, k: nat, i: nat)
    requires e.lastUsed <= i < |e.providers| && k < |e.providers| && k != i
    requires k < e.lastUsed ==> e.lastUsed != i
    ensures Without(e, k).lastUsed == e.lastUsed < |Without(e, k).providers|
  {
    SmallMod(e.lastUsed, |e.providers| - 1);
  }

  lemma {:induction false} ErasedFind(list: seq<Provider>, k: nat, i: nat)
    requires Distinct(list) && k < |list| && i < |list| && k != i
    ensures var rest := list[..k] + list[k + 1..];
            Distinct(rest) && list[i] in rest && Find(rest, list[i]) == if i < k then i else i - 1
  {
    var rest := list[..k] + list[k + 1..];
    ErasedMembers(list, k);
    var j := if i < k then i else i - 1;
    assert rest[j] == list[i];
    FindIs(rest, j);
  }

  /** Bounded waiting: a provider at or after the cursor is returned once there have been more
      turns than there are providers from the cursor to it, whatever else is registered or
      removed meanwhile. */
  lemma {:induction false} BoundedWaiting(e: Entry, os: seq<EntryOp>, t: Provider)
    requires Distinct(e.providers) && Waiting(e, t) && AllBenign(e, os, t)
    requires TurnsIn(os) > Find(e.providers, t) - e.lastUsed
    ensures Serves(e, os, t)
    decreases |os|
  {
    StepWaiting(e, os[0], t);
    if os[0] == Turn && e.providers[e.lastUsed] == t {
    } else {
      BoundedWaiting(Change(e, os[0]), os[1..], t);
    }
  }

  /** And not before, if nothing is removed. */
  lemma {:induction false} NotBefore(e: Entry, os: seq<EntryOp>, t: Provider)
    requires Distinct(e.providers) && Waiting(e, t)
    requires forall i | 0 <= i < |os| :: !os[i].Remove?
    requires TurnsIn(os) <= Find(e.providers, t) - e.lastUsed
    ensures !Serves(e, os, t)
    decreases |os|
  {
    if os == [] {
    } else {
      StepWaiting(e, os[0], t);
      NotBefore(Change(e, os[0]), os[1..], t);
    }
  }

  /** Removing an entry before the cursor sends the provider whose turn it is to the end of the
      queue; that is a loss unless it is now alone. */
  lemma {:induction false} LosesTurn(e: Entry, p: Provider, t: Provider)
    requires Distinct(e.providers) && InRange(e) && e.providers[e.lastUsed] == t
    requires Find(e.providers, p) < e.lastUsed
    ensures var f := Change(e, Remove(p));
            t in f.providers && Distance(f, Find(f.providers, t)) == |f.providers| - 1
  {
    var k, c := Find(e.providers, p), e.lastUsed;
    assert Change(e, Remove(p)) == Without(e, k);
    NextErased(e, k);
  }

  lemma {:induction false} NextErased(e: Entry, k: nat)
    requires Distinct(e.providers) && InRange(e) && k < e.lastUsed
    ensures var f, t := Without(e, k), e.providers[e.lastUsed];
            t in f.providers && InRange(f) && Distance(f, Find(f.providers, t)) == |f.providers| - 1
  {
    ErasedFind(e.providers, k, e.lastUsed);
    WithoutCursor(e, k);
  }

  lemma {:induction false} WithoutCursor(e: Entry, k: nat)
    requires k < |e.providers| && InRange(e) && |e.providers| > 1
    ensures Without(e, k).lastUsed == if e.lastUsed == |e.providers| - 1 then 0 else e.lastUsed
  {
    if e.lastUsed < |e.providers| - 1 {
      SmallMod(e.lastUsed, |e.providers| - 1);
    }
  }

  /** A provider that was just added has such a bound: it is last in the list. */
  lemma {:induction false} NewcomerWaits(e: Entry, p: Provider)
    requires InRange(e) && p !in e.providers
    ensures Waiting(Change(e, Add(p)), p)
    ensures Find(Change(e, Add(p)).providers, p) - Change(e, Add(p)).lastUsed == |e.providers| - e.lastUsed
  {
    FindAppended(e.providers, p);
  }

  /** The bound does not extend to a provider before the cursor: if new providers keep coming, one
      for every lookup, the cursor never gets back to it. */
  lemma {:induction false} Starvation(e: Entry, t: Provider, k: nat) returns (os: seq<EntryOp>)
    requires Distinct(e.providers) && InRange(e) && t in e.providers && Find(e.providers, t) < e.lastUsed
    ensures TurnsIn(os) == k && AllBenign(e, os, t) && !Serves(e, os, t)
    ensures forall i | 0 <= i < |os| :: os[i].Turn? || os[i].Add?
    decreases k
  {
    if k == 0 {
      os := [];
    } else {
      var p := Newcomer(e.providers);
      var f := EntryRound(e, p, t);
      var more := Starvation(f, t, k - 1);
      os := [Add(p)] + ([Turn] + more);
      assert os[1..] == [Turn] + more && os[1..][1..] == more;
    }
  }

  /** One more provider, one turn: the cursor moves on and away. */
  lemma {:induction false} EntryRound(e: Entry, p: Provider, t: Provider) returns (f: Entry)
    requires Distinct(e.providers) && InRange(e) && t in e.providers && Find(e.providers, t) < e.lastUsed
    requires p !in e.providers
    ensures var added := e.(providers := e.providers + [p]);
            && Change(e, Add(p)) == added && added.providers[added.lastUsed] != t
            && f == Change(added, Turn)
    ensures Distinct(f.providers) && InRange(f) && f.signature == e.signature
    ensures t in f.providers && Find(f.providers, t) < f.lastUsed
  {
    AddWaiting(e, p, t);
    var added := e.(providers := e.providers + [p]);
    FindIs(e.providers, e.lastUsed);
    assert added.providers[added.lastUsed] == e.providers[e.lastUsed];
    NextCursor(e.lastUsed, |added.providers|);
    f := added.(lastUsed := e.lastUsed + 1);
  }

  lemma {:induction false} Newcomer(list: seq<Provider>) returns (p: Provider)
    ensures p !in list
  {
    var n := Longest(list);
    p := Provider(seq(n + 1, _ => 'x'), "");
  }

  lemma {:induction false} Longest(list: seq<Provider>) returns (n: nat)
    ensures forall p | p in list :: |p.host| <= n
  {
    if list == [] {
      n := 0;
    } else {
      n := Longest(list[1..]);
      if |list[0].host| > n {
        n := |list[0].host|;
      }
    }
  }

  // ---------------------------------------------------------------- bounded waiting in the registry

  /** What a run of operations on the registry does to the entry of a name. */
  function SeenAll(s: Services, ops: seq<Op>, name: string): seq<EntryOp>
    requires Ok(s)
    decreases |ops|
  {
    if ops == [] || name !in s then []
    else [Seen(s[name], name, ops[0])] + SeenAll(Apply(s, ops[0]), ops[1..], name)
  }

  /** A lookup of the name returns the provider. */
  ghost predicate Returned(s: Services, ops: seq<Op>, name: string, t: Provider)
    requires Ok(s)
    decreases |ops|
  {
    ops != [] && (
      || (ops[0].LookupOp? && ops[0].sig.name == name && Lookup(s, ops[0].sig).1 == Some(t))
      || Returned(Apply(s, ops[0]), ops[1..], name, t))
  }

  function LookupsOf(ops: seq<Op>, name: string): nat {
    if ops == [] then 0
    else (if ops[0].LookupOp? && ops[0].sig.name == name then 1 else 0) + LookupsOf(ops[1..], name)
  }

  /** One operation: unless it is the lookup that returns the waiting provider, that keeps its
      place or moves up, and a lookup of its name is none that returns it. */
  lemma {:induction false} StepInRegistry(s: Services, op: Op, name: string, t: Provider) returns (next: Services)
    requires Ok(s) && name in s && InRange(s[name]) && Waiting(s[name], t)
    requires Benign(s[name], Seen(s[name], name, op), t)
    ensures next == Apply(s, op) && Ok(next) && name in next && next[name] == Change(s[name], Seen(s[name], name, op))
    ensures (op.LookupOp? && op.sig.name == name) <==> Seen(s[name], name, op) == Turn
    ensures (op.LookupOp? && op.sig.name == name && Lookup(s, op.sig).1 == Some(t))
        <==> Seen(s[name], name, op) == Turn && s[name].providers[s[name].lastUsed] == t
  {
    assert EntryOk(name, s[name]);
    ApplySeen(s, op, name);
    next := Apply(s, op);
  }

  /** Bounded waiting over whole runs of the registry, operations on other services included. */
  lemma {:induction false} BoundedWaitingInRegistry(s: Services, ops: seq<Op>, name: string, t: Provider)
    requires Ok(s) && name in s && InRange(s[name]) && Waiting(s[name], t)
    requires AllBenign(s[name], SeenAll(s, ops, name), t)
    requires LookupsOf(ops, name) > Find(s[name].providers, t) - s[name].lastUsed
    ensures Returned(s, ops, name, t)
    decreases |ops|
  {
    var o := FirstSeen(s, ops, name);
    assert EntryOk(name, s[name]);
    var next := StepInRegistry(s, ops[0], name, t);
    StepWaiting(s[name], o, t);
    if o == Turn && s[name].providers[s[name].lastUsed] == t {
    } else {
      BoundedWaitingInRegistry(next, ops[1..], name, t);
    }
  }

  lemma {:induction false} FirstSeen(s: Services, ops: seq<Op>, name: string) returns (o: EntryOp)
    requires Ok(s) && name in s && ops != []
    ensures o == Seen(s[name], name, ops[0])
    ensures SeenAll(s, ops, name) != []
    ensures SeenAll(s, ops, name)[0] == o && SeenAll(s, ops, name)[1..] == SeenAll(Apply(s, ops[0]), ops[1..], name)
  {
    o := Seen(s[name], name, ops[0]);
  }

  predicate NoRemoval(ops: seq<Op>) {
    forall i | 0 <= i < |ops| :: ops[i].RegisterOp? || ops[i].LookupOp?
  }

  /** Without removals the bound is exact: the provider is returned once the lookups of the name
      outnumber the providers from the cursor to it, and not before. */
  lemma {:induction false} ExactWaitInRegistry(s: Services, ops: seq<Op>, name: string, t: Provider)
    requires Ok(s) && name in s && InRange(s[name]) && Waiting(s[name], t)
    requires NoRemoval(ops)
    ensures Returned(s, ops, name, t) <==> LookupsOf(ops, name) > Find(s[name].providers, t) - s[name].lastUsed
    decreases |ops|
  {
    if ops == [] {
    } else {
      var o := Seen(s[name], name, ops[0]);
      assert EntryOk(name, s[name]);
      var next := StepInRegistry(s, ops[0], name, t);
      StepWaiting(s[name], o, t);
      if o == Turn && s[name].providers[s[name].lastUsed] == t {
      } else {
        ExactWaitInRegistry(next, ops[1..], name, t);
      }
    }
  }

  /** A provider that was just registered has such a bound, for an existing service and for one
      that begins with it. */
  lemma {:induction false} NewcomerInRegistry(s: Services, sig: ServiceSignature, p: Provider)
    requires Ok(s) && Register(s, sig, p).1 == Success(true)
    ensures var t := Register(s, sig, p).0;
            && sig.name in t && InRange(t[sig.name]) && Waiting(t[sig.name], p)
            && Find(t[sig.name].providers, p) - t[sig.name].lastUsed
            == if sig.name in s then |s[sig.name].providers| - s[sig.name].lastUsed else 0
  {
    assert sig.name in s ==> EntryOk(sig.name, s[sig.name]);
    FindAppended(At(s, sig.name).providers, p);
  }

  /** A provider before the cursor has none: if a new provider registers before every lookup, it can
      be kept waiting for any number of lookups, although nothing is ever removed. */
  lemma {:induction false} StarvationInRegistry(s: Services, sig: ServiceSignature, t: Provider, k: nat)
    returns (ops: seq<Op>)
    requires Ok(s) && sig.name in s && sig.valid && s[sig.name].signature.text == sig.text
    requires InRange(s[sig.name]) && t in s[sig.name].providers
    requires Find(s[sig.name].providers, t) < s[sig.name].lastUsed
    ensures LookupsOf(ops, sig.name) == k && !Returned(s, ops, sig.name, t)
    ensures NoRemoval(ops)
    decreases k
  {
    if k == 0 {
      ops := [];
    } else {
      var p := Newcomer(s[sig.name].providers);
      var added, turned := StarvationRound(s, sig, p, t);
      var more := StarvationInRegistry(turned, sig, t, k - 1);
      var rest := [LookupOp(sig)] + more;
      NotFirst(added, LookupOp(sig), more, sig.name, t);
      NotFirst(s, RegisterOp(sig, p), rest, sig.name, t);
      NoRemovalFirst(LookupOp(sig), more);
      NoRemovalFirst(RegisterOp(sig, p), rest);
      ops := [RegisterOp(sig, p)] + rest;
    }
  }

  lemma {:induction false} NotFirst(s: Services, op: Op, more: seq<Op>, name: string, t: Provider)
    requires Ok(s) && !(op.LookupOp? && op.sig.name == name && Lookup(s, op.sig).1 == Some(t))
    ensures Returned(s, [op] + more, name, t) <==> Returned(Apply(s, op), more, name, t)
    ensures LookupsOf([op] + more, name) == LookupsOf(more, name) + if op.LookupOp? && op.sig.name == name then 1 else 0
  {
    assert ([op] + more)[1..] == more;
  }

  lemma {:induction false} NoRemovalFirst(op: Op, more: seq<Op>)
    requires (op.RegisterOp? || op.LookupOp?) && NoRemoval(more)
    ensures NoRemoval([op] + more)
  {
  }

  /** One more provider, one lookup: the cursor moves on and away. */
  lemma {:induction false} StarvationRound(s: Services, sig: ServiceSignature, p: Provider, t: Provider)
    returns (added: Services, turned: Services)
    requires Ok(s) && sig.name in s && sig.valid && s[sig.name].signature.text == sig.text
    requires InRange(s[sig.name]) && t in s[sig.name].providers && p !in s[sig.name].providers
    requires Find(s[sig.name].providers, t) < s[sig.name].lastUsed
    ensures added == Apply(s, RegisterOp(sig, p)) && Ok(added) && sig.name in added
    ensures Lookup(added, sig).1 != Some(t)
    ensures turned == Apply(added, LookupOp(sig)) && Ok(turned) && sig.name in turned
    ensures var f := turned[sig.name];
            && f.signature.text == sig.text && InRange(f) && t in f.providers && Find(f.providers, t) < f.lastUsed
  {
    var e := s[sig.name];
    assert EntryOk(sig.name, e);
    var f := EntryRound(e, p, t);
    added := Apply(s, RegisterOp(sig, p));
    ApplySeen(s, RegisterOp(sig, p), sig.name);
    turned := Apply(added, LookupOp(sig));
    ApplySeen(added, LookupOp(sig), sig.name);
    assert turned[sig.name] == f;
  }

  // ---------------------------------------------------------------- round robin in the registry

  /** What lookups that find these providers return. */
  function Answers(qs: seq<Provider>): (ps: seq<Option<Provider>>)
    ensures |ps| == |qs|
  {
    seq(|qs|, k requires 0 <= k < |qs| => Some(qs[k]))
  }

  lemma {:induction false} LookupsAnswer(s: Services, sig: ServiceSignature, m: nat)
    requires Ok(s) && sig.name in s
    ensures EntryOk(sig.name, s[sig.name])
    ensures LookupMany(s, sig, m) == (s[sig.name := Turns(s[sig.name], m).0], Answers(Turns(s[sig.name], m).1))
  {
    LookupsAreTurns(s, sig, m);
    assert LookupMany(s, sig, m).1 == Answers(Turns(s[sig.name], m).1);
  }

  lemma {:induction false} CountAnswers(qs: seq<Provider>, p: Provider)
    ensures Count(Answers(qs), Some(p)) == Count(qs, p)
  {
    if qs == [] {
    } else {
      var last := |qs| - 1;
      CountAnswers(qs[..last], p);
      assert Answers(qs)[..last] == Answers(qs[..last]);
    }
  }

  /** Among `m` consecutive lookups of a name each of its `n` providers is returned m/n times,
      rounded down or up. */
  lemma {:induction false} BalanceInRegistry(s: Services, sig: ServiceSignature, m: nat, p: Provider)
    requires Ok(s) && sig.name in s && p in s[sig.name].providers
    ensures var n, q := |s[sig.name].providers|, Count(LookupMany(s, sig, m).1, Some(p));
            q == m / n || (m % n != 0 && q == m / n + 1)
  {
    var e := s[sig.name];
    LookupsAnswer(s, sig, m);
    CountAnswers(Turns(e, m).1, p);
    RoundRobinBalance(e, m, Find(e.providers, p));
  }

  /** The list, from the cursor around to it. */
  function Rotation(e: Entry): seq<Provider>
    requires InRange(e)
  {
    e.providers[e.lastUsed..] + e.providers[..e.lastUsed]
  }

  /** As many consecutive lookups of a name as it has providers return each of them once, from the
      cursor on, and leave the registry as it was. */
  lemma {:induction false} FullTurnInRegistry(s: Services, sig: ServiceSignature)
    requires Ok(s) && sig.name in s
    ensures EntryOk(sig.name, s[sig.name])
    ensures LookupMany(s, sig, |s[sig.name].providers|) == (s, Answers(Rotation(s[sig.name])))
  {
    var e := s[sig.name];
    LookupsAnswer(s, sig, |e.providers|);
    FullTurn(e);
    assert s[sig.name := e] == s;
  }

  lemma {:induction false} RotationLast(e: Entry, t: Provider)
    requires Distinct(e.providers) && InRange(e) && t in e.providers
    requires Distance(e, Find(e.providers, t)) == |e.providers| - 1
    ensures var n := |e.providers|;
            Rotation(e)[n - 1] == t && forall k | 0 <= k < n - 1 :: Rotation(e)[k] != t
  {
    var c, n := e.lastUsed, |e.providers|;
    var i := Find(e.providers, t);
    assert forall k | 0 <= k < n :: Rotation(e)[k] == e.providers[if k < n - c then c + k else k - (n - c)];
    assert i == if c == 0 then n - 1 else c - 1;
  }

  /** The provider before the cursor is the last that lookups of the name come to. */
  lemma {:induction false} LastInTurn(s: Services, sig: ServiceSignature, t: Provider)
    requires Ok(s) && sig.name in s && InRange(s[sig.name]) && t in s[sig.name].providers
    requires Distance(s[sig.name], Find(s[sig.name].providers, t)) == |s[sig.name].providers| - 1
    ensures ReturnedLast(LookupMany(s, sig, |s[sig.name].providers|).1, t)
  {
    var e := s[sig.name];
    assert EntryOk(sig.name, e);
    FullTurnInRegistry(s, sig);
    RotationLast(e, t);
    AnswersLast(Rotation(e), t);
  }

  lemma {:induction false} AnswersLast(qs: seq<Provider>, t: Provider)
    requires qs != [] && qs[|qs| - 1] == t && forall k | 0 <= k < |qs| - 1 :: qs[k] != t
    ensures ReturnedLast(Answers(qs), t)
  {
  }

  predicate ReturnedLast(ps: seq<Option<Provider>>, t: Provider) {
    ps != [] && ps[|ps| - 1] == Some(t) && forall k | 0 <= k < |ps| - 1 :: ps[k] != Some(t)
  }

  /** Whatever operation removes a provider before the cursor, the provider whose turn it was is
      returned last: only after all others that are still listed. */
  lemma {:induction false} LosesTurnInRegistry(
    s: Services, op: Op, sig: ServiceSignature, p: Provider, t: Provider) returns (after: Services)
    requires Ok(s) && sig.name in s && InRange(s[sig.name]) && Seen(s[sig.name], sig.name, op) == Remove(p)
    requires s[sig.name].providers[s[sig.name].lastUsed] == t
    requires Find(s[sig.name].providers, p) < s[sig.name].lastUsed
    ensures after == Apply(s, op) && sig.name in after
    ensures ReturnedLast(LookupMany(after, sig, |after[sig.name].providers|).1, t)
  {
    after := AfterRemoval(s, op, sig.name, p, t);
    LastInTurn(after, sig, t);
  }

  lemma {:induction false} AfterRemoval(s: Services, op: Op, name: string, p: Provider, t: Provider)
    returns (after: Services)
    requires Ok(s) && name in s && InRange(s[name]) && Seen(s[name], name, op) == Remove(p)
    requires s[name].providers[s[name].lastUsed] == t && Find(s[name].providers, p) < s[name].lastUsed
    ensures after == Apply(s, op) && Ok(after) && name in after && InRange(after[name])
    ensures |after[name].providers| == |s[name].providers| - 1 && t in after[name].providers
    ensures Distance(after[name], Find(after[name].providers, t)) == |after[name].providers| - 1
  {
    assert EntryOk(name, s[name]);
    LosesTurn(s[name], p, t);
    RemovedOne(s[name], p);
    ApplySeen(s, op, name);
    after := Apply(s, op);
  }

  lemma {:induction false} RemovedOne(e: Entry, p: Provider)
    requires InRange(e) && Find(e.providers, p) < e.lastUsed
    ensures DropFrom(e, p).Some? && |Change(e, Remove(p)).providers| == |e.providers| - 1
  {
  }
}
