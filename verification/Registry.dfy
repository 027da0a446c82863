/**
 The service registry: a map from service names to a signature, the providers of the service
 and the position of the provider to return next.
 */
module Registries {
  import opened Wrappers
  import opened Signatures

  datatype Provider = Provider(host: string, port: string)

  /** What the registry relies on: only the wildcard has the text of the wildcard.  Every
      constructed signature is of this kind. */
  type ServiceSignature = f: Fields | f.valid ==> f.text != ANY.text witness ANY

  datatype Entry = Entry(signature: ServiceSignature, providers: seq<Provider>, lastUsed: nat)

  type Services = map<string, Entry>

  /** `std::find`: the first position of a provider, or the length of the list. */
  function Find(list: seq<Provider>, p: Provider): (i: nat)
    ensures i <= |list| && (i < |list| ==> list[i] == p)
    ensures forall k | 0 <= k < i :: list[k] != p
    ensures p in list <==> i < |list|
  {
    if list == [] then 0
    else if list[0] == p then 0
    else 1 + Find(list[1..], p)
  }

  ghost predicate Distinct(list: seq<Provider>) {
    forall i, j | 0 <= i < j < |list| :: list[i] != list[j]
  }

  /** What every entry keeps. */
  ghost predicate EntryOk(name: string, e: Entry) {
    && e.signature.valid && e.signature.name == name && e.signature.text != ANY.text
    && Distinct(e.providers) && e.lastUsed < |e.providers|
  }

  ghost predicate Ok(s: Services) {
    forall n | n in s :: EntryOk(n, s[n])
  }

  // ---------------------------------------------------------------- operations

  /** The entry of a name; a missing one is created by being asked for. */
  function At(s: Services, name: string): Entry {
    if name in s then s[name] else Entry(ANY, [], 0)
  }

  const BAD_SIGNATURE := "The specified signature is not valid."
  const OTHER_SIGNATURE := "Is already registered a service with same name and different signature."

  function RegisterAt(e: Entry, sig: ServiceSignature, p: Provider): Result<(Entry, bool)> {
    if e.signature.text != ANY.text && e.signature.text != sig.text then Failure(OTHER_SIGNATURE)
    else
      var signature := if e.signature.text == ANY.text then sig else e.signature;
      if p in e.providers then Success((Entry(signature, e.providers, e.lastUsed), false))
      else Success((Entry(signature, e.providers + [p], e.lastUsed), true))
  }

  function Register(s: Services, sig: ServiceSignature, p: Provider): (Services, Result<bool>) {
    if !sig.valid then (s, Failure(BAD_SIGNATURE))
    else
      match RegisterAt(At(s, sig.name), sig, p)
      case Failure(m) => (s, Failure(m))
      case Success((e, added)) => (s[sig.name := e], Success(added))
  }

  /** The entry without the provider at a position; the cursor is brought back into range. */
  function Without(e: Entry, i: nat): Entry
    requires i < |e.providers|
  {
    var list := e.providers[..i] + e.providers[i + 1..];
    e.(providers := list, lastUsed := if |list| > 0 then e.lastUsed % |list| else 0)
  }

  /** An entry after the removal of a provider; `None` if no provider is left. */
  function DropFrom(e: Entry, p: Provider): Option<Entry> {
    if p !in e.providers then Some(e)
    else if |e.providers| == 1 then None
    else Some(Without(e, Find(e.providers, p)))
  }

  /** Removes a provider from the entries in `names`, and the entries that are left empty. */
  function Drop(s: Services, p: Provider, names: set<string>): Services {
    map n | n in s && (n in names ==> DropFrom(s[n], p).Some?) ::
      if n in names then DropFrom(s[n], p).value else s[n]
  }

  /** The services that list a provider. */
  function Listing(s: Services, p: Provider): set<string> {
    set n | n in s && p in s[n].providers
  }

  function DeregisterServer(s: Services, p: Provider): (Services, nat) {
    (Drop(s, p, Listing(s, p)), |Listing(s, p)|)
  }

  function Deregister(s: Services, sig: ServiceSignature, p: Provider): (Services, bool) {
    if sig.text == ANY.text then (DeregisterServer(s, p).0, DeregisterServer(s, p).1 > 0)
    else if sig.name in s && s[sig.name].signature.text == sig.text && p in s[sig.name].providers then
      (Drop(s, p, {sig.name}), true)
    else (s, false)
  }

  /** The entry after a lookup has moved the cursor on. */
  function Advance(e: Entry): Entry
    requires e.lastUsed < |e.providers|
  {
    e.(lastUsed := (e.lastUsed + 1) % |e.providers|)
  }

  function Lookup(s: Services, sig: ServiceSignature): (Services, Option<Provider>)
    requires Ok(s)
  {
    if sig.name !in s then (s, None)
    else
      var e := s[sig.name];
      assert EntryOk(sig.name, e);
      (s[sig.name := Advance(e)], Some(e.providers[e.lastUsed]))
  }

  // ---------------------------------------------------------------- what operations keep

  lemma {:induction false} WithoutOk(name: string, e: Entry, i: nat)
    requires EntryOk(name, e) && i < |e.providers| && |e.providers| > 1
    ensures EntryOk(name, Without(e, i))
    ensures forall q :: q in Without(e, i).providers <==> q in e.providers && q != e.providers[i]
  {
    ErasedMembers(e.providers, i);
  }

  lemma {:induction false} ErasedMembers(list: seq<Provider>, i: nat)
    requires Distinct(list) && i < |list|
    ensures var rest := list[..i] + list[i + 1..];
            && Distinct(rest) && forall q :: q in rest <==> q in list && q != list[i]
  {
    var rest := list[..i] + list[i + 1..];
    assert forall k | 0 <= k < |rest| :: rest[k] == list[if k < i then k else k + 1];
    forall q | q in list && q != list[i]
      ensures q in rest
    {
      var k :| 0 <= k < |list| && list[k] == q;
      assert rest[if k < i then k else k - 1] == q;
    }
  }

  lemma {:induction false} RegisterAtOk(e: Entry, sig: ServiceSignature, p: Provider)
    requires sig.valid && (e == Entry(ANY, [], 0) || EntryOk(sig.name, e))
    ensures var r := RegisterAt(e, sig, p);
            && (r.Failure? <==> e.signature.text != ANY.text && e.signature.text != sig.text)
            && (r.Success? ==>
                  && EntryOk(sig.name, r.value.0) && r.value.0.signature.text == sig.text
                  && (forall q :: q in r.value.0.providers <==> q in e.providers || q == p)
                  && (r.value.1 <==> p !in e.providers))
  {
  }

  lemma {:induction false} RegisterOk(s: Services, sig: ServiceSignature, p: Provider)
    requires Ok(s)
    ensures Ok(Register(s, sig, p).0)
  {
    var e := At(s, sig.name);
    assert sig.name in s ==> EntryOk(sig.name, e);
    if sig.valid {
      RegisterAtOk(e, sig, p);
    }
  }

  lemma {:induction false} DropFromOk(name: string, e: Entry, p: Provider)
    requires EntryOk(name, e)
    ensures var r := DropFrom(e, p);
            && (r.None? ==> forall q | q in e.providers :: q == p)
            && (r.Some? ==>
                  && EntryOk(name, r.value) && r.value.signature == e.signature
                  && forall q :: q in r.value.providers <==> q in e.providers && q != p)
  {
    if p in e.providers && |e.providers| > 1 {
      WithoutOk(name, e, Find(e.providers, p));
    }
  }

  lemma {:induction false} DropOk(s: Services, p: Provider, names: set<string>)
    requires Ok(s)
    ensures Ok(Drop(s, p, names))
  {
    forall n | n in Drop(s, p, names)
      ensures EntryOk(n, Drop(s, p, names)[n])
    {
      DropFromOk(n, s[n], p);
    }
  }

  lemma {:induction false} LookupOk(s: Services, sig: ServiceSignature)
    requires Ok(s)
    ensures Ok(Lookup(s, sig).0)
  {
    if sig.name in s {
      assert EntryOk(sig.name, s[sig.name]);
    }
  }

  // ---------------------------------------------------------------- the relation behind the map

  /** A provider is registered for a service under a signature. */
  datatype Fact = Fact(name: string, text: string, provider: Provider)

  ghost predicate Holds(s: Services, f: Fact) {
    f.name in s && s[f.name].signature.text == f.text && f.provider in s[f.name].providers
  }

  /** Registering adds one fact, and says whether it is new.  It fails, and changes nothing, for
      an invalid signature and for one that contradicts a fact about the name. */
  lemma {:induction false} RegisterRefines(s: Services, sig: ServiceSignature, p: Provider)
    requires Ok(s)
    ensures var (t, r) := Register(s, sig, p);
            && Ok(t)
            && (r.Failure? <==> !sig.valid || exists f :: Holds(s, f) && f.name == sig.name && f.text != sig.text)
            && (r.Failure? ==> t == s)
            && (r.Success? ==>
                  && (forall f :: Holds(t, f) <==> Holds(s, f) || f == Fact(sig.name, sig.text, p))
                  && (r.value <==> !Holds(s, Fact(sig.name, sig.text, p))))
  {
    RegisterOk(s, sig, p);
    var e := At(s, sig.name);
    assert sig.name in s ==> EntryOk(sig.name, e);
    if sig.valid {
      RegisterAtOk(e, sig, p);
      ContradictingFact(s, sig);
    }
  }

  lemma {:induction false} ContradictingFact(s: Services, sig: ServiceSignature)
    requires Ok(s)
    ensures (exists f :: Holds(s, f) && f.name == sig.name && f.text != sig.text)
        <==> At(s, sig.name).signature.text != ANY.text && At(s, sig.name).signature.text != sig.text
  {
    if sig.name in s {
      var e := s[sig.name];
      assert EntryOk(sig.name, e);
      assert Holds(s, Fact(sig.name, e.signature.text, e.providers[0]));
    }
  }

  lemma {:induction false} DropHolds(s: Services, p: Provider, names: set<string>, f: Fact)
    requires Ok(s)
    ensures Holds(Drop(s, p, names), f) <==> Holds(s, f) && !(f.name in names && f.provider == p)
  {
    if f.name in s {
      DropFromOk(f.name, s[f.name], p);
    }
  }

  /** Deregistering removes one fact, or all facts about the provider for the wildcard, and says
      whether there was any to remove. */
  lemma {:induction false} DeregisterRefines(s: Services, sig: ServiceSignature, p: Provider)
    requires Ok(s)
    ensures var (t, removed) := Deregister(s, sig, p);
            && Ok(t)
            && (sig.text != ANY.text ==>
                  && (forall f :: Holds(t, f) <==> Holds(s, f) && f != Fact(sig.name, sig.text, p))
                  && (removed <==> Holds(s, Fact(sig.name, sig.text, p))))
            && (sig.text == ANY.text ==>
                  && (forall f :: Holds(t, f) <==> Holds(s, f) && f.provider != p)
                  && (removed <==> exists f :: Holds(s, f) && f.provider == p))
  {
    var names := if sig.text == ANY.text then Listing(s, p) else {sig.name};
    DropOk(s, p, names);
    forall f
      ensures Holds(Drop(s, p, names), f) <==> Holds(s, f) && !(f.name in names && f.provider == p)
    {
      DropHolds(s, p, names, f);
    }
    if sig.text == ANY.text {
      AnyListing(s, p);
    }
  }

  lemma {:induction false} AnyListing(s: Services, p: Provider)
    ensures |Listing(s, p)| > 0 <==> exists f :: Holds(s, f) && f.provider == p
  {
    if n :| n in Listing(s, p) {
      assert Holds(s, Fact(n, s[n].signature.text, p));
    }
    if f :| Holds(s, f) && f.provider == p {
      assert f.name in Listing(s, p);
    }
  }

  /** Batch removal takes away exactly the facts about the provider; it returns how many services
      listed it, and afterwards none does. */
  lemma {:induction false} DeregisterServerRefines(s: Services, p: Provider)
    requires Ok(s)
    ensures var (t, count) := DeregisterServer(s, p);
            && Ok(t)
            && (forall f :: Holds(t, f) <==> Holds(s, f) && f.provider != p)
            && count == |set n | n in s && Holds(s, Fact(n, s[n].signature.text, p))|
            && Listing(t, p) == {}
  {
    DropOk(s, p, Listing(s, p));
    DropListing(s, p);
    var names := set n | n in s && Holds(s, Fact(n, s[n].signature.text, p));
    assert names == Listing(s, p);
    NoFactNoListing(Drop(s, p, Listing(s, p)), p);
  }

  lemma {:induction false} DropListing(s: Services, p: Provider)
    requires Ok(s)
    ensures forall f :: Holds(Drop(s, p, Listing(s, p)), f) <==> Holds(s, f) && f.provider != p
  {
    forall f
      ensures Holds(Drop(s, p, Listing(s, p)), f) <==> Holds(s, f) && f.provider != p
    {
      DropHolds(s, p, Listing(s, p), f);
    }
  }

  lemma {:induction false} NoFactNoListing(s: Services, p: Provider)
    requires forall f | Holds(s, f) :: f.provider != p
    ensures Listing(s, p) == {}
  {
    if n :| n in Listing(s, p) {
      assert Holds(s, Fact(n, s[n].signature.text, p));
    }
  }

  /** A lookup returns a provider registered for the name, if there is one, and changes no fact. */
  lemma {:induction false} LookupRefines(s: Services, sig: ServiceSignature)
    requires Ok(s)
    ensures var (t, r) := Lookup(s, sig);
            && Ok(t) && (forall f :: Holds(t, f) <==> Holds(s, f))
            && (r.Some? <==> exists f :: Holds(s, f) && f.name == sig.name)
            && (r.Some? ==> exists text :: Holds(s, Fact(sig.name, text, r.value)))
  {
    LookupOk(s, sig);
    if sig.name in s {
      var e := s[sig.name];
      assert EntryOk(sig.name, e);
      assert Holds(s, Fact(sig.name, e.signature.text, e.providers[e.lastUsed]));
    }
  }

  // ---------------------------------------------------------------- lists, orders and cursors

  /** A list without a provider; what is left is in the order it was in. */
  function Others(list: seq<Provider>, p: Provider): seq<Provider> {
    if list == [] then [] else (if list[0] == p then [] else [list[0]]) + Others(list[1..], p)
  }

  lemma {:induction false} OthersAll(list: seq<Provider>, p: Provider)
    requires p !in list
    ensures Others(list, p) == list
  {
    if list == [] {
    } else {
      OthersAll(list[1..], p);
    }
  }

  lemma {:induction false} OthersErased(list: seq<Provider>, i: nat)
    requires Distinct(list) && i < |list|
    ensures Others(list, list[i]) == list[..i] + list[i + 1..]
  {
    var p, rest := list[i], list[1..];
    if i == 0 {
      OthersAll(rest, p);
    } else {
      assert rest[i - 1] == p;
      OthersErased(rest, i - 1);
      assert list[..i] == [list[0]] + rest[..i - 1] && rest[i - 1 + 1..] == list[i + 1..];
    }
  }

  lemma {:induction false} FindFirst(x: Provider, rest: seq<Provider>, q: Provider)
    ensures Find([x] + rest, q) == if x == q then 0 else 1 + Find(rest, q)
    ensures q in [x] + rest <==> q == x || q in rest
  {
    assert ([x] + rest)[1..] == rest;
  }

  lemma {:induction false} OthersFirst(list: seq<Provider>, p: Provider)
    requires list != []
    ensures Others(list, p) == if list[0] == p then Others(list[1..], p) else [list[0]] + Others(list[1..], p)
  {
  }

  lemma {:induction false} OrderFirst(
    x: Provider, rest: seq<Provider>, kept: seq<Provider>, p: Provider, q: Provider, r: Provider)
    requires q != p && r != p
    requires q != x && r != x ==> (Find(rest, q) < Find(rest, r) <==> Find(kept, q) < Find(kept, r))
    ensures var all := if x == p then kept else [x] + kept;
            Find([x] + rest, q) < Find([x] + rest, r) <==> Find(all, q) < Find(all, r)
  {
    FindFirst(x, rest, q);
    FindFirst(x, rest, r);
    FindFirst(x, kept, q);
    FindFirst(x, kept, r);
  }

  /** Providers that stay keep their order. */
  lemma {:induction false} OthersOrder(list: seq<Provider>, p: Provider, q: Provider, r: Provider)
    requires q in list && r in list && q != p && r != p
    ensures Find(list, q) < Find(list, r) <==> Find(Others(list, p), q) < Find(Others(list, p), r)
  {
    var x, rest := list[0], list[1..];
    assert list == [x] + rest;
    if q != x && r != x {
      OthersOrder(rest, p, q, r);
    }
    OthersFirst(list, p);
    OrderFirst(x, rest, Others(rest, p), p, q, r);
  }

  lemma {:induction false} OthersMember(list: seq<Provider>, p: Provider, q: Provider)
    ensures q in Others(list, p) <==> q in list && q != p
  {
    if list == [] {
    } else {
      OthersMember(list[1..], p, q);
      assert list == [list[0]] + list[1..];
    }
  }

  /** After a removal: the same signature, the other providers in their order, and the cursor where
      it was, or at the start if there is nothing any more. */
  ghost predicate Removed(e: Entry, p: Provider, f: Entry) {
    && f.signature == e.signature && f.providers == Others(e.providers, p)
    && f.lastUsed == if e.lastUsed < |f.providers| then e.lastUsed else 0
  }

  lemma {:induction false} DropFromExact(name: string, e: Entry, p: Provider)
    requires EntryOk(name, e)
    ensures DropFrom(e, p).None? <==> e.providers == [p]
    ensures DropFrom(e, p).Some? ==> Removed(e, p, DropFrom(e, p).value)
  {
    if p !in e.providers {
      OthersAll(e.providers, p);
    } else if |e.providers| > 1 {
      OthersErased(e.providers, Find(e.providers, p));
      CursorInRange(e.lastUsed, |e.providers| - 1);
    }
  }

  lemma {:induction false} CursorInRange(c: nat, n: nat)
    requires n > 0 && c <= n
    ensures c % n == if c < n then c else 0
  {
    if c < n {
      SmallMod(c, n);
    }
  }

  /** What batch removal makes of every entry. */
  lemma {:induction false} DeregisterServerExact(s: Services, p: Provider, n: string)
    requires Ok(s)
    ensures var t := DeregisterServer(s, p).0;
            && (n in t <==> n in s && s[n].providers != [p])
            && (n in t ==> Removed(s[n], p, t[n]))
  {
    if n in s {
      DropFromExact(n, s[n], p);
      if p !in s[n].providers {
        OthersAll(s[n].providers, p);
        assert EntryOk(n, s[n]);
      }
    }
  }

  /** What deregistration makes of every entry: the wildcard removes the provider everywhere,
      every other signature only from the service that has it. */
  lemma {:induction false} DeregisterExact(s: Services, sig: ServiceSignature, p: Provider, n: string)
    requires Ok(s)
    ensures var t := Deregister(s, sig, p).0;
            var meant := n in s && (sig.text == "*" || (n == sig.name && s[n].signature.text == sig.text));
            && (n in t <==> n in s && !(meant && s[n].providers == [p]))
            && (n in t && meant ==> Removed(s[n], p, t[n]))
            && (n in t && !meant ==> t[n] == s[n])
  {
    if sig.text == "*" {
      DeregisterServerExact(s, p, n);
    } else if n in s {
      DropFromExact(n, s[n], p);
      if p !in s[n].providers {
        OthersAll(s[n].providers, p);
        assert EntryOk(n, s[n]);
      }
    }
  }

  /** A new provider is appended, and nothing else changes but the signature of a new entry. */
  lemma {:induction false} RegisterExact(s: Services, sig: ServiceSignature, p: Provider)
    requires Ok(s)
    ensures var (t, r) := Register(s, sig, p);
            && (!sig.valid ==> r == Failure("The specified signature is not valid."))
            && (sig.valid && sig.name in s && s[sig.name].signature.text != sig.text ==>
                  r == Failure("Is already registered a service with same name and different signature."))
            && (r.Success? ==>
                  && t.Keys == s.Keys + {sig.name} && (forall n | n in s && n != sig.name :: t[n] == s[n])
                  && t[sig.name] ==
                     if sig.name !in s then Entry(sig, [p], 0)
                     else if p in s[sig.name].providers then s[sig.name]
                     else s[sig.name].(providers := s[sig.name].providers + [p]))
  {
    assert sig.name in s ==> EntryOk(sig.name, s[sig.name]);
    assert [] + [p] == [p];
  }

  /** A lookup returns the provider at the cursor and moves the cursor on, from the last provider to
      the first; nothing else changes. */
  lemma {:induction false} LookupExact(s: Services, sig: ServiceSignature)
    requires Ok(s)
    ensures sig.name !in s ==> Lookup(s, sig) == (s, None)
    ensures sig.name in s ==>
      var e := s[sig.name];
      && e.lastUsed < |e.providers|
      && Lookup(s, sig).1 == Some(e.providers[e.lastUsed])
      && var next := if e.lastUsed + 1 == |e.providers| then 0 else e.lastUsed + 1;
      && Lookup(s, sig).0 == s[sig.name := e.(lastUsed := next)]
  {
    if sig.name in s {
      var e := s[sig.name];
      assert EntryOk(sig.name, e);
      CursorInRange(e.lastUsed + 1, |e.providers|);
    }
  }

  // ---------------------------------------------------------------- removal in bulk and one by one

  /** `deregisterService` called for each of the names in turn. */
  function DropOneByOne(s: Services, p: Provider, order: seq<string>): Services {
    if order == [] then s
    else DropOneByOne(Deregister(s, At(s, order[0]).signature, p).0, p, order[1..])
  }

  lemma {:induction false} DropTwice(s: Services, p: Provider, n: string, names: set<string>)
    requires n !in names
    ensures Drop(Drop(s, p, {n}), p, names) == Drop(s, p, {n} + names)
  {
  }

  predicate NoRepeats(order: seq<string>) {
    order == [] || (order[0] !in order[1..] && NoRepeats(order[1..]))
  }

  function Names(order: seq<string>): (names: set<string>)
    ensures forall n :: n in names <==> n in order
  {
    if order == [] then {} else {order[0]} + Names(order[1..])
  }

  lemma {:induction false} DropNamed(s: Services, p: Provider, order: seq<string>)
    requires Ok(s) && NoRepeats(order) && Names(order) <= Listing(s, p)
    ensures DropOneByOne(s, p, order) == Drop(s, p, Names(order))
  {
    if order == [] {
      assert Drop(s, p, {}) == s;
    } else {
      var n := order[0];
      var rest := Names(order[1..]);
      assert n in Listing(s, p) && n !in rest;
      DropOne(s, p, n);
      DropOk(s, p, {n});
      DropOthers(s, p, n, rest);
      DropNamed(Drop(s, p, {n}), p, order[1..]);
      DropTwice(s, p, n, rest);
    }
  }

  lemma {:induction false} DropOne(s: Services, p: Provider, n: string)
    requires Ok(s) && n in s && p in s[n].providers
    ensures Deregister(s, At(s, n).signature, p) == (Drop(s, p, {n}), true)
  {
    assert EntryOk(n, s[n]);
  }

  lemma {:induction false} DropOthers(s: Services, p: Provider, n: string, names: set<string>)
    requires n !in names && names <= Listing(s, p)
    ensures names <= Listing(Drop(s, p, {n}), p)
  {
  }

  /** Batch removal is the same as removing the provider from the services that list it one at a
      time, in any order: the same entries, lists and cursors. */
  lemma {:induction false} BatchIsOneByOne(s: Services, p: Provider, order: seq<string>)
    requires Ok(s) && NoRepeats(order) && Names(order) == Listing(s, p)
    ensures DropOneByOne(s, p, order) == DeregisterServer(s, p).0
    ensures |order| == DeregisterServer(s, p).1
  {
    DropNamed(s, p, order);
    CountNames(order);
  }

  lemma {:induction false} CountNames(order: seq<string>)
    requires NoRepeats(order)
    ensures |Names(order)| == |order|
  {
    if order == [] {
    } else {
      CountNames(order[1..]);
      assert order[0] !in Names(order[1..]);
    }
  }

  /** Deregistering what was newly registered restores the registry exactly: the cursor, the list
      and, if there was no entry, its absence. */
  lemma {:induction false} RegisterDeregister(s: Services, sig: ServiceSignature, p: Provider)
    requires Ok(s) && Register(s, sig, p).1 == Success(true)
    ensures Deregister(Register(s, sig, p).0, sig, p) == (s, true)
  {
    var e := At(s, sig.name);
    assert sig.name in s ==> EntryOk(sig.name, e);
    AppendDrop(e, sig, p);
    RestoredBy(s, sig.name, RegisterAt(e, sig, p).value.0, p);
  }

  lemma {:induction false} AppendDrop(e: Entry, sig: ServiceSignature, p: Provider)
    requires RegisterAt(e, sig, p).Success? && RegisterAt(e, sig, p).value.1
    requires e.providers != [] ==> e.signature.text != ANY.text && e.lastUsed < |e.providers|
    ensures var more := RegisterAt(e, sig, p).value.0;
            && p in more.providers
            && DropFrom(more, p) == if e.providers == [] then None else Some(e)
  {
    var more := RegisterAt(e, sig, p).value.0;
    FindAppended(e.providers, p);
    EraseAppended(e.providers, p);
    if e.providers != [] {
      SmallMod(e.lastUsed, |e.providers|);
      assert Without(more, |e.providers|) == e;
    }
  }

  lemma {:induction false} SmallMod(a: nat, n: nat)
    requires a < n
    ensures a % n == a
  {
  }

  lemma {:induction false} EraseAppended(list: seq<Provider>, p: Provider)
    ensures (list + [p])[..|list|] + (list + [p])[|list| + 1..] == list
  {
  }

  lemma {:induction false} RestoredBy(s: Services, n: string, more: Entry, p: Provider)
    requires n in s ==> DropFrom(more, p) == Some(s[n])
    requires n !in s ==> DropFrom(more, p) == None
    ensures Drop(s[n := more], p, {n}) == s
  {
  }

  lemma {:induction false} FindAppended(list: seq<Provider>, p: Provider)
    requires p !in list
    ensures Find(list + [p], p) == |list|
  {
    assert (list + [p])[|list|] == p;
  }
}
