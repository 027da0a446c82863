/** `RegistryImpl`: the registry as an object whose methods update the map in place. */
module RegistryImplementation {
  import opened Wrappers
  import opened Signatures
  import opened Registries

  class RegistryImpl {
    var services: Services

    constructor ()
      ensures services == map[] && Ok(services)
    {
      services := map[];
    }

    method RegisterService(sig: ServiceSignature, host: string, port: string) returns (r: Result<bool>)
      requires Ok(services)
      modifies this
      ensures (services, r) == Register(old(services), sig, Provider(host, port))
      ensures Ok(services)
    {
      RegisterOk(services, sig, Provider(host, port));
      if !sig.valid {
        return Failure(BAD_SIGNATURE);
      }
      var data := At(services, sig.name);
      if data.signature.text == ANY.text {
        data := data.(signature := sig);
      } else if data.signature.text != sig.text {
        return Failure(OTHER_SIGNATURE);
      }
      var p := Provider(host, port);
      var pos := Find(data.providers, p);
      if pos == |data.providers| {
        services := services[sig.name := data.(providers := data.providers + [p])];
        return Success(true);
      }
      services := services[sig.name := data];
      return Success(false);
    }

    method DeregisterService(sig: ServiceSignature, host: string, port: string) returns (removed: bool)
      requires Ok(services)
      modifies this
      ensures (services, removed) == Deregister(old(services), sig, Provider(host, port))
      ensures Ok(services)
    {
      var p := Provider(host, port);
      DeregisterRefines(services, sig, p);
      if sig.text == ANY.text {
        var count := DeregisterServer(host, port);
        return count > 0;
      }
      if sig.name in services {
        var data := services[sig.name];
        if data.signature.text == sig.text {
          var pos := Find(data.providers, p);
          if pos < |data.providers| {
            data := Without(data, pos);
            if data.providers == [] {
              services := services - {sig.name};
            } else {
              services := services[sig.name := data];
            }
            assert services == Drop(old(services), p, {sig.name});
            return true;
          }
        }
      }
      return false;
    }

    method DeregisterServer(host: string, port: string) returns (count: int)
      requires Ok(services)
      modifies this
      ensures (services, count) == Registries.DeregisterServer(old(services), Provider(host, port))
      ensures Ok(services)
    {
      var p := Provider(host, port);
      DropOk(services, p, Listing(services, p));
      ghost var plan := PlanFor(services, p);
      var emptyEntries;
      count, emptyEntries := RemoveFromLists(p, plan);
      EraseEntries(emptyEntries);
    }

    /** The first loop removes the provider from the lists, whatever the order of the map, and
        remembers the entries it leaves empty. */
    method RemoveFromLists(p: Provider, ghost plan: Plan) returns (count: int, emptyEntries: set<string>)
      requires IsPlan(services, p, plan)
      modifies this
      ensures services == plan.shortened && emptyEntries == plan.alone && count == |plan.listing|
    {
      ghost var before := services;
      count, emptyEntries := 0, {};
      var rest := services.Keys;
      Ends(before, p, plan);
      while rest != {}
        invariant rest <= before.Keys
        invariant Between(before, plan.shortened, rest, services)
        invariant emptyEntries == plan.alone - rest && count == |plan.listing - rest|
        decreases rest
      {
        var n :| n in rest;
        assert Planned(before, p, plan, n);
        Updated(before, plan.shortened, rest, services, n);
        Visited(plan.listing, rest, n);
        Visited(plan.alone, rest, n);
        var found, emptied := RemoveFromList(n, p);
        emptyEntries := emptyEntries + if emptied then {n} else {};
        count := count + if found then 1 else 0;
        rest := rest - {n};
      }
    }

    method RemoveFromList(n: string, p: Provider) returns (found: bool, emptied: bool)
      requires n in services
      modifies this
      ensures services == old(services)[n := Shortened(old(services)[n], p)]
      ensures found == (p in old(services)[n].providers)
      ensures emptied == Alone(old(services)[n], p)
    {
      var data := services[n];
      var pos := Find(data.providers, p);
      if pos == |data.providers| {
        assert services[n := data] == services;
        return false, false;
      }
      data := Without(data, pos);
      services := services[n := data];
      return true, data.providers == [];
    }

    /** The second loop: the map is not modified while it is iterated over. */
    method EraseEntries(emptyEntries: set<string>)
      modifies this
      ensures services == old(services) - emptyEntries
    {
      var rest := emptyEntries;
      while rest != {}
        invariant rest <= emptyEntries
        invariant services == old(services) - (emptyEntries - rest)
        decreases rest
      {
        var n :| n in rest;
        services := services - {n};
        rest := rest - {n};
      }
    }

    method LookupService(sig: ServiceSignature) returns (r: Option<(string, string)>)
      requires Ok(services)
      modifies this
      ensures services == Lookup(old(services), sig).0 && Ok(services)
      ensures match Lookup(old(services), sig).1
              case None => r == None
              case Some(p) => r == Some((p.host, p.port))
    {
      LookupOk(services, sig);
      if sig.name in services {
        var data := services[sig.name];
        assert EntryOk(sig.name, data);
        var host := data.providers[data.lastUsed].host;
        var port := data.providers[data.lastUsed].port;
        data := data.(lastUsed := (data.lastUsed + 1) % |data.providers|);
        services := services[sig.name := data];
        return Some((host, port));
      }
      return None;
    }
  }

  /** No other provider is in the list. */
  ghost predicate Alone(e: Entry, p: Provider) {
    p in e.providers && |e.providers| == 1
  }

  /** An entry after the first loop: without the provider, and perhaps without any. */
  ghost function Shortened(e: Entry, p: Provider): Entry {
    if p in e.providers then Without(e, Find(e.providers, p)) else e
  }

  /** What the first loop is to achieve. */
  datatype Plan = Plan(shortened: Services, alone: set<string>, listing: set<string>)

  ghost predicate Planned(s: Services, p: Provider, plan: Plan, n: string)
    requires n in s && n in plan.shortened
  {
    && plan.shortened[n] == Shortened(s[n], p)
    && (n in plan.alone <==> Alone(s[n], p))
    && (n in plan.listing <==> p in s[n].providers)
  }

  ghost predicate IsPlan(s: Services, p: Provider, plan: Plan) {
    && plan.shortened.Keys == s.Keys && plan.alone <= s.Keys && plan.listing <= s.Keys
    && forall n {:trigger Planned(s, p, plan, n)} | n in s :: Planned(s, p, plan, n)
  }

  /** A map on the way from `s` to `t`: the entries in `rest` are still those of `s`. */
  ghost predicate Between(s: Services, t: Services, rest: set<string>, now: Services) {
    s.Keys == t.Keys == now.Keys && forall n | n in s :: now[n] == if n in rest then s[n] else t[n]
  }

  lemma {:induction false} Updated(s: Services, t: Services, rest: set<string>, now: Services, n: string)
    requires Between(s, t, rest, now) && n in rest && n in s
    ensures now[n] == s[n] && Between(s, t, rest - {n}, now[n := t[n]])
  {
  }

  lemma {:induction false} Ends(s: Services, p: Provider, plan: Plan)
    requires IsPlan(s, p, plan)
    ensures Between(s, plan.shortened, s.Keys, s)
    ensures forall now | Between(s, plan.shortened, {}, now) :: now == plan.shortened
    ensures plan.alone - s.Keys == {} && plan.alone - {} == plan.alone
    ensures plan.listing - s.Keys == {} && plan.listing - {} == plan.listing
  {
  }

  lemma {:induction false} Visited(names: set<string>, rest: set<string>, n: string)
    requires n in rest
    ensures names - (rest - {n}) == (names - rest) + if n in names then {n} else {}
    ensures |names - (rest - {n})| == |names - rest| + if n in names then 1 else 0
  {
    assert names - (rest - {n}) == (names - rest) + if n in names then {n} else {};
  }

  lemma {:induction false} PlanFor(s: Services, p: Provider) returns (plan: Plan)
    ensures IsPlan(s, p, plan)
    ensures plan.listing == Listing(s, p)
    ensures plan.shortened - plan.alone == Drop(s, p, Listing(s, p))
  {
    var shortened := map n | n in s :: Shortened(s[n], p);
    var alone := set n | n in s && Alone(s[n], p);
    plan := Plan(shortened, alone, Listing(s, p));
  }
}
