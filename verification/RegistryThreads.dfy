/**
 The registry under its reader/writer lock.  Lookups hold the lock shared and yet move the
 cursor: every read and write of theirs is a step of its own, and the steps of all threads
 interleave.  Updates hold the lock exclusively.
 */
module RegistryThreads {
  import opened Wrappers
  import opened Registries
  import opened RegistryRuns

  /** Where a thread is.  An idle thread remembers what its last lookup returned. */
  datatype Pc =
    | Idle(result: Option<(string, string)>)
    | Searching(name: string)
    | Missing
    | Found(name: string)
    | HostIndex(name: string, i: nat)
    | HostRead(name: string, host: string)
    | PortIndex(name: string, host: string, j: nat)
    | PortRead(name: string, host: string, port: string)
    | CursorRead(name: string, host: string, port: string, c: nat)
    | Stored(host: string, port: string)
    | Updating(op: Op)
    | Updated

  datatype State = State(services: Services, pcs: seq<Pc>)

  datatype Step = StartLookup(t: nat, name: string) | StartUpdate(t: nat, op: Op) | Advance(t: nat)

  predicate HoldsExclusive(pc: Pc) {
    pc.Updating? || pc.Updated?
  }

  predicate HoldsShared(pc: Pc) {
    !pc.Idle? && !HoldsExclusive(pc)
  }

  /** The entry that a lookup has found and still uses. */
  predicate Uses(pc: Pc) {
    pc.Found? || pc.HostIndex? || pc.HostRead? || pc.PortIndex? || pc.PortRead? || pc.CursorRead?
  }

  predicate PcOk(services: Services, pc: Pc) {
    Uses(pc) ==>
      && pc.name in services
      && var n := |services[pc.name].providers|;
      && (pc.HostIndex? ==> pc.i < n) && (pc.PortIndex? ==> pc.j < n) && (pc.CursorRead? ==> pc.c < n)
  }

  /** The registry is in order, what a lookup uses exists and is in range, and a writer is alone. */
  ghost predicate Inv(s: State) {
    && Ok(s.services)
    && (forall t | 0 <= t < |s.pcs| :: PcOk(s.services, s.pcs[t]))
    && (forall t, u | 0 <= t < |s.pcs| && 0 <= u < |s.pcs| && t != u && HoldsExclusive(s.pcs[t]) :: s.pcs[u].Idle?)
  }

  /** The lock is granted shared when nobody writes, exclusively when nobody holds it. */
  predicate Enabled(s: State, step: Step) {
    step.t < |s.pcs| &&
    match step
    case StartLookup(t, _) => s.pcs[t].Idle? && forall u | 0 <= u < |s.pcs| :: !HoldsExclusive(s.pcs[u])
    case StartUpdate(t, op) => !op.LookupOp? && forall u | 0 <= u < |s.pcs| :: s.pcs[u].Idle?
    case Advance(t) => !s.pcs[t].Idle?
  }

  function SetCursor(services: Services, name: string, c: nat): Services
    requires name in services
  {
    services[name := services[name].(lastUsed := c)]
  }

  /** One step of a thread inside its critical section; every list access is in range. */
  function Move(services: Services, pc: Pc): (Services, Pc)
    requires Ok(services) && PcOk(services, pc)
  {
    match pc
    case Idle(_) => (services, pc)
    case Searching(name) => (services, if name in services then Found(name) else Missing)
    case Missing => (services, Idle(None))
    case Found(name) => (services, HostIndex(name, services[name].lastUsed))
    case HostIndex(name, i) => (services, HostRead(name, services[name].providers[i].host))
    case HostRead(name, h) => (services, PortIndex(name, h, services[name].lastUsed))
    case PortIndex(name, h, j) => (services, PortRead(name, h, services[name].providers[j].port))
    case PortRead(name, h, p) => (services, CursorRead(name, h, p, services[name].lastUsed))
    case CursorRead(name, h, p, c) =>
      (SetCursor(services, name, (c + 1) % |services[name].providers|), Stored(h, p))
    case Stored(h, p) => (services, Idle(Some((h, p))))
    case Updating(op) => (Apply(services, op), Updated)
    case Updated => (services, Idle(None))
  }

  function Effect(s: State, step: Step): State
    requires Inv(s) && Enabled(s, step)
  {
    match step
    case StartLookup(t, name) => s.(pcs := s.pcs[t := Searching(name)])
    case StartUpdate(t, op) => s.(pcs := s.pcs[t := Updating(op)])
    case Advance(t) =>
      var (services, pc) := Move(s.services, s.pcs[t]);
      State(services, s.pcs[t := pc])
  }

  // ---------------------------------------------------------------- what every step keeps

  /** Only cursors differ. */
  predicate SameLists(s: Services, t: Services) {
    s.Keys == t.Keys && forall n | n in s :: t[n] == s[n].(lastUsed := t[n].lastUsed)
  }

  lemma {:induction false} MoveKeeps(services: Services, pc: Pc)
    requires Ok(services) && PcOk(services, pc)
    ensures var (t, q) := Move(services, pc);
            && Ok(t) && PcOk(t, q)
            && (!pc.Updating? ==> SameLists(services, t))
            && (HoldsExclusive(q) ==> HoldsExclusive(pc))
  {
    if Uses(pc) {
      assert EntryOk(pc.name, services[pc.name]);
      if pc.CursorRead? {
        NextCursor(pc.c, |services[pc.name].providers|);
      }
    }
  }

  lemma {:induction false} SameListsOk(s: Services, t: Services, pc: Pc)
    requires SameLists(s, t) && PcOk(s, pc)
    ensures PcOk(t, pc)
  {
    if Uses(pc) {
      assert t[pc.name].providers == s[pc.name].providers;
    }
  }

  /** Range safety: every step of every thread keeps the cursors in range and the entries of the
      other lookups in place. */
  lemma {:induction false} EffectKeeps(s: State, step: Step)
    requires Inv(s) && Enabled(s, step)
    ensures Inv(Effect(s, step)) && |Effect(s, step).pcs| == |s.pcs|
  {
    if step.Advance? {
      var pc := s.pcs[step.t];
      MoveKeeps(s.services, pc);
      var t := Move(s.services, pc).0;
      forall u | 0 <= u < |s.pcs| && u != step.t
        ensures PcOk(t, s.pcs[u])
      {
        if !pc.Updating? {
          SameListsOk(s.services, t, s.pcs[u]);
        }
      }
    }
  }

  function Fire(s: State, step: Step): (r: State)
    requires Inv(s) && Enabled(s, step)
    ensures Inv(r) && |r.pcs| == |s.pcs|
  {
    EffectKeeps(s, step);
    Effect(s, step)
  }

  /** The state after a run of steps; `None` if a step was not enabled. */
  function Execute(s: State, steps: seq<Step>): (r: Option<State>)
    requires Inv(s)
    ensures r.Some? ==> Inv(r.value) && |r.value.pcs| == |s.pcs|
    decreases |steps|
  {
    if steps == [] then Some(s)
    else if !Enabled(s, steps[0]) then None
    else Execute(Fire(s, steps[0]), steps[1..])
  }

  function Initial(threads: nat): (s: State)
    ensures Inv(s)
  {
    State(map[], seq(threads, _ => Idle(None)))
  }

  /** In every reachable state of every number of threads, cursors are in range, whatever entry a
      lookup has found still exists, and so does every position that it read. */
  lemma {:induction false} RangeSafety(threads: nat, steps: seq<Step>, t: nat)
    requires Execute(Initial(threads), steps).Some? && t < threads
    ensures var s := Execute(Initial(threads), steps).value;
            && (forall n | n in s.services :: s.services[n].lastUsed < |s.services[n].providers|)
            && var pc := s.pcs[t];
            && (Uses(pc) ==> pc.name in s.services)
            && (pc.HostIndex? ==> pc.i < |s.services[pc.name].providers|)
            && (pc.PortIndex? ==> pc.j < |s.services[pc.name].providers|)
            && (pc.CursorRead? ==> pc.c < |s.services[pc.name].providers|)
  {
    var s := Execute(Initial(threads), steps).value;
    forall n | n in s.services
      ensures s.services[n].lastUsed < |s.services[n].providers|
    {
      assert EntryOk(n, s.services[n]);
    }
  }

  // ---------------------------------------------------------------- while a lookup holds the lock

  /** Steps of other threads. */
  predicate Others(steps: seq<Step>, t: nat) {
    forall i | 0 <= i < |steps| :: steps[i].t != t
  }

  /** While a lookup holds the lock, the other threads change nothing but cursors. */
  lemma {:induction false} HeldLists(s: State, steps: seq<Step>, t: nat)
    requires Inv(s) && t < |s.pcs| && HoldsShared(s.pcs[t]) && Others(steps, t)
    requires Execute(s, steps).Some?
    ensures var r := Execute(s, steps).value;
            SameLists(s.services, r.services) && r.pcs[t] == s.pcs[t]
    decreases |steps|
  {
    if steps == [] {
    } else {
      if steps[0].Advance? {
        MoveKeeps(s.services, s.pcs[steps[0].t]);
      }
      var next := Fire(s, steps[0]);
      assert SameLists(s.services, next.services);
      assert forall i | 0 <= i < |steps| - 1 :: steps[1..][i] == steps[i + 1];
      HeldLists(next, steps[1..], t);
    }
  }

  /** None of the steps stores the cursor of the name. */
  predicate Quiet(s: State, steps: seq<Step>, name: string)
    requires Inv(s)
    decreases |steps|
  {
    steps == [] || (Enabled(s, steps[0]) ==>
      && !(steps[0].Advance? && s.pcs[steps[0].t].CursorRead? && s.pcs[steps[0].t].name == name)
      && Quiet(Fire(s, steps[0]), steps[1..], name))
  }

  lemma {:induction false} QuietCursor(s: State, steps: seq<Step>, t: nat, name: string)
    requires Inv(s) && t < |s.pcs| && HoldsShared(s.pcs[t]) && Others(steps, t)
    requires Execute(s, steps).Some? && Quiet(s, steps, name) && name in s.services
    ensures var r := Execute(s, steps).value;
            name in r.services && r.services[name] == s.services[name] && r.pcs[t] == s.pcs[t]
    decreases |steps|
  {
    if steps == [] {
    } else {
      var next := Fire(s, steps[0]);
      assert next.services[name] == s.services[name];
      assert forall i | 0 <= i < |steps| - 1 :: steps[1..][i] == steps[i + 1];
      QuietCursor(next, steps[1..], t, name);
    }
  }

  // ---------------------------------------------------------------- lookups without interference

  /** `k` steps of one thread. */
  function Advances(t: nat, k: nat): seq<Step> {
    if k == 0 then [] else [Advance(t)] + Advances(t, k - 1)
  }

  function MoveMany(services: Services, pc: Pc, k: nat): (r: (Services, Pc))
    requires Ok(services) && PcOk(services, pc)
    ensures Ok(r.0) && PcOk(r.0, r.1)
    decreases k
  {
    if k == 0 then (services, pc)
    else
      MoveKeeps(services, pc);
      var (s, q) := Move(services, pc);
      MoveMany(s, q, k - 1)
  }

  /** The thread has not released the lock before its last step. */
  predicate BusyFor(services: Services, pc: Pc, k: nat)
    requires Ok(services) && PcOk(services, pc)
    decreases k
  {
    k == 0 || (!pc.Idle? && (
      MoveKeeps(services, pc);
      BusyFor(Move(services, pc).0, Move(services, pc).1, k - 1)))
  }

  lemma {:induction false} ExecuteAdvances(s: State, t: nat, k: nat)
    requires Inv(s) && t < |s.pcs| && BusyFor(s.services, s.pcs[t], k)
    ensures var (services, pc) := MoveMany(s.services, s.pcs[t], k);
            Execute(s, Advances(t, k)) == Some(State(services, s.pcs[t := pc]))
    decreases k
  {
    if k == 0 {
      assert s.pcs[t := s.pcs[t]] == s.pcs;
    } else {
      var next := Fire(s, Advance(t));
      ExecuteAdvances(next, t, k - 1);
      assert Advances(t, k)[1..] == Advances(t, k - 1);
      var pc := MoveMany(s.services, s.pcs[t], k).1;
      assert next.pcs[t := pc] == s.pcs[t := pc];
    }
  }

  lemma {:induction false} ExecuteAppend(s: State, xs: seq<Step>, ys: seq<Step>)
    requires Inv(s) && Execute(s, xs).Some?
    ensures Execute(s, xs + ys) == Execute(Execute(s, xs).value, ys)
    decreases |xs|
  {
    if xs == [] {
      assert xs + ys == ys;
    } else {
      assert (xs + ys)[1..] == xs[1..] + ys;
      ExecuteAppend(Fire(s, xs[0]), xs[1..], ys);
    }
  }

  lemma {:induction false} FirstReads(services: Services, name: string)
    requires Ok(services) && name in services
    ensures var e := services[name];
            && e.lastUsed < |e.providers| && BusyFor(services, Searching(name), 3)
            && MoveMany(services, Searching(name), 3) == (services, HostRead(name, e.providers[e.lastUsed].host))
  {
    assert EntryOk(name, services[name]);
    var i := services[name].lastUsed;
    assert Move(services, Searching(name)) == (services, Found(name));
    assert Move(services, Found(name)) == (services, HostIndex(name, i));
    MoveOn(services, HostIndex(name, i), 0);
    MoveOn(services, Found(name), 1);
    MoveOn(services, Searching(name), 2);
  }

  lemma {:induction false} LastSteps(services: Services, name: string, h: string)
    requires Ok(services) && name in services
    ensures var e := services[name];
            && InRange(e) && BusyFor(services, HostRead(name, h), 5)
            && MoveMany(services, HostRead(name, h), 5)
            == (services[name := Registries.Advance(e)], Idle(Some((h, e.providers[e.lastUsed].port))))
  {
    var e := services[name];
    assert EntryOk(name, e);
    var c := e.lastUsed;
    var p := e.providers[c].port;
    MoveKeeps(services, CursorRead(name, h, p, c));
    var after := Move(services, CursorRead(name, h, p, c)).0;
    MoveOn(after, Stored(h, p), 0);
    MoveOn(services, CursorRead(name, h, p, c), 1);
    MoveOn(services, PortRead(name, h, p), 2);
    MoveOn(services, PortIndex(name, h, c), 3);
    MoveOn(services, HostRead(name, h), 4);
  }

  lemma {:induction false} MoveOn(services: Services, pc: Pc, k: nat)
    requires Ok(services) && PcOk(services, pc) && !pc.Idle?
    ensures var (s, q) := Move(services, pc);
            && Ok(s) && PcOk(s, q)
            && MoveMany(services, pc, k + 1) == MoveMany(s, q, k)
            && (BusyFor(services, pc, k + 1) <==> BusyFor(s, q, k))
  {
    MoveKeeps(services, pc);
  }

  /** A lookup up to and including the read of the host. */
  function ReadHost(t: nat, name: string): seq<Step> {
    [StartLookup(t, name)] + Advances(t, 3)
  }

  predicate CanLookup(s: State, t: nat, name: string) {
    t < |s.pcs| && name in s.services && s.pcs[t].Idle? && forall u | 0 <= u < |s.pcs| :: !HoldsExclusive(s.pcs[u])
  }

  lemma {:induction false} HostIsRead(s: State, t: nat, name: string)
    requires Inv(s) && CanLookup(s, t, name)
    ensures InRange(s.services[name])
    ensures var e := s.services[name];
            var pc := HostRead(name, e.providers[e.lastUsed].host);
            Execute(s, ReadHost(t, name)) == Some(s.(pcs := s.pcs[t := pc]))
  {
    var e := s.services[name];
    var begun := Fire(s, StartLookup(t, name));
    FirstReads(s.services, name);
    ExecuteAdvances(begun, t, 3);
    assert ReadHost(t, name)[1..] == Advances(t, 3);
    var pc := HostRead(name, e.providers[e.lastUsed].host);
    assert begun.pcs[t := pc] == s.pcs[t := pc];
  }

  lemma {:induction false} LookupFinishes(s: State, t: nat, name: string, h: string)
    requires Inv(s) && t < |s.pcs| && s.pcs[t] == HostRead(name, h)
    ensures InRange(s.services[name])
    ensures var e := s.services[name];
            var services := s.services[name := Registries.Advance(e)];
            var pc := Idle(Some((h, e.providers[e.lastUsed].port)));
            Execute(s, Advances(t, 5)) == Some(State(services, s.pcs[t := pc]))
  {
    LastSteps(s.services, name, h);
    ExecuteAdvances(s, t, 5);
  }

  /** Whatever other threads do between the two reads, a lookup returns the host at the cursor before
      and the port at the cursor after it; these are of one provider if no other lookup of the name
      moves the cursor in between. */
  lemma {:induction false} UntornLookup(s: State, steps: seq<Step>, t: nat, name: string)
    requires Inv(s) && t < |s.pcs| && name in s.services && InRange(s.services[name])
    requires var e := s.services[name]; s.pcs[t] == HostRead(name, e.providers[e.lastUsed].host)
    requires Others(steps, t) && Execute(s, steps).Some?
    ensures Execute(s, steps + Advances(t, 5)).Some?
    ensures var e := s.services[name];
            var r := Execute(s, steps).value;
            && name in r.services && r.services[name].lastUsed < |e.providers|
            && Execute(s, steps + Advances(t, 5)).value.pcs[t]
            == Idle(Some((e.providers[e.lastUsed].host, e.providers[r.services[name].lastUsed].port)))
            && (Quiet(s, steps, name) ==> r.services[name].lastUsed == e.lastUsed)
  {
    var e := s.services[name];
    HeldLists(s, steps, t);
    LookupFinishes(Execute(s, steps).value, t, name, e.providers[e.lastUsed].host);
    ExecuteAppend(s, steps, Advances(t, 5));
    if Quiet(s, steps, name) {
      QuietCursor(s, steps, t, name);
    }
  }

  /** A lookup that nothing interleaves with, whatever the other threads are in the middle of, is
      the atomic lookup: the provider at the cursor, and the cursor moved on. */
  lemma {:induction false} SoloLookup(s: State, t: nat, name: string)
    requires Inv(s) && CanLookup(s, t, name)
    ensures InRange(s.services[name])
    ensures var e := s.services[name];
            var p := e.providers[e.lastUsed];
            var services := s.services[name := Registries.Advance(e)];
            var pc := Idle(Some((p.host, p.port)));
            Execute(s, ReadHost(t, name) + Advances(t, 5)) == Some(State(services, s.pcs[t := pc]))
  {
    var e := s.services[name];
    HostIsRead(s, t, name);
    var mid := Execute(s, ReadHost(t, name)).value;
    var h := e.providers[e.lastUsed].host;
    LookupFinishes(mid, t, name, h);
    ExecuteAppend(s, ReadHost(t, name), Advances(t, 5));
    var done := Idle(Some((h, e.providers[e.lastUsed].port)));
    assert mid.pcs[t := done] == s.pcs[t := done];
  }

  // ---------------------------------------------------------------- what lookups can return

  /** A provider's host and a provider's port, of the same provider or not. */
  ghost predicate HasHost(list: seq<Provider>, host: string) {
    exists i | 0 <= i < |list| :: list[i].host == host
  }

  ghost predicate HasPort(list: seq<Provider>, port: string) {
    exists j | 0 <= j < |list| :: list[j].port == port
  }

  /** What a lookup of the name has read, from the start of it to its result, is from the list. */
  ghost predicate ReadFrom(pc: Pc, name: string, list: seq<Provider>) {
    match pc
    case Searching(n) => n == name
    case Found(n) => n == name
    case HostIndex(n, _) => n == name
    case HostRead(n, h) => n == name && HasHost(list, h)
    case PortIndex(n, h, _) => n == name && HasHost(list, h)
    case PortRead(n, h, p) => n == name && HasHost(list, h) && HasPort(list, p)
    case CursorRead(n, h, p, _) => n == name && HasHost(list, h) && HasPort(list, p)
    case Stored(h, p) => HasHost(list, h) && HasPort(list, p)
    case Idle(r) => r.Some? && HasHost(list, r.value.0) && HasPort(list, r.value.1)
    case _ => false
  }

  lemma {:induction false} MoveReads(services: Services, pc: Pc, name: string)
    requires Ok(services) && PcOk(services, pc) && name in services
    requires ReadFrom(pc, name, services[name].providers)
    ensures ReadFrom(Move(services, pc).1, name, services[name].providers)
  {
    assert EntryOk(name, services[name]);
    var list := services[name].providers;
    if pc.HostIndex? {
      assert HasHost(list, list[pc.i].host);
    } else if pc.PortIndex? {
      assert HasPort(list, list[pc.j].port);
    }
  }

  /** The thread starts nothing: at most it goes on with what it is doing. */
  predicate StartsNothing(steps: seq<Step>, t: nat) {
    forall i | 0 <= i < |steps| :: steps[i].t == t ==> steps[i].Advance?
  }

  /** A lookup in progress keeps the list of its name as it was; once it is over, its result stays. */
  ghost predicate Reading(s: State, t: nat, name: string, list: seq<Provider>) {
    && t < |s.pcs| && ReadFrom(s.pcs[t], name, list)
    && (!s.pcs[t].Idle? ==> name in s.services && s.services[name].providers == list)
  }

  lemma {:induction false} StepReads(s: State, step: Step, t: nat, name: string, list: seq<Provider>)
    requires Inv(s) && Enabled(s, step) && Reading(s, t, name, list)
    requires step.t == t ==> step.Advance?
    ensures Reading(Fire(s, step), t, name, list)
  {
    if step.Advance? {
      MoveKeeps(s.services, s.pcs[step.t]);
    }
    if step.t == t {
      MoveReads(s.services, s.pcs[t], name);
    }
  }

  lemma {:induction false} RunReads(s: State, steps: seq<Step>, t: nat, name: string, list: seq<Provider>)
    requires Inv(s) && Reading(s, t, name, list) && StartsNothing(steps, t) && Execute(s, steps).Some?
    ensures Reading(Execute(s, steps).value, t, name, list)
    decreases |steps|
  {
    if steps == [] {
    } else {
      StepReads(s, steps[0], t, name, list);
      assert forall i | 0 <= i < |steps| - 1 :: steps[1..][i] == steps[i + 1];
      RunReads(Fire(s, steps[0]), steps[1..], t, name, list);
    }
  }

  /** The lookup of the name that the thread starts now ends with this host and this port, in these
      steps of all threads. */
  ghost predicate Returns(s: State, t: nat, name: string, steps: seq<Step>, host: string, port: string)
    requires Inv(s) && CanLookup(s, t, name)
  {
    var r := Execute(Fire(s, StartLookup(t, name)), steps);
    StartsNothing(steps, t) && r.Some? && r.value.pcs[t] == Idle(Some((host, port)))
  }

  ghost predicate CanReturn(s: State, t: nat, name: string, host: string, port: string)
    requires Inv(s) && CanLookup(s, t, name)
  {
    exists steps :: Returns(s, t, name, steps, host, port)
  }

  // ---------------------------------------------------------------- lookups that move the cursor

  /** A lookup without interference, and a number of them. */
  function Spin(u: nat, name: string): seq<Step> {
    ReadHost(u, name) + Advances(u, 5)
  }

  function Spins(u: nat, name: string, k: nat): seq<Step> {
    if k == 0 then [] else Spin(u, name) + Spins(u, name, k - 1)
  }

  /** A state in which only one thread and the cursor of one name have moved. */
  ghost predicate CursorMoved(s: State, r: State, u: nat, name: string)
    requires u < |s.pcs| && name in s.services
  {
    && name in r.services && r.services == s.services[name := s.services[name].(lastUsed := r.services[name].lastUsed)]
    && |r.pcs| == |s.pcs| && r.pcs == s.pcs[u := r.pcs[u]]
  }

  lemma {:induction false} CursorMovedOn(s: State, mid: State, r: State, u: nat, name: string)
    requires u < |s.pcs| && name in s.services && CursorMoved(s, mid, u, name) && CursorMoved(mid, r, u, name)
    ensures CursorMoved(s, r, u, name)
  {
  }

  lemma {:induction false} SpinOnce(s: State, u: nat, name: string) returns (next: State)
    requires Inv(s) && CanLookup(s, u, name)
    ensures Inv(next) && Execute(s, Spin(u, name)) == Some(next)
    ensures CanLookup(next, u, name) && CursorMoved(s, next, u, name)
    ensures InRange(s.services[name]) && next.services[name] == Registries.Advance(s.services[name])
  {
    SoloLookup(s, u, name);
    next := Execute(s, Spin(u, name)).value;
  }

  /** They bring the cursor to any position, whatever the other threads are in the middle of. */
  lemma {:induction false} CursorTo(s: State, u: nat, name: string, i: nat) returns (k: nat)
    requires Inv(s) && CanLookup(s, u, name) && i < |s.services[name].providers|
    ensures Execute(s, Spins(u, name, k)).Some?
    ensures var r := Execute(s, Spins(u, name, k)).value;
            CanLookup(r, u, name) && CursorMoved(s, r, u, name) && r.services[name].lastUsed == i
    decreases CursorDistance(s, name, i)
  {
    var e := s.services[name];
    assert EntryOk(name, e);
    if e.lastUsed == i {
      k := 0;
    } else {
      var next := SpinOnce(s, u, name);
      AdvanceDistance(e, i);
      var more := CursorTo(next, u, name, i);
      k := more + 1;
      ExecuteAppend(s, Spin(u, name), Spins(u, name, more));
      CursorMovedOn(s, next, Execute(next, Spins(u, name, more)).value, u, name);
    }
  }

  ghost function CursorDistance(s: State, name: string, i: nat): nat
    requires Inv(s) && name in s.services && i < |s.services[name].providers|
  {
    assert EntryOk(name, s.services[name]);
    Distance(s.services[name], i)
  }

  lemma {:induction false} SpinsOthers(u: nat, name: string, k: nat, t: nat)
    requires t != u
    ensures StartsNothing(Spins(u, name, k), t)
  {
    if k == 0 {
    } else {
      SpinsOthers(u, name, k - 1, t);
      AdvancesNothing(u, 5, t);
      AdvancesNothing(u, 3, t);
    }
  }

  lemma {:induction false} AdvancesNothing(u: nat, k: nat, t: nat)
    ensures StartsNothing(Advances(u, k), t)
  {
    if k == 0 {
    } else {
      AdvancesNothing(u, k - 1, t);
    }
  }

  lemma {:induction false} StartsNothingAppend(xs: seq<Step>, ys: seq<Step>, t: nat)
    requires StartsNothing(xs, t) && StartsNothing(ys, t)
    ensures StartsNothing(xs + ys, t)
  {
    forall i | 0 <= i < |xs + ys| && (xs + ys)[i].t == t
      ensures (xs + ys)[i].Advance?
    {
      assert (xs + ys)[i] == if i < |xs| then xs[i] else ys[i - |xs|];
    }
  }

  /** A thread in the middle of a lookup of the name, another one that can look it up. */
  ghost predicate Beside(s: State, t: nat, pc: Pc, u: nat, name: string, list: seq<Provider>)
    requires Inv(s)
  {
    t < |s.pcs| && t != u && s.pcs[t] == pc && CanLookup(s, u, name) && s.services[name].providers == list
  }

  /** With the cursor of the name at `i`, so many steps of one thread take it to `next`. */
  ghost predicate Leads(pc: Pc, n: nat, next: Pc, name: string, list: seq<Provider>, i: nat) {
    forall s: Services | Ok(s) && name in s && s[name].providers == list && s[name].lastUsed == i ::
      && PcOk(s, pc) && BusyFor(s, pc, n)
      && MoveMany(s, pc, n).1 == next && SameLists(s, MoveMany(s, pc, n).0)
  }

  lemma {:induction false} LeadsToHost(name: string, list: seq<Provider>, i: nat)
    requires i < |list|
    ensures Leads(Searching(name), 3, HostRead(name, list[i].host), name, list, i)
  {
    forall s: Services | Ok(s) && name in s && s[name].providers == list && s[name].lastUsed == i
      ensures BusyFor(s, Searching(name), 3)
      ensures MoveMany(s, Searching(name), 3) == (s, HostRead(name, list[i].host))
    {
      FirstReads(s, name);
    }
  }

  lemma {:induction false} LeadsToResult(name: string, h: string, list: seq<Provider>, j: nat)
    requires j < |list|
    ensures Leads(HostRead(name, h), 5, Idle(Some((h, list[j].port))), name, list, j)
  {
    forall s: Services | Ok(s) && name in s && s[name].providers == list && s[name].lastUsed == j
      ensures BusyFor(s, HostRead(name, h), 5)
      ensures MoveMany(s, HostRead(name, h), 5).1 == Idle(Some((h, list[j].port)))
      ensures SameLists(s, MoveMany(s, HostRead(name, h), 5).0)
    {
      LastSteps(s, name, h);
    }
  }

  /** The other thread moves the cursor where it likes before the next steps of the first. */
  lemma {:induction false} AdvanceAt(
    s: State, t: nat, u: nat, pc: Pc, name: string, list: seq<Provider>, i: nat, n: nat, next: Pc)
    returns (steps: seq<Step>)
    requires Inv(s) && Beside(s, t, pc, u, name, list) && i < |list|
    requires Leads(pc, n, next, name, list, i) && !HoldsExclusive(next)
    ensures StartsNothing(steps, t) && Execute(s, steps).Some?
    ensures Beside(Execute(s, steps).value, t, next, u, name, list)
  {
    var k := CursorTo(s, u, name, i);
    var mid := Execute(s, Spins(u, name, k)).value;
    ExecuteAdvances(mid, t, n);
    ExecuteAppend(s, Spins(u, name, k), Advances(t, n));
    steps := Spins(u, name, k) + Advances(t, n);
    SpinsOthers(u, name, k, t);
    AdvancesNothing(t, n, t);
    StartsNothingAppend(Spins(u, name, k), Advances(t, n), t);
  }

  // ---------------------------------------------------------------- all interleavings

  function StepsLeft(pc: Pc): nat {
    match pc
    case Idle(_) => 0
    case Missing => 1
    case Stored(_, _) => 1
    case CursorRead(_, _, _, _) => 2
    case PortRead(_, _, _) => 3
    case PortIndex(_, _, _) => 4
    case HostRead(_, _) => 5
    case HostIndex(_, _) => 6
    case Found(_) => 7
    case Searching(_) => 8
    case Updated => 1
    case Updating(_) => 2
  }

  lemma {:induction false} SameListsOn(a: Services, b: Services, c: Services)
    requires SameLists(a, b) && SameLists(b, c)
    ensures SameLists(a, c)
  {
  }

  lemma {:induction false} MoveOnwards(services: Services, pc: Pc)
    requires Ok(services) && PcOk(services, pc) && HoldsShared(pc)
    ensures var (after, q) := Move(services, pc);
            StepsLeft(q) < StepsLeft(pc) && !HoldsExclusive(q) && SameLists(services, after)
  {
    MoveKeeps(services, pc);
  }

  /** A lookup that nobody interrupts comes to its end, and changes no list. */
  lemma {:induction false} LookupEnds(s: State, u: nat) returns (k: nat)
    requires Inv(s) && u < |s.pcs| && !HoldsExclusive(s.pcs[u])
    ensures Execute(s, Advances(u, k)).Some?
    ensures var r := Execute(s, Advances(u, k)).value;
            r.pcs[u].Idle? && r.pcs == s.pcs[u := r.pcs[u]] && SameLists(s.services, r.services)
    decreases StepsLeft(s.pcs[u])
  {
    if s.pcs[u].Idle? {
      k := 0;
    } else {
      MoveOnwards(s.services, s.pcs[u]);
      var next := Fire(s, Advance(u));
      var more := LookupEnds(next, u);
      k := more + 1;
      assert Advances(u, k)[1..] == Advances(u, more);
      SameListsOn(s.services, next.services, Execute(next, Advances(u, more)).value.services);
    }
  }

  /** So another thread can be brought to where it can look up the name. */
  lemma {:induction false} BringBeside(s: State, t: nat, u: nat, pc: Pc, name: string) returns (k: nat)
    requires Inv(s) && t < |s.pcs| && u < |s.pcs| && t != u && name in s.services
    requires s.pcs[t] == pc && forall v | 0 <= v < |s.pcs| :: !HoldsExclusive(s.pcs[v])
    ensures StartsNothing(Advances(u, k), t) && Execute(s, Advances(u, k)).Some?
    ensures Beside(Execute(s, Advances(u, k)).value, t, pc, u, name, s.services[name].providers)
  {
    k := LookupEnds(s, u);
    AdvancesNothing(u, k, t);
    var r := Execute(s, Advances(u, k)).value;
    assert r.services[name].providers == s.services[name].providers;
  }

  /** Lookups are not atomic in general: if there is another thread, whatever it is in the middle of,
      a lookup can return any provider's host with any provider's port. */
  lemma {:induction false} TornLookup(s: State, t: nat, u: nat, name: string, i: nat, j: nat)
    returns (steps: seq<Step>)
    requires Inv(s) && CanLookup(s, t, name) && u < |s.pcs| && t != u
    requires i < |s.services[name].providers| && j < |s.services[name].providers|
    ensures var list := s.services[name].providers; Returns(s, t, name, steps, list[i].host, list[j].port)
  {
    var list := s.services[name].providers;
    var begun := Fire(s, StartLookup(t, name));
    var k := BringBeside(begun, t, u, Searching(name), name);
    var ready := Execute(begun, Advances(u, k)).value;
    var more := TornFrom(ready, t, u, name, list, i, j);
    ExecuteAppend(begun, Advances(u, k), more);
    StartsNothingAppend(Advances(u, k), more, t);
    steps := Advances(u, k) + more;
  }

  lemma {:induction false} TornFrom(s: State, t: nat, u: nat, name: string, list: seq<Provider>, i: nat, j: nat)
    returns (steps: seq<Step>)
    requires Inv(s) && Beside(s, t, Searching(name), u, name, list) && i < |list| && j < |list|
    ensures StartsNothing(steps, t) && Execute(s, steps).Some?
    ensures Execute(s, steps).value.pcs[t] == Idle(Some((list[i].host, list[j].port)))
  {
    var h, p := list[i].host, list[j].port;
    LeadsToHost(name, list, i);
    var first := AdvanceAt(s, t, u, Searching(name), name, list, i, 3, HostRead(name, h));
    LeadsToResult(name, h, list, j);
    var mid := Execute(s, first).value;
    var second := AdvanceAt(mid, t, u, HostRead(name, h), name, list, j, 5, Idle(Some((h, p))));
    ExecuteAppend(s, first, second);
    StartsNothingAppend(first, second, t);
    steps := first + second;
  }

  /** And that is all that it can return. */
  lemma {:induction false} PossibleResults(s: State, t: nat, name: string, host: string, port: string)
    requires Inv(s) && CanLookup(s, t, name) && |s.pcs| >= 2
    ensures var list := s.services[name].providers;
            CanReturn(s, t, name, host, port) <==> HasHost(list, host) && HasPort(list, port)
  {
    var list := s.services[name].providers;
    if steps :| Returns(s, t, name, steps, host, port) {
      RunReads(Fire(s, StartLookup(t, name)), steps, t, name, list);
    }
    if HasHost(list, host) && HasPort(list, port) {
      var i :| 0 <= i < |list| && list[i].host == host;
      var j :| 0 <= j < |list| && list[j].port == port;
      var steps := TornLookup(s, t, if t == 0 then 1 else 0, name, i, j);
      assert Returns(s, t, name, steps, host, port);
    }
  }

  /** A lookup of a name that is not registered. */
  ghost predicate FindsNothing(s: State, t: nat, name: string) {
    && t < |s.pcs|
    && ((s.pcs[t] == Searching(name) && name !in s.services) || s.pcs[t] == Missing || s.pcs[t] == Idle(None))
  }

  /** In all interleavings it ends without a result. */
  lemma {:induction false} NothingFound(s: State, steps: seq<Step>, t: nat, name: string)
    requires Inv(s) && FindsNothing(s, t, name) && StartsNothing(steps, t) && Execute(s, steps).Some?
    ensures FindsNothing(Execute(s, steps).value, t, name)
    decreases |steps|
  {
    if steps == [] {
    } else {
      NothingStep(s, steps[0], t, name);
      assert forall i | 0 <= i < |steps| - 1 :: steps[1..][i] == steps[i + 1];
      NothingFound(Fire(s, steps[0]), steps[1..], t, name);
    }
  }

  lemma {:induction false} NothingStep(s: State, step: Step, t: nat, name: string)
    requires Inv(s) && Enabled(s, step) && FindsNothing(s, t, name) && (step.t == t ==> step.Advance?)
    ensures FindsNothing(Fire(s, step), t, name)
  {
    if step.Advance? {
      MoveKeeps(s.services, s.pcs[step.t]);
    }
  }

  /** Every host of the list is registered with every port of it. */
  predicate Interchangeable(list: seq<Provider>) {
    forall i, j | 0 <= i < |list| && 0 <= j < |list| :: Provider(list[i].host, list[j].port) in list
  }

  /** From any state in which a thread can look up a name and there is another thread, lookups are
      certain to return registered providers exactly if hosts and ports of the list are
      interchangeable. */
  lemma {:induction false} RegisteredResults(s: State, t: nat, name: string)
    requires Inv(s) && CanLookup(s, t, name) && |s.pcs| >= 2
    ensures var list := s.services[name].providers;
            (forall host, port | CanReturn(s, t, name, host, port) :: Provider(host, port) in list)
            <==> Interchangeable(list)
  {
    var list := s.services[name].providers;
    AllPairs(list);
    forall host, port
      ensures CanReturn(s, t, name, host, port) <==> HasHost(list, host) && HasPort(list, port)
    {
      PossibleResults(s, t, name, host, port);
    }
  }

  lemma {:induction false} AllPairs(list: seq<Provider>)
    ensures Interchangeable(list)
        <==> forall host, port | HasHost(list, host) && HasPort(list, port) :: Provider(host, port) in list
  {
    if forall host, port | HasHost(list, host) && HasPort(list, port) :: Provider(host, port) in list {
      forall i, j | 0 <= i < |list| && 0 <= j < |list|
        ensures Provider(list[i].host, list[j].port) in list
      {
        assert HasHost(list, list[i].host) && HasPort(list, list[j].port);
      }
    }
  }

  // ---------------------------------------------------------------- a torn result

  predicate AllIdle(s: State) {
    forall t | 0 <= t < |s.pcs| :: s.pcs[t].Idle?
  }

  lemma {:induction false} UpdateAlone(s: State, t: nat, op: Op) returns (steps: seq<Step>)
    requires Inv(s) && AllIdle(s) && t < |s.pcs| && !op.LookupOp?
    ensures Execute(s, steps) == Some(State(Apply(s.services, op), s.pcs[t := Idle(None)]))
  {
    var begun := Fire(s, StartUpdate(t, op));
    var after := Apply(s.services, op);
    MoveOn(after, Updated, 0);
    MoveOn(s.services, Updating(op), 1);
    ExecuteAdvances(begun, t, 2);
    steps := [StartUpdate(t, op)] + Advances(t, 2);
    assert steps[1..] == Advances(t, 2);
    assert begun.pcs[t := Idle(None)] == s.pcs[t := Idle(None)];
  }

  lemma {:induction false} RegisterBoth(sig: ServiceSignature, p: Provider, q: Provider) returns (steps: seq<Step>)
    requires sig.valid && p != q
    ensures Execute(Initial(2), steps).Some?
    ensures var s := Execute(Initial(2), steps).value;
            AllIdle(s) && s.services == map[sig.name := Entry(sig, [p, q], 0)]
  {
    var first := UpdateAlone(Initial(2), 0, RegisterOp(sig, p));
    var one := Execute(Initial(2), first).value;
    var second := UpdateAlone(one, 0, RegisterOp(sig, q));
    ExecuteAppend(Initial(2), first, second);
    steps := first + second;
    TwoRegistered(sig, p, q);
  }

  lemma {:induction false} TwoRegistered(sig: ServiceSignature, p: Provider, q: Provider)
    requires sig.valid && p != q
    ensures Apply(Apply(map[], RegisterOp(sig, p)), RegisterOp(sig, q)) == map[sig.name := Entry(sig, [p, q], 0)]
  {
    RegisterFirst(sig, p);
    RegisterSecond(sig, p, q);
  }

  lemma {:induction false} RegisterFirst(sig: ServiceSignature, p: Provider)
    requires sig.valid
    ensures Register(map[], sig, p).0 == map[sig.name := Entry(sig, [p], 0)]
  {
    assert [] + [p] == [p];
  }

  lemma {:induction false} RegisterSecond(sig: ServiceSignature, p: Provider, q: Provider)
    requires sig.valid && p != q
    ensures Register(map[sig.name := Entry(sig, [p], 0)], sig, q).0 == map[sig.name := Entry(sig, [p, q], 0)]
  {
    assert [p] + [q] == [p, q];
  }

  /** Such a state is reached whenever two providers with different hosts and ports are registered
      for a service: then a lookup can return a pair that is not registered. */
  lemma {:induction false} TornReachable(sig: ServiceSignature, p: Provider, q: Provider) returns (steps: seq<Step>)
    requires sig.valid && p.host != q.host && p.port != q.port
    ensures Execute(Initial(2), steps).Some?
    ensures var s := Execute(Initial(2), steps).value;
            && CanLookup(s, 0, sig.name) && s.services[sig.name].providers == [p, q]
            && CanReturn(s, 0, sig.name, p.host, q.port) && Provider(p.host, q.port) !in [p, q]
  {
    steps := RegisterBoth(sig, p, q);
    var s := Execute(Initial(2), steps).value;
    var torn := TornLookup(s, 0, 1, sig.name, 0, 1);
    assert Returns(s, 0, sig.name, torn, p.host, q.port);
  }
}
