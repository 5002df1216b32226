/**
 Many crons, many loops: the registry's name table (Registry.Register in
 contract/cronreg/registry.go) over the entries of CronProtocol.

 Register runs entirely under the registry mutex, so it is one step. A cron loop can call BeginRun
 only on an entry that a Register call returned to it.
 */
module CronFleet {
  import opened CronProtocol
  import CronInvariants
  import CronTheorems

  /** Register(name) returned entry number `id` to goroutine `t`. */
  datatype Handle = Handle(t: Tid, name: string, id: nat)

  datatype Fleet = Fleet(
    names: map<string, nat>,     // the registry's entries map
    entries: seq<World>,         // every Entry allocated so far
    handles: set<Handle>)

  datatype FleetStep =
    | Register(t: Tid, name: string, blank: World)   // `blank` is the entry to insert if the name is new
    | Inside(id: nat, s: Step)                       // one step inside one entry

  predicate CanStep(f: Fleet, s: FleetStep) {
    match s
    case Register(_, _, blank) => Initial(blank)
    case Inside(id, e) =>
      && id < |f.entries|
      && Enabled(f.entries[id], e)
      && (e.Call? && e.op.OpBeginRun? ==> exists h :: h in f.handles && h.t == e.t && h.id == id)
  }

  function FleetApply(f: Fleet, s: FleetStep): Fleet
    requires CanStep(f, s)
  {
    match s
    case Register(t, name, blank) =>
      if name in f.names then f.(handles := f.handles + {Handle(t, name, f.names[name])})
      else Fleet(f.names[name := |f.entries|], f.entries + [blank], f.handles + {Handle(t, name, |f.entries|)})
    case Inside(id, e) => f.(entries := f.entries[id := Apply(f.entries[id], e)])
  }

  predicate ValidFleetRun(f: Fleet, steps: seq<FleetStep>)
    decreases |steps|
  {
    steps == [] || (CanStep(f, steps[0]) && ValidFleetRun(FleetApply(f, steps[0]), steps[1..]))
  }

  function FleetRun(f: Fleet, steps: seq<FleetStep>): Fleet
    requires ValidFleetRun(f, steps)
    decreases |steps|
  {
    if steps == [] then f else FleetRun(FleetApply(f, steps[0]), steps[1..])
  }

  const EMPTY := Fleet(map[], [], {})

  ghost predicate FleetInv(f: Fleet) {
    && (forall n :: n in f.names ==> f.names[n] < |f.entries|)
    && (forall m, n :: m in f.names && n in f.names && f.names[m] == f.names[n] ==> m == n)
    && (forall h :: h in f.handles ==> h.name in f.names && f.names[h.name] == h.id)
    && (forall i :: 0 <= i < |f.entries| ==> Reachable(f.entries[i]))
    && (forall i, t :: 0 <= i < |f.entries| && Called(f.entries[i], t) ==>
          exists h :: h in f.handles && h.t == t && h.id == i)
  }

  /** The goroutine is inside BeginRun, inside its run, or inside EndRun. */
  predicate Called(w: World, t: Tid) {
    t in w.threads && (InBegin(w.threads[t]) || CronInvariants.Owns(w.threads[t]))
  }

  lemma CalledOnlyByCall(w: World, s: Step, t: Tid)
    requires Enabled(w, s) && Called(Apply(w, s), t)
    ensures Called(w, t) || (s.Call? && s.op.OpBeginRun? && s.t == t)
  {
    if s.Tick? || s.t != t {
      CronInvariants.OthersStay(w, s, t);
    }
  }

  lemma RegisterInv(f: Fleet, s: FleetStep)
    requires FleetInv(f) && CanStep(f, s) && s.Register?
    ensures FleetInv(FleetApply(f, s))
  {
    var f' := FleetApply(f, s);
    assert ReachableBy(s.blank, [], s.blank);
    forall i, u | 0 <= i < |f'.entries| && Called(f'.entries[i], u)
      ensures exists h :: h in f'.handles && h.t == u && h.id == i
    {
      assert i < |f.entries|;
      var h :| h in f.handles && h.t == u && h.id == i;
      assert h in f'.handles;
    }
  }

  lemma InsideInv(f: Fleet, s: FleetStep)
    requires FleetInv(f) && CanStep(f, s) && s.Inside?
    ensures FleetInv(FleetApply(f, s))
  {
    var f' := FleetApply(f, s);
    ReachableStep(f.entries[s.id], s.s);
    forall i, u | 0 <= i < |f'.entries| && Called(f'.entries[i], u)
      ensures exists h :: h in f'.handles && h.t == u && h.id == i
    {
      if i == s.id { CalledOnlyByCall(f.entries[s.id], s.s, u); }
    }
  }

  lemma FleetStepInv(f: Fleet, s: FleetStep)
    requires FleetInv(f) && CanStep(f, s)
    ensures FleetInv(FleetApply(f, s))
  {
    if s.Register? {
      RegisterInv(f, s);
    } else {
      InsideInv(f, s);
    }
  }

  lemma {:induction false} FleetRunInv(f: Fleet, steps: seq<FleetStep>)
    requires FleetInv(f) && ValidFleetRun(f, steps)
    ensures FleetInv(FleetRun(f, steps))
    decreases |steps|
  {
    if steps != [] {
      FleetStepInv(f, steps[0]);
      FleetRunInv(FleetApply(f, steps[0]), steps[1..]);
    }
  }

  /** The name table only grows, and a name resolves to the same entry for ever. */
  lemma {:induction false} NamesAreForever(f: Fleet, steps: seq<FleetStep>, name: string)
    requires ValidFleetRun(f, steps) && name in f.names
    ensures name in FleetRun(f, steps).names && FleetRun(f, steps).names[name] == f.names[name]
    decreases |steps|
  {
    if steps != [] {
      NamesAreForever(FleetApply(f, steps[0]), steps[1..], name);
    }
  }

  /**
   Two loops that registered under the same name hold the same entry, and at most one of all the
   loops that did is inside a run at any time.
   */
  lemma SameNameExclusion(steps: seq<FleetStep>, a: Handle, b: Handle)
    requires ValidFleetRun(EMPTY, steps)
    requires a in FleetRun(EMPTY, steps).handles && b in FleetRun(EMPTY, steps).handles && a.name == b.name
    ensures a.id == b.id < |FleetRun(EMPTY, steps).entries|
    ensures var w := FleetRun(EMPTY, steps).entries[a.id];
      CronInvariants.OwnedBy(w, a.t) && CronInvariants.OwnedBy(w, b.t) ==> a.t == b.t
  {
    FleetRunInv(EMPTY, steps);
    CronTheorems.MutualExclusion(FleetRun(EMPTY, steps).entries[a.id]);
  }

  /** Whoever is inside a run got its entry from Register, under the one name that entry has. */
  lemma OwnersAreRegistered(steps: seq<FleetStep>, id: nat, t: Tid) returns (h: Handle)
    requires ValidFleetRun(EMPTY, steps) && id < |FleetRun(EMPTY, steps).entries|
    requires CronInvariants.OwnedBy(FleetRun(EMPTY, steps).entries[id], t)
    ensures var f := FleetRun(EMPTY, steps);
      && h in f.handles && h.t == t && h.id == id
      && (forall n :: n in f.names && f.names[n] == id <==> n == h.name)
  {
    FleetRunInv(EMPTY, steps);
    var f := FleetRun(EMPTY, steps);
    assert Called(f.entries[id], t);
    h :| h in f.handles && h.t == t && h.id == id;
  }
}
