/**
 Pausing, releasing and waking: how many runs a pause still lets through, why the guard is never
 orphaned, and why the trigger channel loses no wake-up.
 */
module CronProgress {
  import opened Wrappers
  import opened CronProtocol
  import opened CronInvariants

  // ---------- the pause bound ----------

  /** Goroutines that saw the cron unpaused and have yet to try the guard. */
  ghost function PastCheck(w: World): set<Tid> {
    set t | t in w.threads && w.threads[t].BeginCas?
  }

  /** The step is Resume's store of false. */
  predicate Unpauses(w: World, s: Step) {
    s.Advance? && PcOf(w, s.t).ResumeFlag?
  }

  ghost predicate StaysPaused(w: World, steps: seq<Step>)
    requires ValidRun(w, steps)
  {
    Avoids(w, steps, Unpauses)
  }

  /** While paused, every win uses up one goroutine that was already past the check. */
  lemma PausedStep(w: World, s: Step)
    requires w.sh.paused && Enabled(w, s) && !Unpauses(w, s)
    ensures Apply(w, s).sh.paused
    ensures |Apply(w, s).hist.wins| + |PastCheck(Apply(w, s))| <= |w.hist.wins| + |PastCheck(w)|
  {
    var w' := Apply(w, s);
    WinsUnchanged(w, s);
    forall u | s.Tick? || u != s.t
      ensures u in PastCheck(w') <==> u in PastCheck(w)
    {
      OthersStay(w, s, u);
    }
    if s.Advance? && PcOf(w, s.t).BeginCas? {
      assert PastCheck(w') == PastCheck(w) - {s.t};
    } else {
      NoneEnters(w, s);
      assert PastCheck(w') == PastCheck(w);
    }
  }

  lemma NoneEnters(w: World, s: Step)
    requires w.sh.paused && Enabled(w, s) && !(s.Advance? && PcOf(w, s.t).BeginCas?)
    ensures !s.Tick? ==> s.t !in PastCheck(w) && s.t !in PastCheck(Apply(w, s))
    ensures Unpauses(w, s) || Apply(w, s).sh.paused
  {
  }

  /**
   Until the next Resume stores false, no more runs start than goroutines were past the pause check
   when the pause took effect, whatever triggers (forced or not) arrive meanwhile.
   */
  lemma {:induction false} PauseBound(w: World, steps: seq<Step>)
    requires w.sh.paused && ValidRun(w, steps) && StaysPaused(w, steps)
    ensures Run(w, steps).sh.paused
    ensures |Run(w, steps).hist.wins| + |PastCheck(Run(w, steps))| <= |w.hist.wins| + |PastCheck(w)|
    decreases |steps|
  {
    if steps != [] {
      PausedStep(w, steps[0]);
      PauseBound(Apply(w, steps[0]), steps[1..]);
    }
  }

  // ---------- releasing the guard ----------

  /** Own steps left before the guard is released. */
  function Remaining(pc: Pc): nat {
    match pc
    case BeginClock => 14
    case BeginLock(_) => 13
    case BeginWrite(_) => 12
    case BeginUnlock => 11
    case Running => 10
    case EndClock(_) => 9
    case EndLock(_, _) => 8
    case EndFinished(_, _) => 7
    case EndError(_, _) => 6
    case EndErrorCount(_, _) => 5
    case EndRunCount(_, _) => 4
    case EndNext(_) => 3
    case EndUnlock => 2
    case EndRelease => 1
    case _ => 0
  }

  /** Each step of the owner brings the release nearer; no step of anybody else moves it away. */
  lemma OwnerProgress(w: World, s: Step, t: Tid)
    requires Enabled(w, s) && OwnedBy(w, t)
    ensures !s.Tick? && s.t == t ==> Remaining(PcOf(Apply(w, s), t)) < Remaining(w.threads[t])
    ensures s.Tick? || s.t != t ==> PcOf(Apply(w, s), t) == w.threads[t]
  {
    if s.Tick? || s.t != t {
      OthersStay(w, s, t);
    } else if s.Advance? {
      if InBegin(PcOf(w, t)) { BeginProgress(w, t); } else { EndProgress(w, t); }
    }
  }

  lemma BeginProgress(w: World, t: Tid)
    requires InBegin(PcOf(w, t)) && Owns(PcOf(w, t))
    ensures Remaining(PcOf(AdvanceBegin(w, t), t)) < Remaining(PcOf(w, t))
  {
  }

  lemma EndProgress(w: World, t: Tid)
    requires InEnd(PcOf(w, t))
    ensures Remaining(PcOf(AdvanceEnd(w, t), t)) < Remaining(PcOf(w, t))
  {
  }

  /** The owner can only be held up by snapshots in progress. */
  lemma OwnerUnblocked(w: World, t: Tid)
    requires GuardInv(w) && LockInv(w) && OwnedBy(w, t) && w.sh.readers == {}
    ensures w.threads[t].Running? || CanAdvance(w, t)
  {
    if w.sh.writer.Some? {
      var u := w.sh.writer.value;
      assert u in w.threads && HoldsWrite(w.threads[u]);
      assert OwnedBy(w, u);
    }
  }

  /** The pause flag, the wins and the goroutines between check and guard are as before; idle ones stay idle. */
  ghost predicate Calm(w: World, w': World) {
    && w'.sh.paused == w.sh.paused && w'.hist.wins == w.hist.wins && PastCheck(w') == PastCheck(w)
    && forall u :: PcOf(w, u).Idle? ==> PcOf(w', u).Idle?
  }

  /** A goroutine that is neither an admin caller nor about to try the guard. */
  predicate Calming(w: World, s: Step) {
    match s
    case Tick(_) => true
    case Call(_, _) => false
    case JobReturns(_, _) => true
    case Advance(t) => Owns(PcOf(w, t)) || HoldsRead(PcOf(w, t))
  }

  lemma CalmStep(w: World, s: Step)
    requires Enabled(w, s) && Calming(w, s)
    ensures Calm(w, Apply(w, s)) && !Unpauses(w, s)
    ensures Apply(w, s).sh.readers <= w.sh.readers
  {
    var w' := Apply(w, s);
    WinsUnchanged(w, s);
    assert !s.Tick? ==> s.t in w.threads && s.t in w'.threads && !w.threads[s.t].BeginCas? && !w'.threads[s.t].BeginCas?;
    forall u
      ensures u in PastCheck(w') <==> u in PastCheck(w)
      ensures PcOf(w, u).Idle? ==> PcOf(w', u).Idle?
    {
      if s.Tick? || u != s.t { OthersStay(w, s, u); }
    }
  }

  lemma ReaderMoves(w: World, t: Tid)
    requires t in w.threads && HoldsRead(w.threads[t]) && ReaderOk(w.sh, w.threads[t])
    ensures Enabled(w, Advance(t)) && Calming(w, Advance(t))
    ensures var w', pc := Apply(w, Advance(t)), w.threads[t];
      if pc.SnapUnlock? then w'.sh.readers == w.sh.readers - {t}
      else && w'.sh.readers == w.sh.readers && t in w'.threads
           && (w'.threads[t].SnapUnlock? || (w'.threads[t].SnapRead? && w'.threads[t].k == pc.k + 1 < FIELDS))
  {
  }

  function SnapshotLeft(pc: Pc): int {
    if pc.SnapRead? then FIELDS - pc.k else 0
  }

  /** Snapshots finish on their own. */
  lemma FinishReader(w: World, t: Tid) returns (steps: seq<Step>)
    requires Inv(w) && t in w.sh.readers
    ensures ValidRun(w, steps) && StaysPaused(w, steps)
    ensures Inv(Run(w, steps)) && Calm(w, Run(w, steps)) && Run(w, steps).sh.readers == w.sh.readers - {t}
    decreases SnapshotLeft(PcOf(w, t))
  {
    var s := Advance(t);
    ReaderMoves(w, t);
    var w' := Apply(w, s);
    InvStep(w, s);
    CalmStep(w, s);
    if w.threads[t].SnapUnlock? {
      Prepend(w, s, [], Unpauses);
      steps := [s];
    } else {
      var rest := FinishReader(w', t);
      Prepend(w, s, rest, Unpauses);
      steps := [s] + rest;
    }
  }

  lemma FinishReaders(w: World) returns (steps: seq<Step>)
    requires Inv(w)
    ensures ValidRun(w, steps) && StaysPaused(w, steps)
    ensures Inv(Run(w, steps)) && Calm(w, Run(w, steps)) && Run(w, steps).sh.readers == {}
    decreases |w.sh.readers|
  {
    if w.sh.readers == {} {
      steps := [];
    } else {
      var t :| t in w.sh.readers;
      var a := FinishReader(w, t);
      var b := FinishReaders(Run(w, a));
      Join(w, a, b);
      steps := a + b;
    }
  }

  lemma Join(w: World, a: seq<Step>, b: seq<Step>)
    requires ValidRun(w, a) && ValidRun(Run(w, a), b)
    ensures ValidRun(w, a + b) && Run(w, a + b) == Run(Run(w, a), b)
    ensures StaysPaused(w, a + b) <==> StaysPaused(w, a) && StaysPaused(Run(w, a), b)
  {
    RunConcat(w, a, b);
    AvoidsConcat(w, a, b, Unpauses);
  }

  /** The owner's next step. */
  lemma OwnerStep(w: World, t: Tid) returns (s: Step)
    requires Inv(w) && OwnedBy(w, t) && w.sh.readers == {}
    ensures Enabled(w, s) && !Unpauses(w, s) && Inv(Apply(w, s)) && Calm(w, Apply(w, s)) && Apply(w, s).sh.readers == {}
    ensures if w.threads[t].EndRelease? then !Apply(w, s).sh.running
            else OwnedBy(Apply(w, s), t) && Remaining(Apply(w, s).threads[t]) < Remaining(w.threads[t])
  {
    OwnerUnblocked(w, t);
    s := if w.threads[t].Running? then JobReturns(t, None) else Advance(t);
    InvStep(w, s);
    CalmStep(w, s);
    OwnerProgress(w, s, t);
    if s.Advance? {
      OwnershipMoves(w, t);
    }
  }

  lemma FinishOwner(w: World, t: Tid) returns (steps: seq<Step>)
    requires Inv(w) && OwnedBy(w, t) && w.sh.readers == {}
    ensures ValidRun(w, steps) && StaysPaused(w, steps)
    ensures Inv(Run(w, steps)) && Calm(w, Run(w, steps)) && !Run(w, steps).sh.running
    decreases Remaining(w.threads[t])
  {
    var s := OwnerStep(w, t);
    if w.threads[t].EndRelease? {
      Prepend(w, s, [], Unpauses);
      steps := [s] + [];
    } else {
      var rest := FinishOwner(Apply(w, s), t);
      Prepend(w, s, rest, Unpauses);
      steps := [s] + rest;
    }
  }

  /** From every state the guard can still be released, without any admin call. */
  lemma Settle(w: World) returns (steps: seq<Step>)
    requires Inv(w)
    ensures ValidRun(w, steps) && StaysPaused(w, steps)
    ensures Inv(Run(w, steps)) && Calm(w, Run(w, steps)) && !Run(w, steps).sh.running
  {
    steps := FinishReaders(w);
    var w1 := Run(w, steps);
    if w1.sh.running {
      var t :| OwnedBy(w1, t);
      var more := FinishOwner(w1, t);
      Join(w, steps, more);
      steps := steps + more;
    }
  }

  /**
   The guard is never orphaned: from every reachable unpaused state, whatever happened before, the
   current owner can finish and any idle goroutine's BeginRun can then win.
   */
  lemma GuardNeverOrphaned(w: World, t: Tid) returns (steps: seq<Step>)
    requires Reachable(w) && !w.sh.paused && PcOf(w, t).Idle?
    ensures ValidRun(w, steps)
    ensures OwnedBy(Run(w, steps), t) && Run(w, steps).hist.wins == w.hist.wins + [t]
  {
    ReachableInv(w);
    steps := Settle(w);
    var w1 := Run(w, steps);
    var w2 := Apply(w1, Call(t, OpBeginRun));
    var w3 := Apply(w2, Advance(t));
    TakesGuard(w3, t);
    OwnershipMoves(w3, t);
    var more := [Advance(t)];
    Prepend(w3, Advance(t), [], Unpauses);
    Prepend(w2, Advance(t), more, Unpauses);
    Prepend(w1, Call(t, OpBeginRun), [Advance(t)] + more, Unpauses);
    more := [Call(t, OpBeginRun)] + ([Advance(t)] + more);
    Join(w, steps, more);
    steps := steps + more;
  }

  /** The pause bound is exact: from every reachable paused state a schedule reaches it. */
  lemma PauseBoundAttained(w: World) returns (steps: seq<Step>)
    requires Reachable(w) && w.sh.paused
    ensures ValidRun(w, steps) && StaysPaused(w, steps)
    ensures |Run(w, steps).hist.wins| == |w.hist.wins| + |PastCheck(w)|
  {
    ReachableInv(w);
    steps := LetThrough(w);
  }

  /** A goroutine past the check wins a free guard. */
  lemma TakesGuard(w: World, t: Tid)
    requires t in PastCheck(w) && !w.sh.running
    ensures Enabled(w, Advance(t)) && !Unpauses(w, Advance(t))
    ensures Apply(w, Advance(t)).hist.wins == w.hist.wins + [t]
    ensures PastCheck(Apply(w, Advance(t))) == PastCheck(w) - {t}
  {
    WinsUnchanged(w, Advance(t));
    forall u
      ensures u in PastCheck(Apply(w, Advance(t))) <==> u in PastCheck(w) - {t}
    {
      if u != t { OthersStay(w, Advance(t), u); }
    }
  }

  lemma LetThrough(w: World) returns (steps: seq<Step>)
    requires Inv(w)
    ensures ValidRun(w, steps) && StaysPaused(w, steps)
    ensures |Run(w, steps).hist.wins| == |w.hist.wins| + |PastCheck(w)|
    decreases |PastCheck(w)|
  {
    steps := Settle(w);
    var w1 := Run(w, steps);
    if PastCheck(w1) != {} {
      var t :| t in PastCheck(w1);
      TakesGuard(w1, t);
      InvStep(w1, Advance(t));
      var rest := LetThrough(Apply(w1, Advance(t)));
      Prepend(w1, Advance(t), rest, Unpauses);
      Join(w, steps, [Advance(t)] + rest);
      steps := steps + ([Advance(t)] + rest);
    }
  }

  // ---------- the trigger channel ----------

  /** `Pending`, said without reference to the end of the log. */
  lemma PendingMeans(log: seq<SignalEvent>)
    ensures Pending(log) <==>
      exists i :: 0 <= i < |log| && log[i].Accepted? && forall j :: i < j < |log| ==> !log[j].Received?
  {
    if exists i :: 0 <= i < |log| && log[i].Accepted? && forall j :: i < j < |log| ==> !log[j].Received? {
      var i :| 0 <= i < |log| && log[i].Accepted? && forall j :: i < j < |log| ==> !log[j].Received?;
      assert i == |log| - 1 || !log[|log| - 1].Received?;
    }
    if Pending(log) {
      assert log[|log| - 1].Accepted?;
    }
  }

  /**
   No wake-up is lost and none is invented: the channel holds a signal exactly when a trigger was
   accepted after the last receive, and every group of triggers between receives gives one wake-up.
   */
  lemma TriggerCoalescing(w: World)
    requires Reachable(w)
    ensures var log := w.hist.signals;
      w.sh.signal <==>
      exists i :: 0 <= i < |log| && log[i].Accepted? && forall j :: i < j < |log| ==> !log[j].Received?
    ensures Receives(w.hist.signals) + One(w.sh.signal) == Groups(w.hist.signals)
  {
    ReachableInv(w);
    PendingMeans(w.hist.signals);
  }
}
