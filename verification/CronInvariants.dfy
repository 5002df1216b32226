/**
 Inductive invariants of the cron protocol: what every step of every interleaving keeps.
 */
module CronInvariants {
  import opened Wrappers
  import opened CronProtocol

  // ---------- the guard and the mutex ----------

  /** Between winning the compare-and-swap and storing false in EndRun. */
  predicate Owns(pc: Pc) {
    pc.BeginClock? || pc.BeginLock? || pc.BeginWrite? || pc.BeginUnlock? || pc.Running? || InEnd(pc)
  }

  predicate HoldsWrite(pc: Pc) {
    pc.BeginWrite? || pc.BeginUnlock? || pc.EndFinished? || pc.EndError? || pc.EndErrorCount? || pc.EndRunCount?
    || pc.EndNext? || pc.EndUnlock?
  }

  predicate HoldsRead(pc: Pc) {
    pc.SnapRead? || pc.SnapUnlock?
  }

  ghost predicate OwnedBy(w: World, t: Tid) {
    t in w.threads && Owns(w.threads[t])
  }

  ghost predicate GuardInv(w: World) {
    && (forall t, u :: OwnedBy(w, t) && OwnedBy(w, u) ==> t == u)
    && (w.sh.running <==> exists t :: OwnedBy(w, t))
  }

  ghost predicate LockInv(w: World) {
    && (forall t :: t in w.threads && HoldsWrite(w.threads[t]) <==> w.sh.writer == Some(t))
    && (forall t :: t in w.threads && HoldsRead(w.threads[t]) <==> t in w.sh.readers)
    && (w.sh.writer.Some? ==> w.sh.readers == {})
  }

  // ---------- bookkeeping against the run history ----------

  /** The number of failed runs. */
  function Errors(fs: seq<Finish>): nat {
    if fs == [] then 0 else Errors(fs[..|fs| - 1]) + (if fs[|fs| - 1].err.Some? then 1 else 0)
  }

  function LastFinishedAt(fs: seq<Finish>): Option<Time> {
    if fs == [] then None else Some(fs[|fs| - 1].at)
  }

  function LastError(fs: seq<Finish>): string {
    if fs == [] then "" else ErrorText(fs[|fs| - 1].err)
  }

  function LastStartedAt(ss: seq<Start>): Option<Time> {
    if ss == [] then None else Some(ss[|ss| - 1].at)
  }

  /** The time the next run is scheduled from: the last finish, or the registration. */
  function Origin(born: Time, fs: seq<Finish>): Time {
    if fs == [] then born else fs[|fs| - 1].at
  }

  function NextRun(born: Time, interval: int, fs: seq<Finish>): Time {
    if interval > 0 then Origin(born, fs) + interval else born + interval
  }

  /** The owner has won but its run is not counted yet. */
  predicate Uncounted(pc: Pc) {
    pc.BeginClock? || pc.BeginLock? || pc.BeginWrite? || Started(pc)
  }

  /** The owner has recorded its start but its run is not counted yet. */
  predicate Started(pc: Pc) {
    pc.BeginUnlock? || pc.Running? || pc.EndClock? || pc.EndLock? || pc.EndFinished? || pc.EndError?
    || pc.EndErrorCount? || pc.EndRunCount?
  }

  function One(b: bool): nat { if b then 1 else 0 }

  /** The field values, given the owner's program counter (Idle when there is no owner). */
  predicate Book(w: World, pc: Pc) {
    var sh, h := w.sh, w.hist;
    var n := |h.finishes|;
    && |h.wins| == n + One(Uncounted(pc))
    && |h.starts| == n + One(Started(pc))
    && sh.runCount == n
    && sh.errorCount == Errors(h.finishes) + One(pc.EndRunCount? && pc.err.Some?)
    && sh.startedAt == LastStartedAt(h.starts)
    && sh.finishedAt == (if pc.EndError? || pc.EndErrorCount? || pc.EndRunCount? then Some(pc.now)
                         else LastFinishedAt(h.finishes))
    && sh.error == (if pc.EndErrorCount? || pc.EndRunCount? then ErrorText(pc.err) else LastError(h.finishes))
    && (pc.EndErrorCount? ==> pc.err.Some?)
    && (if pc.EndNext? then n > 0 && w.interval > 0 && h.finishes[n - 1].at == pc.now
                            && sh.next == NextRun(w.born, w.interval, h.finishes[..n - 1])
        else sh.next == NextRun(w.born, w.interval, h.finishes))
  }

  /** Run i is won, started and finished by one goroutine. */
  predicate Identity(h: History) {
    && |h.finishes| <= |h.starts| <= |h.wins|
    && (forall i :: 0 <= i < |h.starts| ==> h.starts[i].tid == h.wins[i])
    && (forall i :: 0 <= i < |h.finishes| ==> h.finishes[i].tid == h.wins[i])
  }

  ghost predicate BookInv(w: World) {
    && Identity(w.hist)
    && (forall t :: OwnedBy(w, t) ==> Book(w, w.threads[t]))
    && (forall t :: OwnedBy(w, t) && Uncounted(w.threads[t]) ==> |w.hist.wins| > 0 && w.hist.wins[|w.hist.wins| - 1] == t)
    && (!w.sh.running ==> Book(w, Idle))
  }

  // ---------- time ----------

  /** Run i starts no earlier than the previous finish, finishes no earlier than it starts, and not in the future. */
  predicate RunTimes(h: History, born: Time, clock: Time, i: int)
    requires 0 <= i < |h.starts| <= |h.finishes| + 1
  {
    && (if i == 0 then born else h.finishes[i - 1].at) <= h.starts[i].at <= clock
    && (i < |h.finishes| ==> h.starts[i].at <= h.finishes[i].at <= clock)
  }

  predicate Chronological(h: History, born: Time, clock: Time) {
    && |h.finishes| <= |h.starts| <= |h.finishes| + 1
    && forall i :: 0 <= i < |h.starts| ==> RunTimes(h, born, clock, i)
  }

  /** A time an owner has read but not yet stored lies between the last stored time and now. */
  predicate StampOk(w: World, pc: Pc) {
    && (pc.BeginLock? || pc.BeginWrite? ==> Origin(w.born, w.hist.finishes) <= pc.now <= w.clock)
    && (pc.EndLock? || pc.EndFinished? || pc.EndError? || pc.EndErrorCount? || pc.EndRunCount?
        ==> w.hist.starts != [] && w.hist.starts[|w.hist.starts| - 1].at <= pc.now <= w.clock)
  }

  ghost predicate TimeInv(w: World) {
    && w.born <= w.clock
    && Chronological(w.hist, w.born, w.clock)
    && (forall t :: OwnedBy(w, t) ==> StampOk(w, w.threads[t]))
  }

  // ---------- snapshots ----------

  /** The lock-protected fields among the first k read agree with the shared state. */
  predicate Agrees(sh: Shared, k: nat, acc: Info) {
    && (k > 1 ==> acc.startedAt == sh.startedAt)
    && (k > 2 ==> acc.finishedAt == sh.finishedAt)
    && (k > 3 ==> acc.error == sh.error)
    && (k > 4 ==> acc.next == sh.next)
    && (k > 7 ==> acc.runCount == sh.runCount)
    && (k > 8 ==> acc.errorCount == sh.errorCount)
  }

  /** What a snapshot in progress has read so far. */
  predicate ReaderOk(sh: Shared, pc: Pc) {
    match pc
    case SnapRead(k, acc) => k < FIELDS && Agrees(sh, k, acc)
    case SnapUnlock(acc) => Agrees(sh, FIELDS, acc)
    case _ => true
  }

  ghost predicate ReaderInv(w: World) {
    forall t :: t in w.threads ==> ReaderOk(w.sh, w.threads[t])
  }

  /** A snapshot is the state after exactly its first `runCount` runs, with at most one more started. */
  predicate Describes(info: Info, h: History, born: Time, interval: int) {
    && 0 <= info.runCount <= |h.finishes|
    && var done := h.finishes[..info.runCount];
    && info.errorCount == Errors(done)
    && info.finishedAt == LastFinishedAt(done)
    && info.error == LastError(done)
    && info.next == NextRun(born, interval, done)
    && ((info.runCount <= |h.starts| && info.startedAt == LastStartedAt(h.starts[..info.runCount]))
        || (info.runCount + 1 <= |h.starts| && info.startedAt == LastStartedAt(h.starts[..info.runCount + 1])))
  }

  /** Every snapshot taken describes the history, and later snapshots never describe fewer runs. */
  predicate SnapsOk(h: History, born: Time, interval: int) {
    && (forall i :: 0 <= i < |h.snaps| ==> Describes(h.snaps[i], h, born, interval))
    && (forall i, j :: 0 <= i < j < |h.snaps| ==> h.snaps[i].runCount <= h.snaps[j].runCount)
  }

  ghost predicate SnapInv(w: World) {
    SnapsOk(w.hist, w.born, w.interval)
  }

  // ---------- the trigger channel ----------

  /** Some trigger was accepted after the last receive. */
  predicate Pending(log: seq<SignalEvent>) {
    log != [] && log[|log| - 1].Accepted?
  }

  /** Receives so far. */
  function Receives(log: seq<SignalEvent>): nat {
    if log == [] then 0 else Receives(log[..|log| - 1]) + One(log[|log| - 1].Received?)
  }

  /** Maximal groups of accepted triggers not separated by a receive. */
  function Groups(log: seq<SignalEvent>): nat {
    if log == [] then 0
    else Groups(log[..|log| - 1]) + One(log[|log| - 1].Accepted? && !Pending(log[..|log| - 1]))
  }

  ghost predicate SignalInv(w: World) {
    && w.sh.signal == Pending(w.hist.signals)
    && Groups(w.hist.signals) == Receives(w.hist.signals) + One(w.sh.signal)
  }

  // ---------- the whole invariant ----------

  ghost predicate Inv(w: World) {
    GuardInv(w) && LockInv(w) && BookInv(w) && TimeInv(w) && ReaderInv(w) && SnapInv(w) && SignalInv(w)
  }

  lemma InitialInv(w: World)
    requires Initial(w)
    ensures Inv(w)
  {
  }

  /** The step is a successful compare-and-swap. */
  predicate WinsGuard(w: World, s: Step) {
    s.Advance? && PcOf(w, s.t).BeginCas? && !w.sh.running
  }

  /** How one access moves its goroutine in and out of the guarded section. */
  predicate OwnershipEffect(w: World, t: Tid, w': World) {
    var pc := PcOf(w, t);
    && t in w'.threads
    && Owns(w'.threads[t]) == ((Owns(pc) && !pc.EndRelease?) || (pc.BeginCas? && !w.sh.running))
    && w'.sh.running == (if pc.EndRelease? then false else w.sh.running || pc.BeginCas?)
  }

  /** An admin call stays one until it returns, and touches neither the guard nor the mutex. */
  lemma AdminStays(w: World, t: Tid)
    requires InAdmin(PcOf(w, t))
    ensures var w' := AdvanceAdmin(w, t);
      && t in w'.threads && (w'.threads[t].Idle? || InAdmin(w'.threads[t]))
      && w'.sh.running == w.sh.running && w'.sh.writer == w.sh.writer && w'.sh.readers == w.sh.readers
  {
  }

  lemma AdminHoldsNothing(pc: Pc)
    requires pc.Idle? || InAdmin(pc)
    ensures !Owns(pc) && !HoldsWrite(pc) && !HoldsRead(pc) && !InBegin(pc) && !InEnd(pc) && !InSnapshot(pc)
  {
  }

  lemma OwnershipBegin(w: World, t: Tid)
    requires InBegin(PcOf(w, t))
    ensures OwnershipEffect(w, t, AdvanceBegin(w, t))
  {
  }

  lemma OwnershipEnd(w: World, t: Tid)
    requires InEnd(PcOf(w, t))
    ensures OwnershipEffect(w, t, AdvanceEnd(w, t))
  {
  }

  lemma OwnershipSnapshot(w: World, t: Tid)
    requires InSnapshot(PcOf(w, t))
    ensures OwnershipEffect(w, t, AdvanceSnapshot(w, t))
  {
  }

  lemma OwnershipAdmin(w: World, t: Tid)
    requires InAdmin(PcOf(w, t))
    ensures OwnershipEffect(w, t, AdvanceAdmin(w, t))
  {
    AdminStays(w, t);
    AdminHoldsNothing(PcOf(w, t));
    AdminHoldsNothing(PcOf(AdvanceAdmin(w, t), t));
  }

  lemma OwnershipMoves(w: World, t: Tid)
    requires CanAdvance(w, t)
    ensures OwnershipEffect(w, t, Apply(w, Advance(t)))
  {
    if InBegin(PcOf(w, t)) {
      OwnershipBegin(w, t);
    } else if InEnd(PcOf(w, t)) {
      OwnershipEnd(w, t);
    } else if InSnapshot(PcOf(w, t)) {
      OwnershipSnapshot(w, t);
    } else {
      OwnershipAdmin(w, t);
    }
  }

  /** A step changes no program counter but its own goroutine's. */
  lemma OthersStay(w: World, s: Step, u: Tid)
    requires Enabled(w, s) && (s.Tick? || s.t != u)
    ensures PcOf(Apply(w, s), u) == PcOf(w, u) && (u in Apply(w, s).threads <==> u in w.threads)
    ensures OwnedBy(Apply(w, s), u) == OwnedBy(w, u)
  {
  }

  lemma GuardStep(w: World, s: Step)
    requires GuardInv(w) && Enabled(w, s)
    ensures GuardInv(Apply(w, s))
  {
    var w' := Apply(w, s);
    OwnersAfter(w, s);
    forall t, u | OwnedBy(w', t) && OwnedBy(w', u)
      ensures t == u
    {
      assert (OwnedBy(w, t) || WinsGuard(w, s)) && (OwnedBy(w, u) || WinsGuard(w, s));
    }
    if w'.sh.running {
      if WinsGuard(w, s) {
        assert OwnedBy(w', s.t);
      } else {
        var u :| OwnedBy(w, u);
        assert OwnedBy(w', u);
      }
    }
    forall u | OwnedBy(w', u)
      ensures w'.sh.running
    {
      assert OwnedBy(w, u) || WinsGuard(w, s);
    }
  }

  predicate Releases(w: World, s: Step) {
    s.Advance? && PcOf(w, s.t).EndRelease?
  }

  /** Who owns the guard after a step: the winner, or whoever did before and did not release. */
  lemma OwnersAfter(w: World, s: Step)
    requires GuardInv(w) && Enabled(w, s)
    ensures forall u :: OwnedBy(Apply(w, s), u) <==> (OwnedBy(w, u) && !Releases(w, s)) || (WinsGuard(w, s) && u == s.t)
    ensures Apply(w, s).sh.running <==> (w.sh.running && !Releases(w, s)) || WinsGuard(w, s)
  {
    if s.Advance? {
      OwnershipMoves(w, s.t);
    }
    forall u
      ensures OwnedBy(Apply(w, s), u) <==> (OwnedBy(w, u) && !Releases(w, s)) || (WinsGuard(w, s) && u == s.t)
    {
      if s.Tick? || u != s.t {
        OthersStay(w, s, u);
        if Releases(w, s) {
          assert OwnedBy(w, s.t);
        }
      }
    }
  }

  /** How one access moves its goroutine in and out of the mutex. */
  predicate LockEffect(w: World, t: Tid, w': World) {
    var pc := PcOf(w, t);
    && t in w'.threads
    && HoldsWrite(w'.threads[t])
       == (pc.BeginLock? || pc.EndLock? || (HoldsWrite(pc) && !pc.BeginUnlock? && !pc.EndUnlock?))
    && HoldsRead(w'.threads[t]) == (pc.SnapLock? || pc.SnapRead?)
    && w'.sh.writer == (if pc.BeginLock? || pc.EndLock? then Some(t)
                        else if pc.BeginUnlock? || pc.EndUnlock? then None else w.sh.writer)
    && w'.sh.readers == (if pc.SnapLock? then w.sh.readers + {t}
                         else if pc.SnapUnlock? then w.sh.readers - {t} else w.sh.readers)
  }

  lemma LockBegin(w: World, t: Tid)
    requires InBegin(PcOf(w, t))
    ensures LockEffect(w, t, AdvanceBegin(w, t))
  {
  }

  lemma LockEnd(w: World, t: Tid)
    requires InEnd(PcOf(w, t))
    ensures LockEffect(w, t, AdvanceEnd(w, t))
  {
  }

  lemma LockSnapshot(w: World, t: Tid)
    requires InSnapshot(PcOf(w, t))
    ensures LockEffect(w, t, AdvanceSnapshot(w, t))
  {
  }

  lemma LockAdmin(w: World, t: Tid)
    requires InAdmin(PcOf(w, t))
    ensures LockEffect(w, t, AdvanceAdmin(w, t))
  {
    AdminStays(w, t);
    AdminHoldsNothing(PcOf(w, t));
    AdminHoldsNothing(PcOf(AdvanceAdmin(w, t), t));
  }

  lemma LockMoves(w: World, t: Tid)
    requires CanAdvance(w, t)
    ensures LockEffect(w, t, Apply(w, Advance(t)))
  {
    if InBegin(PcOf(w, t)) {
      LockBegin(w, t);
    } else if InEnd(PcOf(w, t)) {
      LockEnd(w, t);
    } else if InSnapshot(PcOf(w, t)) {
      LockSnapshot(w, t);
    } else {
      LockAdmin(w, t);
    }
  }

  lemma LockStep(w: World, s: Step)
    requires LockInv(w) && Enabled(w, s)
    ensures LockInv(Apply(w, s))
  {
    var w' := Apply(w, s);
    if s.Advance? {
      LockMoves(w, s.t);
    }
    forall t
      ensures t in w'.threads && HoldsWrite(w'.threads[t]) <==> w'.sh.writer == Some(t)
      ensures t in w'.threads && HoldsRead(w'.threads[t]) <==> t in w'.sh.readers
    {
      assert t in w.threads && HoldsWrite(w.threads[t]) <==> w.sh.writer == Some(t);
      assert t in w.threads && HoldsRead(w.threads[t]) <==> t in w.sh.readers;
      if s.Tick? || t != s.t {
        OthersStay(w, s, t);
      }
    }
  }

  /** The recorded fields and the run history are the same. */
  predicate SameRecord(w: World, w': World) {
    && w'.born == w.born && w'.interval == w.interval
    && w'.sh.startedAt == w.sh.startedAt && w'.sh.finishedAt == w.sh.finishedAt && w'.sh.error == w.sh.error
    && w'.sh.next == w.sh.next && w'.sh.runCount == w.sh.runCount && w'.sh.errorCount == w.sh.errorCount
    && w'.hist.starts == w.hist.starts && w'.hist.finishes == w.hist.finishes
  }

  lemma BeginFrame(w: World, t: Tid)
    requires InBegin(PcOf(w, t)) && !HoldsWrite(PcOf(w, t))
    ensures SameRecord(w, AdvanceBegin(w, t))
  {
  }

  lemma EndFrame(w: World, t: Tid)
    requires InEnd(PcOf(w, t)) && !HoldsWrite(PcOf(w, t))
    ensures SameRecord(w, AdvanceEnd(w, t))
  {
  }

  lemma SnapshotFrame(w: World, t: Tid)
    requires InSnapshot(PcOf(w, t))
    ensures SameRecord(w, AdvanceSnapshot(w, t))
  {
  }

  lemma AdminFrame(w: World, t: Tid)
    requires InAdmin(PcOf(w, t))
    ensures SameRecord(w, AdvanceAdmin(w, t))
  {
  }

  /** Only the holder of the write lock touches the fields a snapshot must agree on. */
  lemma ProtectedFields(w: World, s: Step)
    requires Enabled(w, s)
    requires !(s.Advance? && HoldsWrite(PcOf(w, s.t)))
    ensures SameRecord(w, Apply(w, s))
  {
    if s.Advance? {
      var pc := PcOf(w, s.t);
      if InBegin(pc) { BeginFrame(w, s.t); }
      else if InEnd(pc) { EndFrame(w, s.t); }
      else if InSnapshot(pc) { SnapshotFrame(w, s.t); }
      else { AdminFrame(w, s.t); }
    }
  }

  lemma ReadStep(w: World, t: Tid)
    requires InSnapshot(PcOf(w, t)) && ReaderOk(w.sh, PcOf(w, t))
    ensures ReaderOk(AdvanceSnapshot(w, t).sh, AdvanceSnapshot(w, t).threads[t])
  {
  }

  lemma ReaderStep(w: World, s: Step)
    requires LockInv(w) && ReaderInv(w) && Enabled(w, s)
    ensures ReaderInv(Apply(w, s))
  {
    var w' := Apply(w, s);
    forall t | t in w'.threads
      ensures ReaderOk(w'.sh, w'.threads[t])
    {
      if !s.Tick? && s.t == t {
        if s.Advance? && InSnapshot(PcOf(w, t)) { ReadStep(w, t); }
        else { NotReading(w, s); }
      } else {
        OthersStay(w, s, t);
        if HoldsRead(w.threads[t]) {
          assert t in w.sh.readers;
          ProtectedFields(w, s);
        }
      }
    }
  }

  lemma NotReading(w: World, s: Step)
    requires Enabled(w, s) && !s.Tick?
    requires !(s.Advance? && InSnapshot(PcOf(w, s.t)))
    ensures s.t in Apply(w, s).threads && !HoldsRead(Apply(w, s).threads[s.t])
  {
  }

  lemma SignalStep(w: World, s: Step)
    requires SignalInv(w) && Enabled(w, s)
    ensures SignalInv(Apply(w, s))
  {
    var w' := Apply(w, s);
    if w'.hist.signals != w.hist.signals {
      assert w'.hist.signals[..|w'.hist.signals| - 1] == w.hist.signals;
    }
  }

  lemma ErrorsSnoc(fs: seq<Finish>, f: Finish)
    ensures Errors(fs + [f]) == Errors(fs) + One(f.err.Some?)
  {
    assert (fs + [f])[..|fs|] == fs;
  }

  /** Book reads only the recorded fields and the run history. */
  lemma BookFrame(w: World, w': World, pc: Pc)
    requires Book(w, pc) && SameRecord(w, w')
    requires w'.hist.wins == w.hist.wins
    ensures Book(w', pc)
  {
  }

  lemma WinsUnchanged(w: World, s: Step)
    requires Enabled(w, s)
    ensures Apply(w, s).hist.wins == w.hist.wins + (if WinsGuard(w, s) then [s.t] else [])
  {
  }

  /** The owner's accesses in BeginRun keep the books. */
  lemma BookBegin(w: World, t: Tid)
    requires t in w.threads && InBegin(w.threads[t]) && Owns(w.threads[t]) && Book(w, w.threads[t])
    ensures Book(AdvanceBegin(w, t), AdvanceBegin(w, t).threads[t])
  {
    var w' := AdvanceBegin(w, t);
    match w.threads[t] {
      case BeginClock => BookFrame(w, w', BeginClock); assert Book(w', w'.threads[t]);
      case BeginLock(now) => BookFrame(w, w', BeginLock(now));
      case BeginWrite(now) =>
      case BeginUnlock => BookFrame(w, w', BeginUnlock);
    }
  }

  /** The owner's accesses in EndRun keep the books; after the release there is no owner. */
  lemma BookEnd(w: World, t: Tid)
    requires t in w.threads && InEnd(w.threads[t]) && Book(w, w.threads[t])
    ensures Book(AdvanceEnd(w, t), AdvanceEnd(w, t).threads[t])
  {
    var w' := AdvanceEnd(w, t);
    var pc := w.threads[t];
    if pc.EndRunCount? {
      BookCounted(w, t);
    } else if pc.EndClock? || pc.EndLock? || pc.EndUnlock? || pc.EndRelease? {
      BookFrame(w, w', pc);
    }
  }

  lemma BookCounted(w: World, t: Tid)
    requires t in w.threads && w.threads[t].EndRunCount? && Book(w, w.threads[t])
    ensures Book(AdvanceEnd(w, t), AdvanceEnd(w, t).threads[t])
  {
    var pc, fs := w.threads[t], w.hist.finishes;
    ErrorsSnoc(fs, Finish(t, pc.now, pc.err));
    assert (fs + [Finish(t, pc.now, pc.err)])[..|fs|] == fs;
  }

  lemma BookStep(w: World, s: Step)
    requires GuardInv(w) && BookInv(w) && Enabled(w, s)
    ensures BookInv(Apply(w, s))
  {
    GuardStep(w, s);
    WinsUnchanged(w, s);
    if s.Advance? && OwnedBy(w, s.t) {
      BookOwnStep(w, s.t);
    } else if WinsGuard(w, s) {
      BookWin(w, s.t);
    } else {
      BookOtherStep(w, s);
    }
  }

  lemma BookWin(w: World, t: Tid)
    requires GuardInv(w) && BookInv(w) && WinsGuard(w, Advance(t))
    ensures BookInv(AdvanceBegin(w, t))
  {
    var w' := AdvanceBegin(w, t);
    assert Book(w', BeginClock);
    forall u | OwnedBy(w', u)
      ensures u == t
    {
      if u != t {
        OthersStay(w, Advance(t), u);
      }
    }
  }

  lemma BookOwnStep(w: World, t: Tid)
    requires GuardInv(w) && BookInv(w) && OwnedBy(w, t) && CanAdvance(w, t)
    requires GuardInv(Apply(w, Advance(t)))
    ensures BookInv(Apply(w, Advance(t)))
  {
    OwnBook(w, t);
    OwnIdentity(w, t);
    OnlyOwner(w, t);
  }

  /** The owner's access keeps the books, whichever it is. */
  lemma OwnBook(w: World, t: Tid)
    requires OwnedBy(w, t) && CanAdvance(w, t) && Book(w, w.threads[t])
    ensures var w' := Apply(w, Advance(t));
      && t in w'.threads && Book(w', w'.threads[t]) && w'.hist.wins == w.hist.wins
      && (Uncounted(w'.threads[t]) ==> Uncounted(w.threads[t]))
      && (!w'.sh.running ==> w'.threads[t].Idle? || !w.sh.running)
  {
    OwnershipMoves(w, t);
    if InBegin(w.threads[t]) { BookBegin(w, t); } else { BookEnd(w, t); }
  }

  lemma OnlyOwner(w: World, t: Tid)
    requires GuardInv(w) && OwnedBy(w, t) && CanAdvance(w, t)
    ensures forall u :: OwnedBy(Apply(w, Advance(t)), u) ==> u == t
  {
    forall u | u != t
      ensures !OwnedBy(Apply(w, Advance(t)), u)
    {
      OthersStay(w, Advance(t), u);
    }
  }

  lemma OwnIdentity(w: World, t: Tid)
    requires BookInv(w) && OwnedBy(w, t) && CanAdvance(w, t)
    ensures Identity(Apply(w, Advance(t)).hist)
  {
    var pc := w.threads[t];
    assert Book(w, pc);
  }

  lemma BookOtherStep(w: World, s: Step)
    requires GuardInv(w) && BookInv(w) && Enabled(w, s)
    requires !(s.Advance? && OwnedBy(w, s.t)) && !WinsGuard(w, s)
    requires Apply(w, s).hist.wins == w.hist.wins
    ensures BookInv(Apply(w, s))
  {
    var w' := Apply(w, s);
    ProtectedFields(w, s);
    assert w'.sh.running == w.sh.running by {
      if s.Advance? { OwnershipMoves(w, s.t); }
    }
    if !w.sh.running {
      BookFrame(w, w', Idle);
    }
    forall u | OwnedBy(w', u)
      ensures Book(w', w'.threads[u])
      ensures OwnedBy(w, u) && Uncounted(w'.threads[u]) == Uncounted(w.threads[u])
    {
      OutsiderMoves(w, s, u);
      BookFrame(w, w', w.threads[u]);
    }
  }

  /** Steps outside the guarded section leave the owner where it is; the job's return enters EndRun. */
  lemma OutsiderMoves(w: World, s: Step, u: Tid)
    requires Enabled(w, s) && OwnedBy(Apply(w, s), u)
    requires !(s.Advance? && OwnedBy(w, s.t)) && !WinsGuard(w, s)
    ensures OwnedBy(w, u)
    ensures Apply(w, s).threads[u] == w.threads[u] || (w.threads[u].Running? && Apply(w, s).threads[u].EndClock?)
  {
    if s.Tick? || u != s.t {
      OthersStay(w, s, u);
    } else if s.Advance? {
      OwnershipMoves(w, u);
    }
  }

  // ---------- time ----------

  ghost predicate TimeOk(w: World, pc: Pc) {
    w.born <= w.clock && Chronological(w.hist, w.born, w.clock) && StampOk(w, pc)
  }

  lemma ChronologicalStart(h: History, born: Time, clock: Time, x: Start)
    requires Chronological(h, born, clock) && |h.starts| == |h.finishes|
    requires Origin(born, h.finishes) <= x.at <= clock
    ensures Chronological(h.(starts := h.starts + [x]), born, clock)
  {
    var h' := h.(starts := h.starts + [x]);
    forall i | 0 <= i < |h'.starts|
      ensures RunTimes(h', born, clock, i)
    {
      if i < |h.starts| { assert RunTimes(h, born, clock, i); }
    }
  }

  lemma ChronologicalFinish(h: History, born: Time, clock: Time, x: Finish)
    requires Chronological(h, born, clock) && |h.starts| == |h.finishes| + 1
    requires h.starts[|h.starts| - 1].at <= x.at <= clock
    ensures Chronological(h.(finishes := h.finishes + [x]), born, clock)
  {
    var h' := h.(finishes := h.finishes + [x]);
    forall i | 0 <= i < |h'.starts|
      ensures RunTimes(h', born, clock, i)
    {
      assert RunTimes(h, born, clock, i);
    }
  }

  lemma ChronologicalLater(w: World, w': World)
    requires Chronological(w.hist, w.born, w.clock)
    requires SameRecord(w, w') && w.clock <= w'.clock
    ensures Chronological(w'.hist, w'.born, w'.clock)
  {
    forall i | 0 <= i < |w'.hist.starts|
      ensures RunTimes(w'.hist, w'.born, w'.clock, i)
    {
      assert RunTimes(w.hist, w.born, w.clock, i);
    }
  }

  /** The last recorded finish is no later than the clock. */
  lemma OriginPast(h: History, born: Time, clock: Time)
    requires born <= clock && Chronological(h, born, clock)
    ensures Origin(born, h.finishes) <= clock
    ensures h.starts != [] ==> h.starts[|h.starts| - 1].at <= clock
  {
    if h.finishes != [] {
      assert RunTimes(h, born, clock, |h.finishes| - 1);
    }
    if h.starts != [] {
      assert RunTimes(h, born, clock, |h.starts| - 1);
    }
  }

  lemma TimeBegin(w: World, t: Tid)
    requires t in w.threads && InBegin(w.threads[t]) && Owns(w.threads[t])
    requires Book(w, w.threads[t]) && TimeOk(w, w.threads[t])
    ensures TimeOk(AdvanceBegin(w, t), AdvanceBegin(w, t).threads[t])
  {
    OriginPast(w.hist, w.born, w.clock);
    var pc := w.threads[t];
    if pc.BeginWrite? {
      ChronologicalStart(w.hist, w.born, w.clock, Start(t, pc.now));
    } else {
      BeginHistory(w, t);
    }
  }

  lemma BeginHistory(w: World, t: Tid)
    requires InBegin(PcOf(w, t)) && Owns(PcOf(w, t)) && !PcOf(w, t).BeginWrite?
    ensures AdvanceBegin(w, t).hist == w.hist && AdvanceBegin(w, t).clock == w.clock && AdvanceBegin(w, t).born == w.born
  {
  }

  lemma TimeEnd(w: World, t: Tid)
    requires t in w.threads && InEnd(w.threads[t])
    requires Book(w, w.threads[t]) && TimeOk(w, w.threads[t])
    ensures TimeOk(AdvanceEnd(w, t), AdvanceEnd(w, t).threads[t])
  {
    OriginPast(w.hist, w.born, w.clock);
    var pc := w.threads[t];
    if pc.EndRunCount? {
      ChronologicalFinish(w.hist, w.born, w.clock, Finish(t, pc.now, pc.err));
    } else {
      EndHistory(w, t);
    }
  }

  lemma EndHistory(w: World, t: Tid)
    requires InEnd(PcOf(w, t)) && !PcOf(w, t).EndRunCount?
    ensures AdvanceEnd(w, t).hist == w.hist && AdvanceEnd(w, t).clock == w.clock && AdvanceEnd(w, t).born == w.born
  {
  }

  lemma ClockMoves(w: World, s: Step)
    requires Enabled(w, s)
    ensures w.clock <= Apply(w, s).clock && Apply(w, s).born == w.born && Apply(w, s).interval == w.interval
  {
  }

  lemma TimeStep(w: World, s: Step)
    requires GuardInv(w) && BookInv(w) && TimeInv(w) && Enabled(w, s)
    ensures TimeInv(Apply(w, s))
  {
    if s.Advance? && OwnedBy(w, s.t) {
      TimeOwnStep(w, s.t);
    } else {
      TimeOtherStep(w, s);
    }
  }

  lemma TimeOwnStep(w: World, t: Tid)
    requires GuardInv(w) && BookInv(w) && TimeInv(w) && OwnedBy(w, t) && CanAdvance(w, t)
    ensures TimeInv(Apply(w, Advance(t)))
  {
    var w' := Apply(w, Advance(t));
    assert TimeOk(w', w'.threads[t]) by {
      if InBegin(w.threads[t]) { TimeBegin(w, t); } else { TimeEnd(w, t); }
    }
    forall u | OwnedBy(w', u)
      ensures u == t
    {
      if u != t {
        OthersStay(w, Advance(t), u);
      }
    }
  }

  lemma TimeOtherStep(w: World, s: Step)
    requires TimeInv(w) && Enabled(w, s) && !(s.Advance? && OwnedBy(w, s.t))
    ensures TimeInv(Apply(w, s))
  {
    var w' := Apply(w, s);
    ClockMoves(w, s);
    ProtectedFieldsOutside(w, s);
    ChronologicalLater(w, w');
    forall u | OwnedBy(w', u)
      ensures StampOk(w', w'.threads[u])
    {
      if s.Tick? || u != s.t {
        OthersStay(w, s, u);
        assert OwnedBy(w, u);
      }
    }
  }

  /** A goroutine outside the guarded section records nothing, and enters it without a time stamp. */
  lemma ProtectedFieldsOutside(w: World, s: Step)
    requires Enabled(w, s) && !(s.Advance? && OwnedBy(w, s.t))
    ensures SameRecord(w, Apply(w, s))
    ensures !s.Tick? ==> s.t in Apply(w, s).threads
    ensures !s.Tick? && Owns(Apply(w, s).threads[s.t]) ==>
      Apply(w, s).threads[s.t].BeginClock? || Apply(w, s).threads[s.t].EndClock?
  {
    ProtectedFields(w, s);
    if !s.Tick? {
      EntersOwning(w, s);
    }
  }

  /** The guarded section is entered at its first access, and left for EndRun by the job's return. */
  lemma EntersOwning(w: World, s: Step)
    requires Enabled(w, s) && !(s.Advance? && OwnedBy(w, s.t)) && !s.Tick?
    ensures s.t in Apply(w, s).threads
    ensures Owns(Apply(w, s).threads[s.t]) ==> Apply(w, s).threads[s.t].BeginClock? || Apply(w, s).threads[s.t].EndClock?
  {
    if s.Advance? {
      OwnershipMoves(w, s.t);
    }
  }

  // ---------- snapshots ----------

  /** A snapshot that describes the history keeps describing it as the history grows. */
  lemma DescribesGrows(info: Info, h: History, h': History, born: Time, interval: int)
    requires Describes(info, h, born, interval)
    requires h.starts <= h'.starts && h.finishes <= h'.finishes
    ensures Describes(info, h', born, interval)
  {
    assert h'.finishes[..info.runCount] == h.finishes[..info.runCount];
    if info.runCount <= |h.starts| {
      assert h'.starts[..info.runCount] == h.starts[..info.runCount];
    }
    if info.runCount + 1 <= |h.starts| {
      assert h'.starts[..info.runCount + 1] == h.starts[..info.runCount + 1];
    }
  }

  /** While nobody writes, the recorded fields describe the whole history. */
  lemma FieldsDescribe(w: World, pc: Pc, info: Info)
    requires Book(w, pc) && !HoldsWrite(pc)
    requires Agrees(w.sh, FIELDS, info)
    ensures Describes(info, w.hist, w.born, w.interval)
  {
    assert w.hist.finishes[..|w.hist.finishes|] == w.hist.finishes;
    assert w.hist.starts[..|w.hist.starts|] == w.hist.starts;
  }

  /** A completed snapshot describes the run history. */
  lemma SnapshotDescribes(w: World, t: Tid)
    requires Inv(w) && t in w.threads && w.threads[t].SnapUnlock?
    ensures Describes(w.threads[t].acc, w.hist, w.born, w.interval)
    ensures w.threads[t].acc.runCount == |w.hist.finishes|
  {
    assert ReaderOk(w.sh, w.threads[t]);
    assert t in w.sh.readers;
    if w.sh.running {
      var u :| OwnedBy(w, u);
      assert w.sh.writer != Some(u);
      FieldsDescribe(w, w.threads[u], w.threads[t].acc);
    } else {
      FieldsDescribe(w, Idle, w.threads[t].acc);
    }
  }

  lemma HistoryGrows(w: World, s: Step)
    requires Enabled(w, s)
    ensures var h, h' := w.hist, Apply(w, s).hist;
      h.wins <= h'.wins && h.starts <= h'.starts && h.finishes <= h'.finishes && h.signals <= h'.signals
      && h'.snaps == h.snaps + (if s.Advance? && PcOf(w, s.t).SnapUnlock? then [PcOf(w, s.t).acc] else [])
  {
  }

  /** Snapshots taken before stay right as the history grows; a new one must describe all of it. */
  lemma SnapsGrow(h: History, h': History, born: Time, interval: int)
    requires SnapsOk(h, born, interval) && h.starts <= h'.starts && h.finishes <= h'.finishes
    requires h.snaps <= h'.snaps && |h'.snaps| <= |h.snaps| + 1
    requires |h'.snaps| > |h.snaps| ==>
      Describes(h'.snaps[|h.snaps|], h, born, interval) && h'.snaps[|h.snaps|].runCount == |h.finishes|
    ensures SnapsOk(h', born, interval)
  {
    forall i | 0 <= i < |h'.snaps|
      ensures Describes(h'.snaps[i], h', born, interval)
    {
      DescribesGrows(h'.snaps[i], h, h', born, interval);
    }
  }

  lemma SnapStep(w: World, s: Step)
    requires Inv(w) && Enabled(w, s)
    ensures SnapInv(Apply(w, s))
  {
    HistoryGrows(w, s);
    ClockMoves(w, s);
    if s.Advance? && PcOf(w, s.t).SnapUnlock? {
      SnapshotDescribes(w, s.t);
    }
    SnapsGrow(w.hist, Apply(w, s).hist, w.born, w.interval);
  }

  // ---------- every step, every run ----------

  lemma InvStep(w: World, s: Step)
    requires Inv(w) && Enabled(w, s)
    ensures Inv(Apply(w, s))
  {
    GuardStep(w, s);
    LockStep(w, s);
    BookStep(w, s);
    TimeStep(w, s);
    ReaderStep(w, s);
    SnapStep(w, s);
    SignalStep(w, s);
  }

  lemma {:induction false} InvRun(w: World, steps: seq<Step>)
    requires Inv(w) && ValidRun(w, steps)
    ensures Inv(Run(w, steps))
    decreases |steps|
  {
    if steps != [] {
      InvStep(w, steps[0]);
      InvRun(Apply(w, steps[0]), steps[1..]);
    }
  }

  lemma ReachableInv(w: World)
    requires Reachable(w)
    ensures Inv(w)
  {
    var w0, steps :| ReachableBy(w0, steps, w);
    InitialInv(w0);
    InvRun(w0, steps);
  }
}
