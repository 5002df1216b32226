/**
 The concurrent protocol of one cron `Entry` (contract/cronreg/registry.go), as a state machine.

 Any number of goroutines call BeginRun/EndRun, Pause, Resume, Trigger, receive from the trigger
 channel, or take a snapshot. Every atomic load, store, add or compare-and-swap, every mutex
 operation and every lock-protected field access is one step, and steps of different goroutines
 interleave freely. A program counter (`Pc`) names the access its goroutine performs next.
 */
module CronProtocol {
  import opened Wrappers
  import RegistrySpec

  type Time = int
  type Tid = nat

  // ---------- shared state ----------

  /** The mutable fields of Entry. `error` is the error text recorded last. */
  datatype Shared = Shared(
    startedAt: Option<Time>,
    finishedAt: Option<Time>,
    error: string,
    next: Time,
    paused: bool,
    running: bool,
    pausedBy: int,
    pausedAt: Option<Time>,
    runCount: int,
    errorCount: int,
    row: Option<RegistrySpec.Row>,   // the persisted pause row
    signal: bool,            // the capacity-1 trigger channel holds a signal
    writer: Option<Tid>,     // holder of mu in write mode
    readers: set<Tid>)       // holders of mu in read mode

  /** The run-dependent part of CronInfo. */
  datatype Info = Info(
    startedAt: Option<Time>,
    finishedAt: Option<Time>,
    error: string,
    next: Time,
    paused: bool,
    pausedBy: int,
    pausedAt: Option<Time>,
    runCount: int,
    errorCount: int)

  const BLANK := Info(None, None, "", 0, false, 0, None, 0, 0)

  // ---------- history ----------

  datatype Start = Start(tid: Tid, at: Time)
  datatype Finish = Finish(tid: Tid, at: Time, err: Option<string>)
  datatype SignalEvent = Accepted(tid: Tid) | Received

  /** What happened so far; no step of the protocol reads it. */
  datatype History = History(
    wins: seq<Tid>,              // successful compare-and-swaps
    starts: seq<Start>,          // recorded starts
    finishes: seq<Finish>,       // runs counted by EndRun
    signals: seq<SignalEvent>,   // accepted triggers and channel receives
    snaps: seq<Info>)            // completed snapshots

  // ---------- program counters ----------

  datatype Pc =
    | Idle
    // BeginRun
    | BeginCheck
    | BeginCas
    | BeginClock
    | BeginLock(now: Time)
    | BeginWrite(now: Time)
    | BeginUnlock
    | Running                                       // BeginRun returned true, the job executes
    // EndRun
    | EndClock(err: Option<string>)
    | EndLock(err: Option<string>, now: Time)
    | EndFinished(err: Option<string>, now: Time)
    | EndError(err: Option<string>, now: Time)
    | EndErrorCount(err: Option<string>, now: Time)
    | EndRunCount(err: Option<string>, now: Time)
    | EndNext(now: Time)
    | EndUnlock
    | EndRelease
    // Pause and Resume; `ok` says whether their Save will succeed
    | PauseClock(emp: int, ok: bool)
    | PauseFlag(emp: int, now: Time, ok: bool)
    | PauseBy(emp: int, now: Time, ok: bool)
    | PauseAt(emp: int, now: Time, ok: bool)
    | PauseSave(emp: int, now: Time, ok: bool)
    | ResumeFlag(ok: bool)
    | ResumeBy(ok: bool)
    | ResumeAt(ok: bool)
    | ResumeSave(ok: bool)
    // Trigger, and the receive from TriggerChan
    | TriggerCheck(force: bool)
    | TriggerSend
    | Receive
    // snapshot: `k` counts the fields read so far
    | SnapLock
    | SnapRead(k: nat, acc: Info)
    | SnapUnlock(acc: Info)

  datatype Op = OpBeginRun | OpPause(employee: int, saveOk: bool) | OpResume(saveOk: bool) | OpTrigger(forced: bool) | OpReceive | OpSnapshot

  datatype World = World(
    clock: Time,
    born: Time,              // the time Register read
    interval: int,
    sh: Shared,
    threads: map<Tid, Pc>,   // a goroutine that has not moved yet is absent
    hist: History)

  datatype Step =
    | Tick(delta: nat)                       // the wall clock moves forward
    | Call(t: Tid, op: Op)                   // an idle goroutine enters an operation
    | JobReturns(t: Tid, err: Option<string>) // the job ends and EndRun(err) is entered
    | Advance(t: Tid)                        // the goroutine performs its next access

  // ---------- transitions ----------

  function PcOf(w: World, t: Tid): Pc {
    if t in w.threads then w.threads[t] else Idle
  }

  function EntryPoint(op: Op): Pc {
    match op
    case OpBeginRun => BeginCheck
    case OpPause(emp, ok) => PauseClock(emp, ok)
    case OpResume(ok) => ResumeFlag(ok)
    case OpTrigger(force) => TriggerCheck(force)
    case OpReceive => Receive
    case OpSnapshot => SnapLock
  }

  /** A goroutine blocks only on the mutex and on an empty trigger channel. */
  predicate CanAdvance(w: World, t: Tid) {
    match PcOf(w, t)
    case Idle => false
    case Running => false
    case BeginLock(_) => w.sh.writer == None && w.sh.readers == {}
    case EndLock(_, _) => w.sh.writer == None && w.sh.readers == {}
    case SnapLock => w.sh.writer == None
    case Receive => w.sh.signal
    case _ => true
  }

  predicate Enabled(w: World, s: Step) {
    match s
    case Tick(_) => true
    case Call(t, _) => PcOf(w, t) == Idle
    case JobReturns(t, _) => PcOf(w, t) == Running
    case Advance(t) => CanAdvance(w, t)
  }

  predicate InBegin(pc: Pc) {
    pc.BeginCheck? || pc.BeginCas? || pc.BeginClock? || pc.BeginLock? || pc.BeginWrite? || pc.BeginUnlock?
  }

  predicate InEnd(pc: Pc) {
    pc.EndClock? || pc.EndLock? || pc.EndFinished? || pc.EndError? || pc.EndErrorCount? || pc.EndRunCount?
    || pc.EndNext? || pc.EndUnlock? || pc.EndRelease?
  }

  predicate InSnapshot(pc: Pc) {
    pc.SnapLock? || pc.SnapRead? || pc.SnapUnlock?
  }

  /** BeginRun. */
  function AdvanceBegin(w: World, t: Tid): World
    requires InBegin(PcOf(w, t))
  {
    var sh, h := w.sh, w.hist;
    match PcOf(w, t)
    case BeginCheck => w.(threads := w.threads[t := if sh.paused then Idle else BeginCas])
    case BeginCas =>
      if sh.running then w.(threads := w.threads[t := Idle])
      else w.(sh := sh.(running := true), hist := h.(wins := h.wins + [t]), threads := w.threads[t := BeginClock])
    case BeginClock => w.(threads := w.threads[t := BeginLock(w.clock)])
    case BeginLock(now) => w.(sh := sh.(writer := Some(t)), threads := w.threads[t := BeginWrite(now)])
    case BeginWrite(now) =>
      w.(sh := sh.(startedAt := Some(now)), hist := h.(starts := h.starts + [Start(t, now)]),
         threads := w.threads[t := BeginUnlock])
    case BeginUnlock => w.(sh := sh.(writer := None), threads := w.threads[t := Running])
  }

  function ErrorText(err: Option<string>): string {
    match err case None => "" case Some(text) => text
  }

  /** EndRun. */
  function AdvanceEnd(w: World, t: Tid): World
    requires InEnd(PcOf(w, t))
  {
    var sh, h := w.sh, w.hist;
    match PcOf(w, t)
    case EndClock(err) => w.(threads := w.threads[t := EndLock(err, w.clock)])
    case EndLock(err, now) => w.(sh := sh.(writer := Some(t)), threads := w.threads[t := EndFinished(err, now)])
    case EndFinished(err, now) => w.(sh := sh.(finishedAt := Some(now)), threads := w.threads[t := EndError(err, now)])
    case EndError(err, now) =>
      w.(sh := sh.(error := ErrorText(err)),
         threads := w.threads[t := if err.Some? then EndErrorCount(err, now) else EndRunCount(err, now)])
    case EndErrorCount(err, now) =>
      w.(sh := sh.(errorCount := sh.errorCount + 1), threads := w.threads[t := EndRunCount(err, now)])
    case EndRunCount(err, now) =>
      w.(sh := sh.(runCount := sh.runCount + 1), hist := h.(finishes := h.finishes + [Finish(t, now, err)]),
         threads := w.threads[t := if w.interval > 0 then EndNext(now) else EndUnlock])
    case EndNext(now) => w.(sh := sh.(next := now + w.interval), threads := w.threads[t := EndUnlock])
    case EndUnlock => w.(sh := sh.(writer := None), threads := w.threads[t := EndRelease])
    case EndRelease => w.(sh := sh.(running := false), threads := w.threads[t := Idle])
  }

  /** Reads one more field, in the order of the composite literal in `snapshot`. */
  function ReadField(sh: Shared, k: nat, acc: Info): Info {
    match k
    case 0 => acc.(pausedAt := sh.pausedAt)
    case 1 => acc.(startedAt := sh.startedAt)
    case 2 => acc.(finishedAt := sh.finishedAt)
    case 3 => acc.(error := sh.error)
    case 4 => acc.(next := sh.next)
    case 5 => acc.(paused := sh.paused)
    case 6 => acc.(pausedBy := sh.pausedBy)
    case 7 => acc.(runCount := sh.runCount)
    case _ => acc.(errorCount := sh.errorCount)
  }

  const FIELDS := 9

  /** snapshot. */
  function AdvanceSnapshot(w: World, t: Tid): World
    requires InSnapshot(PcOf(w, t))
  {
    var sh, h := w.sh, w.hist;
    match PcOf(w, t)
    case SnapLock => w.(sh := sh.(readers := sh.readers + {t}), threads := w.threads[t := SnapRead(0, BLANK)])
    case SnapRead(k, acc) =>
      var acc' := ReadField(sh, k, acc);
      w.(threads := w.threads[t := if k + 1 < FIELDS then SnapRead(k + 1, acc') else SnapUnlock(acc')])
    case SnapUnlock(acc) =>
      w.(sh := sh.(readers := sh.readers - {t}), hist := h.(snaps := h.snaps + [acc]), threads := w.threads[t := Idle])
  }

  predicate InAdmin(pc: Pc) {
    pc.PauseClock? || pc.PauseFlag? || pc.PauseBy? || pc.PauseAt? || pc.PauseSave?
    || pc.ResumeFlag? || pc.ResumeBy? || pc.ResumeAt? || pc.ResumeSave?
    || pc.TriggerCheck? || pc.TriggerSend? || pc.Receive?
  }

  /** Pause, Resume, Trigger and the channel receive. */
  function AdvanceAdmin(w: World, t: Tid): World
    requires InAdmin(PcOf(w, t))
  {
    var sh, h := w.sh, w.hist;
    match PcOf(w, t)
    case PauseClock(emp, ok) => w.(threads := w.threads[t := PauseFlag(emp, w.clock, ok)])
    case PauseFlag(emp, now, ok) => w.(sh := sh.(paused := true), threads := w.threads[t := PauseBy(emp, now, ok)])
    case PauseBy(emp, now, ok) => w.(sh := sh.(pausedBy := emp), threads := w.threads[t := PauseAt(emp, now, ok)])
    case PauseAt(emp, now, ok) => w.(sh := sh.(pausedAt := Some(now)), threads := w.threads[t := PauseSave(emp, now, ok)])
    case PauseSave(emp, now, ok) =>
      w.(sh := sh.(row := if ok then Some(RegistrySpec.Row(true, emp, Some(now))) else sh.row), threads := w.threads[t := Idle])
    case ResumeFlag(ok) => w.(sh := sh.(paused := false), threads := w.threads[t := ResumeBy(ok)])
    case ResumeBy(ok) => w.(sh := sh.(pausedBy := 0), threads := w.threads[t := ResumeAt(ok)])
    case ResumeAt(ok) => w.(sh := sh.(pausedAt := None), threads := w.threads[t := ResumeSave(ok)])
    case ResumeSave(ok) =>
      w.(sh := sh.(row := if ok then Some(RegistrySpec.Row(false, 0, None)) else sh.row), threads := w.threads[t := Idle])
    case TriggerCheck(force) => w.(threads := w.threads[t := if sh.paused && !force then Idle else TriggerSend])
    case TriggerSend =>
      w.(sh := sh.(signal := true), hist := h.(signals := h.signals + [Accepted(t)]), threads := w.threads[t := Idle])
    case Receive =>
      w.(sh := sh.(signal := false), hist := h.(signals := h.signals + [Received]), threads := w.threads[t := Idle])
  }

  function Apply(w: World, s: Step): World
    requires Enabled(w, s)
  {
    match s
    case Tick(delta) => w.(clock := w.clock + delta)
    case Call(t, op) => w.(threads := w.threads[t := EntryPoint(op)])
    case JobReturns(t, err) => w.(threads := w.threads[t := EndClock(err)])
    case Advance(t) =>
      var pc := PcOf(w, t);
      if InBegin(pc) then AdvanceBegin(w, t)
      else if InEnd(pc) then AdvanceEnd(w, t)
      else if InSnapshot(pc) then AdvanceSnapshot(w, t)
      else AdvanceAdmin(w, t)
  }

  // ---------- runs ----------

  predicate ValidRun(w: World, steps: seq<Step>)
    decreases |steps|
  {
    steps == [] || (Enabled(w, steps[0]) && ValidRun(Apply(w, steps[0]), steps[1..]))
  }

  function Run(w: World, steps: seq<Step>): World
    requires ValidRun(w, steps)
    decreases |steps|
  {
    if steps == [] then w else Run(Apply(w, steps[0]), steps[1..])
  }

  /** The state Register leaves: nothing has run; the pause fields may have been loaded from the store. */
  predicate Initial(w: World) {
    && w.threads == map[]
    && w.hist == History([], [], [], [], [])
    && w.born <= w.clock
    && w.sh.startedAt == None && w.sh.finishedAt == None && w.sh.error == ""
    && w.sh.next == w.born + w.interval
    && !w.sh.running && w.sh.runCount == 0 && w.sh.errorCount == 0
    && !w.sh.signal && w.sh.writer == None && w.sh.readers == {}
  }

  ghost predicate ReachableBy(w0: World, steps: seq<Step>, w: World) {
    Initial(w0) && ValidRun(w0, steps) && Run(w0, steps) == w
  }

  ghost predicate Reachable(w: World) {
    exists w0, steps :: ReachableBy(w0, steps, w)
  }

  lemma {:induction false} RunConcat(w: World, a: seq<Step>, b: seq<Step>)
    requires ValidRun(w, a) && ValidRun(Run(w, a), b)
    ensures ValidRun(w, a + b)
    ensures Run(w, a + b) == Run(Run(w, a), b)
    decreases |a|
  {
    if a == [] {
      assert a + b == b;
    } else {
      RunConcat(Apply(w, a[0]), a[1..], b);
      assert (a + b)[1..] == a[1..] + b;
    }
  }

  lemma ReachableStep(w: World, s: Step)
    requires Reachable(w) && Enabled(w, s)
    ensures Reachable(Apply(w, s))
  {
    var w0, steps :| ReachableBy(w0, steps, w);
    assert [s][1..] == [];
    RunConcat(w0, steps, [s]);
    assert ReachableBy(w0, steps + [s], Apply(w, s));
  }

  /** No step of the run is of the given kind. */
  ghost predicate Avoids(w: World, steps: seq<Step>, kind: (World, Step) -> bool)
    requires ValidRun(w, steps)
    decreases |steps|
  {
    steps == [] || (!kind(w, steps[0]) && Avoids(Apply(w, steps[0]), steps[1..], kind))
  }

  /** Puts one step in front of a run that continues after it. */
  lemma Prepend(w: World, s: Step, rest: seq<Step>, kind: (World, Step) -> bool)
    requires Enabled(w, s) && ValidRun(Apply(w, s), rest)
    ensures ValidRun(w, [s] + rest) && Run(w, [s] + rest) == Run(Apply(w, s), rest)
    ensures Avoids(w, [s] + rest, kind) <==> !kind(w, s) && Avoids(Apply(w, s), rest, kind)
  {
    assert ([s] + rest)[1..] == rest;
  }

  lemma {:induction false} AvoidsConcat(w: World, a: seq<Step>, b: seq<Step>, kind: (World, Step) -> bool)
    requires ValidRun(w, a) && ValidRun(Run(w, a), b) && ValidRun(w, a + b)
    ensures Avoids(w, a + b, kind) <==> Avoids(w, a, kind) && Avoids(Run(w, a), b, kind)
    decreases |a|
  {
    if a == [] {
      assert a + b == b;
    } else {
      assert (a + b)[1..] == a[1..] + b;
      AvoidsConcat(Apply(w, a[0]), a[1..], b, kind);
    }
  }
}
