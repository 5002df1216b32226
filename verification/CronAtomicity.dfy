/**
 The two layers agree: each whole call of RegistrySpec is what the corresponding steps of
 CronProtocol do when one goroutine takes them without interference.
 */
module CronAtomicity {
  import opened Wrappers
  import opened CronProtocol
  import R = RegistrySpec

  /** The shared fields of the protocol hold this entry. */
  predicate Carries(w: World, e: R.EntryState) {
    && w.sh.startedAt == e.startedAt && w.sh.finishedAt == e.finishedAt && w.sh.error == e.error && w.sh.next == e.next
    && w.sh.paused == e.paused && w.sh.running == e.running && w.sh.pausedBy == e.pausedBy
    && w.sh.pausedAt == e.pausedAt && w.sh.runCount == e.runCount && w.sh.errorCount == e.errorCount
    && w.sh.signal == e.signal && w.interval == e.interval
  }

  predicate Unlocked(w: World) {
    w.sh.writer == None && w.sh.readers == {}
  }

  ghost predicate By(steps: seq<Step>, t: Tid) {
    forall i :: 0 <= i < |steps| ==> !steps[i].Tick? && steps[i].t == t
  }

  ghost predicate SoloBy(w: World, t: Tid, w': World, steps: seq<Step>) {
    ValidRun(w, steps) && Run(w, steps) == w' && By(steps, t)
  }

  /** Goroutine t alone takes w to w', with no step of anybody else and no time passing. */
  ghost predicate Solo(w: World, t: Tid, w': World) {
    exists steps :: SoloBy(w, t, w', steps)
  }

  lemma Begin(w: World, t: Tid)
    ensures Solo(w, t, w)
  {
    assert SoloBy(w, t, w, []);
  }

  lemma Then(w: World, t: Tid, w1: World, s: Step)
    requires Solo(w, t, w1) && Enabled(w1, s) && !s.Tick? && s.t == t
    ensures Solo(w, t, Apply(w1, s))
  {
    var steps :| SoloBy(w, t, w1, steps);
    assert [s][1..] == [];
    RunConcat(w, steps, [s]);
    assert SoloBy(w, t, Apply(w1, s), steps + [s]);
  }

  lemma ThenBegin(w: World, t: Tid, w1: World)
    requires Solo(w, t, w1) && InBegin(PcOf(w1, t)) && CanAdvance(w1, t)
    ensures Solo(w, t, AdvanceBegin(w1, t))
  {
    Then(w, t, w1, Advance(t));
  }

  lemma ThenEnd(w: World, t: Tid, w1: World)
    requires Solo(w, t, w1) && InEnd(PcOf(w1, t)) && CanAdvance(w1, t)
    ensures Solo(w, t, AdvanceEnd(w1, t))
  {
    Then(w, t, w1, Advance(t));
  }

  lemma ThenAdmin(w: World, t: Tid, w1: World)
    requires Solo(w, t, w1) && InAdmin(PcOf(w1, t)) && CanAdvance(w1, t)
    ensures Solo(w, t, AdvanceAdmin(w1, t))
  {
    Then(w, t, w1, Advance(t));
  }

  /** BeginRun: one uninterrupted pass is `Begun`, and it returns true exactly when the entry admits it. */
  lemma BeginRunIsBegun(w: World, t: Tid, e: R.EntryState) returns (w': World)
    requires PcOf(w, t).Idle? && Unlocked(w) && Carries(w, e)
    ensures Solo(w, t, w') && Unlocked(w') && Carries(w', R.Begun(e, w.clock))
    ensures PcOf(w', t) == if R.Admits(e) then Running else Idle
  {
    Begin(w, t);
    Then(w, t, w, Call(t, OpBeginRun));
    w' := w.(threads := w.threads[t := BeginCheck]);
    ThenBegin(w, t, w');  w' := AdvanceBegin(w', t);
    if !e.paused {
      ThenBegin(w, t, w');  w' := AdvanceBegin(w', t);
      if !e.running {
        ThenBegin(w, t, w');  w' := AdvanceBegin(w', t);
        ThenBegin(w, t, w');  w' := AdvanceBegin(w', t);
        ThenBegin(w, t, w');  w' := AdvanceBegin(w', t);
        ThenBegin(w, t, w');  w' := AdvanceBegin(w', t);
      }
    }
  }

  /** EndRun: one uninterrupted pass is `Ended`. */
  lemma EndRunIsEnded(w: World, t: Tid, err: Option<string>, e: R.EntryState) returns (w': World)
    requires PcOf(w, t).Running? && Unlocked(w) && Carries(w, e)
    ensures Solo(w, t, w') && Unlocked(w') && Carries(w', R.Ended(e, err, w.clock))
    ensures PcOf(w', t).Idle?
  {
    Begin(w, t);
    Then(w, t, w, JobReturns(t, err));
    w' := w.(threads := w.threads[t := EndClock(err)]);
    w' := RecordEnd(w, t, w');
    w' := CloseRun(w, t, w');
  }

  /** EndRun up to the run counter. */
  lemma RecordEnd(w: World, t: Tid, w1: World) returns (w': World)
    requires Solo(w, t, w1) && PcOf(w1, t).EndClock? && Unlocked(w1)
    ensures Solo(w, t, w') && w'.interval == w1.interval
    ensures var err := PcOf(w1, t).err;
      && PcOf(w', t) == EndRunCount(err, w1.clock)
      && w'.sh == w1.sh.(writer := Some(t), finishedAt := Some(w1.clock), error := ErrorText(err),
                         errorCount := w1.sh.errorCount + (if err.Some? then 1 else 0))
  {
    w' := RecordFinish(w, t, w1);
    ThenEnd(w, t, w');  w' := AdvanceEnd(w', t);
    if PcOf(w1, t).err.Some? {
      ThenEnd(w, t, w');  w' := AdvanceEnd(w', t);
    }
  }

  /** EndRun up to the finish time. */
  lemma RecordFinish(w: World, t: Tid, w1: World) returns (w': World)
    requires Solo(w, t, w1) && PcOf(w1, t).EndClock? && Unlocked(w1)
    ensures Solo(w, t, w') && w'.interval == w1.interval
    ensures PcOf(w', t) == EndError(PcOf(w1, t).err, w1.clock)
    ensures w'.sh == w1.sh.(writer := Some(t), finishedAt := Some(w1.clock))
  {
    w' := w1;
    ThenEnd(w, t, w');  w' := AdvanceEnd(w', t);
    ThenEnd(w, t, w');  w' := AdvanceEnd(w', t);
    ThenEnd(w, t, w');  w' := AdvanceEnd(w', t);
  }

  /** EndRun from the run counter to the release. */
  lemma CloseRun(w: World, t: Tid, w1: World) returns (w': World)
    requires Solo(w, t, w1) && PcOf(w1, t).EndRunCount?
    ensures Solo(w, t, w') && w'.interval == w1.interval && PcOf(w', t).Idle?
    ensures w'.sh == w1.sh.(runCount := w1.sh.runCount + 1, writer := None, running := false,
                            next := if w1.interval > 0 then PcOf(w1, t).now + w1.interval else w1.sh.next)
  {
    w' := w1;
    ThenEnd(w, t, w');  w' := AdvanceEnd(w', t);
    if w1.interval > 0 {
      ThenEnd(w, t, w');  w' := AdvanceEnd(w', t);
    }
    ThenEnd(w, t, w');  w' := AdvanceEnd(w', t);
    ThenEnd(w, t, w');  w' := AdvanceEnd(w', t);
  }

  /** Pause: one uninterrupted pass sets the three fields and saves the row as the whole call does. */
  lemma PauseIsWhole(w: World, t: Tid, employee: int, ok: bool, e: R.EntryState) returns (w': World)
    requires PcOf(w, t).Idle? && Carries(w, e)
    ensures Solo(w, t, w') && PcOf(w', t).Idle?
    ensures Carries(w', R.PauseIn(e, R.PauseFields(true, employee, Some(w.clock))))
    ensures w'.sh.row == if ok then Some(R.Row(true, employee, Some(w.clock))) else w.sh.row
  {
    Begin(w, t);
    Then(w, t, w, Call(t, OpPause(employee, ok)));
    w' := w.(threads := w.threads[t := PauseClock(employee, ok)]);
    ThenAdmin(w, t, w');  w' := AdvanceAdmin(w', t);
    ThenAdmin(w, t, w');  w' := AdvanceAdmin(w', t);
    ThenAdmin(w, t, w');  w' := AdvanceAdmin(w', t);
    ThenAdmin(w, t, w');  w' := AdvanceAdmin(w', t);
    ThenAdmin(w, t, w');  w' := AdvanceAdmin(w', t);
  }

  /** Resume: likewise. */
  lemma ResumeIsWhole(w: World, t: Tid, ok: bool, e: R.EntryState) returns (w': World)
    requires PcOf(w, t).Idle? && Carries(w, e)
    ensures Solo(w, t, w') && PcOf(w', t).Idle?
    ensures Carries(w', R.PauseIn(e, R.UNPAUSED))
    ensures w'.sh.row == if ok then Some(R.Row(false, 0, None)) else w.sh.row
  {
    Begin(w, t);
    Then(w, t, w, Call(t, OpResume(ok)));
    w' := w.(threads := w.threads[t := ResumeFlag(ok)]);
    ThenAdmin(w, t, w');  w' := AdvanceAdmin(w', t);
    ThenAdmin(w, t, w');  w' := AdvanceAdmin(w', t);
    ThenAdmin(w, t, w');  w' := AdvanceAdmin(w', t);
    ThenAdmin(w, t, w');  w' := AdvanceAdmin(w', t);
  }

  /** The snapshot shows this entry. */
  predicate ShowsEntry(info: Info, e: R.EntryState) {
    && info.startedAt == e.startedAt && info.finishedAt == e.finishedAt && info.error == e.error && info.next == e.next
    && info.paused == e.paused && info.pausedBy == e.pausedBy && info.pausedAt == e.pausedAt
    && info.runCount == e.runCount && info.errorCount == e.errorCount
  }

  lemma ThenSnapshot(w: World, t: Tid, w1: World)
    requires Solo(w, t, w1) && InSnapshot(PcOf(w1, t)) && CanAdvance(w1, t)
    ensures Solo(w, t, AdvanceSnapshot(w1, t))
  {
    Then(w, t, w1, Advance(t));
  }

  /** The fields from k on are read; the shared state stays as it is. */
  lemma ReadRest(w: World, t: Tid, w1: World) returns (w': World)
    requires Solo(w, t, w1) && PcOf(w1, t).SnapRead? && PcOf(w1, t).k < FIELDS
    ensures Solo(w, t, w') && PcOf(w', t).SnapUnlock? && w'.sh == w1.sh && w'.hist == w1.hist && w'.interval == w1.interval
    ensures PcOf(w', t).acc == ReadFrom(w1.sh, PcOf(w1, t).k, PcOf(w1, t).acc)
    decreases FIELDS - PcOf(w1, t).k
  {
    ThenSnapshot(w, t, w1);
    w' := AdvanceSnapshot(w1, t);
    if PcOf(w', t).SnapRead? {
      w' := ReadRest(w, t, w');
    }
  }

  function ReadFrom(sh: Shared, k: nat, acc: Info): Info
    requires k < FIELDS
    decreases FIELDS - k
  {
    if k + 1 < FIELDS then ReadFrom(sh, k + 1, ReadField(sh, k, acc)) else ReadField(sh, k, acc)
  }

  lemma ReadsAll(sh: Shared, acc: Info)
    ensures ReadFrom(sh, 0, acc) == Info(sh.startedAt, sh.finishedAt, sh.error, sh.next, sh.paused, sh.pausedBy, sh.pausedAt,
                                         sh.runCount, sh.errorCount)
  {
    var a := ReadField(sh, 3, ReadField(sh, 2, ReadField(sh, 1, ReadField(sh, 0, acc))));
    assert ReadFrom(sh, 0, acc) == ReadFrom(sh, 4, a);
    var b := ReadField(sh, 6, ReadField(sh, 5, ReadField(sh, 4, a)));
    assert ReadFrom(sh, 4, a) == ReadFrom(sh, 7, b);
  }

  /** Snapshot: one uninterrupted pass shows every field of the entry and changes nothing. */
  lemma SnapshotIsWhole(w: World, t: Tid, e: R.EntryState) returns (w': World, info: Info)
    requires PcOf(w, t).Idle? && Unlocked(w) && Carries(w, e)
    ensures Solo(w, t, w') && PcOf(w', t).Idle? && Unlocked(w') && Carries(w', e)
    ensures w'.hist.snaps == w.hist.snaps + [info] && ShowsEntry(info, e)
  {
    Begin(w, t);
    Then(w, t, w, Call(t, OpSnapshot));
    w' := w.(threads := w.threads[t := SnapLock]);
    ThenSnapshot(w, t, w');
    w' := AdvanceSnapshot(w', t);
    w' := ReadRest(w, t, w');
    ReadsAll(w.sh, BLANK);
    ReadFromSame(w'.sh, w.sh, 0, BLANK);
    info := PcOf(w', t).acc;
    ThenSnapshot(w, t, w');
    w' := AdvanceSnapshot(w', t);
  }

  /** What is read does not depend on who holds the lock. */
  lemma {:induction false} ReadFromSame(a: Shared, b: Shared, k: nat, acc: Info)
    requires k < FIELDS && a == b.(readers := a.readers)
    ensures ReadFrom(a, k, acc) == ReadFrom(b, k, acc)
    decreases FIELDS - k
  {
    if k + 1 < FIELDS {
      ReadFromSame(a, b, k + 1, ReadField(a, k, acc));
    }
  }

  /** Trigger: refused exactly when the whole call refuses it. */
  lemma TriggerIsWhole(w: World, t: Tid, force: bool, e: R.EntryState) returns (w': World)
    requires PcOf(w, t).Idle? && Carries(w, e)
    ensures Solo(w, t, w') && PcOf(w', t).Idle?
    ensures Carries(w', if R.Accepts(e, force) then e.(signal := true) else e)
  {
    Begin(w, t);
    Then(w, t, w, Call(t, OpTrigger(force)));
    w' := w.(threads := w.threads[t := TriggerCheck(force)]);
    ThenAdmin(w, t, w');  w' := AdvanceAdmin(w', t);
    if R.Accepts(e, force) {
      ThenAdmin(w, t, w');  w' := AdvanceAdmin(w', t);
    }
  }

  /**
   A restart, after any history with any failed saves, starts the protocol in one of its reachable
   states, with the pause fields of the last successful save.
   */
  lemma RestartIsReachable(service: string, rows: map<string, R.Row>, calls: seq<R.Call>, again: R.Call, w: World)
    requires again.Register? && again.loadOk
    requires w.threads == map[] && w.hist == History([], [], [], [], []) && Unlocked(w) && w.born == again.now <= w.clock
    requires var before := R.Run(R.NewRegistry(service, Some(rows)), calls);
      var after := R.Apply(R.NewRegistry(service, before.store), again);
      again.name in after.entries && Carries(w, after.entries[again.name])
    ensures Reachable(w)
    ensures R.PauseFields(w.sh.paused, w.sh.pausedBy, w.sh.pausedAt)
      == R.FromRow(R.LastSaved(calls, R.RowOf(R.NewRegistry(service, Some(rows)), again.name), again.name))
  {
    R.RestartRestores(service, rows, calls, again);
    assert Initial(w);
    assert ReachableBy(w, [], w);
  }
}
