/**
 The three pause fields of an entry and its persisted row. Pause and Resume
 (contract/cronreg/registry.go) write isPaused, pausedByEmployee and pausedAt and save the row, one
 after the other with no common lock: which overlapping calls can leave the fields in disagreement
 with each other, or with the row, and which cannot.
 */
module CronPause {
  import opened Wrappers
  import opened CronProtocol
  import CronInvariants
  import R = RegistrySpec

  type Fields = R.PauseFields

  function FieldsOf(sh: Shared): Fields {
    R.PauseFields(sh.paused, sh.pausedBy, sh.pausedAt)
  }

  /** A pause has a time, and no pause has neither a time nor an employee. */
  predicate PauseFieldsAgree(sh: Shared) {
    if sh.paused then sh.pausedAt.Some? else sh.pausedBy == 0 && sh.pausedAt == None
  }

  // ---------- the stores a call has left ----------

  /** The call is about to store its flag, the first of its three stores. */
  predicate AtFlag(pc: Pc) { pc.PauseFlag? || pc.ResumeFlag? }

  /** What the call that is about to store its flag stores altogether. */
  function Written(pc: Pc): Fields
    requires AtFlag(pc)
  {
    if pc.PauseFlag? then R.PauseFields(true, pc.emp, Some(pc.now)) else R.UNPAUSED
  }

  /** The employee the call has yet to store. */
  function ByLeft(pc: Pc): Option<int> {
    match pc
    case PauseBy(emp, _, _) => Some(emp)
    case ResumeBy(_) => Some(0)
    case _ => None
  }

  /** The time the call has yet to store. */
  function AtLeft(pc: Pc): Option<Option<Time>> {
    match pc
    case PauseBy(_, now, _) => Some(Some(now))
    case PauseAt(_, now, _) => Some(Some(now))
    case ResumeBy(_) => Some(None)
    case ResumeAt(_) => Some(None)
    case _ => None
  }

  /** The call has stored its flag and has not returned. */
  predicate UnderWay(pc: Pc) {
    pc.PauseBy? || pc.PauseAt? || pc.PauseSave? || pc.ResumeBy? || pc.ResumeAt? || pc.ResumeSave?
  }

  /** The row the call is going to save, unless that fails. */
  function SaveLeft(pc: Pc): Option<R.Row> {
    if !UnderWay(pc) || !pc.ok then None
    else if pc.PauseBy? || pc.PauseAt? || pc.PauseSave? then Some(R.Row(true, pc.emp, Some(pc.now)))
    else Some(R.Row(false, 0, None))
  }

  /** The row the call that is about to store its flag is going to save. */
  function SaveOf(pc: Pc): Option<R.Row>
    requires AtFlag(pc)
  {
    if !pc.ok then None else if pc.PauseFlag? then Some(R.Row(true, pc.emp, Some(pc.now))) else Some(R.Row(false, 0, None))
  }

  /** Between the first and the last of its stores in memory. */
  predicate MidStore(pc: Pc) { AtLeft(pc).Some? }

  /** Whatever the call has left to store is in these fields. */
  predicate Agrees(pc: Pc, f: Fields) {
    && (ByLeft(pc).Some? ==> ByLeft(pc).value == f.pausedBy)
    && (AtLeft(pc).Some? ==> AtLeft(pc).value == f.pausedAt)
  }

  ghost predicate Quiescent(w: World) {
    forall u :: !MidStore(PcOf(w, u))
  }

  /** The step is the flag store of a Pause or Resume. */
  predicate StoresFlag(w: World, s: Step) {
    s.Advance? && AtFlag(PcOf(w, s.t))
  }

  // ---------- one step ----------

  /** What one access does to the pause fields, the row and the stores its goroutine has left. */
  predicate Effect(sh: Shared, pc: Pc, sh': Shared, pc': Pc) {
    if AtFlag(pc) then
      && FieldsOf(sh') == FieldsOf(sh).(paused := Written(pc).paused) && sh'.row == sh.row
      && ByLeft(pc') == Some(Written(pc).pausedBy) && AtLeft(pc') == Some(Written(pc).pausedAt)
      && UnderWay(pc') && SaveLeft(pc') == SaveOf(pc)
    else if ByLeft(pc).Some? then
      && FieldsOf(sh') == FieldsOf(sh).(pausedBy := ByLeft(pc).value) && sh'.row == sh.row
      && ByLeft(pc') == None && AtLeft(pc') == AtLeft(pc)
      && UnderWay(pc') && SaveLeft(pc') == SaveLeft(pc)
    else if AtLeft(pc).Some? then
      && FieldsOf(sh') == FieldsOf(sh).(pausedAt := AtLeft(pc).value) && sh'.row == sh.row
      && ByLeft(pc') == None && AtLeft(pc') == None
      && UnderWay(pc') && SaveLeft(pc') == SaveLeft(pc)
    else
      && FieldsOf(sh') == FieldsOf(sh) && sh'.row == (if SaveLeft(pc).Some? then SaveLeft(pc) else sh.row)
      && ByLeft(pc') == None && AtLeft(pc') == None && !UnderWay(pc')
  }

  lemma BeginEffect(w: World, t: Tid)
    requires InBegin(PcOf(w, t))
    ensures Effect(w.sh, PcOf(w, t), AdvanceBegin(w, t).sh, PcOf(AdvanceBegin(w, t), t))
  {
  }

  lemma EndEffect(w: World, t: Tid)
    requires InEnd(PcOf(w, t))
    ensures Effect(w.sh, PcOf(w, t), AdvanceEnd(w, t).sh, PcOf(AdvanceEnd(w, t), t))
  {
  }

  lemma SnapshotEffect(w: World, t: Tid)
    requires InSnapshot(PcOf(w, t))
    ensures Effect(w.sh, PcOf(w, t), AdvanceSnapshot(w, t).sh, PcOf(AdvanceSnapshot(w, t), t))
  {
  }

  lemma AdminEffect(w: World, t: Tid)
    requires InAdmin(PcOf(w, t))
    ensures Effect(w.sh, PcOf(w, t), AdvanceAdmin(w, t).sh, PcOf(AdvanceAdmin(w, t), t))
  {
  }

  /** Every step, seen from the pause fields. */
  lemma StepEffect(w: World, s: Step)
    requires Enabled(w, s)
    ensures s.Advance? ==> Effect(w.sh, PcOf(w, s.t), Apply(w, s).sh, PcOf(Apply(w, s), s.t))
    ensures !s.Advance? ==> FieldsOf(Apply(w, s).sh) == FieldsOf(w.sh) && Apply(w, s).sh.row == w.sh.row
    ensures !s.Advance? && !s.Tick? ==> !UnderWay(PcOf(w, s.t)) && !UnderWay(PcOf(Apply(w, s), s.t))
    ensures forall u :: s.Tick? || u != s.t ==> PcOf(Apply(w, s), u) == PcOf(w, u)
  {
    if s.Advance? {
      var pc := PcOf(w, s.t);
      if InBegin(pc) { BeginEffect(w, s.t); }
      else if InEnd(pc) { EndEffect(w, s.t); }
      else if InSnapshot(pc) { SnapshotEffect(w, s.t); }
      else { AdminEffect(w, s.t); }
    }
    forall u | s.Tick? || u != s.t
      ensures PcOf(Apply(w, s), u) == PcOf(w, u)
    {
      CronInvariants.OthersStay(w, s, u);
    }
  }

  // ---------- where the fields are heading ----------

  /** When the calls under way have made their remaining stores, the fields will be these. */
  ghost predicate Heading(w: World, f: Fields) {
    && w.sh.paused == f.paused
    && (forall u :: MidStore(PcOf(w, u)) ==> Agrees(PcOf(w, u), f))
    && (w.sh.pausedBy == f.pausedBy || exists u :: ByLeft(PcOf(w, u)).Some?)
    && (w.sh.pausedAt == f.pausedAt || exists u :: MidStore(PcOf(w, u)))
  }

  /** A step that stores no flag leaves the fields heading where they were. */
  lemma HeadingStep(w: World, s: Step, f: Fields)
    requires Enabled(w, s) && Heading(w, f) && !StoresFlag(w, s)
    ensures Heading(Apply(w, s), f)
  {
    StepEffect(w, s);
    HeadingBy(w, s, f);
    HeadingAt(w, s, f);
  }

  lemma HeadingBy(w: World, s: Step, f: Fields)
    requires Enabled(w, s) && Heading(w, f) && !StoresFlag(w, s)
    ensures Apply(w, s).sh.pausedBy == f.pausedBy || exists u :: ByLeft(PcOf(Apply(w, s), u)).Some?
  {
    var w' := Apply(w, s);
    StepEffect(w, s);
    if w'.sh.pausedBy != f.pausedBy {
      var u :| ByLeft(PcOf(w, u)).Some?;
      assert MidStore(PcOf(w, u)) && ByLeft(PcOf(w', u)).Some?;
    }
  }

  lemma HeadingAt(w: World, s: Step, f: Fields)
    requires Enabled(w, s) && Heading(w, f) && !StoresFlag(w, s)
    ensures Apply(w, s).sh.pausedAt == f.pausedAt || exists u :: MidStore(PcOf(Apply(w, s), u))
  {
    var w' := Apply(w, s);
    StepEffect(w, s);
    if w'.sh.pausedAt != f.pausedAt {
      var u :| MidStore(PcOf(w, u));
      assert MidStore(PcOf(w', u));
    }
  }

  /** The flag store heads the fields for the call's own values if the other calls under way agree with them. */
  lemma FlagHeads(w: World, t: Tid)
    requires AtFlag(PcOf(w, t)) && Enabled(w, Advance(t))
    requires forall u :: MidStore(PcOf(w, u)) ==> Agrees(PcOf(w, u), Written(PcOf(w, t)))
    ensures Heading(Apply(w, Advance(t)), Written(PcOf(w, t)))
  {
    StepEffect(w, Advance(t));
    assert ByLeft(PcOf(Apply(w, Advance(t)), t)).Some?;
  }

  lemma {:induction false} HeadingRun(w: World, steps: seq<Step>, f: Fields)
    requires ValidRun(w, steps) && Avoids(w, steps, StoresFlag) && Heading(w, f)
    ensures Heading(Run(w, steps), f)
    decreases |steps|
  {
    if steps != [] {
      HeadingStep(w, steps[0], f);
      HeadingRun(Apply(w, steps[0]), steps[1..], f);
    }
  }

  // ---------- finishing the calls under way ----------

  ghost function Mids(w: World): set<Tid> {
    set t | t in w.threads && MidStore(w.threads[t])
  }

  /** A run that ends with no call between its stores, and in which no further call stores its flag. */
  ghost predicate Completion(w: World, steps: seq<Step>, w': World) {
    ValidRun(w, steps) && Avoids(w, steps, StoresFlag) && Run(w, steps) == w' && Quiescent(w')
  }

  /** One call makes its remaining stores; nobody else moves. */
  lemma FinishOne(w: World, t: Tid) returns (steps: seq<Step>)
    requires MidStore(PcOf(w, t))
    ensures ValidRun(w, steps) && Avoids(w, steps, StoresFlag)
    ensures var w', pc := Run(w, steps), PcOf(w, t);
      && w'.sh.paused == w.sh.paused && w'.sh.pausedAt == AtLeft(pc).value
      && w'.sh.pausedBy == (if ByLeft(pc).Some? then ByLeft(pc).value else w.sh.pausedBy)
      && !MidStore(PcOf(w', t)) && forall u :: u != t ==> PcOf(w', u) == PcOf(w, u)
    decreases ByLeft(PcOf(w, t)).Some?
  {
    var s := Advance(t);
    StepEffect(w, s);
    if ByLeft(PcOf(w, t)).Some? {
      var rest := FinishOne(Apply(w, s), t);
      Prepend(w, s, rest, StoresFlag);
      steps := [s] + rest;
    } else {
      Prepend(w, s, [], StoresFlag);
      steps := [s] + [];
    }
  }

  /** All calls under way finish, this one last: its remaining stores are the ones that stay. */
  lemma FinishLast(w: World, u: Tid) returns (steps: seq<Step>, w': World)
    requires MidStore(PcOf(w, u))
    ensures Completion(w, steps, w')
    ensures w'.sh.paused == w.sh.paused && w'.sh.pausedAt == AtLeft(PcOf(w, u)).value
    ensures ByLeft(PcOf(w, u)).Some? ==> w'.sh.pausedBy == ByLeft(PcOf(w, u)).value
    decreases |Mids(w)|
  {
    if t :| t in Mids(w) && t != u {
      var first := FinishOne(w, t);
      var w1 := Run(w, first);
      FewerMids(w, w1, t);
      var rest;
      rest, w' := FinishLast(w1, u);
      RunConcat(w, first, rest);
      AvoidsConcat(w, first, rest, StoresFlag);
      steps := first + rest;
    } else {
      steps := FinishOne(w, u);
      w' := Run(w, steps);
      assert forall t :: MidStore(PcOf(w, t)) ==> t in Mids(w);
    }
  }

  lemma FewerMids(w: World, w': World, t: Tid)
    requires t in Mids(w) && !MidStore(PcOf(w', t)) && forall u :: u != t ==> PcOf(w', u) == PcOf(w, u)
    ensures |Mids(w')| < |Mids(w)|
  {
    forall u
      ensures u in Mids(w') <==> u in Mids(w) && u != t
    {
      assert u in Mids(w') <==> MidStore(PcOf(w', u));
      assert u in Mids(w) <==> MidStore(PcOf(w, u));
    }
    assert Mids(w') == Mids(w) - {t};
  }

  // ---------- exactly when a flag store lasts ----------

  /** However the calls under way finish, the fields end as these. */
  ghost predicate EndsAs(w: World, f: Fields) {
    forall steps, w' :: Completion(w, steps, w') ==> FieldsOf(w'.sh) == f
  }

  /**
   A Pause or Resume that stores its flag ends with its own flag, employee and time, whatever the
   schedule, exactly when the other calls between their stores have only the same values left to store.
   */
  lemma OwnFieldsExactly(w: World, t: Tid)
    requires AtFlag(PcOf(w, t))
    ensures Enabled(w, Advance(t))
    ensures EndsAs(Apply(w, Advance(t)), Written(PcOf(w, t)))
      <==> forall u :: MidStore(PcOf(w, u)) ==> Agrees(PcOf(w, u), Written(PcOf(w, t)))
  {
    var w1, f := Apply(w, Advance(t)), Written(PcOf(w, t));
    if u :| MidStore(PcOf(w, u)) && !Agrees(PcOf(w, u), f) {
      StepEffect(w, Advance(t));
      var steps, w' := FinishLast(w1, u);
      assert FieldsOf(w'.sh) != f;
    } else {
      FlagHeads(w, t);
      forall steps, w' | Completion(w1, steps, w')
        ensures FieldsOf(w'.sh) == f
      {
        HeadingRun(w1, steps, f);
      }
    }
  }

  /** However the calls under way finish, the fields end in agreement. */
  ghost predicate EndsAgreed(w: World) {
    forall steps, w' :: Completion(w, steps, w') ==> PauseFieldsAgree(w'.sh)
  }

  /** The call between its stores is a Pause. */
  predicate MidPause(pc: Pc) { AtLeft(pc).Some? && AtLeft(pc).value.Some? }

  /** Paused, or about to be given a time, and no Resume is between its stores. */
  ghost predicate Pausing(w: World) {
    && w.sh.paused && (forall u :: MidStore(PcOf(w, u)) ==> MidPause(PcOf(w, u)))
    && (w.sh.pausedAt.Some? || exists u :: MidStore(PcOf(w, u)))
  }

  lemma {:induction false} PausingRun(w: World, steps: seq<Step>)
    requires ValidRun(w, steps) && Avoids(w, steps, StoresFlag) && Pausing(w)
    ensures Pausing(Run(w, steps))
    decreases |steps|
  {
    if steps != [] {
      PausingStep(w, steps[0]);
      PausingRun(Apply(w, steps[0]), steps[1..]);
    }
  }

  lemma PausingStep(w: World, s: Step)
    requires Enabled(w, s) && Pausing(w) && !StoresFlag(w, s)
    ensures Pausing(Apply(w, s))
  {
    var w' := Apply(w, s);
    StepEffect(w, s);
    if w'.sh.pausedAt.None? {
      var u :| MidStore(PcOf(w, u));
      assert MidStore(PcOf(w', u));
    }
  }

  /**
   After a Pause or Resume stores its flag, the three fields end in agreement, whatever the schedule,
   exactly when no call of the other kind is between its stores.
   */
  lemma AgreementExactly(w: World, t: Tid)
    requires AtFlag(PcOf(w, t))
    ensures Enabled(w, Advance(t))
    ensures EndsAgreed(Apply(w, Advance(t)))
      <==> forall u :: MidStore(PcOf(w, u)) ==> (MidPause(PcOf(w, u)) <==> PcOf(w, t).PauseFlag?)
  {
    var w1 := Apply(w, Advance(t));
    StepEffect(w, Advance(t));
    if u :| MidStore(PcOf(w, u)) && !(MidPause(PcOf(w, u)) <==> PcOf(w, t).PauseFlag?) {
      var steps, w' := FinishLast(w1, u);
      assert !PauseFieldsAgree(w'.sh);
    } else if PcOf(w, t).PauseFlag? {
      assert MidStore(PcOf(w1, t));
      forall steps, w' | Completion(w1, steps, w')
        ensures PauseFieldsAgree(w'.sh)
      {
        PausingRun(w1, steps);
      }
    } else {
      OwnFieldsExactly(w, t);
    }
  }

  // ---------- whole runs ----------

  /** At every flag store, the other calls between their stores have only the same values left to store. */
  ghost predicate Harmonious(w: World, steps: seq<Step>)
    requires ValidRun(w, steps)
    decreases |steps|
  {
    steps == []
    || ((StoresFlag(w, steps[0]) ==> forall u :: MidStore(PcOf(w, u)) ==> Agrees(PcOf(w, u), Written(PcOf(w, steps[0].t))))
        && Harmonious(Apply(w, steps[0]), steps[1..]))
  }

  /** No call stores its flag while another is between its stores. */
  ghost predicate Serial(w: World, steps: seq<Step>)
    requires ValidRun(w, steps)
    decreases |steps|
  {
    steps == []
    || ((StoresFlag(w, steps[0]) ==> Quiescent(w)) && Serial(Apply(w, steps[0]), steps[1..]))
  }

  lemma {:induction false} SerialIsHarmonious(w: World, steps: seq<Step>)
    requires ValidRun(w, steps) && Serial(w, steps)
    ensures Harmonious(w, steps)
    decreases |steps|
  {
    if steps != [] {
      SerialIsHarmonious(Apply(w, steps[0]), steps[1..]);
    }
  }

  /** The fields of the call that stored its flag last, or those at the start. */
  function LastWritten(w: World, steps: seq<Step>, start: Fields): Fields
    requires ValidRun(w, steps)
    decreases |steps|
  {
    if steps == [] then start
    else LastWritten(Apply(w, steps[0]), steps[1..], if StoresFlag(w, steps[0]) then Written(PcOf(w, steps[0].t)) else start)
  }

  lemma {:induction false} HarmoniousRun(w: World, steps: seq<Step>, f: Fields)
    requires ValidRun(w, steps) && Harmonious(w, steps) && Heading(w, f)
    ensures Heading(Run(w, steps), LastWritten(w, steps, f))
    decreases |steps|
  {
    if steps != [] {
      if StoresFlag(w, steps[0]) {
        FlagHeads(w, steps[0].t);
        HarmoniousRun(Apply(w, steps[0]), steps[1..], Written(PcOf(w, steps[0].t)));
      } else {
        HeadingStep(w, steps[0], f);
        HarmoniousRun(Apply(w, steps[0]), steps[1..], f);
      }
    }
  }

  /**
   From every registration, along every run whose Pause and Resume calls do not overlap, and along
   every one in which overlapping calls agree, the fields whenever no call is between its stores are
   those of the last Pause or Resume.
   */
  lemma FieldsAreLastWritten(w0: World, steps: seq<Step>)
    requires Initial(w0) && ValidRun(w0, steps) && (Serial(w0, steps) || Harmonious(w0, steps))
    requires Quiescent(Run(w0, steps))
    ensures FieldsOf(Run(w0, steps).sh) == LastWritten(w0, steps, FieldsOf(w0.sh))
  {
    if Serial(w0, steps) {
      SerialIsHarmonious(w0, steps);
    }
    HarmoniousRun(w0, steps, FieldsOf(w0.sh));
  }

  // ---------- memory and row ----------

  /** No call is under way. */
  ghost predicate Settled(w: World) {
    forall u :: !UnderWay(PcOf(w, u))
  }

  /** A run that ends with no call under way, and in which no further call stores its flag. */
  ghost predicate Return(w: World, steps: seq<Step>, w': World) {
    ValidRun(w, steps) && Avoids(w, steps, StoresFlag) && Run(w, steps) == w' && Settled(w')
  }

  /** A restart would find in the row what memory holds. */
  predicate InStep(w: World) {
    R.FromRow(w.sh.row) == FieldsOf(w.sh)
  }

  /** However the calls under way return, memory and row end in step. */
  ghost predicate EndsInStep(w: World) {
    forall steps, w' :: Return(w, steps, w') ==> InStep(w')
  }

  /** Whatever the call has left to store or save is in these fields. */
  predicate AgreesFully(pc: Pc, f: Fields) {
    Agrees(pc, f) && (SaveLeft(pc).Some? ==> R.FromRow(SaveLeft(pc)) == f)
  }

  ghost predicate RowHeading(w: World, f: Fields) {
    && (forall u :: SaveLeft(PcOf(w, u)).Some? ==> R.FromRow(SaveLeft(PcOf(w, u))) == f)
    && (R.FromRow(w.sh.row) == f || exists u :: SaveLeft(PcOf(w, u)).Some?)
  }

  lemma RowHeadingStep(w: World, s: Step, f: Fields)
    requires Enabled(w, s) && RowHeading(w, f) && !StoresFlag(w, s)
    ensures RowHeading(Apply(w, s), f)
  {
    var w' := Apply(w, s);
    StepEffect(w, s);
    if R.FromRow(w'.sh.row) != f {
      var u :| SaveLeft(PcOf(w, u)).Some?;
      assert SaveLeft(PcOf(w', u)).Some?;
    }
  }

  lemma {:induction false} RowHeadingRun(w: World, steps: seq<Step>, f: Fields)
    requires ValidRun(w, steps) && Avoids(w, steps, StoresFlag) && RowHeading(w, f)
    ensures RowHeading(Run(w, steps), f)
    decreases |steps|
  {
    if steps != [] {
      RowHeadingStep(w, steps[0], f);
      RowHeadingRun(Apply(w, steps[0]), steps[1..], f);
    }
  }

  // The calls under way make their remaining stores in three rounds, so that any of them can come
  // last in each.

  ghost function ByMids(w: World): set<Tid> { set t | t in w.threads && ByLeft(w.threads[t]).Some? }

  ghost function AtMids(w: World): set<Tid> { set t | t in w.threads && AtLeft(w.threads[t]).Some? }

  ghost function Savers(w: World): set<Tid> { set t | t in w.threads && UnderWay(w.threads[t]) }

  /** Every employee is stored, x's last. */
  lemma FinishBys(w: World, x: Tid) returns (steps: seq<Step>)
    requires ByLeft(PcOf(w, x)).Some?
    ensures ValidRun(w, steps) && Avoids(w, steps, StoresFlag)
    ensures var w' := Run(w, steps);
      && FieldsOf(w'.sh) == FieldsOf(w.sh).(pausedBy := ByLeft(PcOf(w, x)).value) && w'.sh.row == w.sh.row
      && forall u :: ByLeft(PcOf(w', u)) == None && AtLeft(PcOf(w', u)) == AtLeft(PcOf(w, u))
                     && SaveLeft(PcOf(w', u)) == SaveLeft(PcOf(w, u))
    decreases |ByMids(w)|
  {
    var t := x;
    if other :| other in ByMids(w) && other != x {
      t := other;
    }
    var s := Advance(t);
    StepEffect(w, s);
    var w1 := Apply(w, s);
    forall u
      ensures u in ByMids(w1) <==> u in ByMids(w) && u != t
    {
      assert u in ByMids(w1) <==> ByLeft(PcOf(w1, u)).Some?;
      assert u in ByMids(w) <==> ByLeft(PcOf(w, u)).Some?;
    }
    assert ByMids(w1) == ByMids(w) - {t};
    var rest: seq<Step> := [];
    if t != x {
      rest := FinishBys(w1, x);
    } else {
      assert forall u :: ByLeft(PcOf(w1, u)).Some? ==> u in ByMids(w1);
    }
    Prepend(w, s, rest, StoresFlag);
    steps := [s] + rest;
  }

  /** Then every time, y's last. */
  lemma FinishAts(w: World, y: Tid) returns (steps: seq<Step>)
    requires AtLeft(PcOf(w, y)).Some? && forall u :: ByLeft(PcOf(w, u)) == None
    ensures ValidRun(w, steps) && Avoids(w, steps, StoresFlag)
    ensures var w' := Run(w, steps);
      && FieldsOf(w'.sh) == FieldsOf(w.sh).(pausedAt := AtLeft(PcOf(w, y)).value) && w'.sh.row == w.sh.row
      && forall u :: ByLeft(PcOf(w', u)) == None && AtLeft(PcOf(w', u)) == None
                     && SaveLeft(PcOf(w', u)) == SaveLeft(PcOf(w, u))
    decreases |AtMids(w)|
  {
    var t := y;
    if other :| other in AtMids(w) && other != y {
      t := other;
    }
    var s := Advance(t);
    StepEffect(w, s);
    var w1 := Apply(w, s);
    forall u
      ensures u in AtMids(w1) <==> u in AtMids(w) && u != t
    {
      assert u in AtMids(w1) <==> AtLeft(PcOf(w1, u)).Some?;
      assert u in AtMids(w) <==> AtLeft(PcOf(w, u)).Some?;
    }
    assert AtMids(w1) == AtMids(w) - {t};
    var rest: seq<Step> := [];
    if t != y {
      rest := FinishAts(w1, y);
    } else {
      assert forall u :: AtLeft(PcOf(w1, u)).Some? ==> u in AtMids(w1);
    }
    Prepend(w, s, rest, StoresFlag);
    steps := [s] + rest;
  }

  /** The row after every save, z's last, if it has one left; the row as it is, if nobody has. */
  ghost predicate RowAfter(w: World, z: Tid, row: Option<R.Row>) {
    && (SaveLeft(PcOf(w, z)).Some? ==> row == SaveLeft(PcOf(w, z)))
    && ((forall u :: SaveLeft(PcOf(w, u)) == None) ==> row == w.sh.row)
  }

  ghost predicate OnlySavesLeft(w: World) {
    forall u :: AtLeft(PcOf(w, u)) == None && ByLeft(PcOf(w, u)) == None
  }

  /** One call saves and returns. */
  lemma OneSaves(w: World, t: Tid)
    requires OnlySavesLeft(w) && t in Savers(w)
    ensures Enabled(w, Advance(t)) && !StoresFlag(w, Advance(t))
    ensures var w1 := Apply(w, Advance(t));
      && OnlySavesLeft(w1) && FieldsOf(w1.sh) == FieldsOf(w.sh) && |Savers(w1)| < |Savers(w)|
      && w1.sh.row == (if SaveLeft(PcOf(w, t)).Some? then SaveLeft(PcOf(w, t)) else w.sh.row)
      && SaveLeft(PcOf(w1, t)) == None && forall u :: u != t ==> PcOf(w1, u) == PcOf(w, u)
  {
    var w1 := Apply(w, Advance(t));
    StepEffect(w, Advance(t));
    forall u
      ensures u in Savers(w1) <==> u in Savers(w) && u != t
    {
      assert u in Savers(w1) <==> UnderWay(PcOf(w1, u));
      assert u in Savers(w) <==> UnderWay(PcOf(w, u));
    }
    assert Savers(w1) == Savers(w) - {t};
  }

  /** What the last saves decide, they decide whoever saves before. */
  lemma RowAfterOne(w: World, t: Tid, z: Tid, row: Option<R.Row>)
    requires OnlySavesLeft(w) && t in Savers(w) && (t == z ==> forall u :: u in Savers(w) ==> u == z)
    requires Enabled(w, Advance(t)) && RowAfter(Apply(w, Advance(t)), z, row)
    ensures RowAfter(w, z, row)
  {
    OneSaves(w, t);
    assert forall u :: UnderWay(PcOf(w, u)) ==> u in Savers(w);
  }

  /** Then every call saves and returns, z last. */
  lemma FinishSaves(w: World, z: Tid) returns (steps: seq<Step>)
    requires OnlySavesLeft(w)
    ensures ValidRun(w, steps) && Avoids(w, steps, StoresFlag)
    ensures var w' := Run(w, steps); FieldsOf(w'.sh) == FieldsOf(w.sh) && Settled(w') && RowAfter(w, z, w'.sh.row)
    decreases |Savers(w)|
  {
    if Savers(w) == {} {
      steps := [];
      assert forall u :: UnderWay(PcOf(w, u)) ==> u in Savers(w);
    } else {
      var t :| t in Savers(w);
      if other :| other in Savers(w) && other != z {
        t := other;
      }
      OneSaves(w, t);
      var w1 := Apply(w, Advance(t));
      var rest := FinishSaves(w1, z);
      RowAfterOne(w, t, z, Run(w1, rest).sh.row);
      Prepend(w, Advance(t), rest, StoresFlag);
      steps := [Advance(t)] + rest;
    }
  }

  /** All three rounds. */
  lemma FinishStaged(w: World, x: Tid, y: Tid, z: Tid) returns (steps: seq<Step>, w': World)
    requires ByLeft(PcOf(w, x)).Some? && AtLeft(PcOf(w, y)).Some?
    ensures Return(w, steps, w') && RowAfter(w, z, w'.sh.row)
    ensures FieldsOf(w'.sh) == R.PauseFields(w.sh.paused, ByLeft(PcOf(w, x)).value, AtLeft(PcOf(w, y)).value)
  {
    var a := FinishBys(w, x);
    var w1 := Run(w, a);
    var b := FinishAts(w1, y);
    RunConcat(w, a, b);
    AvoidsConcat(w, a, b, StoresFlag);
    var w2 := Run(w1, b);
    var c := FinishSaves(w2, z);
    RunConcat(w, a + b, c);
    AvoidsConcat(w, a + b, c, StoresFlag);
    steps := a + b + c;
    w' := Run(w2, c);
  }

  /** Some successful save is still to come, or the row already holds the fields. */
  ghost predicate RowWillDo(w: World, pc: Pc)
    requires AtFlag(pc)
  {
    SaveOf(pc).Some? || (exists u :: SaveLeft(PcOf(w, u)).Some?) || R.FromRow(w.sh.row) == Written(pc)
  }

  /** Nothing the calls under way have left contradicts the call that is about to store its flag. */
  ghost predicate NoneObjects(w: World, f: Fields) {
    forall u :: UnderWay(PcOf(w, u)) ==> AgreesFully(PcOf(w, u), f)
  }

  /**
   After a Pause or Resume stores its flag, memory and row end in step, whatever the schedule,
   exactly when every call under way has only the same values left to store and to save, and either
   some save is going to succeed or the row holds those values already.
   */
  lemma InStepExactly(w: World, t: Tid)
    requires AtFlag(PcOf(w, t))
    ensures Enabled(w, Advance(t))
    ensures EndsInStep(Apply(w, Advance(t)))
      <==> NoneObjects(w, Written(PcOf(w, t))) && RowWillDo(w, PcOf(w, t))
  {
    var w1, f := Apply(w, Advance(t)), Written(PcOf(w, t));
    StepEffect(w, Advance(t));
    if NoneObjects(w, f) && RowWillDo(w, PcOf(w, t)) {
      StaysInStep(w, t);
    } else if NoneObjects(w, f) {
      var steps, w' := FinishStaged(w1, t, t, t);
      assert forall u :: SaveLeft(PcOf(w1, u)) == None;
      assert !InStep(w');
    } else {
      var u :| UnderWay(PcOf(w, u)) && !AgreesFully(PcOf(w, u), f);
      FallsApart(w, t, u);
    }
  }

  lemma StaysInStep(w: World, t: Tid)
    requires AtFlag(PcOf(w, t)) && Enabled(w, Advance(t))
    requires NoneObjects(w, Written(PcOf(w, t))) && RowWillDo(w, PcOf(w, t))
    ensures EndsInStep(Apply(w, Advance(t)))
  {
    var w1, f := Apply(w, Advance(t)), Written(PcOf(w, t));
    FlagHeads(w, t);
    RowHeads(w, t);
    forall steps, w' | Return(w1, steps, w')
      ensures InStep(w')
    {
      HeadingRun(w1, steps, f);
      RowHeadingRun(w1, steps, f);
    }
  }

  lemma RowHeads(w: World, t: Tid)
    requires AtFlag(PcOf(w, t)) && Enabled(w, Advance(t))
    requires NoneObjects(w, Written(PcOf(w, t))) && RowWillDo(w, PcOf(w, t))
    ensures RowHeading(Apply(w, Advance(t)), Written(PcOf(w, t)))
  {
    var w1 := Apply(w, Advance(t));
    StepEffect(w, Advance(t));
    if SaveOf(PcOf(w, t)).Some? {
      assert SaveLeft(PcOf(w1, t)).Some?;
    } else if u :| SaveLeft(PcOf(w, u)).Some? {
      assert SaveLeft(PcOf(w1, u)).Some?;
    }
  }

  /** A call under way that disagrees can be scheduled so that memory and row end apart. */
  lemma FallsApart(w: World, t: Tid, u: Tid)
    requires AtFlag(PcOf(w, t)) && Enabled(w, Advance(t))
    requires UnderWay(PcOf(w, u)) && !AgreesFully(PcOf(w, u), Written(PcOf(w, t)))
    ensures !EndsInStep(Apply(w, Advance(t)))
  {
    var w1, f := Apply(w, Advance(t)), Written(PcOf(w, t));
    StepEffect(w, Advance(t));
    var pc := PcOf(w, u);
    if SaveLeft(pc).Some? && R.FromRow(SaveLeft(pc)) != f {
      var steps, w' := FinishStaged(w1, t, t, u);
      assert !InStep(w');
    } else {
      var z := PickSaver(w1, t);
      var _, mine := FinishStaged(w1, t, t, z);
      var x, y := if ByLeft(pc).Some? then u else t, if AtLeft(pc).Some? then u else t;
      var _, theirs := FinishStaged(w1, x, y, z);
      assert FieldsOf(mine.sh) != FieldsOf(theirs.sh) && mine.sh.row == theirs.sh.row;
      assert !InStep(mine) || !InStep(theirs);
    }
  }

  /** A call whose save decides the row, if there is one. */
  lemma PickSaver(w: World, t: Tid) returns (z: Tid)
    ensures SaveLeft(PcOf(w, z)).Some? || forall u :: SaveLeft(PcOf(w, u)) == None
  {
    z := t;
    if u :| SaveLeft(PcOf(w, u)).Some? {
      z := u;
    }
  }

  // ---------- the row along whole runs ----------

  /** No call stores its flag while another is under way. */
  ghost predicate OneAtATime(w: World, steps: seq<Step>)
    requires ValidRun(w, steps)
    decreases |steps|
  {
    steps == []
    || ((StoresFlag(w, steps[0]) ==> Settled(w)) && OneAtATime(Apply(w, steps[0]), steps[1..]))
  }

  /** The row of the last call whose save succeeds, or the one at the start. */
  function LastKept(w: World, steps: seq<Step>, start: Option<R.Row>): Option<R.Row>
    requires ValidRun(w, steps)
    decreases |steps|
  {
    if steps == [] then start
    else
      var kept := if StoresFlag(w, steps[0]) && SaveOf(PcOf(w, steps[0].t)).Some? then SaveOf(PcOf(w, steps[0].t)) else start;
      LastKept(Apply(w, steps[0]), steps[1..], kept)
  }

  ghost predicate Keeping(w: World, row: Option<R.Row>) {
    && (forall u :: SaveLeft(PcOf(w, u)).Some? ==> SaveLeft(PcOf(w, u)) == row)
    && (w.sh.row == row || exists u :: SaveLeft(PcOf(w, u)).Some?)
  }

  lemma KeepingStep(w: World, s: Step, row: Option<R.Row>)
    requires Enabled(w, s) && Keeping(w, row) && (StoresFlag(w, s) ==> Settled(w))
    ensures Keeping(Apply(w, s), if StoresFlag(w, s) && SaveOf(PcOf(w, s.t)).Some? then SaveOf(PcOf(w, s.t)) else row)
  {
    var w' := Apply(w, s);
    StepEffect(w, s);
    if StoresFlag(w, s) {
      assert SaveOf(PcOf(w, s.t)).Some? ==> SaveLeft(PcOf(w', s.t)).Some?;
    } else if w'.sh.row != row {
      var u :| SaveLeft(PcOf(w, u)).Some?;
      assert SaveLeft(PcOf(w', u)).Some?;
    }
  }

  lemma {:induction false} KeepingRun(w: World, steps: seq<Step>, row: Option<R.Row>)
    requires ValidRun(w, steps) && OneAtATime(w, steps) && Keeping(w, row)
    ensures Keeping(Run(w, steps), LastKept(w, steps, row))
    decreases |steps|
  {
    if steps != [] {
      var s := steps[0];
      KeepingStep(w, s, row);
      KeepingRun(Apply(w, s), steps[1..], if StoresFlag(w, s) && SaveOf(PcOf(w, s.t)).Some? then SaveOf(PcOf(w, s.t)) else row);
    }
  }

  lemma {:induction false} OneAtATimeIsSerial(w: World, steps: seq<Step>)
    requires ValidRun(w, steps) && OneAtATime(w, steps)
    ensures Serial(w, steps)
    decreases |steps|
  {
    if steps != [] {
      OneAtATimeIsSerial(Apply(w, steps[0]), steps[1..]);
    }
  }

  /**
   From every registration, along every run of Pause and Resume calls one at a time, memory and row
   are in step at rest exactly when the last call's fields are those the last successful save restores.
   */
  lemma SerialInStepExactly(w0: World, steps: seq<Step>)
    requires Initial(w0) && ValidRun(w0, steps) && OneAtATime(w0, steps) && Settled(Run(w0, steps))
    ensures Run(w0, steps).sh.row == LastKept(w0, steps, w0.sh.row)
    ensures InStep(Run(w0, steps))
      <==> R.FromRow(LastKept(w0, steps, w0.sh.row)) == LastWritten(w0, steps, FieldsOf(w0.sh))
  {
    KeepingRun(w0, steps, w0.sh.row);
    OneAtATimeIsSerial(w0, steps);
    FieldsAreLastWritten(w0, steps);
  }

  // ---------- a disagreement ----------

  lemma InitialReachable(w: World)
    requires Initial(w)
    ensures Reachable(w) && forall u :: PcOf(w, u).Idle?
  {
    assert ReachableBy(w, [], w);
  }

  lemma Enters(w: World, t: Tid, op: Op) returns (w': World)
    requires Reachable(w) && PcOf(w, t).Idle?
    ensures Reachable(w') && PcOf(w', t) == EntryPoint(op) && forall u :: u != t ==> PcOf(w', u) == PcOf(w, u)
  {
    ReachableStep(w, Call(t, op));
    w' := Apply(w, Call(t, op));
  }

  lemma Moves(w: World, t: Tid) returns (w': World)
    requires Reachable(w) && (PcOf(w, t).ResumeFlag? || PcOf(w, t).PauseClock?)
    ensures Reachable(w') && forall u :: u != t ==> PcOf(w', u) == PcOf(w, u)
    ensures if PcOf(w, t).ResumeFlag? then PcOf(w', t).ResumeBy? else PcOf(w', t).PauseFlag?
  {
    ReachableStep(w, Advance(t));
    w' := Apply(w, Advance(t));
    StepEffect(w, Advance(t));
  }

  /** Resume has cleared the flag, and a Pause is about to set it. */
  lemma RacingCalls(w0: World) returns (w: World)
    requires Initial(w0)
    ensures Reachable(w) && PcOf(w, 0).PauseFlag? && PcOf(w, 1).ResumeBy?
  {
    InitialReachable(w0);
    w := Enters(w0, 1, OpResume(true));
    w := Moves(w, 1);
    w := Enters(w, 0, OpPause(7, true));
    w := Moves(w, 0);
  }

  /** From every registration, overlapping Pause and Resume calls can both return and leave the cron paused with no pause time. */
  lemma PauseRacesResume(w0: World) returns (w: World, steps: seq<Step>, w': World)
    requires Initial(w0)
    ensures Reachable(w) && Completion(w, steps, w') && w'.sh.paused && w'.sh.pausedAt == None
  {
    var before := RacingCalls(w0);
    StepEffect(before, Advance(0));
    ReachableStep(before, Advance(0));
    w := Apply(before, Advance(0));
    steps, w' := FinishLast(w, 1);
  }
}
