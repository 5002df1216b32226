/**
 Snapshots and triggers along runs (contract/cronreg/registry.go): what a field-by-field read returns
 while others write, and which reads of the pause flag decide a trigger.
 */
module CronSnapshot {
  import opened Wrappers
  import opened CronProtocol
  import CronInvariants
  import CronPause

  /** Some state of the run, from its first to its last, is like this. */
  ghost predicate Held(w: World, steps: seq<Step>, p: Shared -> bool)
    requires ValidRun(w, steps)
    decreases |steps|
  {
    p(w.sh) || (steps != [] && Held(Apply(w, steps[0]), steps[1..], p))
  }

  lemma {:induction false} HeldAlso(w: World, steps: seq<Step>, p: Shared -> bool, q: Shared -> bool)
    requires ValidRun(w, steps) && Held(w, steps, p) && forall sh :: p(sh) ==> q(sh)
    ensures Held(w, steps, q)
    decreases |steps|
  {
    if !p(w.sh) {
      HeldAlso(Apply(w, steps[0]), steps[1..], p, q);
    }
  }

  // ---------- what a snapshot reads ----------

  /** The goroutine has taken the read lock and not yet returned. */
  predicate Reading(pc: Pc) { (pc.SnapRead? && pc.k < FIELDS) || pc.SnapUnlock? }

  function Progress(pc: Pc): nat { if pc.SnapRead? then pc.k else FIELDS }

  /** The step ends the goroutine's snapshot. */
  function Unlocks(t: Tid): (World, Step) -> bool {
    (w: World, s: Step) => s == Advance(t) && PcOf(w, t).SnapUnlock?
  }

  /** The info shows the shared state's value of one field, in the order in which `snapshot` reads them. */
  predicate Matches(k: nat, info: Info, sh: Shared) {
    match k
    case 0 => info.pausedAt == sh.pausedAt
    case 1 => info.startedAt == sh.startedAt
    case 2 => info.finishedAt == sh.finishedAt
    case 3 => info.error == sh.error
    case 4 => info.next == sh.next
    case 5 => info.paused == sh.paused
    case 6 => info.pausedBy == sh.pausedBy
    case 7 => info.runCount == sh.runCount
    case _ => info.errorCount == sh.errorCount
  }

  /** Two infos agree on one field. */
  predicate Agree(k: nat, a: Info, b: Info) {
    match k
    case 0 => a.pausedAt == b.pausedAt
    case 1 => a.startedAt == b.startedAt
    case 2 => a.finishedAt == b.finishedAt
    case 3 => a.error == b.error
    case 4 => a.next == b.next
    case 5 => a.paused == b.paused
    case 6 => a.pausedBy == b.pausedBy
    case 7 => a.runCount == b.runCount
    case _ => a.errorCount == b.errorCount
  }

  lemma ReadsOne(sh: Shared, j: nat, acc: Info, k: nat)
    requires j < FIELDS && k < FIELDS
    ensures j == k ==> Matches(k, ReadField(sh, j, acc), sh)
    ensures j != k ==> Agree(k, acc, ReadField(sh, j, acc))
  {
  }

  /** One step, seen from a goroutine that is taking a snapshot. */
  lemma ReadingStep(w: World, s: Step, t: Tid)
    requires Enabled(w, s) && Reading(PcOf(w, t)) && !Unlocks(t)(w, s)
    ensures Reading(PcOf(Apply(w, s), t))
    ensures s != Advance(t) ==> PcOf(Apply(w, s), t) == PcOf(w, t)
    ensures s == Advance(t) ==>
      && PcOf(w, t).SnapRead? && Progress(PcOf(Apply(w, s), t)) == PcOf(w, t).k + 1
      && PcOf(Apply(w, s), t).acc == ReadField(w.sh, PcOf(w, t).k, PcOf(w, t).acc)
  {
    if s.Tick? || s.t != t {
      CronInvariants.OthersStay(w, s, t);
    }
  }

  /** A field read so far keeps its value to the end; one still to be read gets a value the field has then. */
  lemma {:induction false} FieldSettles(w: World, steps: seq<Step>, t: Tid, k: nat)
    requires ValidRun(w, steps) && Avoids(w, steps, Unlocks(t)) && k < FIELDS
    requires Reading(PcOf(w, t)) && PcOf(Run(w, steps), t).SnapUnlock?
    ensures var info := PcOf(Run(w, steps), t).acc;
      if k < Progress(PcOf(w, t)) then Agree(k, PcOf(w, t).acc, info)
      else Held(w, steps, (sh: Shared) => Matches(k, info, sh))
    decreases |steps|
  {
    if steps != [] {
      var s, w1 := steps[0], Apply(w, steps[0]);
      ReadingStep(w, s, t);
      FieldSettles(w1, steps[1..], t, k);
      if s == Advance(t) {
        ReadsOne(w.sh, PcOf(w, t).k, PcOf(w, t).acc, k);
      }
    }
  }

  /** A whole snapshot: the lock, what happens until the goroutine has read all fields, and the unlock. */
  ghost predicate Snapshot(w: World, t: Tid, mid: seq<Step>, info: Info) {
    && PcOf(w, t) == SnapLock && CanAdvance(w, t)
    && var w1 := Apply(w, Advance(t));
    && ValidRun(w1, mid) && Avoids(w1, mid, Unlocks(t))
    && PcOf(Run(w1, mid), t) == SnapUnlock(info)
  }

  /** The field had this value at some state of the run. */
  ghost predicate ReadDuring(w: World, steps: seq<Step>, k: nat, info: Info)
    requires ValidRun(w, steps)
  {
    Held(w, steps, (sh: Shared) => Matches(k, info, sh))
  }

  /**
   Every one of the nine values a snapshot shows was held by its field at some state between the lock
   and the unlock, and the snapshot is what the unlock hands over.
   */
  lemma SnapshotReadsInterval(w: World, t: Tid, mid: seq<Step>, info: Info)
    requires Snapshot(w, t, mid, info)
    ensures forall k :: 0 <= k < FIELDS ==> ReadDuring(Apply(w, Advance(t)), mid, k, info)
    ensures var w2 := Run(Apply(w, Advance(t)), mid);
      Enabled(w2, Advance(t)) && Apply(w2, Advance(t)).hist.snaps == w2.hist.snaps + [info]
  {
    forall k | 0 <= k < FIELDS
      ensures ReadDuring(Apply(w, Advance(t)), mid, k, info)
    {
      FieldSettles(Apply(w, Advance(t)), mid, t, k);
    }
  }

  /** In particular the three pause fields, which Pause and Resume store without the lock. */
  lemma PauseFieldsRead(w: World, t: Tid, mid: seq<Step>, info: Info)
    requires Snapshot(w, t, mid, info)
    ensures var w1 := Apply(w, Advance(t));
      && Held(w1, mid, (sh: Shared) => sh.paused == info.paused)
      && Held(w1, mid, (sh: Shared) => sh.pausedBy == info.pausedBy)
      && Held(w1, mid, (sh: Shared) => sh.pausedAt == info.pausedAt)
  {
    SnapshotReadsInterval(w, t, mid, info);
    PausedRead(Apply(w, Advance(t)), mid, info);
    PausedByRead(Apply(w, Advance(t)), mid, info);
    PausedAtRead(Apply(w, Advance(t)), mid, info);
  }

  lemma PausedRead(w: World, steps: seq<Step>, info: Info)
    requires ValidRun(w, steps) && ReadDuring(w, steps, 5, info)
    ensures Held(w, steps, (sh: Shared) => sh.paused == info.paused)
  {
    HeldAlso(w, steps, (sh: Shared) => Matches(5, info, sh), (sh: Shared) => sh.paused == info.paused);
  }

  lemma PausedByRead(w: World, steps: seq<Step>, info: Info)
    requires ValidRun(w, steps) && ReadDuring(w, steps, 6, info)
    ensures Held(w, steps, (sh: Shared) => sh.pausedBy == info.pausedBy)
  {
    HeldAlso(w, steps, (sh: Shared) => Matches(6, info, sh), (sh: Shared) => sh.pausedBy == info.pausedBy);
  }

  lemma PausedAtRead(w: World, steps: seq<Step>, info: Info)
    requires ValidRun(w, steps) && ReadDuring(w, steps, 0, info)
    ensures Held(w, steps, (sh: Shared) => sh.pausedAt == info.pausedAt)
  {
    HeldAlso(w, steps, (sh: Shared) => Matches(0, info, sh), (sh: Shared) => sh.pausedAt == info.pausedAt);
  }

  /** The step stores one of the three pause fields. */
  predicate StoresPause(w: World, s: Step) {
    s.Advance? && var pc := PcOf(w, s.t); CronPause.AtFlag(pc) || CronPause.MidStore(pc)
  }

  /** What depends on the pause fields alone and held during a run without such stores holds at its start. */
  lemma {:induction false} HeldThroughout(w: World, steps: seq<Step>, p: Shared -> bool)
    requires ValidRun(w, steps) && Avoids(w, steps, StoresPause) && Held(w, steps, p)
    requires forall a, b :: CronPause.FieldsOf(a) == CronPause.FieldsOf(b) ==> p(a) == p(b)
    ensures p(w.sh)
    decreases |steps|
  {
    if !p(w.sh) {
      HeldThroughout(Apply(w, steps[0]), steps[1..], p);
      CronPause.StepEffect(w, steps[0]);
    }
  }

  /** A snapshot during which no Pause or Resume stores anything shows the three pause fields as they were when it began. */
  lemma UndisturbedSnapshot(w: World, t: Tid, mid: seq<Step>, info: Info)
    requires Snapshot(w, t, mid, info) && Avoids(Apply(w, Advance(t)), mid, StoresPause)
    ensures info.paused == w.sh.paused && info.pausedBy == w.sh.pausedBy && info.pausedAt == w.sh.pausedAt
  {
    var w1 := Apply(w, Advance(t));
    PauseFieldsRead(w, t, mid, info);
    HeldThroughout(w1, mid, (sh: Shared) => sh.paused == info.paused);
    HeldThroughout(w1, mid, (sh: Shared) => sh.pausedBy == info.pausedBy);
    HeldThroughout(w1, mid, (sh: Shared) => sh.pausedAt == info.pausedAt);
  }

  // ---------- what decides a trigger ----------

  /** The step is a new call of the goroutine. */
  function Calls(t: Tid): (World, Step) -> bool {
    (w: World, s: Step) => s.Call? && s.t == t
  }

  /** The goroutine's trigger is accepted in the run. */
  predicate AcceptedIn(w: World, steps: seq<Step>, t: Tid)
    requires ValidRun(w, steps)
  {
    exists i :: |w.hist.signals| <= i < |Run(w, steps).hist.signals| && Run(w, steps).hist.signals[i] == Accepted(t)
  }

  lemma {:induction false} SignalsGrow(w: World, steps: seq<Step>)
    requires ValidRun(w, steps)
    ensures w.hist.signals <= Run(w, steps).hist.signals
    decreases |steps|
  {
    if steps != [] {
      CronInvariants.HistoryGrows(w, steps[0]);
      SignalsGrow(Apply(w, steps[0]), steps[1..]);
    }
  }

  /** One step, seen from a goroutine that is triggering or idle. */
  lemma TriggerStep(w: World, s: Step, t: Tid)
    requires Enabled(w, s) && !Calls(t)(w, s) && (PcOf(w, t).TriggerCheck? || PcOf(w, t).TriggerSend? || PcOf(w, t).Idle?)
    ensures var w', pc := Apply(w, s), PcOf(w, t);
      && (s != Advance(t) ==> PcOf(w', t) == pc && NoneAccepted(w, w', t))
      && (s == Advance(t) && pc.TriggerCheck? ==>
            PcOf(w', t) == (if w.sh.paused && !pc.force then Idle else TriggerSend) && NoneAccepted(w, w', t))
      && (s == Advance(t) && pc.TriggerSend? ==> PcOf(w', t).Idle? && w'.hist.signals == w.hist.signals + [Accepted(t)])
      && (s == Advance(t) ==> !pc.Idle?)
  {
    if s.Tick? || s.t != t {
      CronInvariants.OthersStay(w, s, t);
    }
    if !(s == Advance(t) && PcOf(w, t).TriggerSend?) {
      OtherSignals(w, s, t);
    }
  }

  /** No event of the goroutine is added. */
  predicate NoneAccepted(w: World, w': World, t: Tid) {
    forall i :: |w.hist.signals| <= i < |w'.hist.signals| ==> w'.hist.signals[i] != Accepted(t)
  }

  lemma OtherSignals(w: World, s: Step, t: Tid)
    requires Enabled(w, s) && !(s == Advance(t) && PcOf(w, t).TriggerSend?)
    ensures NoneAccepted(w, Apply(w, s), t)
  {
  }

  /** Splits a run at its first step. */
  lemma AcceptedFirst(w: World, steps: seq<Step>, t: Tid)
    requires ValidRun(w, steps) && steps != []
    ensures var w1 := Apply(w, steps[0]);
      AcceptedIn(w, steps, t) <==> !NoneAccepted(w, w1, t) || AcceptedIn(w1, steps[1..], t)
  {
    var w1 := Apply(w, steps[0]);
    CronInvariants.HistoryGrows(w, steps[0]);
    SignalsGrow(w1, steps[1..]);
    var all := Run(w, steps).hist.signals;
    assert forall i :: 0 <= i < |w1.hist.signals| ==> all[i] == w1.hist.signals[i];
  }

  lemma {:induction false} IdleAcceptsNothing(w: World, steps: seq<Step>, t: Tid)
    requires ValidRun(w, steps) && Avoids(w, steps, Calls(t)) && PcOf(w, t).Idle?
    ensures !AcceptedIn(w, steps, t)
    decreases |steps|
  {
    if steps != [] {
      TriggerStep(w, steps[0], t);
      IdleAcceptsNothing(Apply(w, steps[0]), steps[1..], t);
      AcceptedFirst(w, steps, t);
    }
  }

  lemma {:induction false} SendIsAccepted(w: World, steps: seq<Step>, t: Tid)
    requires ValidRun(w, steps) && Avoids(w, steps, Calls(t)) && PcOf(w, t).TriggerSend? && PcOf(Run(w, steps), t).Idle?
    ensures AcceptedIn(w, steps, t)
    decreases |steps|
  {
    TriggerStep(w, steps[0], t);
    AcceptedFirst(w, steps, t);
    if steps[0] == Advance(t) {
      assert Apply(w, steps[0]).hist.signals[|w.hist.signals|] == Accepted(t);
    } else {
      SendIsAccepted(Apply(w, steps[0]), steps[1..], t);
    }
  }

  /**
   A trigger that runs to its end, among whatever other calls: it is accepted only if it is forced or
   the cron was unpaused at some state meanwhile, and refused only if it is not forced and the cron
   was paused at some state meanwhile.
   */
  lemma {:induction false} TriggerOutcome(w: World, steps: seq<Step>, t: Tid)
    requires ValidRun(w, steps) && Avoids(w, steps, Calls(t)) && PcOf(w, t).TriggerCheck? && PcOf(Run(w, steps), t).Idle?
    ensures AcceptedIn(w, steps, t) ==> PcOf(w, t).force || Held(w, steps, (sh: Shared) => !sh.paused)
    ensures !AcceptedIn(w, steps, t) ==> !PcOf(w, t).force && Held(w, steps, (sh: Shared) => sh.paused)
    decreases |steps|
  {
    var s, w1 := steps[0], Apply(w, steps[0]);
    TriggerStep(w, s, t);
    AcceptedFirst(w, steps, t);
    if s != Advance(t) {
      TriggerOutcome(w1, steps[1..], t);
    } else if w.sh.paused && !PcOf(w, t).force {
      IdleAcceptsNothing(w1, steps[1..], t);
    } else {
      SendIsAccepted(w1, steps[1..], t);
    }
  }

  /** So a trigger while the pause flag does not change is accepted exactly when it is forced or the cron is unpaused. */
  lemma UndisturbedTrigger(w: World, steps: seq<Step>, t: Tid)
    requires ValidRun(w, steps) && Avoids(w, steps, Calls(t)) && Avoids(w, steps, StoresPause)
    requires PcOf(w, t).TriggerCheck? && PcOf(Run(w, steps), t).Idle?
    ensures AcceptedIn(w, steps, t) <==> PcOf(w, t).force || !w.sh.paused
  {
    TriggerOutcome(w, steps, t);
    if Held(w, steps, (sh: Shared) => !sh.paused) {
      HeldThroughout(w, steps, (sh: Shared) => !sh.paused);
    }
    if Held(w, steps, (sh: Shared) => sh.paused) {
      HeldThroughout(w, steps, (sh: Shared) => sh.paused);
    }
  }
}
