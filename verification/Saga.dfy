/**
 The saga executor (contract/shared/saga/saga.go): forward execution with resume, rollback in
 reverse order up to a pivot, and crash-recovery compensation.

 Every call that can fail (context, recorder, Forward, Backward) has its outcome in `Env`, keyed by
 the step's position. A Forward or Backward that fails has no effect; one that succeeds is idempotent.
 */
module Saga {

  datatype Step = Step(name: string, hasBackward: bool, pivot: bool)

  datatype Env = Env(
    cancelled: nat -> bool,       // the context is cancelled when the step is reached
    queryOk: nat -> bool,         // IsCompleted answers
    recordOk: nat -> bool,        // RecordForward succeeds
    forwardOk: nat -> bool,       // Forward succeeds
    markOk: nat -> bool,          // MarkCompleted succeeds
    compRecordOk: nat -> bool,    // RecordCompensation succeeds
    backwardOk: nat -> bool)      // Backward succeeds

  /** The world outside the executor: business effects in force, and forward rows marked completed. */
  class World {
    var applied: set<string>
    var completed: set<string>
  }

  // ---------- rollback ----------

  predicate IsPivot(steps: seq<Step>, i: nat) { i < |steps| && steps[i].pivot }

  predicate HasBackward(steps: seq<Step>, i: nat) { i < |steps| && steps[i].hasBackward }

  function NameOf(steps: seq<Step>, i: nat): string {
    if i < |steps| then steps[i].name else ""
  }

  /** The compensations a rollback of `done` attempts, in the order it attempts them. */
  function Walk(steps: seq<Step>, done: seq<nat>): seq<nat> {
    if done == [] then []
    else
      var d, pre := done[|done| - 1], done[..|done| - 1];
      if IsPivot(steps, d) then []
      else (if HasBackward(steps, d) then [d] else []) + Walk(steps, pre)
  }

  predicate Compensates(env: Env, i: nat) { env.compRecordOk(i) && env.backwardOk(i) }

  predicate AllCompensate(env: Env, walk: seq<nat>) {
    forall k :: 0 <= k < |walk| ==> Compensates(env, walk[k])
  }

  /** The attempts that succeed. */
  function Succeeding(env: Env, walk: seq<nat>): seq<nat> {
    if walk == [] then []
    else (if Compensates(env, walk[0]) then [walk[0]] else []) + Succeeding(env, walk[1..])
  }

  function Names(steps: seq<Step>, idx: seq<nat>): seq<string> {
    if idx == [] then [] else [NameOf(steps, idx[0])] + Names(steps, idx[1..])
  }

  function NameSet(steps: seq<Step>, idx: seq<nat>): set<string> {
    set x | x in Names(steps, idx)
  }

  lemma {:induction false} NamesSnoc(steps: seq<Step>, idx: seq<nat>, d: nat)
    ensures Names(steps, idx + [d]) == Names(steps, idx) + [NameOf(steps, d)]
  {
    if idx != [] {
      assert (idx + [d])[1..] == idx[1..] + [d];
      NamesSnoc(steps, idx[1..], d);
    }
  }

  lemma NameSetSnoc(steps: seq<Step>, idx: seq<nat>, d: nat)
    ensures NameSet(steps, idx + [d]) == NameSet(steps, idx) + {NameOf(steps, d)}
  {
    NamesSnoc(steps, idx, d);
  }

  predicate Ascending(s: seq<nat>) {
    forall k, l :: 0 <= k < l < |s| ==> s[k] < s[l]
  }

  /** The step has a Backward, and no completed pivot stands at or after it. */
  predicate Undoable(steps: seq<Step>, done: seq<nat>, i: nat) {
    i in done && HasBackward(steps, i) && forall k :: 0 <= k < |done| && done[k] >= i ==> !IsPivot(steps, done[k])
  }

  /** Rollback attempts exactly the undoable steps. */
  lemma {:induction false} WalkMeans(steps: seq<Step>, done: seq<nat>, i: nat)
    requires Ascending(done)
    ensures i in Walk(steps, done) <==> Undoable(steps, done, i)
  {
    if done != [] {
      var d, pre := done[|done| - 1], done[..|done| - 1];
      assert done == pre + [d];
      WalkMeans(steps, pre, i);
      assert i in done <==> i in pre || i == d;
      assert i in done ==> d >= i;
    }
  }

  predicate Descending(s: seq<nat>) {
    forall k, l :: 0 <= k < l < |s| ==> s[k] > s[l]
  }

  /** Rollback goes backwards. */
  lemma {:induction false} WalkDescends(steps: seq<Step>, done: seq<nat>)
    requires Ascending(done)
    ensures Descending(Walk(steps, done))
    ensures forall i :: i in Walk(steps, done) ==> i in done
  {
    if done != [] {
      var d, pre := done[|done| - 1], done[..|done| - 1];
      assert done == pre + [d];
      WalkDescends(steps, pre);
      var w := Walk(steps, pre);
      forall k | 0 <= k < |w|
        ensures w[k] < d
      {
        assert w[k] in pre;
      }
    }
  }

  lemma {:induction false} SucceedingMeans(env: Env, walk: seq<nat>, i: nat)
    ensures i in Succeeding(env, walk) <==> i in walk && Compensates(env, i)
    ensures AllCompensate(env, walk) ==> Succeeding(env, walk) == walk
  {
    if walk != [] {
      SucceedingMeans(env, walk[1..], i);
      assert walk == [walk[0]] + walk[1..];
    }
  }

  lemma {:induction false} NameSetMeans(steps: seq<Step>, idx: seq<nat>, x: string)
    ensures x in NameSet(steps, idx) <==> exists i :: i in idx && NameOf(steps, i) == x
  {
    if idx != [] {
      assert idx == [idx[0]] + idx[1..];
      assert idx[0] in idx;
      NameSetMeans(steps, idx[1..], x);
      assert forall i :: i in idx[1..] ==> i in idx;
    }
  }

  /** One compensation: recorded first, then run. */
  method TryBackward(w: World, step: Step, env: Env, d: nat) returns (ok: bool)
    modifies w`applied
    ensures ok == Compensates(env, d)
    ensures w.applied == if ok then old(w.applied) - {step.name} else old(w.applied)
  {
    if !env.compRecordOk(d) {
      return false;
    }
    if !env.backwardOk(d) {
      return false;
    }
    w.applied := w.applied - {step.name};
    return true;
  }

  /** What a rollback reports and which effects it removes. */
  datatype Unwound = Unwound(names: seq<string>, stuck: bool)

  /** The walk over the first j completed steps, last first. */
  function Unwind(steps: seq<Step>, env: Env, done: seq<nat>, j: nat): Unwound
    requires j <= |done|
  {
    if j == 0 || IsPivot(steps, done[j - 1]) then Unwound([], false)
    else
      var d, r := done[j - 1], Unwind(steps, env, done, j - 1);
      if !HasBackward(steps, d) then r
      else if Compensates(env, d) then Unwound([NameOf(steps, d)] + r.names, r.stuck)
      else Unwound(r.names, true)
  }

  /** The walk compensates what can be compensated among what it attempts, and is stuck on the rest. */
  lemma {:induction false} UnwindMeans(steps: seq<Step>, env: Env, done: seq<nat>, j: nat)
    requires j <= |done|
    ensures var walk := Walk(steps, done[..j]);
      Unwind(steps, env, done, j) == Unwound(Names(steps, Succeeding(env, walk)), !AllCompensate(env, walk))
  {
    if j > 0 && !IsPivot(steps, done[j - 1]) {
      UnwindMeans(steps, env, done, j - 1);
      assert done[..j][..j - 1] == done[..j - 1];
      var rest := Walk(steps, done[..j - 1]);
      if HasBackward(steps, done[j - 1]) {
        var walk := [done[j - 1]] + rest;
        assert walk[1..] == rest;
        assert AllCompensate(env, walk) <==> Compensates(env, walk[0]) && AllCompensate(env, rest) by {
          assert forall k :: 0 <= k < |rest| ==> rest[k] == walk[k + 1];
        }
        var some := Succeeding(env, rest);
        assert ([done[j - 1]] + some)[1..] == some;
        assert Succeeding(env, walk) == if Compensates(env, walk[0]) then [walk[0]] + some else some;
        assert Walk(steps, done[..j]) == walk;
      } else {
        assert Walk(steps, done[..j]) == rest;
      }
    }
  }

  /** rollback: the reverse walk over the completed steps. */
  method Rollback(w: World, steps: seq<Step>, env: Env, done: seq<nat>) returns (compensated: seq<string>, stuck: bool)
    requires forall k :: 0 <= k < |done| ==> done[k] < |steps|
    modifies w`applied
    ensures compensated == Names(steps, Succeeding(env, Walk(steps, done)))
    ensures w.applied == old(w.applied) - NameSet(steps, Succeeding(env, Walk(steps, done)))
    ensures stuck <==> !AllCompensate(env, Walk(steps, done))
    ensures var walk := Walk(steps, done);
      stuck <==> exists k :: 0 <= k < |walk| && !(env.compRecordOk(walk[k]) && env.backwardOk(walk[k]))
  {
    compensated, stuck := [], false;
    ghost var whole := Unwind(steps, env, done, |done|);
    var j := |done|;
    while j > 0
      invariant 0 <= j <= |done|
      invariant whole.names == compensated + Unwind(steps, env, done, j).names
      invariant whole.stuck == (stuck || Unwind(steps, env, done, j).stuck)
      invariant w.applied == old(w.applied) - (set x | x in compensated)
    {
      j := j - 1;
      var d := done[j];
      if steps[d].pivot {
        break;
      }
      if !steps[d].hasBackward {
        continue;
      }
      var ok := TryBackward(w, steps[d], env, d);
      if ok {
        compensated := compensated + [steps[d].name];
      } else {
        stuck := true;
      }
    }
    UnwindMeans(steps, env, done, |done|);
    assert done[..|done|] == done;
  }

  // ---------- forward execution ----------

  /** The completed rows when step i is reached, if no earlier step failed. */
  function LogAt(steps: seq<Step>, env: Env, log: set<string>, i: nat): set<string>
    requires i <= |steps|
  {
    if i == 0 then log
    else
      var l := LogAt(steps, env, log, i - 1);
      if (env.queryOk(i - 1) && steps[i - 1].name in l) || !env.markOk(i - 1) then l else l + {steps[i - 1].name}
  }

  /** The step is known to be completed and is passed over. */
  predicate Skips(steps: seq<Step>, env: Env, log: set<string>, i: nat)
    requires i < |steps|
  {
    env.queryOk(i) && steps[i].name in LogAt(steps, env, log, i)
  }

  predicate Fails(steps: seq<Step>, env: Env, log: set<string>, i: nat)
    requires i < |steps|
  {
    env.cancelled(i) || (!Skips(steps, env, log, i) && !(env.recordOk(i) && env.forwardOk(i)))
  }

  /** The first failing step from i on, or the number of steps. */
  function Stop(steps: seq<Step>, env: Env, log: set<string>, i: nat): (k: nat)
    requires i <= |steps|
    ensures i <= k <= |steps|
    decreases |steps| - i
  {
    if i == |steps| || Fails(steps, env, log, i) then i else Stop(steps, env, log, i + 1)
  }

  lemma {:induction false} StopMeans(steps: seq<Step>, env: Env, log: set<string>, i: nat)
    requires i <= |steps|
    ensures var k := Stop(steps, env, log, i);
      && (forall j :: i <= j < k ==> !Fails(steps, env, log, j))
      && (k < |steps| ==> Fails(steps, env, log, k))
    decreases |steps| - i
  {
    if i < |steps| && !Fails(steps, env, log, i) {
      StopMeans(steps, env, log, i + 1);
    }
  }

  /** The steps among the first k that are run rather than passed over. */
  function Executed(steps: seq<Step>, env: Env, log: set<string>, k: nat): (done: seq<nat>)
    requires k <= |steps|
    ensures Ascending(done) && forall j :: 0 <= j < |done| ==> done[j] < k
  {
    if k == 0 then []
    else Executed(steps, env, log, k - 1) + (if Skips(steps, env, log, k - 1) then [] else [k - 1])
  }

  lemma {:induction false} ExecutedMeans(steps: seq<Step>, env: Env, log: set<string>, k: nat, i: nat)
    requires k <= |steps|
    ensures i in Executed(steps, env, log, k) <==> i < k && !Skips(steps, env, log, i)
  {
    if k > 0 {
      ExecutedMeans(steps, env, log, k - 1, i);
    }
  }

  datatype Result = Committed | Aborted(at: nat, compensated: seq<string>, stuck: bool)

  datatype Final = Final(result: Result, applied: set<string>, completed: set<string>)

  /** The state a rollback leaves. */
  function RolledBack(steps: seq<Step>, env: Env, done: seq<nat>, at: nat, applied: set<string>, log: set<string>): Final
  {
    var undone := Succeeding(env, Walk(steps, done));
    Final(Aborted(at, Names(steps, undone), !AllCompensate(env, Walk(steps, done))), applied - NameSet(steps, undone), log)
  }

  function Executes(steps: seq<Step>, env: Env, applied: set<string>, log: set<string>): Final {
    var k := Stop(steps, env, log, 0);
    var done := Executed(steps, env, log, k);
    var now, rows := applied + NameSet(steps, done), LogAt(steps, env, log, k);
    if k == |steps| then Final(Committed, now, rows) else RolledBack(steps, env, done, k, now, rows)
  }

  lemma Next(steps: seq<Step>, env: Env, log: set<string>, i: nat)
    requires i < |steps|
    ensures Skips(steps, env, log, i) ==>
      && Executed(steps, env, log, i + 1) == Executed(steps, env, log, i)
      && LogAt(steps, env, log, i + 1) == LogAt(steps, env, log, i)
    ensures !Skips(steps, env, log, i) ==>
      && Executed(steps, env, log, i + 1) == Executed(steps, env, log, i) + [i]
      && (env.markOk(i) ==> LogAt(steps, env, log, i + 1) == LogAt(steps, env, log, i) + {steps[i].name})
      && (!env.markOk(i) ==> LogAt(steps, env, log, i + 1) == LogAt(steps, env, log, i))
  {
  }

  datatype Attempt = Failed | Passed | Ran

  /** One iteration of the forward loop. */
  method Try(w: World, step: Step, env: Env, i: nat) returns (a: Attempt)
    modifies w
    ensures a == if env.cancelled(i) then Failed
                 else if env.queryOk(i) && step.name in old(w.completed) then Passed
                 else if env.recordOk(i) && env.forwardOk(i) then Ran else Failed
    ensures w.applied == if a.Ran? then old(w.applied) + {step.name} else old(w.applied)
    ensures w.completed == if a.Ran? && env.markOk(i) then old(w.completed) + {step.name} else old(w.completed)
  {
    if env.cancelled(i) {
      return Failed;
    }
    if env.queryOk(i) && step.name in w.completed {
      return Passed;
    }
    if !env.recordOk(i) {
      return Failed;
    }
    if !env.forwardOk(i) {
      return Failed;
    }
    w.applied := w.applied + {step.name};
    if env.markOk(i) {
      w.completed := w.completed + {step.name};
    }
    return Ran;
  }

  /** The forward loop, up to the first failing step. */
  method Forward(w: World, steps: seq<Step>, env: Env) returns (done: seq<nat>, i: nat)
    modifies w
    ensures i == Stop(steps, env, old(w.completed), 0)
    ensures done == Executed(steps, env, old(w.completed), i)
    ensures w.applied == old(w.applied) + NameSet(steps, done)
    ensures w.completed == LogAt(steps, env, old(w.completed), i)
  {
    ghost var log := w.completed;
    done, i := [], 0;
    while i < |steps|
      invariant i <= |steps|
      invariant done == Executed(steps, env, log, i)
      invariant w.applied == old(w.applied) + NameSet(steps, done)
      invariant w.completed == LogAt(steps, env, log, i)
      invariant Stop(steps, env, log, 0) == Stop(steps, env, log, i)
    {
      Next(steps, env, log, i);
      NamesSnoc(steps, done, i);
      var a := Try(w, steps[i], env, i);
      if a.Failed? {
        break;
      }
      if a.Ran? {
        done := done + [i];
      }
      i := i + 1;
    }
  }

  /** Execute: forward, and on the first failure the rollback of what this call ran. */
  method Execute(w: World, steps: seq<Step>, env: Env) returns (r: Result)
    modifies w
    ensures Final(r, w.applied, w.completed) == Executes(steps, env, old(w.applied), old(w.completed))
  {
    var done, i := Forward(w, steps, env);
    if i < |steps| {
      r := Abort(w, steps, env, done, i);
    } else {
      r := Committed;
    }
  }

  method Abort(w: World, steps: seq<Step>, env: Env, done: seq<nat>, at: nat) returns (r: Result)
    requires forall k :: 0 <= k < |done| ==> done[k] < |steps|
    modifies w`applied
    ensures Final(r, w.applied, w.completed) == RolledBack(steps, env, done, at, old(w.applied), w.completed)
  {
    var compensated, stuck := Rollback(w, steps, env, done);
    r := Aborted(at, compensated, stuck);
  }

  // ---------- crash recovery ----------

  /** The steps among the first k that the recorder reports completed. */
  function Found(steps: seq<Step>, env: Env, log: set<string>, k: nat): (done: seq<nat>)
    requires k <= |steps|
    ensures Ascending(done) && forall j :: 0 <= j < |done| ==> done[j] < k
  {
    if k == 0 then []
    else Found(steps, env, log, k - 1) + (if env.queryOk(k - 1) && steps[k - 1].name in log then [k - 1] else [])
  }

  /** The effects recovery leaves. */
  function AfterRecovery(steps: seq<Step>, env: Env, applied: set<string>, log: set<string>): set<string> {
    applied - NameSet(steps, Succeeding(env, Walk(steps, Found(steps, env, log, |steps|))))
  }

  /** Compensate: no Forward, only the reverse walk over what the log reports completed. */
  method Compensate(w: World, steps: seq<Step>, env: Env) returns (ok: bool)
    modifies w`applied
    ensures ok == AllCompensate(env, Walk(steps, Found(steps, env, w.completed, |steps|)))
    ensures w.applied == AfterRecovery(steps, env, old(w.applied), w.completed)
  {
    var done: seq<nat> := [];
    for i := 0 to |steps|
      invariant done == Found(steps, env, w.completed, i)
    {
      if !env.queryOk(i) {
        continue;
      }
      if steps[i].name in w.completed {
        done := done + [i];
      }
    }
    var _, stuck := Rollback(w, steps, env, done);
    ok := !stuck;
  }

  // ---------- all or nothing ----------

  predicate DistinctNames(steps: seq<Step>) {
    forall i, j :: 0 <= i < j < |steps| ==> steps[i].name != steps[j].name
  }

  /** A step marked completed has its effect in force: no compensation has been run yet. */
  predicate RowsReflectEffects(steps: seq<Step>, applied: set<string>, log: set<string>) {
    forall i :: 0 <= i < |steps| && steps[i].name in log ==> steps[i].name in applied
  }

  /** The rows at step k are earlier ones and those of steps run meanwhile. */
  lemma {:induction false} LogAtWithin(steps: seq<Step>, env: Env, log: set<string>, k: nat)
    requires k <= |steps|
    ensures LogAt(steps, env, log, k) <= log + NameSet(steps, Executed(steps, env, log, k))
  {
    if k > 0 {
      var pre := Executed(steps, env, log, k - 1);
      LogAtWithin(steps, env, log, k - 1);
      Next(steps, env, log, k - 1);
      NameSetSnoc(steps, pre, k - 1);
    }
  }

  /** Wherever the forward phase is interrupted, the rows still tell only of effects in force. */
  lemma RowsStayTrue(steps: seq<Step>, env: Env, applied: set<string>, log: set<string>, k: nat)
    requires k <= |steps| && RowsReflectEffects(steps, applied, log)
    ensures RowsReflectEffects(steps, applied + NameSet(steps, Executed(steps, env, log, k)), LogAt(steps, env, log, k))
  {
    LogAtWithin(steps, env, log, k);
  }

  /** Committed means every step's effect is in force, whether it was run now or by an earlier, interrupted call. */
  lemma CommitAppliesAll(steps: seq<Step>, env: Env, applied: set<string>, log: set<string>)
    requires RowsReflectEffects(steps, applied, log)
    requires Executes(steps, env, applied, log).result.Committed?
    ensures forall i :: 0 <= i < |steps| ==> steps[i].name in Executes(steps, env, applied, log).applied
    ensures applied <= Executes(steps, env, applied, log).applied
    ensures forall x :: x in Executes(steps, env, applied, log).applied ==> x in applied || exists i :: 0 <= i < |steps| && steps[i].name == x
  {
    var done := Executed(steps, env, log, |steps|);
    forall i | 0 <= i < |steps|
      ensures steps[i].name in applied + NameSet(steps, done)
    {
      StepIsApplied(steps, env, applied, log, i);
    }
    forall x | x in NameSet(steps, done)
      ensures exists i :: 0 <= i < |steps| && steps[i].name == x
    {
      NameSetMeans(steps, done, x);
      var i :| i in done && NameOf(steps, i) == x;
      assert i < |steps| && steps[i].name == x;
    }
  }

  lemma StepIsApplied(steps: seq<Step>, env: Env, applied: set<string>, log: set<string>, i: nat)
    requires RowsReflectEffects(steps, applied, log) && i < |steps|
    ensures steps[i].name in applied + NameSet(steps, Executed(steps, env, log, |steps|))
  {
    if Skips(steps, env, log, i) {
      RowsStayTrue(steps, env, applied, log, i);
      if steps[i].name !in applied {
        EarlierNames(steps, env, log, i, |steps|, steps[i].name);
      }
    } else {
      ExecutedMeans(steps, env, log, |steps|, i);
      NameSetMeans(steps, Executed(steps, env, log, |steps|), steps[i].name);
    }
  }

  lemma {:induction false} EarlierNames(steps: seq<Step>, env: Env, log: set<string>, i: nat, k: nat, x: string)
    requires i <= k <= |steps| && x in NameSet(steps, Executed(steps, env, log, i))
    ensures x in NameSet(steps, Executed(steps, env, log, k))
  {
    NameSetMeans(steps, Executed(steps, env, log, i), x);
    NameSetMeans(steps, Executed(steps, env, log, k), x);
    var j :| j in Executed(steps, env, log, i) && NameOf(steps, j) == x;
    ExecutedMeans(steps, env, log, i, j);
    ExecutedMeans(steps, env, log, k, j);
  }

  /** Every step's effect is in force. */
  predicate AllInForce(steps: seq<Step>, applied: set<string>) {
    forall i :: 0 <= i < |steps| ==> steps[i].name in applied
  }

  ghost predicate AnswersQueries(env: Env) {
    forall i: nat :: env.queryOk(i)
  }

  /** A logged step is never run again. */
  lemma LoggedNeverRuns(steps: seq<Step>, env: Env, log: set<string>, k: nat, x: string)
    requires k <= |steps| && AnswersQueries(env) && x in log
    ensures x !in NameSet(steps, Executed(steps, env, log, k))
  {
    var done := Executed(steps, env, log, k);
    NameSetMeans(steps, done, x);
    forall j | j in done
      ensures NameOf(steps, j) != x
    {
      ExecutedMeans(steps, env, log, k, j);
      LogGrows(steps, env, log, j);
    }
  }

  lemma {:induction false} LogGrows(steps: seq<Step>, env: Env, log: set<string>, k: nat)
    requires k <= |steps|
    ensures log <= LogAt(steps, env, log, k)
  {
    if k > 0 {
      LogGrows(steps, env, log, k - 1);
    }
  }

  /** A committed call has every step in force exactly when the rows it started from told the truth. */
  lemma CommitExactly(steps: seq<Step>, env: Env, applied: set<string>, log: set<string>)
    requires AnswersQueries(env) && Executes(steps, env, applied, log).result.Committed?
    ensures AllInForce(steps, Executes(steps, env, applied, log).applied) <==> RowsReflectEffects(steps, applied, log)
  {
    if RowsReflectEffects(steps, applied, log) {
      CommitAppliesAll(steps, env, applied, log);
    } else {
      var i :| 0 <= i < |steps| && steps[i].name in log && steps[i].name !in applied;
      LoggedNeverRuns(steps, env, log, |steps|, steps[i].name);
    }
  }

  /** Nothing the call asks for fails. */
  ghost predicate Faultless(env: Env) {
    AnswersQueries(env) && forall i: nat :: !env.cancelled(i) && env.recordOk(i) && env.forwardOk(i)
  }

  /** A resumed call that meets no fault always commits, and has every step in force exactly when the rows told the truth. */
  lemma ResumeExactly(steps: seq<Step>, env: Env, applied: set<string>, log: set<string>)
    requires Faultless(env)
    ensures var f := Executes(steps, env, applied, log);
      f.result.Committed? && (AllInForce(steps, f.applied) <==> RowsReflectEffects(steps, applied, log))
  {
    StopMeans(steps, env, log, 0);
    CommitExactly(steps, env, applied, log);
  }

  // ---------- the rollback promise ----------

  lemma {:induction false} DescendingUnique(a: seq<nat>, b: seq<nat>)
    requires Descending(a) && Descending(b) && forall i: nat :: i in a <==> i in b
    ensures a == b
  {
    assert a != [] ==> a[0] in a;
    assert b != [] ==> b[0] in b;
    if a != [] && b != [] {
      assert a[0] in b && b[0] in a;
      assert a[0] == b[0];
      assert a == [a[0]] + a[1..] && b == [b[0]] + b[1..];
      forall i: nat
        ensures i in a[1..] <==> i in b[1..]
      {
        assert i in a[1..] ==> i in a && i < a[0];
        assert i in b[1..] ==> i in b && i < b[0];
      }
      DescendingUnique(a[1..], b[1..]);
    }
  }

  lemma {:induction false} NamesInjective(steps: seq<Step>, a: seq<nat>, b: seq<nat>)
    requires DistinctNames(steps) && Names(steps, a) == Names(steps, b)
    requires (forall k :: 0 <= k < |a| ==> a[k] < |steps|) && (forall k :: 0 <= k < |b| ==> b[k] < |steps|)
    ensures a == b
  {
    if a != [] && b != [] {
      assert Names(steps, a)[0] == Names(steps, b)[0];
      assert Names(steps, a)[1..] == Names(steps, a[1..]) && Names(steps, b)[1..] == Names(steps, b[1..]);
      NamesInjective(steps, a[1..], b[1..]);
      assert a == [a[0]] + a[1..] && b == [b[0]] + b[1..];
    }
  }

  /** A completed pivot stands at or after position i. */
  predicate Shielded(steps: seq<Step>, done: seq<nat>, i: nat) {
    exists k :: 0 <= k < |done| && done[k] >= i && IsPivot(steps, done[k])
  }

  /**
   Rolling back `some` of the completed steps instead of `all` of them makes no difference: none of
   those to be undone is missing, and where a pivot shields a step that is present, one that is
   present does too.
   */
  predicate Faithful(steps: seq<Step>, all: seq<nat>, some: seq<nat>) {
    && (forall k :: 0 <= k < |all| && HasBackward(steps, all[k]) && !Shielded(steps, all, all[k]) ==> all[k] in some)
    && (forall k :: 0 <= k < |some| && HasBackward(steps, some[k]) && Shielded(steps, all, some[k]) ==> Shielded(steps, some, some[k]))
  }

  lemma UndoableMeans(steps: seq<Step>, done: seq<nat>, i: nat)
    ensures Undoable(steps, done, i) <==> i in done && HasBackward(steps, i) && !Shielded(steps, done, i)
  {
  }

  lemma FaithfulExactly(steps: seq<Step>, all: seq<nat>, some: seq<nat>)
    requires Ascending(all) && Ascending(some) && forall i :: i in some ==> i in all
    ensures Walk(steps, some) == Walk(steps, all) <==> Faithful(steps, all, some)
  {
    WalkDescends(steps, all);
    WalkDescends(steps, some);
    forall i: nat
      ensures i in Walk(steps, all) <==> i in all && HasBackward(steps, i) && !Shielded(steps, all, i)
      ensures i in Walk(steps, some) <==> i in some && HasBackward(steps, i) && !Shielded(steps, some, i)
      ensures i in some && Shielded(steps, some, i) ==> Shielded(steps, all, i)
    {
      WalkMeans(steps, all, i);
      UndoableMeans(steps, all, i);
      WalkMeans(steps, some, i);
      UndoableMeans(steps, some, i);
      ShieldGrows(steps, all, some, i);
    }
    assert forall k :: 0 <= k < |all| ==> all[k] in all;
    assert forall k :: 0 <= k < |some| ==> some[k] in some;
    if Faithful(steps, all, some) {
      FaithfulWalk(steps, all, some);
    } else if Walk(steps, some) == Walk(steps, all) {
      assert false;
    }
  }

  lemma ShieldGrows(steps: seq<Step>, all: seq<nat>, some: seq<nat>, i: nat)
    requires forall i :: i in some ==> i in all
    ensures Shielded(steps, some, i) ==> Shielded(steps, all, i)
  {
    if Shielded(steps, some, i) {
      var k :| 0 <= k < |some| && some[k] >= i && IsPivot(steps, some[k]);
      assert some[k] in all;
    }
  }

  lemma FaithfulWalk(steps: seq<Step>, all: seq<nat>, some: seq<nat>)
    requires Ascending(all) && Ascending(some) && forall i :: i in some ==> i in all
    requires Faithful(steps, all, some)
    ensures Walk(steps, some) == Walk(steps, all)
  {
    WalkDescends(steps, all);
    WalkDescends(steps, some);
    forall i: nat
      ensures i in Walk(steps, all) <==> i in Walk(steps, some)
    {
      WalkMeans(steps, all, i);
      UndoableMeans(steps, all, i);
      WalkMeans(steps, some, i);
      UndoableMeans(steps, some, i);
      ShieldGrows(steps, all, some, i);
    }
    DescendingUnique(Walk(steps, all), Walk(steps, some));
  }

  function Range(k: nat): seq<nat> {
    seq(k, i => i)
  }

  /** Every compensation the environment is asked for succeeds. */
  ghost predicate CompensationWorks(env: Env) {
    forall i: nat :: Compensates(env, i)
  }

  /**
   The documented promise, that a failure compensates every previously completed step in reverse up
   to the first pivot, is kept exactly when passing over already completed steps was faithful.
   */
  lemma RollbackPromiseExactly(steps: seq<Step>, env: Env, applied: set<string>, log: set<string>)
    requires DistinctNames(steps) && CompensationWorks(env)
    requires Executes(steps, env, applied, log).result.Aborted?
    ensures var r := Executes(steps, env, applied, log).result;
      && r.at <= |steps| && !r.stuck
      && (r.compensated == Names(steps, Walk(steps, Range(r.at)))
          <==> Faithful(steps, Range(r.at), Executed(steps, env, log, r.at)))
  {
    var k := Stop(steps, env, log, 0);
    var all, some := Range(k), Executed(steps, env, log, k);
    forall i | i in some
      ensures i in all
    {
      assert all[i] == i;
    }
    FaithfulExactly(steps, all, some);
    SucceedingMeans(env, Walk(steps, some), 0);
    WalkNames(steps, all, some);
  }

  /** With distinct names, two rollbacks that report the same names are the same. */
  lemma WalkNames(steps: seq<Step>, all: seq<nat>, some: seq<nat>)
    requires DistinctNames(steps) && Ascending(all) && Ascending(some)
    requires (forall i :: i in all ==> i < |steps|) && (forall i :: i in some ==> i < |steps|)
    ensures Names(steps, Walk(steps, some)) == Names(steps, Walk(steps, all)) <==> Walk(steps, some) == Walk(steps, all)
  {
    WalkDescends(steps, all);
    WalkDescends(steps, some);
    var a, b := Walk(steps, some), Walk(steps, all);
    assert forall j :: 0 <= j < |a| ==> a[j] in a;
    assert forall j :: 0 <= j < |b| ==> b[j] in b;
    if Names(steps, a) == Names(steps, b) {
      NamesInjective(steps, a, b);
    }
  }

  lemma {:induction false} NotYetLogged(steps: seq<Step>, env: Env, log: set<string>, k: nat, j: nat)
    requires DistinctNames(steps) && k <= j < |steps| && steps[j].name !in log
    ensures steps[j].name !in LogAt(steps, env, log, k)
  {
    if k > 0 {
      NotYetLogged(steps, env, log, k - 1, j);
    }
  }

  // ---------- when a resume is safe ----------

  /** Which steps a call passes over is decided by the log it starts with. */
  lemma SkipsMeans(steps: seq<Step>, env: Env, log: set<string>, i: nat)
    requires DistinctNames(steps) && i < |steps|
    ensures Skips(steps, env, log, i) <==> env.queryOk(i) && steps[i].name in log
  {
    LogGrows(steps, env, log, i);
    if steps[i].name !in log {
      NotYetLogged(steps, env, log, i, i);
    }
  }

  /** The first pivot at or after step i is step p. */
  predicate FirstPivot(steps: seq<Step>, i: nat, p: nat) {
    i <= p < |steps| && steps[p].pivot && forall j :: i <= j < p ==> !steps[j].pivot
  }

  /**
   Every logged step that could still be rolled back is a pivot, or cannot be undone anyway; and no
   step that has yet to run relies on a logged pivot to be kept.
   */
  predicate SafeToResume(steps: seq<Step>, log: set<string>) {
    && (forall i :: 0 <= i < |steps| - 1 && steps[i].name in log && steps[i].hasBackward ==> steps[i].pivot)
    && (forall i, p :: 0 <= i <= p < |steps| - 1 && FirstPivot(steps, i, p) && steps[i].name !in log && steps[i].hasBackward
          ==> steps[p].name !in log)
  }

  /** If the call fails, it compensates every completed step in reverse, up to the first pivot. */
  predicate KeepsPromise(steps: seq<Step>, env: Env, applied: set<string>, log: set<string>) {
    var r := Executes(steps, env, applied, log).result;
    r.Aborted? ==> r.compensated == Names(steps, Walk(steps, Range(r.at)))
  }

  lemma {:induction false} FindPivot(steps: seq<Step>, i: nat, q: nat) returns (p: nat)
    requires i <= q < |steps| && steps[q].pivot
    ensures p <= q && FirstPivot(steps, i, p)
    decreases q - i
  {
    if steps[i].pivot {
      p := i;
    } else {
      p := FindPivot(steps, i + 1, q);
    }
  }

  lemma SafeIsFaithful(steps: seq<Step>, env: Env, log: set<string>, k: nat)
    requires DistinctNames(steps) && SafeToResume(steps, log) && k < |steps|
    ensures Faithful(steps, Range(k), Executed(steps, env, log, k))
  {
    var all, some := Range(k), Executed(steps, env, log, k);
    forall i | 0 <= i < k && HasBackward(steps, i) && !Shielded(steps, all, i)
      ensures i in some
    {
      ExecutedMeans(steps, env, log, k, i);
      SkipsMeans(steps, env, log, i);
      assert all[i] == i;
    }
    forall x | 0 <= x < |some| && HasBackward(steps, some[x]) && Shielded(steps, all, some[x])
      ensures Shielded(steps, some, some[x])
    {
      var q :| 0 <= q < |all| && all[q] >= some[x] && IsPivot(steps, all[q]);
      assert some[x] in some;
      var p := PivotStays(steps, env, log, k, some[x], q);
    }
  }

  lemma PivotStays(steps: seq<Step>, env: Env, log: set<string>, k: nat, i: nat, q: nat) returns (p: nat)
    requires DistinctNames(steps) && SafeToResume(steps, log) && k < |steps| && i <= q < k
    requires i in Executed(steps, env, log, k) && steps[i].hasBackward && steps[q].pivot
    ensures i <= p && p in Executed(steps, env, log, k) && IsPivot(steps, p)
  {
    p := FindPivot(steps, i, q);
    SkipsMeans(steps, env, log, i);
    SkipsMeans(steps, env, log, p);
    ExecutedMeans(steps, env, log, k, i);
    ExecutedMeans(steps, env, log, k, p);
  }

  /** Nothing fails, but the context is cancelled when step k is reached. */
  function CutAt(k: nat): Env {
    var yes := (i: nat) => true;
    Env((i: nat) => i == k, yes, yes, yes, yes, yes, yes)
  }

  lemma CutStops(steps: seq<Step>, log: set<string>, k: nat)
    requires k < |steps|
    ensures Stop(steps, CutAt(k), log, 0) == k && CompensationWorks(CutAt(k))
  {
    StopMeans(steps, CutAt(k), log, 0);
    assert Fails(steps, CutAt(k), log, k);
  }

  lemma UnsafeIsUnfaithful(steps: seq<Step>, log: set<string>) returns (k: nat)
    requires DistinctNames(steps) && !SafeToResume(steps, log)
    ensures k < |steps| && !Faithful(steps, Range(k), Executed(steps, CutAt(k), log, k))
  {
    if i: nat :| i < |steps| - 1 && steps[i].name in log && steps[i].hasBackward && !steps[i].pivot {
      k := i + 1;
      LoggedIsForgotten(steps, log, i);
    } else {
      var i, p :| 0 <= i <= p < |steps| - 1 && FirstPivot(steps, i, p) && steps[i].name !in log && steps[i].hasBackward
        && steps[p].name in log;
      k := p + 1;
      PivotIsForgotten(steps, log, i, p);
    }
  }

  lemma LoggedIsForgotten(steps: seq<Step>, log: set<string>, i: nat)
    requires DistinctNames(steps) && i < |steps| - 1 && steps[i].name in log && steps[i].hasBackward && !steps[i].pivot
    ensures !Faithful(steps, Range(i + 1), Executed(steps, CutAt(i + 1), log, i + 1))
  {
    SkipsMeans(steps, CutAt(i + 1), log, i);
    ExecutedMeans(steps, CutAt(i + 1), log, i + 1, i);
    assert Range(i + 1)[i] == i;
    assert !Shielded(steps, Range(i + 1), i);
  }

  lemma PivotIsForgotten(steps: seq<Step>, log: set<string>, i: nat, p: nat)
    requires DistinctNames(steps) && p < |steps| - 1 && FirstPivot(steps, i, p) && steps[i].hasBackward
    requires steps[i].name !in log && steps[p].name in log
    ensures !Faithful(steps, Range(p + 1), Executed(steps, CutAt(p + 1), log, p + 1))
  {
    SkipsMeans(steps, CutAt(p + 1), log, i);
    SkipsMeans(steps, CutAt(p + 1), log, p);
    ExecutedMeans(steps, CutAt(p + 1), log, p + 1, i);
    ExecutedMeans(steps, CutAt(p + 1), log, p + 1, p);
    PivotMissing(steps, Executed(steps, CutAt(p + 1), log, p + 1), i, p);
  }

  lemma PivotMissing(steps: seq<Step>, some: seq<nat>, i: nat, p: nat)
    requires FirstPivot(steps, i, p) && steps[i].hasBackward && i in some && p !in some
    requires forall y :: 0 <= y < |some| ==> some[y] <= p
    ensures !Faithful(steps, Range(p + 1), some)
  {
    assert Range(p + 1)[p] == p;
    assert Shielded(steps, Range(p + 1), i);
    assert forall y :: 0 <= y < |some| ==> some[y] in some;
    assert !Shielded(steps, some, i);
    var x :| 0 <= x < |some| && some[x] == i;
  }

  /**
   A call keeps the promise whatever happens to it, as long as compensations work, exactly when the
   log it starts with is safe to resume from.
   */
  lemma ResumePromiseExactly(steps: seq<Step>, applied: set<string>, log: set<string>)
    requires DistinctNames(steps)
    ensures (forall env :: CompensationWorks(env) ==> KeepsPromise(steps, env, applied, log)) <==> SafeToResume(steps, log)
  {
    if SafeToResume(steps, log) {
      forall env | CompensationWorks(env)
        ensures KeepsPromise(steps, env, applied, log)
      {
        var k := Stop(steps, env, log, 0);
        if k < |steps| {
          SafeIsFaithful(steps, env, log, k);
          RollbackPromiseExactly(steps, env, applied, log);
        }
      }
    } else {
      var k := UnsafeIsUnfaithful(steps, log);
      CutStops(steps, log, k);
      RollbackPromiseExactly(steps, CutAt(k), applied, log);
      assert !KeepsPromise(steps, CutAt(k), applied, log);
    }
  }

  // ---------- the outcome of a call ----------

  /** A call commits exactly when no step is cancelled and each is logged, or recorded and run; else it stops at the first that is not. */
  lemma OutcomeExactly(steps: seq<Step>, env: Env, applied: set<string>, log: set<string>)
    requires DistinctNames(steps)
    ensures var r := Executes(steps, env, applied, log).result;
      && (r.Committed? <==> forall i :: 0 <= i < |steps| ==> Passes(steps, env, log, i))
      && (r.Aborted? ==> r.at < |steps| && !Passes(steps, env, log, r.at) && forall i :: 0 <= i < r.at ==> Passes(steps, env, log, i))
  {
    StopMeans(steps, env, log, 0);
    forall i | 0 <= i < |steps|
      ensures Passes(steps, env, log, i) <==> !Fails(steps, env, log, i)
    {
      SkipsMeans(steps, env, log, i);
    }
  }

  /** Not cancelled, and reported completed or else recorded and run. */
  predicate Passes(steps: seq<Step>, env: Env, log: set<string>, i: nat)
    requires i < |steps|
  {
    !env.cancelled(i) && ((env.queryOk(i) && steps[i].name in log) || (env.recordOk(i) && env.forwardOk(i)))
  }

  /** The step is run by a call that gets beyond it. */
  predicate Runs(steps: seq<Step>, env: Env, log: set<string>, at: nat, i: nat)
    requires i < |steps|
  {
    i < at && !(env.queryOk(i) && steps[i].name in log)
  }

  /**
   What an aborted call leaves, whatever fails on the way: an effect is in force exactly when it was
   before or its step was run, and not when its step was run and its compensation recorded and done.
   */
  lemma AbortLeavesExactly(steps: seq<Step>, env: Env, applied: set<string>, log: set<string>, i: nat)
    requires DistinctNames(steps) && i < |steps| && Executes(steps, env, applied, log).result.Aborted?
    ensures var f := Executes(steps, env, applied, log);
      && f.result.at < |steps|
      && (steps[i].name in f.applied <==>
            && (steps[i].name in applied || Runs(steps, env, log, f.result.at, i))
            && !(Undoable(steps, Executed(steps, env, log, f.result.at), i) && env.compRecordOk(i) && env.backwardOk(i)))
      && (i in Executed(steps, env, log, f.result.at) <==> Runs(steps, env, log, f.result.at, i))
  {
    var k := Stop(steps, env, log, 0);
    var done := Executed(steps, env, log, k);
    var walk := Walk(steps, done);
    ExecutedMeans(steps, env, log, k, i);
    SkipsMeans(steps, env, log, i);
    OwnName(steps, done, i);
    WalkDescends(steps, done);
    WalkMeans(steps, done, i);
    SucceedingMeans(env, walk, i);
    SucceedingWithin(env, walk);
    OwnName(steps, Succeeding(env, walk), i);
  }

  lemma {:induction false} SucceedingWithin(env: Env, walk: seq<nat>)
    ensures forall j :: j in Succeeding(env, walk) ==> j in walk
  {
    if walk != [] {
      SucceedingWithin(env, walk[1..]);
    }
  }

  // ---------- a first run ----------

  /** A first run passes nothing over. */
  lemma {:induction false} FreshExecutesAll(steps: seq<Step>, env: Env, log: set<string>, k: nat)
    requires DistinctNames(steps) && k <= |steps| && forall i :: 0 <= i < |steps| ==> steps[i].name !in log
    ensures Executed(steps, env, log, k) == Range(k)
  {
    if k > 0 {
      FreshExecutesAll(steps, env, log, k - 1);
      NotYetLogged(steps, env, log, k - 1, k - 1);
      assert Range(k) == Range(k - 1) + [k - 1];
    }
  }

  /**
   A saga that fails on its first run undoes what it did: of its own effects exactly those remain
   that a pivot shields or that have no Backward, and nothing else has changed.
   */
  lemma FirstFailureUndoes(steps: seq<Step>, env: Env, applied: set<string>, log: set<string>)
    requires DistinctNames(steps) && CompensationWorks(env)
    requires forall i :: 0 <= i < |steps| ==> steps[i].name !in log && steps[i].name !in applied
    requires Executes(steps, env, applied, log).result.Aborted?
    ensures var f := Executes(steps, env, applied, log);
      && f.result.at <= |steps| && !f.result.stuck
      && f.result.compensated == Names(steps, Walk(steps, Range(f.result.at)))
      && (forall i :: 0 <= i < |steps| ==>
            (steps[i].name in f.applied <==> i < f.result.at && !Undoable(steps, Range(f.result.at), i)))
      && (forall x :: (forall i :: 0 <= i < |steps| ==> steps[i].name != x) ==> (x in f.applied <==> x in applied))
  {
    var k := Stop(steps, env, log, 0);
    FreshExecutesAll(steps, env, log, k);
    SucceedingMeans(env, Walk(steps, Range(k)), 0);
    forall i | 0 <= i < |steps|
      ensures steps[i].name in NameSet(steps, Range(k)) <==> i < k
      ensures steps[i].name in NameSet(steps, Walk(steps, Range(k))) <==> Undoable(steps, Range(k), i)
    {
      OwnNames(steps, k, i);
    }
    forall x | forall i :: 0 <= i < |steps| ==> steps[i].name != x
      ensures x !in NameSet(steps, Range(k)) && x !in NameSet(steps, Walk(steps, Range(k)))
    {
      StrangeName(steps, k, x);
    }
  }

  lemma OwnNames(steps: seq<Step>, k: nat, i: nat)
    requires DistinctNames(steps) && k <= |steps| && i < |steps|
    ensures steps[i].name in NameSet(steps, Range(k)) <==> i < k
    ensures steps[i].name in NameSet(steps, Walk(steps, Range(k))) <==> Undoable(steps, Range(k), i)
  {
    WalkDescends(steps, Range(k));
    OwnName(steps, Range(k), i);
    OwnName(steps, Walk(steps, Range(k)), i);
    WalkMeans(steps, Range(k), i);
    assert i < k ==> Range(k)[i] == i;
  }

  lemma StrangeName(steps: seq<Step>, k: nat, x: string)
    requires k <= |steps| && forall i :: 0 <= i < |steps| ==> steps[i].name != x
    ensures x !in NameSet(steps, Range(k)) && x !in NameSet(steps, Walk(steps, Range(k)))
  {
    WalkDescends(steps, Range(k));
    NameSetMeans(steps, Range(k), x);
    NameSetMeans(steps, Walk(steps, Range(k)), x);
  }

  /** With distinct names, a step's name is in the set exactly if the step is. */
  lemma OwnName(steps: seq<Step>, idx: seq<nat>, i: nat)
    requires DistinctNames(steps) && i < |steps| && forall j :: j in idx ==> j < |steps|
    ensures steps[i].name in NameSet(steps, idx) <==> i in idx
  {
    NameSetMeans(steps, idx, steps[i].name);
  }

  /**
   A retry, under the same id, of a saga whose first run was rolled back: if it commits, every step is
   in force exactly when none of the compensated steps had been marked completed.
   */
  lemma RetryExactly(steps: seq<Step>, env: Env, again: Env, applied: set<string>, log: set<string>)
    requires DistinctNames(steps) && CompensationWorks(env) && AnswersQueries(again)
    requires forall i :: 0 <= i < |steps| ==> steps[i].name !in log && steps[i].name !in applied
    requires Executes(steps, env, applied, log).result.Aborted?
    requires var f := Executes(steps, env, applied, log); Executes(steps, again, f.applied, f.completed).result.Committed?
    ensures var f := Executes(steps, env, applied, log);
      && f.result.at <= |steps|
      && (AllInForce(steps, Executes(steps, again, f.applied, f.completed).applied)
          <==> forall i :: 0 <= i < f.result.at && Undoable(steps, Range(f.result.at), i) ==> !env.markOk(i))
  {
    var f := Executes(steps, env, applied, log);
    FirstFailureUndoes(steps, env, applied, log);
    CommitExactly(steps, again, f.applied, f.completed);
    forall i | 0 <= i < |steps|
      ensures steps[i].name in f.completed <==> i < f.result.at && env.markOk(i)
    {
      FreshLog(steps, env, log, f.result.at, i);
    }
  }

  /** A retry that commits without the debit the rollback took back. */
  lemma RetrySkipsDebit()
    ensures var steps := [Step("debit", true, false), Step("credit", true, false)];
      var yes, no := (i: nat) => true, (i: nat) => false;
      var failing, fine := Env(no, yes, yes, i => i == 0, yes, yes, yes), Env(no, yes, yes, yes, yes, yes, yes);
      var f := Executes(steps, failing, {}, {});
      && f == Final(Aborted(1, ["debit"], false), {}, {"debit"})
      && Executes(steps, fine, f.applied, f.completed) == Final(Committed, {"credit"}, {"debit", "credit"})
  {
    RetryFirst();
    RetrySecond();
  }

  lemma RetryFirst()
    ensures var steps := [Step("debit", true, false), Step("credit", true, false)];
      var yes, no := (i: nat) => true, (i: nat) => false;
      var failing := Env(no, yes, yes, i => i == 0, yes, yes, yes);
      Executes(steps, failing, {}, {}) == Final(Aborted(1, ["debit"], false), {}, {"debit"})
  {
    var steps := [Step("debit", true, false), Step("credit", true, false)];
    var yes, no := (i: nat) => true, (i: nat) => false;
    var env := Env(no, yes, yes, i => i == 0, yes, yes, yes);
    assert LogAt(steps, env, {}, 1) == {"debit"};
    assert Stop(steps, env, {}, 1) == 1;
    assert Stop(steps, env, {}, 0) == 1;
    assert Executed(steps, env, {}, 1) == [0];
    assert Names(steps, [0]) == ["debit"] by { assert [0][1..] == []; }
    OneRolledBack(steps, env, 0, 1, {"debit"}, {"debit"});
  }

  /** Rolling back a single reversible step. */
  lemma OneRolledBack(steps: seq<Step>, env: Env, d: nat, at: nat, applied: set<string>, log: set<string>)
    requires d < |steps| && steps[d].hasBackward && !steps[d].pivot && Compensates(env, d)
    ensures RolledBack(steps, env, [d], at, applied, log)
      == Final(Aborted(at, [steps[d].name], false), applied - {steps[d].name}, log)
  {
    assert [d][..0] == [] && [d][1..] == [];
    assert Walk(steps, [d]) == [d];
    assert Succeeding(env, [d]) == [d];
    assert Names(steps, [d]) == [steps[d].name];
  }

  lemma RetrySecond()
    ensures var steps := [Step("debit", true, false), Step("credit", true, false)];
      var yes, no := (i: nat) => true, (i: nat) => false;
      var fine := Env(no, yes, yes, yes, yes, yes, yes);
      Executes(steps, fine, {}, {"debit"}) == Final(Committed, {"credit"}, {"debit", "credit"})
  {
    var steps := [Step("debit", true, false), Step("credit", true, false)];
    var yes, no := (i: nat) => true, (i: nat) => false;
    var env := Env(no, yes, yes, yes, yes, yes, yes);
    var log := {"debit"};
    assert LogAt(steps, env, log, 1) == log;
    assert LogAt(steps, env, log, 2) == {"debit", "credit"};
    assert Stop(steps, env, log, 2) == 2;
    assert Stop(steps, env, log, 1) == 2;
    assert Stop(steps, env, log, 0) == 2;
    assert Executed(steps, env, log, 1) == [];
    assert Executed(steps, env, log, 2) == [1];
    assert [1][1..] == [];
    assert Names(steps, [1]) == ["credit"];
  }

  /** A fully reversible saga that fails on its first run leaves no trace. */
  lemma FailureLeavesNoTrace(steps: seq<Step>, env: Env, applied: set<string>, log: set<string>)
    requires DistinctNames(steps) && CompensationWorks(env)
    requires forall i :: 0 <= i < |steps| ==> steps[i].name !in log && steps[i].name !in applied
    requires forall i :: 0 <= i < |steps| ==> steps[i].hasBackward && !steps[i].pivot
    requires Executes(steps, env, applied, log).result.Aborted?
    ensures Executes(steps, env, applied, log).applied == applied
  {
    FirstFailureUndoes(steps, env, applied, log);
    var f := Executes(steps, env, applied, log);
    forall i | 0 <= i < |steps|
      ensures steps[i].name !in f.applied
    {
      if i < f.result.at {
        ReversibleIsUndoable(steps, f.result.at, i);
      }
    }
  }

  lemma ReversibleIsUndoable(steps: seq<Step>, k: nat, i: nat)
    requires i < k <= |steps| && forall j :: 0 <= j < |steps| ==> steps[j].hasBackward && !steps[j].pivot
    ensures Undoable(steps, Range(k), i)
  {
    assert Range(k)[i] == i;
  }

  /** After a resume the promise can fail: the step an earlier call completed stays in force, and nothing is reported stuck. */
  lemma ResumedFailureForgets()
    ensures var steps := [Step("debit", true, false), Step("credit", true, false)];
      var yes, no := (i: nat) => true, (i: nat) => false;
      var env := Env(no, yes, yes, no, yes, yes, yes);
      var f := Executes(steps, env, {"debit"}, {"debit"});
      f.result == Aborted(1, [], false) && f.applied == {"debit"} && CompensationWorks(env)
  {
    var steps := [Step("debit", true, false), Step("credit", true, false)];
    var yes, no := (i: nat) => true, (i: nat) => false;
    var env := Env(no, yes, yes, no, yes, yes, yes);
    var log := {"debit"};
    assert LogAt(steps, env, log, 1) == log;
    assert Skips(steps, env, log, 0) && !Skips(steps, env, log, 1);
    assert Stop(steps, env, log, 1) == 1;
    assert Stop(steps, env, log, 0) == 1;
    assert Executed(steps, env, log, 1) == [];
  }

  // ---------- what recovery compensates ----------

  /** The recorder with every query answered. */
  function Answering(env: Env): Env {
    env.(queryOk := (i: nat) => true)
  }

  lemma {:induction false} FoundMeans(steps: seq<Step>, env: Env, log: set<string>, k: nat, i: nat)
    requires k <= |steps|
    ensures i in Found(steps, env, log, k) <==> i < k && env.queryOk(i) && steps[i].name in log
  {
    if k > 0 {
      FoundMeans(steps, env, log, k - 1, i);
    }
  }

  /** Recovery attempts the rollback of all completed steps exactly when the unanswered queries do not matter. */
  lemma RecoveryExactly(steps: seq<Step>, env: Env, log: set<string>)
    ensures var all, some := Found(steps, Answering(env), log, |steps|), Found(steps, env, log, |steps|);
      Walk(steps, some) == Walk(steps, all) <==> Faithful(steps, all, some)
  {
    var all, some := Found(steps, Answering(env), log, |steps|), Found(steps, env, log, |steps|);
    forall i | i in some
      ensures i in all
    {
      FoundMeans(steps, env, log, |steps|, i);
      FoundMeans(steps, Answering(env), log, |steps|, i);
    }
    FaithfulExactly(steps, all, some);
  }

  /** Whatever queries go unanswered, recovery attempts what it would with all of them answered. */
  ghost predicate QueriesDoNotMatter(steps: seq<Step>, log: set<string>) {
    forall env :: Walk(steps, Found(steps, env, log, |steps|)) == Walk(steps, Found(steps, Answering(env), log, |steps|))
  }

  lemma FoundWalk(steps: seq<Step>, env: Env, log: set<string>, i: nat)
    ensures i in Walk(steps, Found(steps, env, log, |steps|)) ==>
      i < |steps| && env.queryOk(i) && steps[i].name in log && steps[i].hasBackward && !steps[i].pivot
  {
    WalkMeans(steps, Found(steps, env, log, |steps|), i);
    FoundMeans(steps, env, log, |steps|, i);
  }

  /** Only the query for step i is answered. */
  function AnsweringOnly(i: nat): Env {
    CutAt(0).(queryOk := (j: nat) => j == i)
  }

  lemma AloneIsWalked(steps: seq<Step>, log: set<string>, i: nat)
    requires i < |steps| && steps[i].name in log && steps[i].hasBackward && !steps[i].pivot
    ensures i in Walk(steps, Found(steps, AnsweringOnly(i), log, |steps|))
  {
    var done := Found(steps, AnsweringOnly(i), log, |steps|);
    FoundMeans(steps, AnsweringOnly(i), log, |steps|, i);
    WalkMeans(steps, done, i);
    forall k | 0 <= k < |done|
      ensures done[k] == i
    {
      FoundMeans(steps, AnsweringOnly(i), log, |steps|, done[k]);
      assert done[k] in done;
    }
  }

  /** Unanswered queries never matter exactly when every completed step with a Backward is itself a pivot. */
  lemma QueriesMatterExactly(steps: seq<Step>, log: set<string>)
    ensures QueriesDoNotMatter(steps, log)
      <==> forall i :: 0 <= i < |steps| && steps[i].name in log && steps[i].hasBackward ==> steps[i].pivot
  {
    if i: nat :| i < |steps| && steps[i].name in log && steps[i].hasBackward && !steps[i].pivot {
      var only, none := AnsweringOnly(i), AnsweringOnly(|steps|);
      AloneIsWalked(steps, log, i);
      FoundWalk(steps, none, log, i);
      assert Answering(only) == Answering(none);
      assert Walk(steps, Found(steps, only, log, |steps|)) != Walk(steps, Found(steps, none, log, |steps|));
    } else {
      forall env
        ensures Walk(steps, Found(steps, env, log, |steps|)) == Walk(steps, Found(steps, Answering(env), log, |steps|))
      {
        NothingWalked(steps, env, log);
        NothingWalked(steps, Answering(env), log);
      }
    }
  }

  lemma NothingWalked(steps: seq<Step>, env: Env, log: set<string>)
    requires forall i :: 0 <= i < |steps| && steps[i].name in log && steps[i].hasBackward ==> steps[i].pivot
    ensures Walk(steps, Found(steps, env, log, |steps|)) == []
  {
    var walk := Walk(steps, Found(steps, env, log, |steps|));
    if walk != [] {
      FoundWalk(steps, env, log, walk[0]);
      assert false;
    }
  }

  /** When every query and compensation works, recovery removes exactly the undoable completed effects. */
  lemma RecoveryUndoes(steps: seq<Step>, env: Env, applied: set<string>, log: set<string>, i: nat)
    requires DistinctNames(steps) && CompensationWorks(env) && (forall j: nat :: env.queryOk(j)) && i < |steps|
    ensures var done := Found(steps, env, log, |steps|);
      && AllCompensate(env, Walk(steps, done))
      && (steps[i].name in applied - NameSet(steps, Succeeding(env, Walk(steps, done)))
          <==> steps[i].name in applied && !Undoable(steps, done, i))
      && (i in done <==> steps[i].name in log)
  {
    var done := Found(steps, env, log, |steps|);
    var walk := Walk(steps, done);
    FoundMeans(steps, env, log, |steps|, i);
    SucceedingMeans(env, walk, i);
    WalkDescends(steps, done);
    WalkMeans(steps, done, i);
    OwnName(steps, walk, i);
  }

  /** One unanswered query makes recovery report success while a completed, reversible effect stays in force. */
  lemma UnansweredQueryHidesStep()
    ensures var steps := [Step("debit", true, false)];
      var yes, no := (i: nat) => true, (i: nat) => false;
      var env := Env(no, no, yes, yes, yes, yes, yes);
      var walk := Walk(steps, Found(steps, env, {"debit"}, 1));
      AllCompensate(env, walk) && "debit" in {"debit"} - NameSet(steps, Succeeding(env, walk))
      && Walk(steps, Found(steps, Answering(env), {"debit"}, 1)) == [0]
  {
    var steps := [Step("debit", true, false)];
    var yes, no := (i: nat) => true, (i: nat) => false;
    var env := Env(no, no, yes, yes, yes, yes, yes);
    assert Found(steps, env, {"debit"}, 1) == [];
    assert Found(steps, Answering(env), {"debit"}, 1) == [0];
    assert [0][..0] == [];
  }

  // ---------- a crash, then recovery ----------

  lemma {:induction false} FreshLog(steps: seq<Step>, env: Env, log: set<string>, k: nat, i: nat)
    requires DistinctNames(steps) && k <= |steps| && i < |steps| && forall j :: 0 <= j < |steps| ==> steps[j].name !in log
    ensures steps[i].name in LogAt(steps, env, log, k) <==> i < k && env.markOk(i)
  {
    if k > 0 {
      FreshLog(steps, env, log, k - 1, i);
      NotYetLogged(steps, env, log, k - 1, k - 1);
    }
  }

  /** A first run of the saga is cut off when it reaches step k; recovery then works without a fault. */
  ghost predicate CrashedAt(steps: seq<Step>, env: Env, applied: set<string>, log: set<string>, k: nat, later: Env) {
    && DistinctNames(steps) && k <= Stop(steps, env, log, 0)
    && (forall i :: 0 <= i < |steps| ==> steps[i].name !in log && steps[i].name !in applied)
    && CompensationWorks(later) && forall j: nat :: later.queryOk(j)
  }

  /** What the crash and the recovery leave of the effects. */
  function AfterCrash(steps: seq<Step>, env: Env, applied: set<string>, log: set<string>, k: nat, later: Env): set<string>
    requires k <= |steps|
  {
    AfterRecovery(steps, later, applied + NameSet(steps, Executed(steps, env, log, k)), LogAt(steps, env, log, k))
  }

  /** The step was marked and can be undone, and no marked pivot shields it. */
  predicate Recovered(steps: seq<Step>, env: Env, k: nat, i: nat)
    requires i < k <= |steps|
  {
    env.markOk(i) && steps[i].hasBackward && forall j :: i <= j < k ==> !(steps[j].pivot && env.markOk(j))
  }

  /** Exactly the effects that are shielded, have no Backward, or were never marked survive a crash and its recovery. */
  lemma CrashRecovery(steps: seq<Step>, env: Env, applied: set<string>, log: set<string>, k: nat, later: Env, i: nat)
    requires CrashedAt(steps, env, applied, log, k, later) && i < |steps|
    ensures steps[i].name in AfterCrash(steps, env, applied, log, k, later) <==> i < k && !Recovered(steps, env, k, i)
  {
    var rows := LogAt(steps, env, log, k);
    var done := Found(steps, later, rows, |steps|);
    FreshExecutesAll(steps, env, log, k);
    OwnNames(steps, k, i);
    RecoveryUndoes(steps, later, applied + NameSet(steps, Range(k)), rows, i);
    FreshLog(steps, env, log, k, i);
    if i < k {
      RecoveredMeans(steps, env, log, k, later, i);
    }
  }

  lemma RecoveredMeans(steps: seq<Step>, env: Env, log: set<string>, k: nat, later: Env, i: nat)
    requires DistinctNames(steps) && i < k <= |steps| && forall j :: 0 <= j < |steps| ==> steps[j].name !in log
    requires forall j: nat :: later.queryOk(j)
    ensures Undoable(steps, Found(steps, later, LogAt(steps, env, log, k), |steps|), i) <==> Recovered(steps, env, k, i)
  {
    var done := Found(steps, later, LogAt(steps, env, log, k), |steps|);
    forall j: nat
      ensures j in done <==> j < k && env.markOk(j)
    {
      FoundMeans(steps, later, LogAt(steps, env, log, k), |steps|, j);
      if j < |steps| {
        FreshLog(steps, env, log, k, j);
      }
    }
    assert forall x :: 0 <= x < |done| ==> done[x] in done;
    if Undoable(steps, done, i) {
      forall j | i <= j < k
        ensures !(steps[j].pivot && env.markOk(j))
      {
        if env.markOk(j) {
          assert j in done;
        }
      }
    }
  }

  /** A crash and its recovery leave the world as it was exactly when every step that ran was marked and is reversible. */
  lemma CrashRestoresExactly(steps: seq<Step>, env: Env, applied: set<string>, log: set<string>, k: nat, later: Env)
    requires CrashedAt(steps, env, applied, log, k, later)
    ensures AfterCrash(steps, env, applied, log, k, later) == applied
      <==> forall i :: 0 <= i < k ==> env.markOk(i) && steps[i].hasBackward && !steps[i].pivot
  {
    var after := AfterCrash(steps, env, applied, log, k, later);
    forall i | 0 <= i < |steps|
      ensures steps[i].name in after <==> i < k && !Recovered(steps, env, k, i)
    {
      CrashRecovery(steps, env, applied, log, k, later, i);
    }
    forall x | forall i :: 0 <= i < |steps| ==> steps[i].name != x
      ensures x in after <==> x in applied
    {
      StrangerStays(steps, env, applied, log, k, later, x);
    }
    if i :| 0 <= i < k && !(env.markOk(i) && steps[i].hasBackward && !steps[i].pivot) {
      assert !Recovered(steps, env, k, i);
      assert steps[i].name in after && steps[i].name !in applied;
    } else {
      assert forall i :: 0 <= i < k ==> Recovered(steps, env, k, i);
      assert forall x :: x in after <==> x in applied;
    }
  }

  lemma StrangerStays(steps: seq<Step>, env: Env, applied: set<string>, log: set<string>, k: nat, later: Env, x: string)
    requires CrashedAt(steps, env, applied, log, k, later) && forall i :: 0 <= i < |steps| ==> steps[i].name != x
    ensures x in AfterCrash(steps, env, applied, log, k, later) <==> x in applied
  {
    FreshExecutesAll(steps, env, log, k);
    StrangeName(steps, k, x);
    var done := Found(steps, later, LogAt(steps, env, log, k), |steps|);
    WalkDescends(steps, done);
    SucceedingMeans(later, Walk(steps, done), 0);
    NameSetMeans(steps, Walk(steps, done), x);
  }

  /** A step whose completion could not be recorded survives a recovery that reports success. */
  lemma UnmarkedStepSurvives()
    ensures var steps := [Step("debit", true, false)];
      var yes, no := (i: nat) => true, (i: nat) => false;
      var env := Env(no, yes, yes, yes, no, yes, yes);
      var later := Env(no, yes, yes, yes, yes, yes, yes);
      CrashedAt(steps, env, {}, {}, 1, later) && "debit" in AfterCrash(steps, env, {}, {}, 1, later)
  {
    var steps := [Step("debit", true, false)];
    var yes, no := (i: nat) => true, (i: nat) => false;
    var env := Env(no, yes, yes, yes, no, yes, yes);
    var later := Env(no, yes, yes, yes, yes, yes, yes);
    StopMeans(steps, env, {}, 0);
    assert !Fails(steps, env, {}, 0);
    assert steps[0].name == "debit" && !Recovered(steps, env, 1, 0);
    CrashRecovery(steps, env, {}, {}, 1, later, 0);
  }
}
