/**
 Crash recovery of sagas (stock-service/internal/service/otc_exercise_recovery.go): every attempt
 resumes forward, or, once a compensation row exists, finishes the rollback. Any number of attempts
 may crash anywhere, in the forward phase, in a rollback or in a recovery.
 */
module SagaRecovery {
  import opened Saga

  /** Effects in force, forward rows marked completed, and whether any compensation row exists. */
  datatype State = State(applied: set<string>, completed: set<string>, aborting: bool)

  /**
   One attempt: it crashes when it reaches forward step `forward`, or after `back` compensations. A
   crash between an effect and its row is a row that could not be written.
   */
  datatype Attempt = Attempt(env: Env, forward: nat, back: nat)

  function Min(a: nat, b: nat): nat { if a < b then a else b }

  predicate Records(env: Env, walk: seq<nat>) {
    exists k :: 0 <= k < |walk| && env.compRecordOk(walk[k])
  }

  /** Some compensations are attempted; the first recorded one makes the saga an aborting one. */
  function Undo(steps: seq<Step>, env: Env, st: State, walk: seq<nat>): State {
    State(st.applied - NameSet(steps, Succeeding(env, walk)), st.completed, st.aborting || Records(env, walk))
  }

  /** The forward phase up to step k. */
  function Forwarded(steps: seq<Step>, env: Env, st: State, k: nat): State
    requires k <= |steps|
  {
    st.(applied := st.applied + NameSet(steps, Executed(steps, env, st.completed, k)),
        completed := LogAt(steps, env, st.completed, k))
  }

  function Attempted(steps: seq<Step>, st: State, a: Attempt): State {
    if st.aborting then
      var walk := Walk(steps, Found(steps, a.env, st.completed, |steps|));
      Undo(steps, a.env, st, walk[..Min(a.back, |walk|)])
    else
      var k := Stop(steps, a.env, st.completed, 0);
      if a.forward < k || k == |steps| then Forwarded(steps, a.env, st, Min(a.forward, k))
      else
        var walk := Walk(steps, Executed(steps, a.env, st.completed, k));
        Undo(steps, a.env, Forwarded(steps, a.env, st, k), walk[..Min(a.back, |walk|)])
  }

  /** The state after all the attempts. */
  function After(steps: seq<Step>, st: State, attempts: seq<Attempt>): State
    decreases |attempts|
  {
    if attempts == [] then st else After(steps, Attempted(steps, st, attempts[0]), attempts[1..])
  }

  // ---------- the attempt as it runs ----------

  lemma {:induction false} WalkLength(steps: seq<Step>, done: seq<nat>)
    ensures |Walk(steps, done)| <= |done|
  {
    if done != [] {
      WalkLength(steps, done[..|done| - 1]);
    }
  }

  lemma {:induction false} ExecutedLength(steps: seq<Step>, env: Env, log: set<string>, k: nat)
    requires k <= |steps|
    ensures |Executed(steps, env, log, k)| <= k
  {
    if k > 0 {
      ExecutedLength(steps, env, log, k - 1);
    }
  }

  lemma {:induction false} FoundLength(steps: seq<Step>, env: Env, log: set<string>, k: nat)
    requires k <= |steps|
    ensures |Found(steps, env, log, k)| <= k
  {
    if k > 0 {
      FoundLength(steps, env, log, k - 1);
    }
  }

  /** An attempt that does not crash. */
  function Whole(steps: seq<Step>, env: Env): Attempt { Attempt(env, |steps|, |steps|) }

  lemma WholeBack(steps: seq<Step>, env: Env, applied: set<string>, log: set<string>)
    ensures var st := Attempted(steps, State(applied, log, true), Whole(steps, env));
      st == State(AfterRecovery(steps, env, applied, log), log, true)
  {
    var done := Found(steps, env, log, |steps|);
    FoundLength(steps, env, log, |steps|);
    WalkLength(steps, done);
    assert Walk(steps, done)[..|Walk(steps, done)|] == Walk(steps, done);
  }

  lemma WholeWalk(steps: seq<Step>, env: Env, log: set<string>, k: nat)
    requires k <= |steps|
    ensures var walk := Walk(steps, Executed(steps, env, log, k)); walk[..Min(|steps|, |walk|)] == walk
  {
    ExecutedLength(steps, env, log, k);
    WalkLength(steps, Executed(steps, env, log, k));
  }

  lemma WholeForward(steps: seq<Step>, env: Env, applied: set<string>, log: set<string>)
    ensures var st, f := Attempted(steps, State(applied, log, false), Whole(steps, env)), Executes(steps, env, applied, log);
      st.applied == f.applied && st.completed == f.completed
  {
    WholeWalk(steps, env, log, Stop(steps, env, log, 0));
  }

  /** RecoverExerciseSaga: the compensation rows decide the direction. */
  method Recover(w: World, steps: seq<Step>, env: Env, rollingBack: bool)
    modifies w
    ensures var st := Attempted(steps, State(old(w.applied), old(w.completed), rollingBack), Whole(steps, env));
      w.applied == st.applied && w.completed == st.completed
  {
    if rollingBack {
      WholeBack(steps, env, w.applied, w.completed);
      var _ := Compensate(w, steps, env);
    } else {
      WholeForward(steps, env, w.applied, w.completed);
      var _ := Execute(w, steps, env);
    }
  }

  // ---------- what every attempt keeps ----------

  /** Until a rollback has begun, a completed row means that its effect is in force. */
  predicate Truthful(steps: seq<Step>, st: State) {
    !st.aborting ==> RowsReflectEffects(steps, st.applied, st.completed)
  }

  lemma {:induction false} UnrecordedUndoesNothing(env: Env, walk: seq<nat>)
    requires !Records(env, walk)
    ensures Succeeding(env, walk) == []
  {
    if walk != [] {
      assert forall k :: 0 <= k < |walk| - 1 ==> walk[1..][k] == walk[k + 1];
      UnrecordedUndoesNothing(env, walk[1..]);
    }
  }

  lemma AttemptIsTruthful(steps: seq<Step>, st: State, a: Attempt)
    requires Truthful(steps, st)
    ensures Truthful(steps, Attempted(steps, st, a))
  {
    if !st.aborting {
      var k := Stop(steps, a.env, st.completed, 0);
      if a.forward < k || k == |steps| {
        RowsStayTrue(steps, a.env, st.applied, st.completed, Min(a.forward, k));
      } else {
        RowsStayTrue(steps, a.env, st.applied, st.completed, k);
        var walk := Walk(steps, Executed(steps, a.env, st.completed, k));
        var part := walk[..Min(a.back, |walk|)];
        if !Records(a.env, part) {
          UnrecordedUndoesNothing(a.env, part);
        }
      }
    }
  }

  lemma {:induction false} AlwaysTruthful(steps: seq<Step>, st: State, attempts: seq<Attempt>)
    requires Truthful(steps, st)
    ensures Truthful(steps, After(steps, st, attempts))
    decreases |attempts|
  {
    if attempts != [] {
      AttemptIsTruthful(steps, st, attempts[0]);
      AlwaysTruthful(steps, Attempted(steps, st, attempts[0]), attempts[1..]);
    }
  }

  /** A rollback begins only with the recorded compensation of a step that was run and can be undone. */
  lemma AbortingMeans(steps: seq<Step>, st: State, a: Attempt)
    requires !st.aborting && Attempted(steps, st, a).aborting
    ensures var ran := Executed(steps, a.env, st.completed, Stop(steps, a.env, st.completed, 0));
      exists i :: Undoable(steps, ran, i) && a.env.compRecordOk(i)
  {
    var ran := Executed(steps, a.env, st.completed, Stop(steps, a.env, st.completed, 0));
    var walk := Walk(steps, ran);
    var part := walk[..Min(a.back, |walk|)];
    var k :| 0 <= k < |part| && a.env.compRecordOk(part[k]);
    assert part[k] in walk;
    WalkMeans(steps, ran, part[k]);
  }

  /** Still aborting, with the same rows and no further effect. */
  predicate OnlyUndone(st: State, now: State) {
    now.aborting && now.applied <= st.applied && now.completed == st.completed
  }

  lemma AbortingAttempt(steps: seq<Step>, st: State, a: Attempt)
    requires st.aborting
    ensures OnlyUndone(st, Attempted(steps, st, a))
  {
  }

  lemma OnlyUndoneTwice(a: State, b: State, c: State)
    requires OnlyUndone(a, b) && OnlyUndone(b, c)
    ensures OnlyUndone(a, c)
  {
  }

  /** Once a rollback has begun, no step is run forward again. */
  lemma {:induction false} AbortingIsFinal(steps: seq<Step>, st: State, attempts: seq<Attempt>)
    requires st.aborting
    ensures OnlyUndone(st, After(steps, st, attempts))
    decreases |attempts|
  {
    if attempts != [] {
      var next := Attempted(steps, st, attempts[0]);
      AbortingAttempt(steps, st, attempts[0]);
      AbortingIsFinal(steps, next, attempts[1..]);
      OnlyUndoneTwice(st, next, After(steps, next, attempts[1..]));
    }
  }

  // ---------- one attempt without a fault, after any number with ----------

  /** A saga's first state: none of its steps has run. */
  predicate Fresh(steps: seq<Step>, st: State) {
    && !st.aborting
    && forall i :: 0 <= i < |steps| ==> steps[i].name !in st.applied && steps[i].name !in st.completed
  }

  ghost predicate Sound(env: Env) { Faultless(env) && CompensationWorks(env) }

  /** Resuming forward: whatever happened before, every step ends in force. */
  lemma ForwardFinishes(steps: seq<Step>, st: State, env: Env)
    requires Truthful(steps, st) && !st.aborting && Sound(env)
    ensures var now := Attempted(steps, st, Whole(steps, env));
      AllInForce(steps, now.applied) && !now.aborting
  {
    ResumeExactly(steps, env, st.applied, st.completed);
  }

  /** Finishing the rollback: exactly the effects that are shielded, have no Backward or were never marked stay. */
  lemma RollbackFinishes(steps: seq<Step>, st: State, env: Env, i: nat)
    requires DistinctNames(steps) && st.aborting && Sound(env) && i < |steps|
    ensures steps[i].name in Attempted(steps, st, Whole(steps, env)).applied
      <==> steps[i].name in st.applied && !Undoable(steps, Found(steps, env, st.completed, |steps|), i)
  {
    WholeBack(steps, env, st.applied, st.completed);
    RecoveryUndoes(steps, env, st.applied, st.completed, i);
  }

  /**
   After any number of attempts that fail or crash anywhere, one attempt without a fault either
   commits with every step in force or finishes the rollback.
   */
  lemma CrashesNeverMislead(steps: seq<Step>, st: State, attempts: seq<Attempt>, env: Env)
    requires DistinctNames(steps) && Fresh(steps, st) && Sound(env)
    ensures var before := After(steps, st, attempts);
      var now := Attempted(steps, before, Whole(steps, env));
      && now.aborting == before.aborting
      && (!before.aborting ==> AllInForce(steps, now.applied))
      && (before.aborting ==> forall i :: 0 <= i < |steps| ==>
            (steps[i].name in now.applied
             <==> steps[i].name in before.applied && !Undoable(steps, Found(steps, env, before.completed, |steps|), i)))
  {
    AlwaysTruthful(steps, st, attempts);
    var before := After(steps, st, attempts);
    if before.aborting {
      forall i | 0 <= i < |steps|
        ensures steps[i].name in Attempted(steps, before, Whole(steps, env)).applied
          <==> steps[i].name in before.applied && !Undoable(steps, Found(steps, env, before.completed, |steps|), i)
      {
        RollbackFinishes(steps, before, env, i);
      }
    } else {
      ForwardFinishes(steps, before, env);
    }
  }

  // ---------- all or nothing ----------

  predicate Reversible(steps: seq<Step>) {
    forall i :: 0 <= i < |steps| ==> steps[i].hasBackward && !steps[i].pivot
  }

  predicate NoneInForce(steps: seq<Step>, applied: set<string>) {
    forall i :: 0 <= i < |steps| ==> steps[i].name !in applied
  }

  /** Every effect in force has its row. */
  predicate Marked(steps: seq<Step>, st: State) {
    forall i :: 0 <= i < |steps| && steps[i].name in st.applied ==> steps[i].name in st.completed
  }

  lemma LoggedIsUndoable(steps: seq<Step>, env: Env, log: set<string>, i: nat)
    requires Reversible(steps) && AnswersQueries(env) && i < |steps|
    ensures Undoable(steps, Found(steps, env, log, |steps|), i) <==> steps[i].name in log
  {
    var done := Found(steps, env, log, |steps|);
    FoundMeans(steps, env, log, |steps|, i);
    assert forall k :: 0 <= k < |done| ==> !IsPivot(steps, done[k]);
  }

  /**
   A reversible saga ends, after any number of crashes and one attempt without a fault, with every
   step in force, or else with none exactly when every effect that was in force had been marked.
   */
  lemma AllOrNothingExactly(steps: seq<Step>, st: State, attempts: seq<Attempt>, env: Env)
    requires DistinctNames(steps) && Reversible(steps) && Fresh(steps, st) && Sound(env)
    ensures var before := After(steps, st, attempts);
      var now := Attempted(steps, before, Whole(steps, env));
      && (!before.aborting ==> AllInForce(steps, now.applied))
      && (before.aborting ==> (NoneInForce(steps, now.applied) <==> Marked(steps, before)))
  {
    CrashesNeverMislead(steps, st, attempts, env);
    var before := After(steps, st, attempts);
    forall i | 0 <= i < |steps|
      ensures Undoable(steps, Found(steps, env, before.completed, |steps|), i) <==> steps[i].name in before.completed
    {
      LoggedIsUndoable(steps, env, before.completed, i);
    }
  }

  ghost predicate MarksAll(env: Env) { forall i: nat :: env.markOk(i) }

  lemma {:induction false} RunIsMarked(steps: seq<Step>, env: Env, log: set<string>, k: nat, j: nat)
    requires k <= |steps| && MarksAll(env) && j in Executed(steps, env, log, k)
    ensures steps[j].name in LogAt(steps, env, log, k)
  {
    if j in Executed(steps, env, log, k - 1) {
      RunIsMarked(steps, env, log, k - 1, j);
    }
  }

  lemma ForwardedIsMarked(steps: seq<Step>, env: Env, st: State, k: nat)
    requires Marked(steps, st) && MarksAll(env) && k <= |steps|
    ensures Marked(steps, Forwarded(steps, env, st, k))
  {
    var done := Executed(steps, env, st.completed, k);
    LogGrows(steps, env, st.completed, k);
    forall i | 0 <= i < |steps| && steps[i].name in NameSet(steps, done)
      ensures steps[i].name in LogAt(steps, env, st.completed, k)
    {
      NameSetMeans(steps, done, steps[i].name);
      var j :| j in done && NameOf(steps, j) == steps[i].name;
      RunIsMarked(steps, env, st.completed, k, j);
    }
  }

  lemma AttemptIsMarked(steps: seq<Step>, st: State, a: Attempt)
    requires Marked(steps, st) && MarksAll(a.env)
    ensures Marked(steps, Attempted(steps, st, a))
  {
    if !st.aborting {
      var k := Stop(steps, a.env, st.completed, 0);
      var j := if a.forward < k || k == |steps| then Min(a.forward, k) else k;
      ForwardedIsMarked(steps, a.env, st, j);
    }
  }

  lemma {:induction false} AlwaysMarked(steps: seq<Step>, st: State, attempts: seq<Attempt>)
    requires Marked(steps, st) && forall k :: 0 <= k < |attempts| ==> MarksAll(attempts[k].env)
    ensures Marked(steps, After(steps, st, attempts))
    decreases |attempts|
  {
    if attempts != [] {
      AttemptIsMarked(steps, st, attempts[0]);
      AlwaysMarked(steps, Attempted(steps, st, attempts[0]), attempts[1..]);
    }
  }

  /** So a reversible saga is atomic across any number of crashes, as long as completions get recorded. */
  lemma AllOrNothing(steps: seq<Step>, st: State, attempts: seq<Attempt>, env: Env)
    requires DistinctNames(steps) && Reversible(steps) && Fresh(steps, st) && Sound(env)
    requires forall k :: 0 <= k < |attempts| ==> MarksAll(attempts[k].env)
    ensures var now := Attempted(steps, After(steps, st, attempts), Whole(steps, env)).applied;
      AllInForce(steps, now) || NoneInForce(steps, now)
  {
    AlwaysMarked(steps, st, attempts);
    AllOrNothingExactly(steps, st, attempts, env);
  }
}
