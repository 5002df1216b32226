/**
 What the cron protocol guarantees over every interleaving.
 */
module CronTheorems {
  import opened Wrappers
  import opened CronProtocol
  import opened CronInvariants

  // ---------- mutual exclusion and conservation ----------

  /** At most one goroutine is between winning the guard and releasing it; isRunning says whether there is one. */
  lemma MutualExclusion(w: World)
    requires Reachable(w)
    ensures forall t, u :: OwnedBy(w, t) && OwnedBy(w, u) ==> t == u
    ensures w.sh.running <==> exists t :: OwnedBy(w, t)
  {
    ReachableInv(w);
  }

  lemma {:induction false} ErrorsBounded(fs: seq<Finish>)
    ensures Errors(fs) <= |fs|
  {
    if fs != [] {
      ErrorsBounded(fs[..|fs| - 1]);
    }
  }

  /** Guard wins, counted runs and counted errors balance in every state. */
  lemma Conservation(w: World)
    requires Reachable(w)
    ensures |w.hist.wins| == w.sh.runCount + One(exists t :: OwnedBy(w, t) && Uncounted(w.threads[t]))
    ensures w.sh.runCount == |w.hist.finishes|
    ensures w.sh.errorCount == Errors(w.hist.finishes)
      + One(exists t :: OwnedBy(w, t) && w.threads[t].EndRunCount? && w.threads[t].err.Some?)
    ensures w.sh.writer == None ==> w.sh.errorCount <= w.sh.runCount
    ensures |w.hist.finishes| <= |w.hist.starts| <= |w.hist.wins|
    ensures forall i :: 0 <= i < |w.hist.finishes| ==>
      w.hist.starts[i].tid == w.hist.finishes[i].tid == w.hist.wins[i]
  {
    ReachableInv(w);
    ErrorsBounded(w.hist.finishes);
    if w.sh.running {
      var u :| OwnedBy(w, u);
      assert Book(w, w.threads[u]);
      assert w.threads[u].EndRunCount? ==> w.sh.writer == Some(u);
    } else {
      assert Book(w, Idle);
    }
  }

  // ---------- snapshots ----------

  /** Every snapshot describes the state after exactly `RunCount` runs. */
  lemma SnapshotIsPrefix(w: World, i: nat)
    requires Reachable(w) && i < |w.hist.snaps|
    ensures var info, h := w.hist.snaps[i], w.hist;
      var n := info.runCount;
      && 0 <= n <= |h.finishes| <= |h.starts|
      && info.errorCount == Errors(h.finishes[..n])
      && (n > 0 ==>
            var last := h.finishes[n - 1];
            info.finishedAt == Some(last.at) && info.error == (match last.err case None => "" case Some(text) => text))
      && (n == 0 ==> info.finishedAt == None && info.error == "")
      && ((n == 0 && info.startedAt == None)
          || (n > 0 && info.startedAt == Some(h.starts[n - 1].at))
          || (n < |h.starts| && info.startedAt == Some(h.starts[n].at)))
    ensures var info := w.hist.snaps[i];
      w.interval > 0 && info.runCount > 0 ==> info.finishedAt.Some? && info.next == info.finishedAt.value + w.interval
  {
    ReachableInv(w);
    assert Describes(w.hist.snaps[i], w.hist, w.born, w.interval);
  }

  // ---------- time ----------

  lemma {:induction false} FinishesAscend(h: History, born: Time, clock: Time, i: nat, j: nat)
    requires Chronological(h, born, clock) && i <= j < |h.finishes|
    ensures h.finishes[i].at <= h.finishes[j].at
    decreases j - i
  {
    if i < j {
      assert RunTimes(h, born, clock, j);
      FinishesAscend(h, born, clock, i, j - 1);
    }
  }

  /** Runs never overlap in recorded time, and no finish goes backwards. */
  lemma RunsInOrder(w: World)
    requires Reachable(w)
    ensures |w.hist.finishes| <= |w.hist.starts| <= |w.hist.finishes| + 1
    ensures forall i :: 0 <= i < |w.hist.finishes| ==> w.hist.starts[i].at <= w.hist.finishes[i].at
    ensures forall i, j :: 0 <= i < j < |w.hist.starts| ==> w.hist.finishes[i].at <= w.hist.starts[j].at
    ensures forall i, j :: 0 <= i <= j < |w.hist.finishes| ==> w.hist.finishes[i].at <= w.hist.finishes[j].at
  {
    ReachableInv(w);
    var h := w.hist;
    forall i | 0 <= i < |h.finishes|
      ensures h.starts[i].at <= h.finishes[i].at
    {
      assert RunTimes(h, w.born, w.clock, i);
    }
    forall i, j | 0 <= i <= j < |h.finishes|
      ensures h.finishes[i].at <= h.finishes[j].at
    {
      FinishesAscend(h, w.born, w.clock, i, j);
    }
    forall i, j | 0 <= i < j < |h.starts|
      ensures h.finishes[i].at <= h.starts[j].at
    {
      FinishesAscend(h, w.born, w.clock, i, j - 1);
      assert RunTimes(h, w.born, w.clock, j);
    }
  }

  lemma NextStep(w: World, s: Step)
    requires Inv(w) && Enabled(w, s)
    ensures w.sh.next <= Apply(w, s).sh.next
    ensures w.interval <= 0 ==> w.sh.next == Apply(w, s).sh.next
  {
    if s.Advance? && PcOf(w, s.t).EndNext? {
      var fs := w.hist.finishes;
      assert OwnedBy(w, s.t);
      assert Book(w, w.threads[s.t]);
      assert RunTimes(w.hist, w.born, w.clock, |fs| - 1);
    } else {
      NextKept(w, s);
    }
  }

  lemma NextKept(w: World, s: Step)
    requires Enabled(w, s) && !(s.Advance? && PcOf(w, s.t).EndNext?)
    ensures w.sh.next == Apply(w, s).sh.next
  {
  }

  /** nextScheduledAt never moves back along any run, and without an interval it never moves at all. */
  lemma {:induction false} NextNeverMovesBack(w: World, steps: seq<Step>)
    requires Inv(w) && ValidRun(w, steps)
    ensures w.sh.next <= Run(w, steps).sh.next
    ensures w.interval <= 0 ==> w.sh.next == Run(w, steps).sh.next
    decreases |steps|
  {
    if steps != [] {
      NextStep(w, steps[0]);
      InvStep(w, steps[0]);
      ClockMoves(w, steps[0]);
      NextNeverMovesBack(Apply(w, steps[0]), steps[1..]);
    }
  }

  /** Snapshots in completion order never go back in runs, errors or next schedule. */
  lemma SnapshotsAscend(w: World, i: nat, j: nat)
    requires Reachable(w) && i < j < |w.hist.snaps|
    ensures var a, b := w.hist.snaps[i], w.hist.snaps[j];
      a.runCount <= b.runCount && a.errorCount <= b.errorCount && a.next <= b.next
  {
    ReachableInv(w);
    var a, b, fs := w.hist.snaps[i], w.hist.snaps[j], w.hist.finishes;
    assert Describes(a, w.hist, w.born, w.interval) && Describes(b, w.hist, w.born, w.interval);
    ErrorsAscend(fs, a.runCount, b.runCount);
    if 0 < a.runCount {
      FinishesAscend(w.hist, w.born, w.clock, a.runCount - 1, b.runCount - 1);
    } else if 0 < b.runCount {
      assert RunTimes(w.hist, w.born, w.clock, 0);
      FinishesAscend(w.hist, w.born, w.clock, 0, b.runCount - 1);
    }
  }

  lemma {:induction false} ErrorsAscend(fs: seq<Finish>, m: nat, n: nat)
    requires m <= n <= |fs|
    ensures Errors(fs[..m]) <= Errors(fs[..n])
    decreases n - m
  {
    if m < n {
      ErrorsAscend(fs, m, n - 1);
      assert fs[..n][..n - 1] == fs[..n - 1];
    }
  }
}
