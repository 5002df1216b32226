/**
 How long the idempotency of settlements and holds lasts
 (account-service/internal/service/reservation_service.go): over any history of calls, including
 those that unbalance the books.
 */
module Replays {
  import opened Wrappers
  import opened Reservations

  // ---------- what every call keeps ----------

  predicate RowSound(db: Db, i: nat)
    requires i < |db.rows|
  {
    db.rows[i].account in db.accounts && db.rows[i].amount > 0.0
  }

  /** The tables are well formed, whether or not the books balance. */
  predicate Sound(db: Db) {
    SettlementsOk(db) && KeysOk(db.rows) && forall i :: 0 <= i < |db.rows| ==> RowSound(db, i)
  }

  predicate OnHold(c: Call) { c.ReserveFunds? || c.Release? || c.Settle? }

  /** Only the three reservation calls touch the reservations; no call adds or drops an account. */
  lemma Untouched(db: Db, c: Call, commits: bool)
    ensures Step(db, c, commits).accounts.Keys == db.accounts.Keys
    ensures !OnHold(c) ==> Step(db, c, commits).rows == db.rows && Step(db, c, commits).settlements == db.settlements
  {
  }

  /** Rows keep everything but their status. */
  lemma RowsStay(db: Db, c: Call, commits: bool)
    ensures var rows' := Step(db, c, commits).rows;
      && |db.rows| <= |rows'| <= |db.rows| + 1
      && (forall i :: 0 <= i < |db.rows| ==> rows'[i] == db.rows[i].(status := rows'[i].status))
      && (|rows'| > |db.rows| ==>
            c.ReserveFunds? && Find(db.rows, c.order, KindOf(c.kind)) < 0
            && rows'[|db.rows|] == Row(c.account, c.order, KindOf(c.kind), c.amount, Active)
            && c.account in db.accounts && c.amount > 0.0)
  {
  }

  lemma SettlementsStay(db: Db, c: Call, commits: bool)
    requires SettlementsOk(db)
    ensures SettlementsOk(Step(db, c, commits))
  {
    var db' := Step(db, c, commits);
    RowsStay(db, c, commits);
    if !OnHold(c) {
      Untouched(db, c, commits);
    } else if commits && Reactivates(db, c) {
      var _ := WithoutKeeps(db.settlements, Find(db.rows, c.order, KindOf(c.kind)));
    } else if c.Settle? && db' != db {
      assert db'.settlements == db.settlements + [Settlement(c.txn, Find(db.rows, c.order, KindOf(c.kind)), c.amount)];
    } else {
      assert db'.settlements == db.settlements;
    }
  }

  lemma SoundStep(db: Db, c: Call, commits: bool)
    requires Sound(db)
    ensures Sound(Step(db, c, commits))
  {
    var db' := Step(db, c, commits);
    SettlementsStay(db, c, commits);
    RowsStay(db, c, commits);
    Untouched(db, c, commits);
    forall i | 0 <= i < |db'.rows|
      ensures RowSound(db', i)
    {
      if i < |db.rows| { assert RowSound(db, i); }
    }
  }

  /** A row is found at the same position for ever. */
  lemma FindStays(db: Db, c: Call, commits: bool, order: nat, kind: string)
    requires Find(db.rows, order, kind) >= 0
    ensures Find(Step(db, c, commits).rows, order, kind) == Find(db.rows, order, kind)
  {
    var rows' := Step(db, c, commits).rows;
    RowsStay(db, c, commits);
    FindKept(db.rows, rows'[..|db.rows|], order, kind);
    if |rows'| == |db.rows| {
      assert rows'[..|db.rows|] == rows';
    }
  }

  // ---------- a settled transaction ----------

  /** The transaction id is recorded against the reservation. */
  predicate SettledIn(db: Db, txn: nat, i: nat) {
    i < |db.rows| && exists k :: 0 <= k < |db.settlements| && db.settlements[k].txn == txn && db.settlements[k].res == i
  }

  /** A committed settlement leaves its transaction id recorded. */
  lemma SettlementRecorded(db: Db, c: Call) returns (i: nat)
    requires Sound(db) && c.Settle? && Transact(db, c).Ok?
    ensures SettledIn(Transact(db, c).value, c.txn, i)
    ensures !HasTxn(db.settlements, c.txn) ==> i == Find(db.rows, c.order, KindOf(c.kind))
  {
    var db' := Transact(db, c).value;
    if HasTxn(db.settlements, c.txn) {
      var k :| 0 <= k < |db.settlements| && db.settlements[k].txn == c.txn;
      i := db.settlements[k].res;
    } else {
      i := Find(db.rows, c.order, KindOf(c.kind));
      assert db'.settlements[|db.settlements|] == Settlement(c.txn, i, c.amount);
    }
  }

  function SettleAgain(db: Db, order: nat, kind: string, txn: nat, amount: real): Db {
    Step(db, Settle(order, kind, txn, amount), true)
  }

  /** No settlement of the transaction, on whatever order and amount, changes anything. */
  ghost predicate Inert(db: Db, txn: nat) {
    forall order, kind, amount :: SettleAgain(db, order, kind, txn, amount) == db
  }

  /** The call re-activates the reservation. */
  predicate Reopens(db: Db, c: Call, commits: bool, i: nat) {
    commits && Reactivates(db, c) && Find(db.rows, c.order, KindOf(c.kind)) == i
  }

  lemma {:induction false} WithoutHas(ss: seq<Settlement>, res: nat, k: nat)
    requires k < |ss| && ss[k].res != res
    ensures ss[k] in Without(ss, res)
  {
    if k < |ss| - 1 {
      WithoutHas(ss[..|ss| - 1], res, k);
    }
  }

  lemma {:induction false} WithoutLacks(ss: seq<Settlement>, res: nat)
    ensures forall s :: s in Without(ss, res) ==> s in ss && s.res != res
  {
    if ss != [] {
      WithoutLacks(ss[..|ss| - 1], res);
    }
  }

  lemma StaysSettledIn(db: Db, c: Call, commits: bool, txn: nat, i: nat)
    requires SettledIn(db, txn, i) && !Reopens(db, c, commits, i)
    ensures SettledIn(Step(db, c, commits), txn, i)
  {
    var db' := Step(db, c, commits);
    RowsStay(db, c, commits);
    var k :| 0 <= k < |db.settlements| && db.settlements[k].txn == txn && db.settlements[k].res == i;
    if commits && Reactivates(db, c) {
      WithoutHas(db.settlements, Find(db.rows, c.order, KindOf(c.kind)), k);
      var l :| 0 <= l < |db'.settlements| && db'.settlements[l] == db.settlements[k];
    } else {
      assert db'.settlements[k] == db.settlements[k];
    }
  }

  /** After a re-activation the same transaction can take the whole amount once more. */
  lemma SettlesAgain(db: Db, c: Call, txn: nat, i: nat)
    requires Sound(db) && SettledIn(db, txn, i) && Reopens(db, c, true, i)
    ensures var db', row := Step(db, c, true), db.rows[i];
      var after := SettleAgain(db', c.order, c.kind, txn, row.amount);
      && row.account in db'.accounts && row.account in after.accounts && row.amount > 0.0
      && after.accounts[row.account].balance == db'.accounts[row.account].balance - row.amount
  {
    var db' := Step(db, c, true);
    FindStays(db, c, true, c.order, KindOf(c.kind));
    Untouched(db, c, true);
    assert RowSound(db, i);
    Forgotten(db, txn, i);
    WithoutMeans(db.settlements, i, i);
    assert db'.settlements == Without(db.settlements, i) && db'.rows[i] == db.rows[i].(status := Active);
    FreshSettle(db', c.order, c.kind, txn);
  }

  lemma Forgotten(db: Db, txn: nat, i: nat)
    requires SettlementsOk(db) && SettledIn(db, txn, i)
    ensures !HasTxn(Without(db.settlements, i), txn)
  {
    var ss := Without(db.settlements, i);
    WithoutLacks(db.settlements, i);
    assert forall l :: 0 <= l < |ss| ==> ss[l] in ss;
  }

  /** An active reservation with nothing settled can be settled in full. */
  lemma FreshSettle(db: Db, order: nat, kind: string, txn: nat)
    requires var i := Find(db.rows, order, KindOf(kind));
      && i >= 0 && IsActive(db, i) && RowSound(db, i)
      && SettledSum(db.settlements, i) == 0.0 && !HasTxn(db.settlements, txn)
    ensures var row := db.rows[Find(db.rows, order, KindOf(kind))];
      var after := SettleAgain(db, order, kind, txn, row.amount);
      row.account in after.accounts && after.accounts[row.account].balance == db.accounts[row.account].balance - row.amount
  {
  }

  lemma RecordedIsInert(db: Db, txn: nat, i: nat)
    requires SettledIn(db, txn, i)
    ensures Inert(db, txn)
  {
    assert HasTxn(db.settlements, txn);
  }

  /** After none of the first n calls does a settlement of the transaction change anything. */
  ghost predicate AlwaysInert(db: Db, calls: seq<(Call, bool)>, n: nat, txn: nat)
    requires n <= |calls|
  {
    (n == 0 || AlwaysInert(db, calls, n - 1, txn)) && Inert(Run(db, calls, n), txn)
  }

  /** None of the first n calls re-activates the reservation. */
  predicate NeverReopened(db: Db, calls: seq<(Call, bool)>, n: nat, i: nat)
    requires n <= |calls|
  {
    n == 0 || (NeverReopened(db, calls, n - 1, i) && !Reopens(Run(db, calls, n - 1), calls[n - 1].0, calls[n - 1].1, i))
  }

  lemma {:induction false} SoundRun(db: Db, calls: seq<(Call, bool)>, n: nat)
    requires Sound(db) && n <= |calls|
    ensures Sound(Run(db, calls, n))
  {
    if n > 0 {
      SoundRun(db, calls, n - 1);
      SoundStep(Run(db, calls, n - 1), calls[n - 1].0, calls[n - 1].1);
    }
  }

  lemma {:induction false} SettledRun(db: Db, calls: seq<(Call, bool)>, n: nat, txn: nat, i: nat)
    requires SettledIn(db, txn, i) && n <= |calls| && NeverReopened(db, calls, n, i)
    ensures SettledIn(Run(db, calls, n), txn, i)
  {
    if n > 0 {
      SettledRun(db, calls, n - 1, txn, i);
      StaysSettledIn(Run(db, calls, n - 1), calls[n - 1].0, calls[n - 1].1, txn, i);
    }
  }

  /**
   Once a transaction is settled against a reservation, no later settlement of it moves money, over
   any history, exactly until the reservation is re-activated.
   */
  lemma {:induction false} SettledOnceExactly(db: Db, calls: seq<(Call, bool)>, n: nat, txn: nat, i: nat)
    requires Sound(db) && SettledIn(db, txn, i) && n <= |calls|
    ensures AlwaysInert(db, calls, n, txn) <==> NeverReopened(db, calls, n, i)
  {
    if n == 0 {
      RecordedIsInert(db, txn, i);
    } else {
      SettledOnceExactly(db, calls, n - 1, txn, i);
      if NeverReopened(db, calls, n - 1, i) {
        LastCallDecides(db, calls, n, txn, i);
      }
    }
  }

  lemma LastCallDecides(db: Db, calls: seq<(Call, bool)>, n: nat, txn: nat, i: nat)
    requires Sound(db) && SettledIn(db, txn, i) && 0 < n <= |calls| && NeverReopened(db, calls, n - 1, i)
    ensures Inert(Run(db, calls, n), txn) <==> !Reopens(Run(db, calls, n - 1), calls[n - 1].0, calls[n - 1].1, i)
  {
    var w, c := Run(db, calls, n - 1), calls[n - 1].0;
    SoundRun(db, calls, n - 1);
    SettledRun(db, calls, n - 1, txn, i);
    if Reopens(w, c, calls[n - 1].1, i) {
      SettlesAgain(w, c, txn, i);
      assert SettleAgain(Run(db, calls, n), c.order, c.kind, txn, w.rows[i].amount) != Run(db, calls, n);
    } else {
      SettledRun(db, calls, n, txn, i);
      RecordedIsInert(Run(db, calls, n), txn, i);
    }
  }

  // ---------- a hold ----------

  predicate IsActive(db: Db, i: nat) { i < |db.rows| && db.rows[i].status.Active? }

  function Retry(db: Db, order: nat, kind: string, account: nat, amount: real, currency: string): Db {
    Step(db, ReserveFunds(order, kind, account, amount, currency), true)
  }

  /** No retry for the order, on whatever account and amount, changes anything. */
  ghost predicate Quiet(db: Db, order: nat, kind: string) {
    forall account, amount, currency :: Retry(db, order, kind, account, amount, currency) == db
  }

  /** The reservation is finished, and some account could bear it again. */
  predicate Reopenable(db: Db, i: nat)
    requires i < |db.rows|
  {
    !db.rows[i].status.Active? && exists a :: a in db.accounts && db.accounts[a].available >= db.rows[i].amount
  }

  /** A retry takes a second hold exactly when the reservation is finished and some account can bear it. */
  lemma QuietExactly(db: Db, order: nat, kind: string)
    requires Sound(db) && Find(db.rows, order, KindOf(kind)) >= 0
    ensures Quiet(db, order, kind) <==> !Reopenable(db, Find(db.rows, order, KindOf(kind)))
  {
    var i := Find(db.rows, order, KindOf(kind));
    if Reopenable(db, i) {
      var a :| a in db.accounts && db.accounts[a].available >= db.rows[i].amount;
      assert RowSound(db, i);
      assert Retry(db, order, kind, a, db.rows[i].amount, db.accounts[a].currency).rows[i].status.Active?;
    }
  }

  /** The call finishes the reservation: a release, or the settlement that fills it. */
  predicate Closes(db: Db, c: Call, commits: bool, i: nat) {
    && commits && IsActive(db, i) && Transact(db, c).Ok?
    && (c.Release? || (c.Settle? && !HasTxn(db.settlements, c.txn) && SettledSum(db.settlements, i) + c.amount == db.rows[i].amount))
    && Find(db.rows, c.order, KindOf(c.kind)) == i
  }

  lemma ActiveStep(db: Db, c: Call, commits: bool, i: nat)
    requires IsActive(db, i)
    ensures IsActive(Step(db, c, commits), i) <==> !Closes(db, c, commits, i)
  {
  }

  predicate NeverClosed(db: Db, calls: seq<(Call, bool)>, n: nat, i: nat)
    requires n <= |calls|
  {
    n == 0 || (NeverClosed(db, calls, n - 1, i) && !Closes(Run(db, calls, n - 1), calls[n - 1].0, calls[n - 1].1, i))
  }

  predicate AlwaysActive(db: Db, calls: seq<(Call, bool)>, n: nat, i: nat)
    requires n <= |calls|
  {
    (n == 0 || AlwaysActive(db, calls, n - 1, i)) && IsActive(Run(db, calls, n), i)
  }

  ghost predicate AlwaysQuiet(db: Db, calls: seq<(Call, bool)>, n: nat, order: nat, kind: string)
    requires n <= |calls|
  {
    (n == 0 || AlwaysQuiet(db, calls, n - 1, order, kind)) && Quiet(Run(db, calls, n), order, kind)
  }

  predicate NeverReopenable(db: Db, calls: seq<(Call, bool)>, n: nat, i: nat)
    requires n <= |calls|
  {
    && (n == 0 || NeverReopenable(db, calls, n - 1, i))
    && i < |Run(db, calls, n).rows| && !Reopenable(Run(db, calls, n), i)
  }

  lemma {:induction false} FindRun(db: Db, calls: seq<(Call, bool)>, n: nat, order: nat, kind: string)
    requires n <= |calls| && Find(db.rows, order, kind) >= 0
    ensures Find(Run(db, calls, n).rows, order, kind) == Find(db.rows, order, kind)
  {
    if n > 0 {
      FindRun(db, calls, n - 1, order, kind);
      FindStays(Run(db, calls, n - 1), calls[n - 1].0, calls[n - 1].1, order, kind);
    }
  }

  /**
   A hold stays the only one for its order, over any history, exactly while no call finishes it, or
   while no account could bear it again.
   */
  lemma {:induction false} HeldOnceExactly(db: Db, calls: seq<(Call, bool)>, n: nat, order: nat, kind: string)
    requires Sound(db) && n <= |calls| && Find(db.rows, order, KindOf(kind)) >= 0
    ensures var i := Find(db.rows, order, KindOf(kind));
      AlwaysQuiet(db, calls, n, order, kind) <==> NeverReopenable(db, calls, n, i)
  {
    SoundRun(db, calls, n);
    FindRun(db, calls, n, order, KindOf(kind));
    QuietExactly(Run(db, calls, n), order, kind);
    if n > 0 {
      HeldOnceExactly(db, calls, n - 1, order, kind);
    }
  }

  lemma {:induction false} ActiveExactly(db: Db, calls: seq<(Call, bool)>, n: nat, i: nat)
    requires IsActive(db, i) && n <= |calls|
    ensures AlwaysActive(db, calls, n, i) <==> NeverClosed(db, calls, n, i)
    ensures NeverClosed(db, calls, n, i) ==> NeverReopenable(db, calls, n, i)
  {
    if n > 0 {
      ActiveExactly(db, calls, n - 1, i);
      if AlwaysActive(db, calls, n - 1, i) {
        ActiveStep(Run(db, calls, n - 1), calls[n - 1].0, calls[n - 1].1, i);
      }
    }
  }

  // ---------- a double settlement ----------

  /** One account of 10 and one order of 4 on it, as far as it has got. */
  function Stage(balance: real, available: real, status: Status, ss: seq<Settlement>, ledger: seq<Entry>): Db {
    Db(map[1 := Account("RSD", true, balance, balance - available, available)],
       [Row(1, 7, "stock_order", 4.0, status)], ss, [], ledger)
  }

  const FIRST := Entry(1, false, 4.0, 10.0, 6.0, "")
  const SECOND := Entry(1, false, 4.0, 6.0, 2.0, "")
  const FILL := Settlement(5, 0, 4.0)

  lemma SettleStage(balance: real, ledger: seq<Entry>)
    ensures Step(Stage(balance, balance - 4.0, Active, [], ledger), Settle(7, "", 5, 4.0), true)
      == Stage(balance - 4.0, balance - 4.0, Settled, [FILL], ledger + [Entry(1, false, 4.0, balance, balance - 4.0, "")])
  {
    var db := Stage(balance, balance - 4.0, Active, [], ledger);
    assert Find(db.rows, 7, KindOf("")) == 0;
    assert SettleTx(db, 7, "", 5, 4.0).Ok?;
    assert db.rows[0 := db.rows[0].(status := Settled)] == [Row(1, 7, "stock_order", 4.0, Settled)];
  }

  lemma ReopenStage(ledger: seq<Entry>)
    ensures var db := Stage(6.0, 6.0, Settled, [FILL], ledger);
      Step(db, ReserveFunds(7, "", 1, 4.0, "RSD"), true) == Stage(6.0, 2.0, Active, [], ledger)
      && !Wrong(db, ReserveFunds(7, "", 1, 4.0, "RSD"))
  {
    var db := Stage(6.0, 6.0, Settled, [FILL], ledger);
    assert Find(db.rows, 7, KindOf("")) == 0;
    assert [FILL][..0] == [];
    assert Without([FILL], 0) == [];
    assert db.rows[0 := db.rows[0].(status := Active)] == [Row(1, 7, "stock_order", 4.0, Active)];
  }

  /**
   A settled order that is reserved again settles the same transaction twice: 8 of the 10 are gone,
   the ledger shows two debits, and no call was one of the five mistakes.
   */
  lemma SettlesTwice()
    ensures var reserve, settle := ReserveFunds(7, "", 1, 4.0, "RSD"), Settle(7, "", 5, 4.0);
      var once := Step(Stage(10.0, 6.0, Active, [], []), settle, true);
      var held := Step(once, reserve, true);
      && once == Stage(6.0, 6.0, Settled, [FILL], [FIRST])
      && !Wrong(once, reserve) && held == Stage(6.0, 2.0, Active, [], [FIRST])
      && Step(held, settle, true) == Stage(2.0, 2.0, Settled, [FILL], [FIRST, SECOND])
  {
    SettleStage(10.0, []);
    assert [] + [FIRST] == [FIRST];
    ReopenStage([FIRST]);
    SettleStage(6.0, [FIRST]);
    assert [FIRST] + [SECOND] == [FIRST, SECOND];
  }
}
