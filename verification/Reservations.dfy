/**
 The account service's money: holds on client money (reservation_service.go), cross-bank holds
 (outgoing_reservation_service.go), ledger postings and transfers (ledger_repository.go), balance
 updates (account_repository.go), bank debits (bank_account_repository.go) and the account row saved
 as it was read (account_service.go), all under account-service/internal. Between them these write
 an account's three amounts in every way the service does. Each database transaction is one step; a
 step that fails leaves the database as it was.
 */
module Reservations {
  import opened Wrappers

  datatype Account = Account(currency: string, active: bool, balance: real, reserved: real, available: real)

  datatype Status = Active | Released | Settled

  /** A row of account_reservations; its id is its position. */
  datatype Row = Row(account: nat, order: nat, kind: string, amount: real, status: Status)

  /** A row of account_reservation_settlements. */
  datatype Settlement = Settlement(txn: nat, res: nat, amount: real)

  datatype OutStatus = OutPending | OutSettled | OutReleased

  /** A row of outgoing_reservations. */
  datatype Outgoing = Outgoing(account: nat, key: string, amount: real, status: OutStatus)

  /** A row of ledger_entries; `key` is its idempotency key, unique unless empty. */
  datatype Entry = Entry(account: nat, credit: bool, amount: real, before: real, after: real, key: string)

  datatype Db = Db(
    accounts: map<nat, Account>,
    rows: seq<Row>,
    settlements: seq<Settlement>,
    outgoing: seq<Outgoing>,
    ledger: seq<Entry>)

  datatype Failure = InvalidArgument | NotFound | FailedPrecondition | StoreError

  /**
   `raced`: the reservation's status, which these two calls read before their transaction, was still
   pending then, whatever it is by now. `read`: the account row as it was loaded, without a lock,
   before it is saved.
   */
  datatype Call =
    | ReserveFunds(order: nat, kind: string, account: nat, amount: real, currency: string)
    | Release(order: nat, kind: string)
    | Settle(order: nat, kind: string, txn: nat, amount: real)
    | ReserveOutgoing(account: nat, amount: real, currency: string, key: string)
    | SettleOutgoing(key: string, raced: bool)
    | ReleaseOutgoing(key: string, raced: bool)
    | Credit(account: nat, amount: real)
    | Debit(account: nat, amount: real)
    | Transfer(source: nat, target: nat, amount: real)
    | UpdateBalance(account: nat, amount: real, updateAvailable: bool, key: string)
    | DebitBank(account: nat, amount: real)
    | SaveAccount(account: nat, read: Account)

  // ---------- queries ----------

  function KindOf(kind: string): string {
    if kind == "" then "stock_order" else kind
  }

  /** The row with the idempotency key, or -1. */
  function Find(rows: seq<Row>, order: nat, kind: string): (i: int)
    ensures -1 <= i < |rows|
    ensures i >= 0 ==> rows[i].order == order && rows[i].kind == kind
    ensures i < 0 ==> forall j :: 0 <= j < |rows| ==> !(rows[j].order == order && rows[j].kind == kind)
  {
    if rows == [] then -1
    else if rows[|rows| - 1].order == order && rows[|rows| - 1].kind == kind then |rows| - 1
    else Find(rows[..|rows| - 1], order, kind)
  }

  /** The total settled against a reservation. */
  function SettledSum(ss: seq<Settlement>, res: nat): real {
    if ss == [] then 0.0
    else SettledSum(ss[..|ss| - 1], res) + (if ss[|ss| - 1].res == res then ss[|ss| - 1].amount else 0.0)
  }

  predicate HasTxn(ss: seq<Settlement>, txn: nat) {
    exists k :: 0 <= k < |ss| && ss[k].txn == txn
  }

  function Without(ss: seq<Settlement>, res: nat): seq<Settlement> {
    if ss == [] then []
    else Without(ss[..|ss| - 1], res) + (if ss[|ss| - 1].res == res then [] else [ss[|ss| - 1]])
  }

  /** The cross-bank reservation with the key, or -1. */
  function FindOut(outs: seq<Outgoing>, key: string): (i: int)
    ensures -1 <= i < |outs|
    ensures i >= 0 ==> outs[i].key == key
    ensures i < 0 ==> forall j :: 0 <= j < |outs| ==> outs[j].key != key
  {
    if outs == [] then -1
    else if outs[|outs| - 1].key == key then |outs| - 1
    else FindOut(outs[..|outs| - 1], key)
  }

  predicate HasKey(ledger: seq<Entry>, key: string) {
    exists k :: 0 <= k < |ledger| && ledger[k].key == key
  }

  function OutgoingKey(key: string): string { "outgoing-" + key }

  function Max0(x: real): real { if x < 0.0 then 0.0 else x }

  // ---------- the transactions ----------

  function Hold(a: Account, amount: real): Account {
    a.(reserved := a.reserved + amount, available := a.available - amount)
  }

  function Unhold(a: Account, amount: real): Account {
    a.(reserved := Max0(a.reserved - amount), available := a.available + amount)
  }

  function Consume(a: Account, amount: real): Account {
    a.(reserved := Max0(a.reserved - amount), balance := a.balance - amount)
  }

  function Signed(credit: bool, amount: real): real { if credit then amount else -amount }

  /** An account's new state, with the ledger entry for its balance change. */
  function Book(db: Db, account: nat, a: Account, credit: bool, amount: real, key: string): Db
    requires account in db.accounts
  {
    db.(accounts := db.accounts[account := a],
        ledger := db.ledger + [Entry(account, credit, amount, db.accounts[account].balance, a.balance, key)])
  }

  /** CreditWithLock and DebitWithLock, once they go through. */
  function Posted(db: Db, account: nat, credit: bool, amount: real): Db
    requires account in db.accounts
  {
    var a, delta := db.accounts[account], Signed(credit, amount);
    Book(db, account, a.(balance := a.balance + delta, available := a.available + delta), credit, amount, "")
  }

  function ReserveTx(db: Db, order: nat, kind: string, account: nat, amount: real, currency: string): Result<Db, Failure> {
    if amount <= 0.0 then Err(InvalidArgument)
    else if account !in db.accounts then Err(NotFound)
    else
      var a := db.accounts[account];
      var i := Find(db.rows, order, KindOf(kind));
      if a.currency != currency || a.available < amount then Err(FailedPrecondition)
      else if i < 0 then
        Ok(db.(accounts := db.accounts[account := Hold(a, amount)],
               rows := db.rows + [Row(account, order, KindOf(kind), amount, Active)]))
      else if db.rows[i].status.Active? then Ok(db)
      else if a.available < db.rows[i].amount then Err(FailedPrecondition)
      else Ok(db.(accounts := db.accounts[account := Hold(a, db.rows[i].amount)],
                  rows := db.rows[i := db.rows[i].(status := Active)], settlements := Without(db.settlements, i)))
  }

  function ReleaseTx(db: Db, order: nat, kind: string): Result<Db, Failure> {
    var i := Find(db.rows, order, KindOf(kind));
    if i < 0 || !db.rows[i].status.Active? then Ok(db)
    else if db.rows[i].account !in db.accounts then Err(StoreError)
    else
      var row := db.rows[i];
      var left := Max0(row.amount - SettledSum(db.settlements, i));
      Ok(db.(accounts := db.accounts[row.account := Unhold(db.accounts[row.account], left)],
             rows := db.rows[i := row.(status := Released)]))
  }

  function SettleTx(db: Db, order: nat, kind: string, txn: nat, amount: real): Result<Db, Failure> {
    if amount <= 0.0 then Err(InvalidArgument)
    else
      var i := Find(db.rows, order, KindOf(kind));
      if i < 0 || !db.rows[i].status.Active? then Err(FailedPrecondition)
      else if db.rows[i].account !in db.accounts then Err(StoreError)
      else
        var row, so := db.rows[i], SettledSum(db.settlements, i);
        if so + amount > row.amount then Err(FailedPrecondition)
        else if HasTxn(db.settlements, txn) then Ok(db)
        else Ok(Book(db, row.account, Consume(db.accounts[row.account], amount), false, amount, "").(
                rows := if so + amount == row.amount then db.rows[i := row.(status := Settled)] else db.rows,
                settlements := db.settlements + [Settlement(txn, i, amount)]))
  }

  function ReserveOutgoingTx(db: Db, account: nat, amount: real, currency: string, key: string): Result<Db, Failure> {
    if amount <= 0.0 then Err(InvalidArgument)
    else if FindOut(db.outgoing, key) >= 0 then Ok(db)
    else if account !in db.accounts then Err(NotFound)
    else
      var a := db.accounts[account];
      if !a.active || a.currency != currency || a.available < amount then Err(FailedPrecondition)
      else Ok(db.(accounts := db.accounts[account := a.(available := a.available - amount)],
                  outgoing := db.outgoing + [Outgoing(account, key, amount, OutPending)]))
  }

  /** The row, marked if it is still pending; nothing fails if it no longer is. */
  function Marked(outs: seq<Outgoing>, i: nat, status: OutStatus): seq<Outgoing>
    requires i < |outs|
  {
    if outs[i].status.OutPending? then outs[i := outs[i].(status := status)] else outs
  }

  function SettleOutgoingTx(db: Db, key: string, raced: bool): Result<Db, Failure> {
    var i := FindOut(db.outgoing, key);
    if i < 0 then Err(NotFound)
    else
      var out := db.outgoing[i];
      var seen := if raced then OutPending else out.status;
      if seen.OutSettled? then (if out.account in db.accounts then Ok(db) else Err(NotFound))
      else if seen.OutReleased? then Err(FailedPrecondition)
      else if out.account !in db.accounts || HasKey(db.ledger, OutgoingKey(key)) then Err(StoreError)
      else
        var a := db.accounts[out.account];
        Ok(Book(db, out.account, a.(balance := a.balance - out.amount), false, out.amount, OutgoingKey(key)).(
           outgoing := Marked(db.outgoing, i, OutSettled)))
  }

  function ReleaseOutgoingTx(db: Db, key: string, raced: bool): Result<Db, Failure> {
    var i := FindOut(db.outgoing, key);
    if i < 0 then Err(NotFound)
    else
      var out := db.outgoing[i];
      if !raced && !out.status.OutPending? then Ok(db)
      else if out.account !in db.accounts then Err(StoreError)
      else
        var a := db.accounts[out.account];
        Ok(db.(accounts := db.accounts[out.account := a.(available := a.available + out.amount)],
               outgoing := Marked(db.outgoing, i, OutReleased)))
  }

  function UpdateBalanceTx(db: Db, account: nat, amount: real, updateAvailable: bool, key: string): Result<Db, Failure> {
    if key != "" && HasKey(db.ledger, key) then Ok(db)
    else if account !in db.accounts then Err(NotFound)
    else
      var a := db.accounts[account];
      if amount < 0.0 && a.available + amount < 0.0 then Err(FailedPrecondition)
      else
        var a' := a.(balance := a.balance + amount, available := if updateAvailable then a.available + amount else a.available);
        Ok(Book(db, account, a', amount >= 0.0, if amount < 0.0 then -amount else amount, key))
  }

  function DebitBankTx(db: Db, account: nat, amount: real): Result<Db, Failure> {
    if amount <= 0.0 then Err(InvalidArgument)
    else if account !in db.accounts then Err(NotFound)
    else if db.accounts[account].balance < amount then Err(FailedPrecondition)
    else Ok(Posted(db, account, false, amount))
  }

  /** The end of SetAccountCategory: the whole row is written back, amounts included. */
  function SaveAccountTx(db: Db, account: nat, read: Account): Result<Db, Failure> {
    if account !in db.accounts then Err(NotFound) else Ok(db.(accounts := db.accounts[account := read]))
  }

  function DebitTx(db: Db, account: nat, amount: real): Result<Db, Failure> {
    if account !in db.accounts then Err(NotFound)
    else if db.accounts[account].available < amount then Err(FailedPrecondition)
    else Ok(Posted(db, account, false, amount))
  }

  function CreditTx(db: Db, account: nat, amount: real): Result<Db, Failure> {
    if account !in db.accounts then Err(NotFound) else Ok(Posted(db, account, true, amount))
  }

  /** A debit and a credit in one transaction. */
  function TransferTx(db: Db, source: nat, target: nat, amount: real): Result<Db, Failure> {
    match DebitTx(db, source, amount)
    case Err(e) => Err(e)
    case Ok(mid) => CreditTx(mid, target, amount)
  }

  function Transact(db: Db, c: Call): Result<Db, Failure> {
    match c
    case ReserveFunds(order, kind, account, amount, currency) => ReserveTx(db, order, kind, account, amount, currency)
    case Release(order, kind) => ReleaseTx(db, order, kind)
    case Settle(order, kind, txn, amount) => SettleTx(db, order, kind, txn, amount)
    case ReserveOutgoing(account, amount, currency, key) => ReserveOutgoingTx(db, account, amount, currency, key)
    case SettleOutgoing(key, raced) => SettleOutgoingTx(db, key, raced)
    case ReleaseOutgoing(key, raced) => ReleaseOutgoingTx(db, key, raced)
    case Credit(account, amount) => CreditTx(db, account, amount)
    case Debit(account, amount) => DebitTx(db, account, amount)
    case Transfer(source, target, amount) => TransferTx(db, source, target, amount)
    case UpdateBalance(account, amount, updateAvailable, key) => UpdateBalanceTx(db, account, amount, updateAvailable, key)
    case DebitBank(account, amount) => DebitBankTx(db, account, amount)
    case SaveAccount(account, read) => SaveAccountTx(db, account, read)
  }

  /** The retry re-activates a finished reservation. */
  predicate Reactivates(db: Db, c: Call) {
    && c.ReserveFunds? && c.amount > 0.0 && c.account in db.accounts
    && db.accounts[c.account].currency == c.currency && db.accounts[c.account].available >= c.amount
    && var i := Find(db.rows, c.order, KindOf(c.kind));
    && i >= 0 && !db.rows[i].status.Active? && db.accounts[c.account].available >= db.rows[i].amount
  }

  /** A call whose transaction may also fail to commit. */
  function Step(db: Db, c: Call, commits: bool): Db {
    match Transact(db, c)
    case Err(_) => db
    case Ok(db') => if commits then db' else db
  }

  // ---------- what the books must satisfy ----------

  /** What cross-bank reservations hold on one account. */
  function Pending(outs: seq<Outgoing>, account: nat): real {
    if outs == [] then 0.0
    else
      var out := outs[|outs| - 1];
      Pending(outs[..|outs| - 1], account) + (if out.account == account && out.status.OutPending? then out.amount else 0.0)
  }

  /** What a reservation still holds. */
  function Remaining(db: Db, i: nat): real
    requires i < |db.rows|
  {
    if db.rows[i].status.Active? then db.rows[i].amount - SettledSum(db.settlements, i) else 0.0
  }

  /** What the first n reservations hold on one account. */
  function Held(db: Db, account: nat, n: nat): real
    requires n <= |db.rows|
  {
    if n == 0 then 0.0
    else Held(db, account, n - 1) + (if db.rows[n - 1].account == account then Remaining(db, n - 1) else 0.0)
  }

  /** Every active reservation holds a positive rest, on an existing account. */
  predicate RowOk(db: Db, i: nat)
    requires i < |db.rows|
  {
    && db.rows[i].account in db.accounts
    && db.rows[i].amount > 0.0
    && SettledSum(db.settlements, i) >= 0.0
    && (db.rows[i].status.Active? ==> SettledSum(db.settlements, i) < db.rows[i].amount)
  }

  predicate SettlementsOk(db: Db) {
    && (forall k :: 0 <= k < |db.settlements| ==> db.settlements[k].amount > 0.0 && db.settlements[k].res < |db.rows|)
    && (forall k, l :: 0 <= k < l < |db.settlements| ==> db.settlements[k].txn != db.settlements[l].txn)
  }

  /** One row per idempotency key. */
  predicate KeysOk(rows: seq<Row>) {
    forall i, j :: 0 <= i < j < |rows| ==> !(rows[i].order == rows[j].order && rows[i].kind == rows[j].kind)
  }

  /**
   The reserved balance is exactly what active reservations still hold, the available balance is the
   rest of the balance less what cross-bank reservations hold, and it is never negative.
   */
  predicate Balanced(a: Account, held: real, pending: real) {
    a.available == a.balance - a.reserved - pending && a.reserved == held && a.available >= 0.0
  }

  predicate AccountOk(db: Db, a: nat)
    requires a in db.accounts
  {
    Balanced(db.accounts[a], Held(db, a, |db.rows|), Pending(db.outgoing, a))
  }

  predicate OutsOk(db: Db) {
    forall i :: 0 <= i < |db.outgoing| ==> db.outgoing[i].account in db.accounts && db.outgoing[i].amount > 0.0
  }

  predicate Inv(db: Db) {
    && SettlementsOk(db) && KeysOk(db.rows) && OutsOk(db)
    && (forall i :: 0 <= i < |db.rows| ==> RowOk(db, i))
    && (forall a :: a in db.accounts ==> AccountOk(db, a))
  }

  // ---------- sums ----------

  /** Held depends on each row's account and remaining hold only. */
  lemma {:induction false} HeldSame(db: Db, db': Db, a: nat, n: nat)
    requires n <= |db.rows| && n <= |db'.rows|
    requires forall i :: 0 <= i < n && db.rows[i].account == a ==> Remaining(db', i) == Remaining(db, i)
    requires forall i :: 0 <= i < n ==> db'.rows[i].account == db.rows[i].account
    ensures Held(db', a, n) == Held(db, a, n)
  {
    if n > 0 {
      HeldSame(db, db', a, n - 1);
    }
  }

  /** Changing one row's hold changes the total by the difference. */
  lemma {:induction false} HeldChange(db: Db, db': Db, a: nat, i: nat, n: nat)
    requires i < n <= |db.rows| && n <= |db'.rows|
    requires forall j :: 0 <= j < n && j != i ==> Remaining(db', j) == Remaining(db, j)
    requires forall j :: 0 <= j < n ==> db'.rows[j].account == db.rows[j].account
    ensures Held(db', a, n) == Held(db, a, n)
      + (if db.rows[i].account == a then Remaining(db', i) - Remaining(db, i) else 0.0)
  {
    if n - 1 == i {
      HeldSame(db, db', a, n - 1);
    } else {
      HeldChange(db, db', a, i, n - 1);
    }
  }

  /** The total holds at least each of its parts. */
  lemma {:induction false} HeldAtLeast(db: Db, i: nat, n: nat)
    requires i < n <= |db.rows| && forall j :: 0 <= j < n ==> Remaining(db, j) >= 0.0
    ensures Held(db, db.rows[i].account, n) >= Remaining(db, i)
  {
    if n - 1 == i {
      HeldNonNegative(db, db.rows[i].account, n - 1);
    } else {
      HeldAtLeast(db, i, n - 1);
    }
  }

  lemma {:induction false} HeldNonNegative(db: Db, a: nat, n: nat)
    requires n <= |db.rows| && forall j :: 0 <= j < n ==> Remaining(db, j) >= 0.0
    ensures Held(db, a, n) >= 0.0
  {
    if n > 0 {
      HeldNonNegative(db, a, n - 1);
    }
  }

  lemma {:induction false} WithoutMeans(ss: seq<Settlement>, res: nat, other: nat)
    ensures SettledSum(Without(ss, res), other) == if other == res then 0.0 else SettledSum(ss, other)
  {
    if ss != [] {
      var pre := Without(ss[..|ss| - 1], res);
      WithoutMeans(ss[..|ss| - 1], res, other);
      if ss[|ss| - 1].res != res {
        assert (pre + [ss[|ss| - 1]])[..|pre|] == pre;
      } else {
        assert Without(ss, res) == pre;
      }
    }
  }

  lemma {:induction false} WithoutKeeps(ss: seq<Settlement>, res: nat) returns (idx: seq<nat>)
    ensures |idx| == |Without(ss, res)|
    ensures forall k :: 0 <= k < |idx| ==> idx[k] < |ss| && Without(ss, res)[k] == ss[idx[k]]
    ensures forall k, l :: 0 <= k < l < |idx| ==> idx[k] < idx[l]
  {
    if ss == [] {
      idx := [];
    } else {
      idx := WithoutKeeps(ss[..|ss| - 1], res);
      if ss[|ss| - 1].res != res {
        idx := idx + [|ss| - 1];
      }
    }
  }

  lemma SettledSnoc(ss: seq<Settlement>, s: Settlement, res: nat)
    ensures SettledSum(ss + [s], res) == SettledSum(ss, res) + (if s.res == res then s.amount else 0.0)
  {
    assert (ss + [s])[..|ss|] == ss;
  }

  lemma {:induction false} NoneSettled(ss: seq<Settlement>, res: nat)
    requires forall k :: 0 <= k < |ss| ==> ss[k].res != res
    ensures SettledSum(ss, res) == 0.0
  {
    if ss != [] {
      NoneSettled(ss[..|ss| - 1], res);
    }
  }

  // ---------- each transaction keeps the books ----------

  /** When only one account and the cross-bank holds on it change, only that account can go wrong. */
  lemma OneAccount(db: Db, db': Db, account: nat)
    requires Inv(db) && account in db.accounts && account in db'.accounts && OutsOk(db')
    requires db'.rows == db.rows && db'.settlements == db.settlements
    requires db'.accounts == db.accounts[account := db'.accounts[account]]
    requires forall b :: b != account ==> Pending(db'.outgoing, b) == Pending(db.outgoing, b)
    ensures Inv(db') <==> Balanced(db'.accounts[account], Held(db, account, |db.rows|), Pending(db'.outgoing, account))
  {
    forall a | a in db'.accounts
      ensures a != account ==> AccountOk(db', a)
      ensures Held(db', a, |db.rows|) == Held(db, a, |db.rows|)
    {
      assert AccountOk(db, a);
      HeldSame(db, db', a, |db.rows|);
    }
    forall i | 0 <= i < |db'.rows|
      ensures RowOk(db', i)
    {
      assert RowOk(db, i);
    }
    assert AccountOk(db', account) <==> Balanced(db'.accounts[account], Held(db, account, |db.rows|), Pending(db'.outgoing, account));
  }

  /** A posting keeps the books exactly when the available balance can bear it. */
  lemma PostedExactly(db: Db, account: nat, credit: bool, amount: real)
    requires Inv(db) && account in db.accounts
    ensures Inv(Posted(db, account, credit, amount)) <==> db.accounts[account].available + Signed(credit, amount) >= 0.0
  {
    assert AccountOk(db, account);
    OneAccount(db, Posted(db, account, credit, amount), account);
  }

  lemma TransferExactly(db: Db, c: Call)
    requires Inv(db) && c.Transfer? && Transact(db, c).Ok?
    ensures Inv(Transact(db, c).value) <==> c.source == c.target || db.accounts[c.target].available + c.amount >= 0.0
  {
    PostedExactly(db, c.source, false, c.amount);
    PostedExactly(Posted(db, c.source, false, c.amount), c.target, true, c.amount);
    assert AccountOk(db, c.source);
  }

  /** A balance update keeps the books exactly when it also updates the available balance, or changes nothing. */
  lemma UpdateExactly(db: Db, c: Call)
    requires Inv(db) && c.UpdateBalance? && Transact(db, c).Ok? && !(c.key != "" && HasKey(db.ledger, c.key))
    ensures Inv(Transact(db, c).value) <==> c.updateAvailable || c.amount == 0.0
  {
    assert AccountOk(db, c.account);
    OneAccount(db, Transact(db, c).value, c.account);
  }

  // ---------- cross-bank holds ----------

  lemma PendingSnoc(outs: seq<Outgoing>, out: Outgoing, account: nat)
    ensures Pending(outs + [out], account)
      == Pending(outs, account) + (if out.account == account && out.status.OutPending? then out.amount else 0.0)
  {
    assert (outs + [out])[..|outs|] == outs;
  }

  /** Closing a pending row takes its amount out of the total of its account and no other. */
  lemma {:induction false} PendingClosed(outs: seq<Outgoing>, i: nat, status: OutStatus, account: nat)
    requires i < |outs| && outs[i].status.OutPending? && !status.OutPending?
    ensures Pending(outs[i := outs[i].(status := status)], account)
      == Pending(outs, account) - (if outs[i].account == account then outs[i].amount else 0.0)
  {
    var n, outs' := |outs| - 1, outs[i := outs[i].(status := status)];
    if i == n {
      assert outs'[..n] == outs[..n];
    } else {
      PendingClosed(outs[..n], i, status, account);
      assert outs'[..n] == outs[..n][i := outs[i].(status := status)];
    }
  }

  lemma ReserveOutgoingKeeps(db: Db, c: Call)
    requires Inv(db) && c.ReserveOutgoing? && Transact(db, c).Ok?
    ensures Inv(Transact(db, c).value)
  {
    if FindOut(db.outgoing, c.key) < 0 {
      var db' := Transact(db, c).value;
      assert AccountOk(db, c.account);
      forall b
        ensures Pending(db'.outgoing, b) == Pending(db.outgoing, b) + (if b == c.account then c.amount else 0.0)
      {
        PendingSnoc(db.outgoing, Outgoing(c.account, c.key, c.amount, OutPending), b);
      }
      OneAccount(db, db', c.account);
    }
  }

  /** A call that settles or releases a cross-bank reservation whose status was read before its transaction. */
  predicate Finishes(db: Db, c: Call) {
    && (c.SettleOutgoing? || c.ReleaseOutgoing?)
    && var i := FindOut(db.outgoing, c.key);
    && i >= 0 && (c.raced || db.outgoing[i].status.OutPending?)
    && db.outgoing[i].account in db.accounts && (c.SettleOutgoing? ==> !HasKey(db.ledger, OutgoingKey(c.key)))
  }

  lemma MarkedPending(outs: seq<Outgoing>, i: nat, status: OutStatus, account: nat)
    requires i < |outs| && !status.OutPending?
    ensures Pending(Marked(outs, i, status), account)
      == Pending(outs, account) - (if outs[i].account == account && outs[i].status.OutPending? then outs[i].amount else 0.0)
  {
    if outs[i].status.OutPending? {
      PendingClosed(outs, i, status, account);
    }
  }

  /** Any change of one account together with the marking of a cross-bank reservation on it. */
  lemma MarkedAccount(db: Db, db': Db, i: nat, status: OutStatus)
    requires Inv(db) && i < |db.outgoing| && !status.OutPending? && db'.outgoing == Marked(db.outgoing, i, status)
    requires db'.rows == db.rows && db'.settlements == db.settlements
    requires var account := db.outgoing[i].account;
      account in db.accounts && account in db'.accounts && db'.accounts == db.accounts[account := db'.accounts[account]]
    ensures var account, out := db.outgoing[i].account, db.outgoing[i];
      Inv(db') <==> Balanced(db'.accounts[account], db.accounts[account].reserved,
        db.accounts[account].balance - db.accounts[account].reserved - db.accounts[account].available
          - (if out.status.OutPending? then out.amount else 0.0))
  {
    var account := db.outgoing[i].account;
    assert AccountOk(db, account);
    forall b
      ensures Pending(db'.outgoing, b) == Pending(db.outgoing, b)
        - (if db.outgoing[i].account == b && db.outgoing[i].status.OutPending? then db.outgoing[i].amount else 0.0)
    {
      MarkedPending(db.outgoing, i, status, b);
    }
    OneAccount(db, db', account);
  }

  /** Settling or releasing keeps the books exactly when the reservation is still pending in the transaction. */
  lemma FinishExactly(db: Db, c: Call)
    requires Inv(db) && Finishes(db, c)
    ensures Transact(db, c).Ok?
    ensures Inv(Transact(db, c).value) <==> db.outgoing[FindOut(db.outgoing, c.key)].status.OutPending?
  {
    var i := FindOut(db.outgoing, c.key);
    assert AccountOk(db, db.outgoing[i].account);
    MarkedAccount(db, Transact(db, c).value, i, if c.SettleOutgoing? then OutSettled else OutReleased);
  }

  lemma ReserveNewKeeps(db: Db, c: Call)
    requires Inv(db) && c.ReserveFunds? && Transact(db, c).Ok? && Find(db.rows, c.order, KindOf(c.kind)) < 0
    ensures Inv(Transact(db, c).value)
  {
    var db' := Transact(db, c).value;
    var n := |db.rows|;
    NoneSettled(db.settlements, n);
    forall i | 0 <= i < |db'.rows|
      ensures RowOk(db', i)
    {
      if i < n { assert RowOk(db, i); }
    }
    forall a | a in db'.accounts
      ensures AccountOk(db', a)
    {
      assert AccountOk(db, a);
      HeldSame(db, db', a, n);
    }
  }

  lemma ReleaseKeeps(db: Db, c: Call)
    requires Inv(db) && c.Release? && Transact(db, c).Ok?
    ensures Inv(Transact(db, c).value)
  {
    var db' := Transact(db, c).value;
    var i := Find(db.rows, c.order, KindOf(c.kind));
    if i >= 0 && db.rows[i].status.Active? {
      assert RowOk(db, i);
      assert AccountOk(db, db.rows[i].account);
      forall j | 0 <= j < |db.rows|
        ensures RowOk(db', j) && Remaining(db, j) >= 0.0
      {
        assert RowOk(db, j);
      }
      HeldAtLeast(db, i, |db.rows|);
      forall a | a in db'.accounts
        ensures AccountOk(db', a)
      {
        assert AccountOk(db, a);
        HeldChange(db, db', a, i, |db.rows|);
      }
    }
  }

  lemma SettleKeeps(db: Db, c: Call)
    requires Inv(db) && c.Settle? && Transact(db, c).Ok?
    ensures Inv(Transact(db, c).value)
  {
    var db' := Transact(db, c).value;
    if !HasTxn(db.settlements, c.txn) {
      var i := Find(db.rows, c.order, KindOf(c.kind));
      assert RowOk(db, i);
      assert AccountOk(db, db.rows[i].account);
      forall j: nat
        ensures SettledSum(db'.settlements, j) == SettledSum(db.settlements, j) + (if j == i then c.amount else 0.0)
      {
        SettledSnoc(db.settlements, Settlement(c.txn, i, c.amount), j);
      }
      forall j | 0 <= j < |db.rows|
        ensures RowOk(db', j) && Remaining(db, j) >= 0.0
      {
        assert RowOk(db, j);
      }
      HeldAtLeast(db, i, |db.rows|);
      forall a | a in db'.accounts
        ensures AccountOk(db', a)
      {
        assert AccountOk(db, a);
        HeldChange(db, db', a, i, |db.rows|);
      }
    }
  }

  /** Re-activation keeps the books exactly when the retry names the reservation's own account. */
  lemma ReactivateExactly(db: Db, c: Call)
    requires Inv(db) && Reactivates(db, c)
    ensures Transact(db, c).Ok?
    ensures Inv(Transact(db, c).value) <==> c.account == db.rows[Find(db.rows, c.order, KindOf(c.kind))].account
  {
    var db' := Transact(db, c).value;
    var i := Find(db.rows, c.order, KindOf(c.kind));
    forall j: nat
      ensures SettledSum(db'.settlements, j) == if j == i then 0.0 else SettledSum(db.settlements, j)
    {
      WithoutMeans(db.settlements, i, j);
    }
    assert AccountOk(db, c.account);
    HeldChange(db, db', c.account, i, |db.rows|);
    assert RowOk(db, i);
    if c.account == db.rows[i].account {
      ReactivateRows(db, c);
      forall a | a in db'.accounts
        ensures AccountOk(db', a)
      {
        assert AccountOk(db, a);
        HeldChange(db, db', a, i, |db.rows|);
      }
    } else {
      assert !AccountOk(db', c.account);
    }
  }

  lemma ReactivateRows(db: Db, c: Call)
    requires Inv(db) && Reactivates(db, c)
    ensures var db' := Transact(db, c).value;
      SettlementsOk(db') && KeysOk(db'.rows) && forall j :: 0 <= j < |db'.rows| ==> RowOk(db', j)
  {
    var db' := Transact(db, c).value;
    var i := Find(db.rows, c.order, KindOf(c.kind));
    var idx := WithoutKeeps(db.settlements, i);
    forall j | 0 <= j < |db'.rows|
      ensures RowOk(db', j)
    {
      assert RowOk(db, j);
      WithoutMeans(db.settlements, i, j);
    }
  }

  /** A retry that re-activates a reservation made on another account. */
  predicate Misdirected(db: Db, c: Call) {
    Reactivates(db, c) && db.rows[Find(db.rows, c.order, KindOf(c.kind))].account != c.account
  }

  /** A credit of a negative amount, whose sign nothing checks, or a bank debit, checked against the balance only. */
  predicate Overdraws(db: Db, c: Call) {
    || (c.Credit? && c.account in db.accounts && db.accounts[c.account].available + c.amount < 0.0)
    || (c.Transfer? && c.source in db.accounts && c.target in db.accounts && c.source != c.target
        && db.accounts[c.source].available >= c.amount && db.accounts[c.target].available + c.amount < 0.0)
    || (c.DebitBank? && c.account in db.accounts && db.accounts[c.account].available < c.amount <= db.accounts[c.account].balance
        && c.amount > 0.0)
  }

  /** A balance update that leaves the available balance behind. */
  predicate Skews(db: Db, c: Call) {
    && c.UpdateBalance? && !c.updateAvailable && c.amount != 0.0 && c.account in db.accounts
    && !(c.key != "" && HasKey(db.ledger, c.key)) && (c.amount >= 0.0 || db.accounts[c.account].available + c.amount >= 0.0)
  }

  /** A settlement or release of a cross-bank reservation that another call has finished since its status was read. */
  predicate Late(db: Db, c: Call) {
    Finishes(db, c) && !db.outgoing[FindOut(db.outgoing, c.key)].status.OutPending?
  }

  /**
   An account row saved as it was before a call that changed its reserved amount, or the distance of
   its available amount from its balance.
   */
  predicate Reverts(db: Db, c: Call) {
    && c.SaveAccount? && c.account in db.accounts
    && var now := db.accounts[c.account];
    && !(c.read.reserved == now.reserved && c.read.balance - c.read.available == now.balance - now.available
         && c.read.available >= 0.0)
  }

  lemma SaveExactly(db: Db, c: Call)
    requires Inv(db) && c.SaveAccount? && c.account in db.accounts
    ensures Inv(Transact(db, c).value) <==> !Reverts(db, c)
  {
    assert AccountOk(db, c.account);
    OneAccount(db, Transact(db, c).value, c.account);
  }

  predicate Wrong(db: Db, c: Call) {
    Misdirected(db, c) || Overdraws(db, c) || Skews(db, c) || Late(db, c) || Reverts(db, c)
  }

  predicate Breaks(db: Db, c: Call, commits: bool) { commits && Wrong(db, c) }

  /** Nothing in the code stops any of the five. */
  lemma WrongGoesThrough(db: Db, c: Call)
    requires Wrong(db, c)
    ensures Transact(db, c).Ok?
  {
  }

  lemma HoldsExactly(db: Db, c: Call)
    requires Inv(db) && Transact(db, c).Ok? && (c.ReserveFunds? || c.Release? || c.Settle?)
    ensures Inv(Transact(db, c).value) <==> !Wrong(db, c)
  {
    assert Wrong(db, c) <==> Misdirected(db, c);
    if c.ReserveFunds? {
      ReserveExactly(db, c);
    } else if c.Release? {
      ReleaseKeeps(db, c);
    } else {
      SettleKeeps(db, c);
    }
  }

  lemma OutgoingExactly(db: Db, c: Call)
    requires Inv(db) && Transact(db, c).Ok? && (c.ReserveOutgoing? || c.SettleOutgoing? || c.ReleaseOutgoing?)
    ensures Inv(Transact(db, c).value) <==> !Wrong(db, c)
  {
    if c.ReserveOutgoing? {
      ReserveOutgoingKeeps(db, c);
    } else if Finishes(db, c) {
      FinishExactly(db, c);
    } else {
      assert Transact(db, c).value == db;
    }
  }

  lemma PostingsExactly(db: Db, c: Call)
    requires Inv(db) && Transact(db, c).Ok? && (c.Credit? || c.Debit? || c.Transfer? || c.UpdateBalance? || c.DebitBank?)
    ensures Inv(Transact(db, c).value) <==> !Wrong(db, c)
  {
    if c.Credit? {
      PostedExactly(db, c.account, true, c.amount);
    } else if c.Debit? || c.DebitBank? {
      PostedExactly(db, c.account, false, c.amount);
    } else if c.Transfer? {
      TransferExactly(db, c);
    } else if !(c.key != "" && HasKey(db.ledger, c.key)) {
      UpdateExactly(db, c);
    }
  }

  /** The books balance after a call exactly when it does not commit one of these five mistakes. */
  lemma StepKeepsBooksExactly(db: Db, c: Call, commits: bool)
    requires Inv(db)
    ensures Inv(Step(db, c, commits)) <==> !Breaks(db, c, commits)
  {
    if Wrong(db, c) {
      WrongGoesThrough(db, c);
    }
    if Transact(db, c).Ok? && commits {
      if c.ReserveFunds? || c.Release? || c.Settle? {
        HoldsExactly(db, c);
      } else if c.ReserveOutgoing? || c.SettleOutgoing? || c.ReleaseOutgoing? {
        OutgoingExactly(db, c);
      } else if c.SaveAccount? {
        SaveExactly(db, c);
      } else {
        PostingsExactly(db, c);
      }
    }
  }

  lemma ReserveExactly(db: Db, c: Call)
    requires Inv(db) && c.ReserveFunds? && Transact(db, c).Ok?
    ensures Inv(Transact(db, c).value) <==> !Misdirected(db, c)
  {
    if Find(db.rows, c.order, KindOf(c.kind)) < 0 {
      ReserveNewKeeps(db, c);
    } else if Reactivates(db, c) {
      ReactivateExactly(db, c);
    }
  }

  // ---------- histories ----------

  /** The database after the first n calls of a history. */
  function Run(db: Db, calls: seq<(Call, bool)>, n: nat): Db
    requires n <= |calls|
  {
    if n == 0 then db else Step(Run(db, calls, n - 1), calls[n - 1].0, calls[n - 1].1)
  }

  /** None of the first n calls breaks the books. */
  predicate Directed(db: Db, calls: seq<(Call, bool)>, n: nat)
    requires n <= |calls|
  {
    n == 0 || (Directed(db, calls, n - 1) && !Breaks(Run(db, calls, n - 1), calls[n - 1].0, calls[n - 1].1))
  }

  /** The books balance after each of the first n calls. */
  predicate AlwaysBalanced(db: Db, calls: seq<(Call, bool)>, n: nat)
    requires n <= |calls|
  {
    (n == 0 || AlwaysBalanced(db, calls, n - 1)) && Inv(Run(db, calls, n))
  }

  /** A history keeps the books balanced throughout exactly when none of its calls is one of those five. */
  lemma {:induction false} BooksBalanceExactly(db: Db, calls: seq<(Call, bool)>, n: nat)
    requires Inv(db) && n <= |calls|
    ensures AlwaysBalanced(db, calls, n) <==> Directed(db, calls, n)
  {
    if n > 0 {
      BooksBalanceExactly(db, calls, n - 1);
      if AlwaysBalanced(db, calls, n - 1) {
        StepKeepsBooksExactly(Run(db, calls, n - 1), calls[n - 1].0, calls[n - 1].1);
      }
    }
  }

  /** While the books balance, neither clamp at zero ever takes effect. */
  lemma ClampsNeverFire(db: Db, i: nat)
    requires Inv(db) && i < |db.rows| && db.rows[i].status.Active?
    ensures db.rows[i].account in db.accounts
    ensures db.rows[i].amount - SettledSum(db.settlements, i) > 0.0
    ensures db.accounts[db.rows[i].account].reserved >= db.rows[i].amount - SettledSum(db.settlements, i)
  {
    forall j | 0 <= j < |db.rows|
      ensures Remaining(db, j) >= 0.0
    {
      assert RowOk(db, j);
    }
    assert RowOk(db, i);
    HeldAtLeast(db, i, |db.rows|);
    assert AccountOk(db, db.rows[i].account);
  }

  /** Two accounts, on the first a released reservation of each kind, on the second a pending cross-bank one. */
  function Example(): Db {
    Db(map[1 := Account("RSD", true, 10.0, 0.0, 10.0), 2 := Account("RSD", true, 10.0, 0.0, 7.0)],
       [Row(1, 7, "stock_order", 4.0, Released)], [], EXAMPLE_OUTS, [])
  }

  const EXAMPLE_OUTS := [Outgoing(1, "k", 4.0, OutReleased), Outgoing(2, "p", 3.0, OutPending)]

  lemma ExamplePending()
    ensures Pending(EXAMPLE_OUTS, 1) == 0.0 && Pending(EXAMPLE_OUTS, 2) == 3.0
    ensures FindOut(EXAMPLE_OUTS, "k") == 0
  {
    PendingSnoc([], EXAMPLE_OUTS[0], 1);
    PendingSnoc([], EXAMPLE_OUTS[0], 2);
    assert [] + [EXAMPLE_OUTS[0]] == [EXAMPLE_OUTS[0]];
    PendingSnoc([EXAMPLE_OUTS[0]], EXAMPLE_OUTS[1], 1);
    PendingSnoc([EXAMPLE_OUTS[0]], EXAMPLE_OUTS[1], 2);
    assert [EXAMPLE_OUTS[0]] + [EXAMPLE_OUTS[1]] == EXAMPLE_OUTS;
  }

  lemma ExampleBalances()
    ensures Inv(Example())
  {
    var db := Example();
    assert Held(db, 1, 1) == 0.0 && Held(db, 2, 1) == 0.0;
    ExamplePending();
  }

  /** All five mistakes can be made on balanced books. */
  lemma MistakesArePossible()
    ensures Inv(Example())
    ensures Misdirected(Example(), ReserveFunds(7, "", 2, 4.0, "RSD"))
    ensures Overdraws(Example(), Credit(1, -11.0)) && Overdraws(Example(), DebitBank(2, 8.0))
    ensures Reverts(Example(), SaveAccount(2, Account("RSD", true, 10.0, 0.0, 10.0)))
    ensures Skews(Example(), UpdateBalance(1, -1.0, false, ""))
    ensures Late(Example(), ReleaseOutgoing("k", true)) && Late(Example(), SettleOutgoing("k", true))
  {
    ExampleBalances();
    ExampleRetry();
    ExamplePostings();
    ExampleLate();
  }

  lemma ExamplePostings()
    ensures Overdraws(Example(), Credit(1, -11.0)) && Overdraws(Example(), DebitBank(2, 8.0))
    ensures Skews(Example(), UpdateBalance(1, -1.0, false, ""))
    ensures Reverts(Example(), SaveAccount(2, Account("RSD", true, 10.0, 0.0, 10.0)))
  {
    assert Example().accounts[1].available == 10.0 && Example().accounts[2].available == 7.0;
  }

  lemma ExampleLate()
    ensures Late(Example(), ReleaseOutgoing("k", true)) && Late(Example(), SettleOutgoing("k", true))
  {
    ExamplePending();
  }

  /** The example after the misdirected retry. */
  function ExampleRetried(): Db {
    Db(map[1 := Account("RSD", true, 10.0, 0.0, 10.0), 2 := Account("RSD", true, 10.0, 4.0, 3.0)],
       [Row(1, 7, "stock_order", 4.0, Active)], [], EXAMPLE_OUTS, [])
  }

  lemma ExampleRetry()
    ensures var retry := ReserveFunds(7, "", 2, 4.0, "RSD");
      Misdirected(Example(), retry) && Step(Example(), retry, true) == ExampleRetried()
  {
    var db := Example();
    assert Find(db.rows, 7, "stock_order") == 0;
    assert db.rows[0 := db.rows[0].(status := Active)] == ExampleRetried().rows;
  }

  lemma ExampleRelease()
    ensures var after := Step(ExampleRetried(), Release(7, ""), true).accounts;
      1 in after && after[1].available == 14.0 && after[1].balance == 10.0
  {
    var db := ExampleRetried();
    assert Find(db.rows, 7, KindOf("")) == 0;
    assert ReleaseTx(db, 7, "").Ok?;
  }

  /** A misdirected re-activation followed by a release: the available balance exceeds the balance. */
  lemma MisdirectedReactivation()
    ensures var retry := ReserveFunds(7, "", 2, 4.0, "RSD");
      var after := Step(Step(Example(), retry, true), Release(7, ""), true);
      Inv(Example()) && Misdirected(Example(), retry)
      && 1 in after.accounts && after.accounts[1].available == 14.0 && after.accounts[1].balance == 10.0
  {
    ExampleBalances();
    ExampleRetry();
    ExampleRelease();
  }

  /** While the books balance, the documented equation holds for an account exactly while no cross-bank hold is pending on it. */
  lemma DocumentedEquationExactly(db: Db, a: nat)
    requires Inv(db) && a in db.accounts
    ensures db.accounts[a].available == db.accounts[a].balance - db.accounts[a].reserved
      <==> forall i :: 0 <= i < |db.outgoing| && db.outgoing[i].account == a ==> !db.outgoing[i].status.OutPending?
  {
    assert AccountOk(db, a);
    PendingZero(db.outgoing, a);
  }

  lemma {:induction false} PendingZero(outs: seq<Outgoing>, a: nat)
    requires forall i :: 0 <= i < |outs| ==> outs[i].amount > 0.0
    ensures Pending(outs, a) >= 0.0
    ensures Pending(outs, a) == 0.0 <==> forall i :: 0 <= i < |outs| && outs[i].account == a ==> !outs[i].status.OutPending?
  {
    if outs != [] {
      var n := |outs| - 1;
      PendingZero(outs[..n], a);
      assert forall i :: 0 <= i < n ==> outs[..n][i] == outs[i];
    }
  }

  // ---------- idempotence ----------

  /** Repeating a settlement at once changes nothing; it reports success exactly when the rest could cover it once more. */
  lemma SettleReplay(db: Db, c: Call)
    requires Inv(db) && c.Settle? && Transact(db, c).Ok? && !HasTxn(db.settlements, c.txn)
    ensures var db' := Transact(db, c).value;
      var i := Find(db.rows, c.order, KindOf(c.kind));
      && i >= 0
      && Step(db', c, true) == db'
      && (Transact(db', c).Ok? <==> SettledSum(db.settlements, i) + c.amount + c.amount <= db.rows[i].amount)
  {
    var db' := Transact(db, c).value;
    var i := Find(db.rows, c.order, KindOf(c.kind));
    SettledSnoc(db.settlements, Settlement(c.txn, i, c.amount), i);
    assert db'.settlements[|db.settlements|].txn == c.txn;
    assert HasTxn(db'.settlements, c.txn);
    FindKept(db.rows, db'.rows, c.order, KindOf(c.kind));
  }

  /** Status changes do not move rows. */
  lemma {:induction false} FindKept(rows: seq<Row>, rows': seq<Row>, order: nat, kind: string)
    requires |rows| == |rows'|
    requires forall i :: 0 <= i < |rows| ==> rows[i].order == rows'[i].order && rows[i].kind == rows'[i].kind
    ensures Find(rows', order, kind) == Find(rows, order, kind)
  {
    if rows != [] {
      FindKept(rows[..|rows| - 1], rows'[..|rows| - 1], order, kind);
    }
  }

  /** Repeating a successful reservation changes nothing, whether or not the repeat is accepted. */
  lemma ReserveReplay(db: Db, c: Call)
    requires Inv(db) && c.ReserveFunds? && Transact(db, c).Ok?
    ensures Step(Transact(db, c).value, c, true) == Transact(db, c).value
  {
    var db' := Transact(db, c).value;
    var kind := KindOf(c.kind);
    var i := Find(db.rows, c.order, kind);
    if i < 0 {
      assert db'.rows[|db'.rows| - 1] == Row(c.account, c.order, kind, c.amount, Active);
    } else {
      FindKept(db.rows, db'.rows, c.order, kind);
    }
  }

  /** A reservation that is placed and released again, with nothing in between, leaves the account as it was. */
  lemma ReserveReleaseRoundTrip(db: Db, c: Call)
    requires Inv(db) && c.ReserveFunds? && Transact(db, c).Ok? && Find(db.rows, c.order, KindOf(c.kind)) < 0
    ensures Step(Transact(db, c).value, Release(c.order, c.kind), true).accounts == db.accounts
  {
    var db' := Transact(db, c).value;
    var n := |db.rows|;
    assert db'.rows[n] == Row(c.account, c.order, KindOf(c.kind), c.amount, Active);
    assert Find(db'.rows, c.order, KindOf(c.kind)) == n;
    NoneSettled(db.settlements, n);
    ReserveNewKeeps(db, c);
    ClampsNeverFire(db', n);
    assert AccountOk(db, c.account);
    var after := Step(db', Release(c.order, c.kind), true);
    assert after.accounts[c.account] == db.accounts[c.account];
    assert after.accounts == db.accounts;
  }
}
