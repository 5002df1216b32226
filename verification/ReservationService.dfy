/**
 The transactions of ReservationService and OutgoingReservationService, and UpdateBalance, as they
 run: reads and writes of the tables one after the other, and a roll back when the transaction
 function returns an error. Each is tied to its step in Reservations.
 */
module ReservationService {
  import opened Wrappers
  import opened Reservations
  import opened AccountLaws

  datatype Reserved = Reserved(id: nat, reserved: real, available: real)

  datatype Freed = Freed(released: real, reserved: real)

  /** `entry` is the ledger entry's id, counted from one; zero for a replay. */
  datatype Filled = Filled(settled: real, reserved: real, balance: real, entry: nat)

  /** The account service's tables. `saveOk` and `statusOk` say whether saving the account and the reservation succeeds. */
  class Bank {
    var accounts: map<nat, Account>
    var rows: seq<Row>
    var settlements: seq<Settlement>
    var outgoing: seq<Outgoing>
    var ledger: seq<Entry>

    function Contents(): Db
      reads this
    {
      Db(accounts, rows, settlements, outgoing, ledger)
    }

    constructor (db: Db)
      ensures Contents() == db
    {
      accounts, rows, settlements := db.accounts, db.rows, db.settlements;
      outgoing, ledger := db.outgoing, db.ledger;
    }

    method RollBack(db: Db)
      modifies this
      ensures Contents() == db
    {
      accounts, rows, settlements := db.accounts, db.rows, db.settlements;
      outgoing, ledger := db.outgoing, db.ledger;
    }

    method SetStatus(i: nat, status: Status, ok: bool) returns (done: bool)
      requires i < |rows|
      modifies this`rows
      ensures done == ok
      ensures rows == if ok then old(rows)[i := old(rows)[i].(status := status)] else old(rows)
    {
      if ok {
        rows := rows[i := rows[i].(status := status)];
      }
      return ok;
    }

    // ---------- reserve ----------

    method ReserveFunds(order: nat, account: nat, amount: real, currency: string, kind: string, saveOk: bool, statusOk: bool)
      returns (r: Result<Reserved, Failure>)
      modifies this
      ensures var c, before := Call.ReserveFunds(order, kind, account, amount, currency), old(Contents());
        && Contents() == Step(before, c, r.Ok?)
        && (r.Ok? ==> Transact(before, c).Ok?)
        && (saveOk && statusOk && Transact(before, c).Ok? ==> r.Ok?)
        && (Transact(before, c).Err? ==> r == Err(Transact(before, c).error))
      ensures r.Ok? ==>
        && r.value.id == Find(rows, order, KindOf(kind)) && rows[r.value.id].status.Active?
        && account in accounts && r.value.reserved == accounts[account].reserved && r.value.available == accounts[account].available
      ensures amount <= 0.0 ==> r == Err(InvalidArgument)
      ensures amount > 0.0 && account !in old(accounts) ==> r == Err(NotFound)
      ensures amount > 0.0 && account in old(accounts) ==>
        var a, i := old(accounts)[account], Find(old(rows), order, KindOf(kind));
        && (a.currency != currency || a.available < amount ==> r == Err(FailedPrecondition))
        && (saveOk && statusOk && a.currency == currency && a.available >= amount && i < 0 ==> r.Ok?)
      ensures r.Ok? && Find(old(rows), order, KindOf(kind)) < 0 ==> OnlyMoved(old(Contents()), Contents(), account, 0.0, amount, -amount)
    {
      if amount <= 0.0 {
        return Err(InvalidArgument);
      }
      ReserveAccepted(Contents(), Call.ReserveFunds(order, kind, account, amount, currency));
      var begin := Contents();
      r := ReserveBody(order, account, amount, currency, KindOf(kind), saveOk, statusOk);
      if r.Err? {
        RollBack(begin);
      }
    }

    method ReserveBody(order: nat, account: nat, amount: real, currency: string, kind: string, saveOk: bool, statusOk: bool)
      returns (r: Result<Reserved, Failure>)
      requires amount > 0.0 && kind != ""
      modifies this
      ensures var t := Transact(old(Contents()), Call.ReserveFunds(order, kind, account, amount, currency));
        && (t.Err? ==> r == Err(t.error))
        && (r.Ok? ==> t.Ok? && Contents() == t.value)
        && (saveOk && statusOk && t.Ok? ==> r.Ok?)
      ensures r.Ok? ==>
        && r.value.id == Find(rows, order, kind) && rows[r.value.id].status.Active?
        && account in accounts && r.value.reserved == accounts[account].reserved && r.value.available == accounts[account].available
    {
      if account !in accounts {
        return Err(NotFound);
      }
      var acc := accounts[account];
      if acc.currency != currency {
        return Err(FailedPrecondition);
      }
      if acc.available < amount {
        return Err(FailedPrecondition);
      }
      var i := Find(rows, order, kind);
      if i >= 0 {
        r := Existing(i, account, saveOk, statusOk);
        FindKept(old(rows), rows, order, kind);
        return;
      }
      rows := rows + [Row(account, order, kind, amount, Active)];
      acc := acc.(reserved := acc.reserved + amount);
      acc := acc.(available := acc.available - amount);
      if !saveOk {
        return Err(StoreError);
      }
      accounts := accounts[account := acc];
      return Ok(Reserved(|rows| - 1, acc.reserved, acc.available));
    }

    /** The key is taken: replay an active reservation, re-activate a finished one. */
    method Existing(i: nat, account: nat, saveOk: bool, statusOk: bool) returns (r: Result<Reserved, Failure>)
      requires i < |rows| && account in accounts
      modifies this
      ensures ledger == old(ledger) && outgoing == old(outgoing) && |rows| == |old(rows)| && account in accounts
      ensures forall j :: 0 <= j < |rows| ==> rows[j] == old(rows)[j].(status := if j == i && r.Ok? then Active else old(rows)[j].status)
      ensures r.Ok? ==> r.value == Reserved(i, accounts[account].reserved, accounts[account].available)
      ensures old(rows)[i].status.Active? ==> r.Ok? && Contents() == old(Contents())
      ensures !old(rows)[i].status.Active? && old(accounts)[account].available < old(rows)[i].amount ==> r == Err(FailedPrecondition)
      ensures !old(rows)[i].status.Active? && old(accounts)[account].available >= old(rows)[i].amount ==>
        && (saveOk && statusOk ==> r.Ok?)
        && (r.Ok? ==> accounts == old(accounts)[account := Hold(old(accounts)[account], old(rows)[i].amount)]
                      && settlements == Without(old(settlements), i))
    {
      var acc, row := accounts[account], rows[i];
      if row.status.Active? {
        return Ok(Reserved(i, acc.reserved, acc.available));
      }
      if acc.available < row.amount {
        return Err(FailedPrecondition);
      }
      settlements := Without(settlements, i);
      acc := acc.(reserved := acc.reserved + row.amount);
      acc := acc.(available := acc.available - row.amount);
      if !saveOk {
        return Err(StoreError);
      }
      accounts := accounts[account := acc];
      var done := SetStatus(i, Active, statusOk);
      if !done {
        return Err(StoreError);
      }
      return Ok(Reserved(i, acc.reserved, acc.available));
    }

    // ---------- release ----------

    /** What is released is what the account's available balance gains. */
    method ReleaseReservation(order: nat, kind: string, saveOk: bool, statusOk: bool) returns (r: Result<Freed, Failure>)
      modifies this
      ensures var c, before := Release(order, kind), old(Contents());
        && Contents() == Step(before, c, r.Ok?)
        && (r.Ok? ==> Transact(before, c).Ok?)
        && (saveOk && statusOk && Transact(before, c).Ok? ==> r.Ok?)
        && (Transact(before, c).Err? ==> r == Err(Transact(before, c).error))
      ensures var i := Find(old(rows), order, KindOf(kind));
        r.Ok? ==>
          if i >= 0 && old(rows)[i].status.Active? then
            var a := old(rows)[i].account;
            a in accounts && a in old(accounts)
            && r.value == Freed(accounts[a].available - old(accounts)[a].available, accounts[a].reserved)
          else r.value == Freed(0.0, 0.0)
    {
      var begin := Contents();
      r := ReleaseBody(order, KindOf(kind), saveOk, statusOk);
      if r.Err? {
        RollBack(begin);
      }
    }

    method ReleaseBody(order: nat, kind: string, saveOk: bool, statusOk: bool) returns (r: Result<Freed, Failure>)
      requires kind != ""
      modifies this
      ensures var t := Transact(old(Contents()), Release(order, kind));
        && (t.Err? ==> r == Err(t.error))
        && (r.Ok? ==> t.Ok? && Contents() == t.value)
        && (saveOk && statusOk && t.Ok? ==> r.Ok?)
      ensures var i := Find(old(rows), order, kind);
        r.Ok? ==>
          if i >= 0 && old(rows)[i].status.Active? then
            var a := old(rows)[i].account;
            a in accounts && a in old(accounts)
            && r.value == Freed(accounts[a].available - old(accounts)[a].available, accounts[a].reserved)
          else r.value == Freed(0.0, 0.0)
    {
      var i := Find(rows, order, kind);
      if i < 0 {
        return Ok(Freed(0.0, 0.0));
      }
      var row := rows[i];
      if !row.status.Active? {
        return Ok(Freed(0.0, 0.0));
      }
      var remaining := row.amount - SettledSum(settlements, i);
      if remaining < 0.0 {
        remaining := 0.0;
      }
      if row.account !in accounts {
        return Err(StoreError);
      }
      var acc := accounts[row.account];
      acc := acc.(reserved := acc.reserved - remaining);
      if acc.reserved < 0.0 {
        acc := acc.(reserved := 0.0);
      }
      acc := acc.(available := acc.available + remaining);
      if !saveOk {
        return Err(StoreError);
      }
      accounts := accounts[row.account := acc];
      var done := SetStatus(i, Released, statusOk);
      if !done {
        return Err(StoreError);
      }
      return Ok(Freed(remaining, acc.reserved));
    }

    // ---------- settle ----------

    method PartialSettle(order: nat, txn: nat, amount: real, kind: string, saveOk: bool, statusOk: bool)
      returns (r: Result<Filled, Failure>)
      modifies this
      ensures var c, before := Settle(order, kind, txn, amount), old(Contents());
        && Contents() == Step(before, c, r.Ok?)
        && (r.Ok? ==> Transact(before, c).Ok?)
        && (saveOk && statusOk && Transact(before, c).Ok? ==> r.Ok?)
        && (Transact(before, c).Err? ==> r == Err(Transact(before, c).error))
      ensures var i := Find(old(rows), order, KindOf(kind));
        r.Ok? ==>
          && i >= 0 && old(rows)[i].account in accounts
          && r.value == Filled(amount, accounts[old(rows)[i].account].reserved, accounts[old(rows)[i].account].balance,
                               if ledger == old(ledger) then 0 else |ledger|)
      ensures amount <= 0.0 ==> r == Err(InvalidArgument)
      ensures var i := Find(old(rows), order, KindOf(kind));
        && (amount > 0.0 && (i < 0 || old(rows)[i].status != Active) ==> r == Err(FailedPrecondition))
        && (amount > 0.0 && i >= 0 && old(rows)[i].status == Active && old(rows)[i].account in old(accounts) ==>
              && (SettledSum(old(settlements), i) + amount > old(rows)[i].amount ==> r == Err(FailedPrecondition))
              && (saveOk && statusOk && SettledSum(old(settlements), i) + amount <= old(rows)[i].amount ==> r.Ok?))
    {
      if amount <= 0.0 {
        return Err(InvalidArgument);
      }
      SettleAccepted(Contents(), Settle(order, kind, txn, amount));
      var begin := Contents();
      r := SettleBody(order, txn, amount, KindOf(kind), saveOk, statusOk);
      if r.Err? {
        RollBack(begin);
      }
    }

    method SettleBody(order: nat, txn: nat, amount: real, kind: string, saveOk: bool, statusOk: bool)
      returns (r: Result<Filled, Failure>)
      requires amount > 0.0 && kind != ""
      modifies this
      ensures var t := Transact(old(Contents()), Settle(order, kind, txn, amount));
        && (t.Err? ==> r == Err(t.error))
        && (r.Ok? ==> t.Ok? && Contents() == t.value)
        && (saveOk && statusOk && t.Ok? ==> r.Ok?)
      ensures var i := Find(old(rows), order, kind);
        r.Ok? ==>
          && i >= 0 && old(rows)[i].account in accounts
          && r.value == Filled(amount, accounts[old(rows)[i].account].reserved, accounts[old(rows)[i].account].balance,
                               if ledger == old(ledger) then 0 else |ledger|)
    {
      var i := Find(rows, order, kind);
      if i < 0 {
        return Err(FailedPrecondition);
      }
      var row := rows[i];
      if !row.status.Active? {
        return Err(FailedPrecondition);
      }
      if row.account !in accounts {
        return Err(StoreError);
      }
      var acc := accounts[row.account];
      var soFar := SettledSum(settlements, i);
      if soFar + amount > row.amount {
        return Err(FailedPrecondition);
      }
      if HasTxn(settlements, txn) {
        return Ok(Filled(amount, acc.reserved, acc.balance, 0));
      }
      settlements := settlements + [Settlement(txn, i, amount)];
      var before := acc.balance;
      acc := acc.(reserved := acc.reserved - amount);
      if acc.reserved < 0.0 {
        acc := acc.(reserved := 0.0);
      }
      acc := acc.(balance := acc.balance - amount);
      if !saveOk {
        return Err(StoreError);
      }
      accounts := accounts[row.account := acc];
      ledger := ledger + [Entry(row.account, false, amount, before, acc.balance, "")];
      if soFar + amount == row.amount {
        var done := SetStatus(i, Settled, statusOk);
        if !done {
          return Err(StoreError);
        }
      }
      return Ok(Filled(amount, acc.reserved, acc.balance, |ledger|));
    }

    // ---------- cross-bank holds ----------

    method ReserveOutgoing(account: nat, amount: real, currency: string, key: string, saveOk: bool, createOk: bool)
      returns (r: Result<Outgoing, Failure>)
      modifies this
      ensures var c, before := Call.ReserveOutgoing(account, amount, currency, key), old(Contents());
        && Contents() == Step(before, c, r.Ok?)
        && (r.Ok? ==> Transact(before, c).Ok?)
        && (saveOk && createOk && Transact(before, c).Ok? ==> r.Ok?)
        && (Transact(before, c).Err? ==> r == Err(Transact(before, c).error))
      ensures r.Ok? ==> FindOut(outgoing, key) >= 0 && outgoing[FindOut(outgoing, key)] == r.value
      ensures amount <= 0.0 ==> r == Err(InvalidArgument)
      ensures amount > 0.0 && FindOut(old(outgoing), key) < 0 ==>
        && (account !in old(accounts) ==> r == Err(NotFound))
        && (account in old(accounts) ==>
              var a := old(accounts)[account];
              && (!a.active || a.currency != currency || a.available < amount ==> r == Err(FailedPrecondition))
              && (saveOk && createOk && a.active && a.currency == currency && a.available >= amount ==> r.Ok?)
              && (r.Ok? ==> OnlyMoved(old(Contents()), Contents(), account, 0.0, 0.0, -amount)
                            && r.value == Outgoing(account, key, amount, OutPending)))
    {
      ReserveOutgoingExactly(Contents(), Call.ReserveOutgoing(account, amount, currency, key));
      if amount <= 0.0 {
        return Err(InvalidArgument);
      }
      var i := FindOut(outgoing, key);
      if i >= 0 {
        return Ok(outgoing[i]);
      }
      var begin := Contents();
      r := ReserveOutgoingBody(account, amount, currency, key, saveOk, createOk);
      if r.Err? {
        RollBack(begin);
      }
    }

    method ReserveOutgoingBody(account: nat, amount: real, currency: string, key: string, saveOk: bool, createOk: bool)
      returns (r: Result<Outgoing, Failure>)
      requires amount > 0.0 && FindOut(outgoing, key) < 0
      modifies this
      ensures var t := Transact(old(Contents()), Call.ReserveOutgoing(account, amount, currency, key));
        && (t.Err? ==> r == Err(t.error))
        && (r.Ok? ==> t.Ok? && Contents() == t.value && r.value == outgoing[|outgoing| - 1])
        && (saveOk && createOk && t.Ok? ==> r.Ok?)
    {
      if account !in accounts {
        return Err(NotFound);
      }
      var acct := accounts[account];
      if !acct.active {
        return Err(FailedPrecondition);
      }
      if acct.currency != currency {
        return Err(FailedPrecondition);
      }
      if acct.available < amount {
        return Err(FailedPrecondition);
      }
      acct := acct.(available := acct.available - amount);
      if !saveOk {
        return Err(StoreError);
      }
      accounts := accounts[account := acct];
      var res := Outgoing(account, key, amount, OutPending);
      if !createOk {
        return Err(StoreError);
      }
      outgoing := outgoing + [res];
      return Ok(res);
    }

    /** UPDATE ... WHERE key AND status = pending: a row that is no longer pending is left alone, without an error. */
    method Mark(i: nat, status: OutStatus)
      requires i < |outgoing|
      modifies this`outgoing
      ensures outgoing == Marked(old(outgoing), i, status)
    {
      if outgoing[i].status.OutPending? {
        outgoing := outgoing[i := outgoing[i].(status := status)];
      }
    }

    /** The status is read before the transaction; `raced` says that it was pending then. */
    method SettleOutgoing(key: string, raced: bool, saveOk: bool, markOk: bool) returns (r: Result<Account, Failure>)
      modifies this
      ensures var c, before := Call.SettleOutgoing(key, raced), old(Contents());
        && Contents() == Step(before, c, r.Ok?)
        && (r.Ok? ==> Transact(before, c).Ok?)
        && (saveOk && markOk && Transact(before, c).Ok? ==> r.Ok?)
        && (Transact(before, c).Err? ==> r == Err(Transact(before, c).error))
      ensures var i := FindOut(outgoing, key);
        r.Ok? ==> i >= 0 && outgoing[i].account in accounts && r.value == accounts[outgoing[i].account]
    {
      var i := FindOut(outgoing, key);
      if i < 0 {
        return Err(NotFound);
      }
      var res := outgoing[i];
      var seen := if raced then OutPending else res.status;
      if seen.OutSettled? {
        if res.account !in accounts {
          return Err(NotFound);
        }
        return Ok(accounts[res.account]);
      }
      if !seen.OutPending? {
        return Err(FailedPrecondition);
      }
      if res.account !in accounts {
        return Err(StoreError);
      }
      var begin := Contents();
      var acct := accounts[res.account];
      var before := acct.balance;
      acct := acct.(balance := acct.balance - res.amount);
      if HasKey(ledger, OutgoingKey(key)) || !saveOk {
        return Err(StoreError);
      }
      accounts := accounts[res.account := acct];
      ledger := ledger + [Entry(res.account, false, res.amount, before, acct.balance, OutgoingKey(key))];
      if !markOk {
        RollBack(begin);
        return Err(StoreError);
      }
      Mark(i, OutSettled);
      FindOutKept(old(outgoing), outgoing, key);
      return Ok(acct);
    }

    method ReleaseOutgoing(key: string, raced: bool, saveOk: bool, markOk: bool) returns (r: Result<(), Failure>)
      modifies this
      ensures var c, before := Call.ReleaseOutgoing(key, raced), old(Contents());
        && Contents() == Step(before, c, r.Ok?)
        && (r.Ok? ==> Transact(before, c).Ok?)
        && (saveOk && markOk && Transact(before, c).Ok? ==> r.Ok?)
        && (Transact(before, c).Err? ==> r == Err(Transact(before, c).error))
    {
      var i := FindOut(outgoing, key);
      if i < 0 {
        return Err(NotFound);
      }
      var res := outgoing[i];
      if !raced && !res.status.OutPending? {
        return Ok(());
      }
      if res.account !in accounts {
        return Err(StoreError);
      }
      var begin := Contents();
      var acct := accounts[res.account];
      acct := acct.(available := acct.available + res.amount);
      if !saveOk {
        return Err(StoreError);
      }
      accounts := accounts[res.account := acct];
      if !markOk {
        RollBack(begin);
        return Err(StoreError);
      }
      Mark(i, OutReleased);
      return Ok(());
    }

    // ---------- the ledger ----------

    /** DebitWithLock: refused unless the account has that much available. */
    method DebitWithLock(account: nat, amount: real, saveOk: bool) returns (r: Result<Entry, Failure>)
      modifies this`accounts, this`ledger
      ensures account !in old(accounts) ==> r == Err(NotFound)
      ensures account in old(accounts) ==>
        var a := old(accounts)[account];
        && (a.available < amount ==> r == Err(FailedPrecondition))
        && (a.available >= amount ==> r == if saveOk then Ok(Entry(account, false, amount, a.balance, a.balance - amount, "")) else Err(StoreError))
      ensures r.Ok? ==> OnlyMoved(old(Contents()), Contents(), account, -amount, 0.0, -amount) && ledger == old(ledger) + [r.value]
      ensures r.Ok? ==> Contents() == Posted(old(Contents()), account, false, amount)
      ensures r.Err? ==> Contents() == old(Contents())
    {
      if account !in accounts {
        return Err(NotFound);
      }
      var acct := accounts[account];
      if acct.available < amount {
        return Err(FailedPrecondition);
      }
      var before := acct.balance;
      acct := acct.(balance := acct.balance - amount);
      acct := acct.(available := acct.available - amount);
      if !saveOk {
        return Err(StoreError);
      }
      accounts := accounts[account := acct];
      var entry := Entry(account, false, amount, before, acct.balance, "");
      ledger := ledger + [entry];
      return Ok(entry);
    }

    /** CreditWithLock: no check but that the account exists. */
    method CreditWithLock(account: nat, amount: real, saveOk: bool) returns (r: Result<Entry, Failure>)
      modifies this`accounts, this`ledger
      ensures account !in old(accounts) ==> r == Err(NotFound)
      ensures account in old(accounts) ==>
        var a := old(accounts)[account];
        r == if saveOk then Ok(Entry(account, true, amount, a.balance, a.balance + amount, "")) else Err(StoreError)
      ensures r.Ok? ==> OnlyMoved(old(Contents()), Contents(), account, amount, 0.0, amount) && ledger == old(ledger) + [r.value]
      ensures r.Ok? ==> Contents() == Posted(old(Contents()), account, true, amount)
      ensures r.Err? ==> Contents() == old(Contents())
    {
      if account !in accounts {
        return Err(NotFound);
      }
      var acct := accounts[account];
      var before := acct.balance;
      acct := acct.(balance := acct.balance + amount);
      acct := acct.(available := acct.available + amount);
      if !saveOk {
        return Err(StoreError);
      }
      accounts := accounts[account := acct];
      var entry := Entry(account, true, amount, before, acct.balance, "");
      ledger := ledger + [entry];
      return Ok(entry);
    }

    /** Transfer: both postings, or neither. */
    method Transfer(source: nat, target: nat, amount: real, debitOk: bool, creditOk: bool) returns (r: Result<(), Failure>)
      modifies this
      ensures var c, before := Call.Transfer(source, target, amount), old(Contents());
        && Contents() == Step(before, c, r.Ok?)
        && (r.Ok? ==> Transact(before, c).Ok?)
        && (debitOk && creditOk && Transact(before, c).Ok? ==> r.Ok?)
      ensures r.Ok? ==>
        && accounts.Keys == old(accounts).Keys && source in accounts && target in accounts
        && (source != target ==>
              && accounts[source].balance == old(accounts)[source].balance - amount
              && accounts[target].balance == old(accounts)[target].balance + amount)
      ensures r.Err? ==> Contents() == old(Contents())
    {
      var begin := Contents();
      if source in accounts && target in accounts && accounts[source].available >= amount {
        TransferArrives(begin, source, target, amount);
      }
      var debit := DebitWithLock(source, amount, debitOk);
      if debit.Err? {
        return Err(debit.error);
      }
      var credit := CreditWithLock(target, amount, creditOk);
      if credit.Err? {
        RollBack(begin);
        return Err(credit.error);
      }
      return Ok(());
    }

    // ---------- balance updates ----------

    method UpdateBalance(account: nat, amount: real, updateAvailable: bool, key: string, saveOk: bool, createOk: bool)
      returns (r: Result<Entry, Failure>)
      modifies this
      ensures var c, before := Call.UpdateBalance(account, amount, updateAvailable, key), old(Contents());
        && Contents() == Step(before, c, r.Ok?)
        && (r.Ok? ==> Transact(before, c).Ok?)
        && (saveOk && createOk && Transact(before, c).Ok? ==> r.Ok?)
        && (Transact(before, c).Err? ==> r == Err(Transact(before, c).error))
      ensures r.Ok? ==> r.value in ledger && r.value.key == key
      ensures r.Ok? && !(key != "" && HasKey(old(ledger), key)) ==>
        OnlyMoved(old(Contents()), Contents(), account, amount, 0.0, if updateAvailable then amount else 0.0)
    {
      UpdateMoves(Contents(), Call.UpdateBalance(account, amount, updateAvailable, key));
      if key != "" && HasKey(ledger, key) {
        var k :| 0 <= k < |ledger| && ledger[k].key == key;
        return Ok(ledger[k]);
      }
      if account !in accounts {
        return Err(NotFound);
      }
      var acct := accounts[account];
      var isDebit := amount < 0.0;
      if isDebit && acct.available + amount < 0.0 {
        return Err(FailedPrecondition);
      }
      var before := acct.balance;
      var after := before + amount;
      acct := acct.(balance := acct.balance + amount);
      if updateAvailable {
        acct := acct.(available := acct.available + amount);
      }
      if !saveOk || !createOk {
        return Err(StoreError);
      }
      accounts := accounts[account := acct];
      var amt := amount;
      if isDebit {
        amt := -amount;
      }
      var entry := Entry(account, !isDebit, amt, before, after, key);
      ledger := ledger + [entry];
      return Ok(entry);
    }

    // ---------- the category of an account ----------

    /** SetAccountCategory, from its unlocked load on: `read` is what the load returned. */
    method SaveAccount(account: nat, read: Account, saveOk: bool) returns (r: Result<(), Failure>)
      modifies this
      ensures var c, before := Call.SaveAccount(account, read), old(Contents());
        && Contents() == Step(before, c, r.Ok?)
        && (saveOk && Transact(before, c).Ok? ==> r.Ok?)
        && (Transact(before, c).Err? ==> r == Err(Transact(before, c).error))
    {
      if account !in accounts {
        return Err(NotFound);
      }
      if !saveOk {
        return Err(StoreError);
      }
      accounts := accounts[account := read];
      return Ok(());
    }
  }

  /** Marking a row does not move it. */
  lemma {:induction false} FindOutKept(outs: seq<Outgoing>, outs': seq<Outgoing>, key: string)
    requires |outs| == |outs'| && forall i :: 0 <= i < |outs| ==> outs[i].key == outs'[i].key
    ensures FindOut(outs', key) == FindOut(outs, key)
  {
    if outs != [] {
      FindOutKept(outs[..|outs| - 1], outs'[..|outs| - 1], key);
    }
  }
}
