/**
 What each call on the account service's tables is accepted for, which error refuses it, and what it
 moves: amount by amount, row by row and entry by entry. Over histories it follows where money can
 come from and go to.
 */
module AccountLaws {
  import opened Wrappers
  import opened Reservations

  /** The account with its three amounts moved and nothing else changed. */
  function Moved(a: Account, balance: real, reserved: real, available: real): Account {
    Account(a.currency, a.active, a.balance + balance, a.reserved + reserved, a.available + available)
  }

  /** Of all accounts only this one changes, and only by these amounts. */
  predicate OnlyMoved(db: Db, db': Db, account: nat, balance: real, reserved: real, available: real) {
    account in db.accounts && db'.accounts == db.accounts[account := Moved(db.accounts[account], balance, reserved, available)]
  }

  predicate HoldsSame(db: Db, db': Db) { db'.rows == db.rows && db'.settlements == db.settlements }

  /** The call is refused with this error. */
  predicate Refused(db: Db, c: Call, e: Failure) { Transact(db, c) == Err(e) }

  // ---------- holds ----------

  /** A new hold: the requested currency and enough available money, and then exactly the amount is held. */
  lemma ReserveNewExactly(db: Db, c: Call)
    requires c.ReserveFunds? && Find(db.rows, c.order, KindOf(c.kind)) < 0
    ensures Transact(db, c).Ok? <==>
      c.amount > 0.0 && c.account in db.accounts
      && db.accounts[c.account].currency == c.currency && db.accounts[c.account].available >= c.amount
    ensures c.amount <= 0.0 ==> Refused(db, c, InvalidArgument)
    ensures c.amount > 0.0 && c.account !in db.accounts ==> Refused(db, c, NotFound)
    ensures c.amount > 0.0 && c.account in db.accounts && Transact(db, c).Err? ==> Refused(db, c, FailedPrecondition)
    ensures Transact(db, c).Ok? ==>
      var db' := Transact(db, c).value;
      && OnlyMoved(db, db', c.account, 0.0, c.amount, -c.amount)
      && db'.rows == db.rows + [Row(c.account, c.order, if c.kind == "" then "stock_order" else c.kind, c.amount, Active)]
      && db'.settlements == db.settlements && db'.outgoing == db.outgoing && db'.ledger == db.ledger
  {
  }

  /** A retry for a key that is taken: the same conditions, and for a finished reservation its whole amount besides. */
  lemma ReserveAgainExactly(db: Db, c: Call)
    requires c.ReserveFunds? && Find(db.rows, c.order, KindOf(c.kind)) >= 0
    ensures var row := db.rows[Find(db.rows, c.order, KindOf(c.kind))];
      Transact(db, c).Ok? <==>
        c.amount > 0.0 && c.account in db.accounts
        && db.accounts[c.account].currency == c.currency && db.accounts[c.account].available >= c.amount
        && (row.status == Active || db.accounts[c.account].available >= row.amount)
    ensures c.amount <= 0.0 ==> Refused(db, c, InvalidArgument)
    ensures c.amount > 0.0 && c.account !in db.accounts ==> Refused(db, c, NotFound)
    ensures c.amount > 0.0 && c.account in db.accounts && Transact(db, c).Err? ==> Refused(db, c, FailedPrecondition)
    ensures Transact(db, c).Ok? ==>
      var db', i := Transact(db, c).value, Find(db.rows, c.order, KindOf(c.kind));
      if db.rows[i].status == Active then db' == db
      else && OnlyMoved(db, db', c.account, 0.0, db.rows[i].amount, -db.rows[i].amount)
           && db'.rows == db.rows[i := db.rows[i].(status := Active)]
           && db'.settlements == Without(db.settlements, i) && db'.outgoing == db.outgoing && db'.ledger == db.ledger
  {
  }

  /** Both at once. */
  lemma ReserveAccepted(db: Db, c: Call)
    requires c.ReserveFunds?
    ensures Transact(db, c).Ok? ==>
      c.amount > 0.0 && c.account in db.accounts
      && db.accounts[c.account].currency == c.currency && db.accounts[c.account].available >= c.amount
    ensures c.amount > 0.0 && c.account !in db.accounts ==> Refused(db, c, NotFound)
    ensures c.amount > 0.0 && c.account in db.accounts && Transact(db, c).Err? ==> Refused(db, c, FailedPrecondition)
    ensures Find(db.rows, c.order, KindOf(c.kind)) < 0 && c.amount > 0.0 && c.account in db.accounts ==>
      var a := db.accounts[c.account];
      (a.currency == c.currency && a.available >= c.amount ==>
         Transact(db, c).Ok? && OnlyMoved(db, Transact(db, c).value, c.account, 0.0, c.amount, -c.amount))
  {
    if Find(db.rows, c.order, KindOf(c.kind)) < 0 {
      ReserveNewExactly(db, c);
    } else {
      ReserveAgainExactly(db, c);
    }
  }

  /** A release returns what is still open to the available balance and closes the reservation. */
  lemma ReleaseExactly(db: Db, c: Call)
    requires Inv(db) && c.Release?
    ensures Transact(db, c).Ok?
    ensures var db', i := Transact(db, c).value, Find(db.rows, c.order, KindOf(c.kind));
      if i < 0 || db.rows[i].status != Active then db' == db
      else var open := db.rows[i].amount - SettledSum(db.settlements, i);
           && OnlyMoved(db, db', db.rows[i].account, 0.0, -open, open)
           && db'.rows == db.rows[i := db.rows[i].(status := Released)]
           && db'.settlements == db.settlements && db'.outgoing == db.outgoing && db'.ledger == db.ledger
  {
    var i := Find(db.rows, c.order, KindOf(c.kind));
    if i >= 0 && db.rows[i].status.Active? {
      ClampsNeverFire(db, i);
    }
  }

  /** A fill needs a positive amount and an active reservation with enough left. */
  lemma SettleAccepted(db: Db, c: Call)
    requires c.Settle?
    ensures var i := Find(db.rows, c.order, KindOf(c.kind));
      && (Transact(db, c).Ok? <==>
            c.amount > 0.0 && i >= 0 && db.rows[i].status == Active && db.rows[i].account in db.accounts
            && SettledSum(db.settlements, i) + c.amount <= db.rows[i].amount)
      && (c.amount <= 0.0 ==> Refused(db, c, InvalidArgument))
      && (c.amount > 0.0 && Transact(db, c).Err? ==>
            Refused(db, c, if i >= 0 && db.rows[i].status == Active && db.rows[i].account !in db.accounts
                           then StoreError else FailedPrecondition))
  {
  }

  /** A fill takes balance and hold together, is entered as a debit, and closes the reservation when it is the last. */
  lemma SettleMoves(db: Db, c: Call)
    requires Inv(db) && c.Settle? && Transact(db, c).Ok?
    ensures var db', i := Transact(db, c).value, Find(db.rows, c.order, KindOf(c.kind));
      if HasTxn(db.settlements, c.txn) then db' == db
      else
        && i >= 0
        && var row := db.rows[i];
        && OnlyMoved(db, db', row.account, -c.amount, -c.amount, 0.0)
        && db'.settlements == db.settlements + [Settlement(c.txn, i, c.amount)] && db'.outgoing == db.outgoing
        && db'.rows == (if SettledSum(db.settlements, i) + c.amount == row.amount
                        then db.rows[i := row.(status := Settled)] else db.rows)
        && db'.ledger == db.ledger + [Entry(row.account, false, c.amount, db.accounts[row.account].balance,
                                            db.accounts[row.account].balance - c.amount, "")]
  {
    ClampsNeverFire(db, Find(db.rows, c.order, KindOf(c.kind)));
  }

  // ---------- cross-bank holds ----------

  lemma ReserveOutgoingExactly(db: Db, c: Call)
    requires c.ReserveOutgoing?
    ensures Transact(db, c).Ok? <==>
      c.amount > 0.0
      && (FindOut(db.outgoing, c.key) >= 0
          || (c.account in db.accounts && db.accounts[c.account].active
              && db.accounts[c.account].currency == c.currency && db.accounts[c.account].available >= c.amount))
    ensures c.amount <= 0.0 ==> Refused(db, c, InvalidArgument)
    ensures c.amount > 0.0 && Transact(db, c).Err? ==>
      Refused(db, c, if c.account in db.accounts then FailedPrecondition else NotFound)
    ensures Transact(db, c).Ok? ==>
      var db' := Transact(db, c).value;
      if FindOut(db.outgoing, c.key) >= 0 then db' == db
      else && OnlyMoved(db, db', c.account, 0.0, 0.0, -c.amount) && HoldsSame(db, db') && db'.ledger == db.ledger
           && db'.outgoing == db.outgoing + [Outgoing(c.account, c.key, c.amount, OutPending)]
  {
  }

  /** A settlement of a cross-bank hold whose status is current. */
  lemma SettleOutgoingExactly(db: Db, c: Call)
    requires Inv(db) && c.SettleOutgoing? && !c.raced
    ensures var i := FindOut(db.outgoing, c.key);
      && (i < 0 ==> Refused(db, c, NotFound))
      && (i >= 0 && db.outgoing[i].status == OutSettled ==> Transact(db, c) == Ok(db))
      && (i >= 0 && db.outgoing[i].status == OutReleased ==> Refused(db, c, FailedPrecondition))
      && (i >= 0 && db.outgoing[i].status == OutPending ==>
            if HasKey(db.ledger, "outgoing-" + c.key) then Refused(db, c, StoreError)
            else Transact(db, c).Ok? && Settles(db, Transact(db, c).value, i))
  {
  }

  /** The pending hold i has left the balance. */
  predicate Settles(db: Db, db': Db, i: nat)
    requires i < |db.outgoing|
  {
    var out := db.outgoing[i];
    && OnlyMoved(db, db', out.account, -out.amount, 0.0, 0.0) && HoldsSame(db, db')
    && db'.outgoing == db.outgoing[i := out.(status := OutSettled)]
    && db'.ledger == db.ledger + [Entry(out.account, false, out.amount, db.accounts[out.account].balance,
                                        db.accounts[out.account].balance - out.amount, "outgoing-" + out.key)]
  }

  lemma ReleaseOutgoingExactly(db: Db, c: Call)
    requires Inv(db) && c.ReleaseOutgoing? && !c.raced
    ensures var i := FindOut(db.outgoing, c.key);
      && (i < 0 ==> Refused(db, c, NotFound))
      && (i >= 0 && db.outgoing[i].status != OutPending ==> Transact(db, c) == Ok(db))
      && (i >= 0 && db.outgoing[i].status == OutPending ==>
            Transact(db, c).Ok? &&
            var db', out := Transact(db, c).value, db.outgoing[i];
            && OnlyMoved(db, db', out.account, 0.0, 0.0, out.amount) && HoldsSame(db, db') && db'.ledger == db.ledger
            && db'.outgoing == db.outgoing[i := out.(status := OutReleased)])
  {
  }

  /** A settlement or release that comes late moves the money all the same and leaves the finished row as it is. */
  lemma LateMoves(db: Db, c: Call)
    requires Late(db, c)
    ensures Transact(db, c).Ok?
    ensures var db', out := Transact(db, c).value, db.outgoing[FindOut(db.outgoing, c.key)];
      && db'.outgoing == db.outgoing && HoldsSame(db, db')
      && (c.SettleOutgoing? ==> OnlyMoved(db, db', out.account, -out.amount, 0.0, 0.0) && |db'.ledger| == |db.ledger| + 1)
      && (c.ReleaseOutgoing? ==> OnlyMoved(db, db', out.account, 0.0, 0.0, out.amount) && db'.ledger == db.ledger)
  {
  }

  // ---------- postings ----------

  lemma CreditExactly(db: Db, c: Call)
    requires c.Credit?
    ensures Transact(db, c).Ok? <==> c.account in db.accounts
    ensures Transact(db, c).Err? ==> Refused(db, c, NotFound)
    ensures Transact(db, c).Ok? ==>
      var db', before := Transact(db, c).value, db.accounts[c.account].balance;
      && OnlyMoved(db, db', c.account, c.amount, 0.0, c.amount) && HoldsSame(db, db') && db'.outgoing == db.outgoing
      && db'.ledger == db.ledger + [Entry(c.account, true, c.amount, before, before + c.amount, "")]
  {
  }

  lemma DebitExactly(db: Db, c: Call)
    requires c.Debit?
    ensures Transact(db, c).Ok? <==> c.account in db.accounts && db.accounts[c.account].available >= c.amount
    ensures Transact(db, c).Err? ==> Refused(db, c, if c.account in db.accounts then FailedPrecondition else NotFound)
    ensures Transact(db, c).Ok? ==>
      var db', before := Transact(db, c).value, db.accounts[c.account].balance;
      && OnlyMoved(db, db', c.account, -c.amount, 0.0, -c.amount) && HoldsSame(db, db') && db'.outgoing == db.outgoing
      && db'.ledger == db.ledger + [Entry(c.account, false, c.amount, before, before - c.amount, "")]
  {
  }

  lemma DebitBankExactly(db: Db, c: Call)
    requires c.DebitBank?
    ensures Transact(db, c).Ok? <==> c.amount > 0.0 && c.account in db.accounts && db.accounts[c.account].balance >= c.amount
    ensures c.amount <= 0.0 ==> Refused(db, c, InvalidArgument)
    ensures c.amount > 0.0 && Transact(db, c).Err? ==>
      Refused(db, c, if c.account in db.accounts then FailedPrecondition else NotFound)
    ensures Transact(db, c).Ok? ==>
      var db', before := Transact(db, c).value, db.accounts[c.account].balance;
      && OnlyMoved(db, db', c.account, -c.amount, 0.0, -c.amount) && HoldsSame(db, db') && db'.outgoing == db.outgoing
      && db'.ledger == db.ledger + [Entry(c.account, false, c.amount, before, before - c.amount, "")]
  {
  }

  /** What a transfer adds to one account: minus the amount at the source, plus the amount at the target. */
  function Share(c: Call, account: nat): real
    requires c.Transfer?
  {
    (if account == c.target then c.amount else 0.0) - (if account == c.source then c.amount else 0.0)
  }

  /** One debit at the source, then one credit at the target, of the amount. */
  function TransferEntries(db: Db, c: Call): seq<Entry>
    requires c.Transfer? && c.source in db.accounts && c.target in db.accounts
  {
    var s := db.accounts[c.source].balance;
    var t := if c.target == c.source then s - c.amount else db.accounts[c.target].balance;
    [Entry(c.source, false, c.amount, s, s - c.amount, ""), Entry(c.target, true, c.amount, t, t + c.amount, "")]
  }

  /** A transfer takes the amount from the source, brings it to the target, and enters both. */
  lemma TransferMoves(db: Db, c: Call)
    requires c.Transfer?
    ensures Transact(db, c).Ok? <==>
      c.source in db.accounts && c.target in db.accounts && db.accounts[c.source].available >= c.amount
    ensures Transact(db, c).Err? ==>
      Refused(db, c, if c.source in db.accounts && db.accounts[c.source].available < c.amount then FailedPrecondition else NotFound)
    ensures Transact(db, c).Ok? ==>
      var db' := Transact(db, c).value;
      && db'.accounts.Keys == db.accounts.Keys && HoldsSame(db, db') && db'.outgoing == db.outgoing
      && (forall a :: a in db.accounts ==> db'.accounts[a] == Moved(db.accounts[a], Share(c, a), 0.0, Share(c, a)))
      && db'.ledger == db.ledger + TransferEntries(db, c)
  {
    if Transact(db, c).Ok? {
      var mid := Posted(db, c.source, false, c.amount);
      assert Transact(db, c).value == Posted(mid, c.target, true, c.amount);
      assert db.ledger + [TransferEntries(db, c)[0]] + [TransferEntries(db, c)[1]] == db.ledger + TransferEntries(db, c);
    }
  }

  /** In short: how two accounts' balances end. */
  lemma TransferArrives(db: Db, source: nat, target: nat, amount: real)
    requires source in db.accounts && target in db.accounts && db.accounts[source].available >= amount
    ensures Transact(db, Transfer(source, target, amount)) == Ok(Posted(Posted(db, source, false, amount), target, true, amount))
    ensures var after := Posted(Posted(db, source, false, amount), target, true, amount).accounts;
      && after.Keys == db.accounts.Keys
      && (source != target ==>
            && after[source].balance == db.accounts[source].balance - amount
            && after[target].balance == db.accounts[target].balance + amount)
  {
  }

  /** A balance update moves the balance by its signed amount, once per key. */
  lemma UpdateMoves(db: Db, c: Call)
    requires c.UpdateBalance?
    ensures var used := c.key != "" && HasKey(db.ledger, c.key);
      && (Transact(db, c).Ok? <==>
            used || (c.account in db.accounts && (c.amount >= 0.0 || db.accounts[c.account].available >= -c.amount)))
      && (Transact(db, c).Err? ==> Refused(db, c, if c.account in db.accounts then FailedPrecondition else NotFound))
      && (used ==> Transact(db, c) == Ok(db))
      && (!used && Transact(db, c).Ok? ==>
            var db', before := Transact(db, c).value, db.accounts[c.account].balance;
            && OnlyMoved(db, db', c.account, c.amount, 0.0, if c.updateAvailable then c.amount else 0.0)
            && HoldsSame(db, db') && db'.outgoing == db.outgoing
            && db'.ledger == db.ledger + [if c.amount < 0.0 then Entry(c.account, false, -c.amount, before, before + c.amount, c.key)
                                          else Entry(c.account, true, c.amount, before, before + c.amount, c.key)])
  {
  }

  // ---------- where money comes from and goes to ----------

  /** The balances of all accounts with numbers below n. */
  function Total(db: Db, n: nat): real {
    if n == 0 then 0.0 else Total(db, n - 1) + (if n - 1 in db.accounts then db.accounts[n - 1].balance else 0.0)
  }

  /** Money entering the bank by a committed call, or leaving it; none in a transfer, a hold or a release. */
  function Inflow(db: Db, c: Call): real {
    match c
    case Credit(_, amount) => amount
    case Debit(_, amount) => -amount
    case DebitBank(_, amount) => -amount
    case UpdateBalance(_, amount, _, key) => if key != "" && HasKey(db.ledger, key) then 0.0 else amount
    case Settle(_, _, txn, amount) => if HasTxn(db.settlements, txn) then 0.0 else -amount
    case SettleOutgoing(key, raced) =>
      var i := FindOut(db.outgoing, key);
      if i >= 0 && (raced || db.outgoing[i].status == OutPending) then -db.outgoing[i].amount else 0.0
    case SaveAccount(account, read) => if account in db.accounts then read.balance - db.accounts[account].balance else 0.0
    case _ => 0.0
  }

  /** What one account's balance gains. */
  function Gain(db: Db, db': Db, a: nat): real {
    (if a in db'.accounts then db'.accounts[a].balance else 0.0) - (if a in db.accounts then db.accounts[a].balance else 0.0)
  }

  /** If only one account's balance changes, the total changes by that much. */
  lemma {:induction false} TotalOne(db: Db, db': Db, account: nat, n: nat)
    requires forall a :: a != account ==> Gain(db, db', a) == 0.0
    ensures Total(db', n) == Total(db, n) + (if account < n then Gain(db, db', account) else 0.0)
  {
    if n > 0 {
      TotalOne(db, db', account, n - 1);
      assert n - 1 != account ==> Gain(db, db', n - 1) == 0.0;
    }
  }

  lemma {:induction false} TotalShares(db: Db, db': Db, c: Call, n: nat)
    requires c.Transfer? && forall a :: Gain(db, db', a) == Share(c, a)
    ensures Total(db', n) == Total(db, n) + (if c.target < n then c.amount else 0.0) - (if c.source < n then c.amount else 0.0)
  {
    if n > 0 {
      TotalShares(db, db', c, n - 1);
      assert Gain(db, db', n - 1) == Share(c, n - 1);
    }
  }

  /** The account whose balance a call other than a transfer may change. */
  function Touched(db: Db, c: Call): nat {
    match c
    case Credit(account, _) => account
    case Debit(account, _) => account
    case DebitBank(account, _) => account
    case UpdateBalance(account, _, _, _) => account
    case SaveAccount(account, _) => account
    case Settle(order, kind, _, _) => var i := Find(db.rows, order, KindOf(kind)); if i < 0 then 0 else db.rows[i].account
    case SettleOutgoing(key, _) => var i := FindOut(db.outgoing, key); if i < 0 then 0 else db.outgoing[i].account
    case _ => 0
  }

  lemma GainsAre(db: Db, c: Call, a: nat)
    requires !c.Transfer? && Transact(db, c).Ok?
    ensures Gain(db, Transact(db, c).value, a) == if a == Touched(db, c) then Inflow(db, c) else 0.0
    ensures Inflow(db, c) == 0.0 || Touched(db, c) in db.accounts
  {
  }

  lemma TransferGains(db: Db, c: Call, a: nat)
    requires c.Transfer? && Transact(db, c).Ok?
    ensures Gain(db, Transact(db, c).value, a) == Share(c, a)
  {
    TransferMoves(db, c);
  }

  /** All account numbers are below n. */
  predicate Below(db: Db, n: nat) {
    forall a :: a in db.accounts ==> a < n
  }

  /** One call changes the total of all balances by exactly what flows in or out; a transfer never does. */
  lemma StepConserves(db: Db, c: Call, commits: bool, n: nat)
    requires Below(db, n)
    ensures Below(Step(db, c, commits), n)
    ensures Total(Step(db, c, commits), n) == Total(db, n) + (if commits && Transact(db, c).Ok? then Inflow(db, c) else 0.0)
  {
    if commits && Transact(db, c).Ok? {
      var db' := Transact(db, c).value;
      if c.Transfer? {
        forall a
          ensures Gain(db, db', a) == Share(c, a)
        {
          TransferGains(db, c, a);
        }
        TransferMoves(db, c);
        TotalShares(db, db', c, n);
      } else {
        forall a
          ensures Gain(db, db', a) == if a == Touched(db, c) then Inflow(db, c) else 0.0
        {
          GainsAre(db, c, a);
        }
        GainsAre(db, c, 0);
        TotalOne(db, db', Touched(db, c), n);
        KeysStay(db, c);
      }
    }
  }

  lemma KeysStay(db: Db, c: Call)
    requires Transact(db, c).Ok?
    ensures Transact(db, c).value.accounts.Keys == db.accounts.Keys
  {
  }

  /** What flows in, less what flows out, over the first n calls. */
  function Inflows(db: Db, calls: seq<(Call, bool)>, n: nat): real
    requires n <= |calls|
  {
    if n == 0 then 0.0
    else
      var now, c := Run(db, calls, n - 1), calls[n - 1].0;
      Inflows(db, calls, n - 1) + (if calls[n - 1].1 && Transact(now, c).Ok? then Inflow(now, c) else 0.0)
  }

  /** Over every history the total of all balances is what it was plus what flowed in less what flowed out. */
  lemma {:induction false} MoneyIsConserved(db: Db, calls: seq<(Call, bool)>, n: nat, bound: nat)
    requires n <= |calls| && Below(db, bound)
    ensures Below(Run(db, calls, n), bound)
    ensures Total(Run(db, calls, n), bound) == Total(db, bound) + Inflows(db, calls, n)
  {
    if n > 0 {
      MoneyIsConserved(db, calls, n - 1, bound);
      StepConserves(Run(db, calls, n - 1), calls[n - 1].0, calls[n - 1].1, bound);
    }
  }
}
