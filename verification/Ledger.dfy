/**
 The ledger behind the account balances (account-service/internal/repository/ledger_repository.go)
 and its reconciliation (account-service/internal/service/ledger_service.go): every balance change
 of every transaction is on the ledger, exactly once.
 */
module Ledger {
  import opened Wrappers
  import opened Reservations

  // ---------- reconciliation ----------

  /** SELECT COALESCE(SUM(amount), 0), one entry type of one account. */
  function Total(ledger: seq<Entry>, account: nat, credit: bool): real {
    if ledger == [] then 0.0
    else
      var e := ledger[|ledger| - 1];
      Total(ledger[..|ledger| - 1], account, credit)
      + (if e.account == account && e.credit == credit then e.amount else 0.0)
  }

  function Net(ledger: seq<Entry>, account: nat): real {
    Total(ledger, account, true) - Total(ledger, account, false)
  }

  /** The stored balance matches the ledger. */
  predicate Reconciles(db: Db, account: nat) {
    account in db.accounts && db.accounts[account].balance == Net(db.ledger, account)
  }

  lemma NetSnoc(ledger: seq<Entry>, e: Entry, account: nat)
    ensures Net(ledger + [e], account) == Net(ledger, account)
      + (if e.account == account then Signed(e.credit, e.amount) else 0.0)
  {
    assert (ledger + [e])[..|ledger|] == ledger;
  }

  /** What the balance holds beyond the ledger: an opening balance that was never posted. */
  function Unposted(db: Db, account: nat): real
    requires account in db.accounts
  {
    db.accounts[account].balance - Net(db.ledger, account)
  }

  /** The new balance differs from the old one by the amount the entry states. */
  predicate Honest(db: Db, target: nat, a: Account, credit: bool, amount: real)
    requires target in db.accounts
  {
    a.balance == db.accounts[target].balance + Signed(credit, amount)
  }

  lemma BookUnposted(db: Db, target: nat, a: Account, credit: bool, amount: real, key: string, account: nat)
    requires target in db.accounts && account in db.accounts && Honest(db, target, a, credit, amount)
    ensures Unposted(Book(db, target, a, credit, amount, key), account) == Unposted(db, account)
  {
    NetSnoc(db.ledger, Entry(target, credit, amount, db.accounts[target].balance, a.balance, key), account);
  }

  lemma PostedUnposted(db: Db, target: nat, credit: bool, amount: real, account: nat)
    requires target in db.accounts && account in db.accounts
    ensures Unposted(Posted(db, target, credit, amount), account) == Unposted(db, account)
  {
    BookUnposted(db, target, Posted(db, target, credit, amount).accounts[target], credit, amount, "", account);
  }

  /** The three calls that book a change of their own kind do it honestly. */
  lemma OtherBookings(db: Db, c: Call)
    requires c.Settle? || c.SettleOutgoing? || c.UpdateBalance?
    requires Transact(db, c).Ok? && Transact(db, c).value != db
    ensures exists target, a, credit, amount, key :: Books(db, Transact(db, c).value, target, a, credit, amount, key)
  {
    var db' := Transact(db, c).value;
    if c.Settle? {
      var t := db.rows[Find(db.rows, c.order, KindOf(c.kind))].account;
      assert Books(db, db', t, db'.accounts[t], false, c.amount, "");
    } else if c.SettleOutgoing? {
      var out := db.outgoing[FindOut(db.outgoing, c.key)];
      assert Books(db, db', out.account, db'.accounts[out.account], false, out.amount, OutgoingKey(c.key));
    } else {
      assert Books(db, db', c.account, db'.accounts[c.account], c.amount >= 0.0, if c.amount < 0.0 then -c.amount else c.amount, c.key);
    }
  }

  /** Accounts and ledger change by one honest booking, whose key is new. */
  predicate Books(db: Db, db': Db, target: nat, a: Account, credit: bool, amount: real, key: string) {
    && target in db.accounts && Honest(db, target, a, credit, amount)
    && db'.accounts == Book(db, target, a, credit, amount, key).accounts
    && db'.ledger == Book(db, target, a, credit, amount, key).ledger
    && (key == "" || !HasKey(db.ledger, key))
  }

  /** Every other call but a posting leaves balances and ledger alone. */
  lemma NoBooking(db: Db, c: Call, commits: bool, account: nat)
    requires account in db.accounts
    requires c.ReserveFunds? || c.Release? || c.ReserveOutgoing? || c.ReleaseOutgoing?
    ensures var db' := Step(db, c, commits);
      db'.ledger == db.ledger && account in db'.accounts && db'.accounts[account].balance == db.accounts[account].balance
  {
  }

  predicate Posts(c: Call) { c.Credit? || c.Debit? || c.Transfer? || c.DebitBank? }

  lemma PostsUnposted(db: Db, c: Call, account: nat)
    requires Posts(c) && Transact(db, c).Ok? && account in db.accounts
    ensures account in Transact(db, c).value.accounts
    ensures Unposted(Transact(db, c).value, account) == Unposted(db, account)
  {
    if c.Credit? {
      PostedUnposted(db, c.account, true, c.amount, account);
    } else if c.Transfer? {
      PostedUnposted(db, c.source, false, c.amount, account);
      PostedUnposted(Posted(db, c.source, false, c.amount), c.target, true, c.amount, account);
    } else {
      PostedUnposted(db, c.account, false, c.amount, account);
    }
  }

  /** The call saves the account row with another balance than it now has. */
  predicate Drops(db: Db, c: Call, commits: bool, account: nat) {
    commits && c.SaveAccount? && c.account == account && account in db.accounts && c.read.balance != db.accounts[account].balance
  }

  /**
   Whatever the call, whether it is refused, commits or fails, balance and ledger move together,
   exactly unless an account row is saved over a changed balance.
   */
  lemma StepUnposted(db: Db, c: Call, commits: bool, account: nat)
    requires account in db.accounts
    ensures account in Step(db, c, commits).accounts
    ensures Unposted(Step(db, c, commits), account) == Unposted(db, account) <==> !Drops(db, c, commits, account)
  {
    var db' := Step(db, c, commits);
    if c.ReserveFunds? || c.Release? || c.ReserveOutgoing? || c.ReleaseOutgoing? {
      NoBooking(db, c, commits, account);
    } else if db' != db && !c.SaveAccount? {
      if Posts(c) {
        PostsUnposted(db, c, account);
      } else {
        OtherBookings(db, c);
        var target, a, credit, amount, key :| Books(db, db', target, a, credit, amount, key);
        BookUnposted(db, target, a, credit, amount, key, account);
      }
    }
  }

  /** After each of the first n calls the account is off by what it was at first, and reconciles as it did. */
  predicate AlwaysOffBy(db: Db, calls: seq<(Call, bool)>, n: nat, account: nat, off: real)
    requires n <= |calls|
  {
    && (n == 0 || AlwaysOffBy(db, calls, n - 1, account, off))
    && account in Run(db, calls, n).accounts && Unposted(Run(db, calls, n), account) == off
  }

  /** None of the first n calls saves the account row over a changed balance. */
  predicate NeverDropped(db: Db, calls: seq<(Call, bool)>, n: nat, account: nat)
    requires n <= |calls|
  {
    n == 0 || (NeverDropped(db, calls, n - 1, account) && !Drops(Run(db, calls, n - 1), calls[n - 1].0, calls[n - 1].1, account))
  }

  /**
   Over every history of calls an account is off from the ledger by the same amount throughout
   exactly when no call saves its row over a changed balance; without such a save reconciliation
   never changes its verdict.
   */
  lemma {:induction false} ReconciliationExactly(db: Db, calls: seq<(Call, bool)>, n: nat, account: nat)
    requires account in db.accounts && n <= |calls|
    ensures account in Run(db, calls, n).accounts
    ensures AlwaysOffBy(db, calls, n, account, Unposted(db, account)) <==> NeverDropped(db, calls, n, account)
    ensures NeverDropped(db, calls, n, account) ==> (Reconciles(Run(db, calls, n), account) <==> Reconciles(db, account))
  {
    if n > 0 {
      ReconciliationExactly(db, calls, n - 1, account);
      StepUnposted(Run(db, calls, n - 1), calls[n - 1].0, calls[n - 1].1, account);
    }
  }

  /** ReconcileBalance reports an error: a query fails, or the balance does not match. */
  predicate Mismatch(db: Db, failing: set<nat>, account: nat) {
    account in db.accounts && (account in failing || !Reconciles(db, account))
  }

  /** CheckAllBalances: every failed query counts as a mismatch, but a failed load of the accounts as none. */
  method CheckAllBalances(db: Db, loadOk: bool, failing: set<nat>) returns (mismatches: nat)
    ensures mismatches == if loadOk then |set a | a in db.accounts && Mismatch(db, failing, a)| else 0
  {
    mismatches := 0;
    if !loadOk {
      return;
    }
    var todo := db.accounts.Keys;
    ghost var bad: set<nat> := {};
    while todo != {}
      invariant todo <= db.accounts.Keys && bad !! todo
      invariant mismatches == |bad|
      invariant forall a :: a in db.accounts && a !in todo ==> (a in bad <==> Mismatch(db, failing, a))
      invariant bad <= db.accounts.Keys
      decreases |todo|
    {
      var a :| a in todo;
      todo := todo - {a};
      if a in failing || !Reconciles(db, a) {
        bad := bad + {a};
        mismatches := mismatches + 1;
      }
    }
    assert bad == set a | a in db.accounts && Mismatch(db, failing, a);
  }

  // ---------- the chain of entries ----------

  /** The balance the account's latest entry leaves, if it has one. */
  function Latest(ledger: seq<Entry>, account: nat): Option<real> {
    if ledger == [] then None
    else if ledger[|ledger| - 1].account == account then Some(ledger[|ledger| - 1].after)
    else Latest(ledger[..|ledger| - 1], account)
  }

  /** The entry starts where the account's previous one ended, and its two balances differ by its amount. */
  predicate Links(ledger: seq<Entry>, k: nat)
    requires k < |ledger|
  {
    var e := ledger[k];
    && e.after == e.before + Signed(e.credit, e.amount)
    && (Latest(ledger[..k], e.account).Some? ==> Latest(ledger[..k], e.account).value == e.before)
  }

  /** Every entry links to its predecessor, and every balance is what the latest entry left. */
  predicate Chained(db: Db) {
    && (forall k :: 0 <= k < |db.ledger| ==> Links(db.ledger, k))
    && (forall a :: a in db.accounts && Latest(db.ledger, a).Some? ==> db.accounts[a].balance == Latest(db.ledger, a).value)
  }

  lemma BookChains(db: Db, db': Db, target: nat, a: Account, credit: bool, amount: real, key: string)
    requires Chained(db) && Books(db, db', target, a, credit, amount, key)
    ensures Chained(db')
  {
    var n := |db.ledger|;
    assert db'.ledger[..n] == db.ledger;
    forall k | 0 <= k < |db'.ledger|
      ensures Links(db'.ledger, k)
    {
      assert k <= n;
      assert db'.ledger[..k] == db.ledger[..k];
      if k < n {
        assert Links(db.ledger, k);
      } else {
        assert db.ledger[..k] == db.ledger;
      }
    }
  }

  lemma PostedBooks(db: Db, account: nat, credit: bool, amount: real)
    requires account in db.accounts
    ensures var db' := Posted(db, account, credit, amount); Books(db, db', account, db'.accounts[account], credit, amount, "")
  {
  }

  lemma PostedChains(db: Db, account: nat, credit: bool, amount: real)
    requires Chained(db) && account in db.accounts
    ensures Chained(Posted(db, account, credit, amount))
  {
    var db' := Posted(db, account, credit, amount);
    PostedBooks(db, account, credit, amount);
    BookChains(db, db', account, db'.accounts[account], credit, amount, "");
  }

  lemma PostsChain(db: Db, c: Call)
    requires Chained(db) && Posts(c) && Transact(db, c).Ok?
    ensures Chained(Transact(db, c).value)
  {
    if c.Credit? {
      PostedChains(db, c.account, true, c.amount);
    } else if c.Transfer? {
      PostedChains(db, c.source, false, c.amount);
      PostedChains(Posted(db, c.source, false, c.amount), c.target, true, c.amount);
    } else {
      PostedChains(db, c.account, false, c.amount);
    }
  }

  /** The call saves an account row with another balance than the account's last entry left. */
  predicate Unlinks(db: Db, c: Call, commits: bool) {
    c.SaveAccount? && Drops(db, c, commits, c.account) && Latest(db.ledger, c.account).Some?
  }

  lemma StepChains(db: Db, c: Call, commits: bool)
    requires Chained(db)
    ensures Chained(Step(db, c, commits)) <==> !Unlinks(db, c, commits)
  {
    var db' := Step(db, c, commits);
    if c.ReserveFunds? || c.Release? || c.ReserveOutgoing? || c.ReleaseOutgoing? {
      QuietChains(db, db', c, commits);
    } else if c.SaveAccount? {
      SaveChains(db, c, commits);
    } else if db' != db {
      if Posts(c) {
        PostsChain(db, c);
      } else {
        OtherBookings(db, c);
        var target, a, credit, amount, key :| Books(db, db', target, a, credit, amount, key);
        BookChains(db, db', target, a, credit, amount, key);
      }
    }
  }

  lemma SaveChains(db: Db, c: Call, commits: bool)
    requires Chained(db) && c.SaveAccount?
    ensures Chained(Step(db, c, commits)) <==> !Unlinks(db, c, commits)
  {
    var db' := Step(db, c, commits);
    assert db'.ledger == db.ledger && db'.accounts.Keys == db.accounts.Keys;
    if Unlinks(db, c, commits) {
      assert db'.accounts[c.account].balance != Latest(db'.ledger, c.account).value;
    }
  }

  lemma QuietChains(db: Db, db': Db, c: Call, commits: bool)
    requires Chained(db) && db' == Step(db, c, commits)
    requires c.ReserveFunds? || c.Release? || c.ReserveOutgoing? || c.ReleaseOutgoing?
    ensures Chained(db')
  {
    assert db'.accounts.Keys == db.accounts.Keys && db'.ledger == db.ledger;
    forall a | a in db.accounts
      ensures db'.accounts[a].balance == db.accounts[a].balance
    {
      NoBooking(db, c, commits, a);
    }
  }

  predicate AlwaysChained(db: Db, calls: seq<(Call, bool)>, n: nat)
    requires n <= |calls|
  {
    (n == 0 || AlwaysChained(db, calls, n - 1)) && Chained(Run(db, calls, n))
  }

  predicate NeverUnlinked(db: Db, calls: seq<(Call, bool)>, n: nat)
    requires n <= |calls|
  {
    n == 0 || (NeverUnlinked(db, calls, n - 1) && !Unlinks(Run(db, calls, n - 1), calls[n - 1].0, calls[n - 1].1))
  }

  /**
   Over every history, each account's entries form an unbroken chain that ends at its balance,
   throughout exactly when no account row with entries is saved over a changed balance.
   */
  lemma {:induction false} LedgerIsChained(db: Db, calls: seq<(Call, bool)>, n: nat)
    requires Chained(db) && n <= |calls|
    ensures AlwaysChained(db, calls, n) <==> NeverUnlinked(db, calls, n)
  {
    if n > 0 {
      LedgerIsChained(db, calls, n - 1);
      if AlwaysChained(db, calls, n - 1) {
        StepChains(Run(db, calls, n - 1), calls[n - 1].0, calls[n - 1].1);
      }
    }
  }

  /** A balance update between the load and the save of an account row: its entry stays, its money does not. */
  lemma SavedOverUpdate(account: nat)
    ensures var a := Account("RSD", true, 0.0, 0.0, 0.0);
      var db := Db(map[account := a], [], [], [], []);
      var paid := Step(db, UpdateBalance(account, 5.0, true, ""), true);
      var after := Step(paid, SaveAccount(account, a), true);
      && Reconciles(paid, account) && !Wrong(paid, SaveAccount(account, a))
      && !Reconciles(after, account) && Chained(paid) && !Chained(after)
  {
    var a := Account("RSD", true, 0.0, 0.0, 0.0);
    var db := Db(map[account := a], [], [], [], []);
    var c, save := UpdateBalance(account, 5.0, true, ""), SaveAccount(account, a);
    assert Chained(db) && Unposted(db, account) == 0.0;
    assert UpdateBalanceTx(db, account, 5.0, true, "").Ok?;
    var paid := Step(db, c, true);
    StepUnposted(db, c, true, account);
    StepChains(db, c, true);
    StepUnposted(paid, save, true, account);
    assert Latest(paid.ledger, account).Some?;
    StepChains(paid, save, true);
  }

  // ---------- idempotency keys ----------

  /** No two entries share a key. */
  predicate UniqueKeys(ledger: seq<Entry>) {
    forall k, l :: 0 <= k < l < |ledger| && ledger[k].key == ledger[l].key ==> ledger[k].key == ""
  }

  /** The ledger only grows, and a key enters it once. */
  lemma KeysStep(db: Db, c: Call, commits: bool)
    ensures db.ledger <= Step(db, c, commits).ledger
    ensures UniqueKeys(db.ledger) ==> UniqueKeys(Step(db, c, commits).ledger)
  {
    var db' := Step(db, c, commits);
    if db' != db && (c.Settle? || c.SettleOutgoing? || c.UpdateBalance?) {
      OtherBookings(db, c);
    }
  }

  lemma {:induction false} KeysRun(db: Db, calls: seq<(Call, bool)>, n: nat)
    requires n <= |calls|
    ensures db.ledger <= Run(db, calls, n).ledger
    ensures UniqueKeys(db.ledger) ==> UniqueKeys(Run(db, calls, n).ledger)
  {
    if n > 0 {
      KeysRun(db, calls, n - 1);
      KeysStep(Run(db, calls, n - 1), calls[n - 1].0, calls[n - 1].1);
    }
  }

  /**
   A balance update with a key that has been used moves no money again, over any history; nor does
   a cross-bank reservation settle twice, even by calls that race.
   */
  lemma KeyedOnce(db: Db, calls: seq<(Call, bool)>, n: nat, key: string, account: nat, amount: real, updateAvailable: bool)
    requires n <= |calls| && key != "" && HasKey(db.ledger, key)
    ensures var now := Run(db, calls, n);
      && Step(now, UpdateBalance(account, amount, updateAvailable, key), true) == now
      && (forall k, raced :: OutgoingKey(k) == key ==> Step(now, SettleOutgoing(k, raced), true) == now)
  {
    var now := Run(db, calls, n);
    KeysRun(db, calls, n);
    var k :| 0 <= k < |db.ledger| && db.ledger[k].key == key;
    assert now.ledger[k] == db.ledger[k];
    assert HasKey(now.ledger, key);
  }
}
