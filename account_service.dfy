/**
 * The money-movement operations and the interest task (AccountService.java), run
 * one step at a time. Threads, monitors and the executors are not modelled; what is
 * kept of the locking is the choice of which account is locked first.
 */
module AccountServices {
  import opened Results
  import opened Dates
  import opened Transactions
  import opened Accounts
  import opened Repositories
  import opened TransactionServices

  // ---------------------------------------------------------------------------
  // Lock order in transfer

  /** One of the two accounts a transfer names. */
  datatype Side = Source | Target

  function IdOf(side: Side, sourceId: int, targetId: int): int {
    match side
    case Source => sourceId
    case Target => targetId
  }

  /**
   * The account whose monitor transfer takes first: the one with the smaller id,
   * and the target when the ids are equal.
   */
  function FirstLocked(sourceId: int, targetId: int): (r: Side)
    ensures IdOf(r, sourceId, targetId) <= sourceId && IdOf(r, sourceId, targetId) <= targetId
    ensures sourceId == targetId ==> r == Target
  {
    if sourceId < targetId then Source else Target
  }

  /** The account whose monitor transfer takes second: the other one, with the larger id. */
  function SecondLocked(sourceId: int, targetId: int): (r: Side)
    ensures r != FirstLocked(sourceId, targetId)
    ensures IdOf(r, sourceId, targetId) >= sourceId && IdOf(r, sourceId, targetId) >= targetId
  {
    if sourceId < targetId then Target else Source
  }

  /**
   * Both accounts are locked, one each; the first goes to the strictly smaller id and,
   * on equal ids, to the target; so the first lock's id never exceeds the second's.
   */
  lemma LockOrderIsGlobal(sourceId: int, targetId: int)
    ensures FirstLocked(sourceId, targetId) != SecondLocked(sourceId, targetId)
    ensures FirstLocked(sourceId, targetId) == Source <==> sourceId < targetId
    ensures IdOf(FirstLocked(sourceId, targetId), sourceId, targetId)
         <= IdOf(SecondLocked(sourceId, targetId), sourceId, targetId)
    ensures {IdOf(FirstLocked(sourceId, targetId), sourceId, targetId),
             IdOf(SecondLocked(sourceId, targetId), sourceId, targetId)} == {sourceId, targetId}
  {
  }

  /** transfer(a, b) and transfer(b, a) lock the same account first and the same one second. */
  lemma LockOrderSymmetric(a: int, b: int)
    requires a != b
    ensures IdOf(FirstLocked(a, b), a, b) == IdOf(FirstLocked(b, a), b, a)
    ensures IdOf(SecondLocked(a, b), a, b) == IdOf(SecondLocked(b, a), b, a)
  {
  }

  /** The ids a transfer in flight names, source first. */
  datatype TransferIds = TransferIds(sourceId: int, targetId: int)

  function FirstLockId(t: TransferIds): int {
    IdOf(FirstLocked(t.sourceId, t.targetId), t.sourceId, t.targetId)
  }

  function SecondLockId(t: TransferIds): int {
    IdOf(SecondLocked(t.sourceId, t.targetId), t.sourceId, t.targetId)
  }

  /**
   * A deadlock among transfers: each holds its first lock and waits for its second,
   * which is the first lock of the next one, and the last waits on the first.
   */
  ghost predicate WaitCycle(ts: seq<TransferIds>) {
    && |ts| >= 1
    && (forall i :: 0 <= i < |ts| - 1 ==> SecondLockId(ts[i]) == FirstLockId(ts[i + 1]))
    && SecondLockId(ts[|ts| - 1]) == FirstLockId(ts[0])
  }

  /** Along a chain of waits the ids strictly grow. */
  lemma {:induction false} WaitChainIncreases(ts: seq<TransferIds>, k: nat)
    requires k < |ts|
    requires forall i :: 0 <= i < |ts| ==> ts[i].sourceId != ts[i].targetId
    requires forall i :: 0 <= i < k ==> SecondLockId(ts[i]) == FirstLockId(ts[i + 1])
    ensures FirstLockId(ts[0]) < SecondLockId(ts[k])
  {
    if k > 0 {
      WaitChainIncreases(ts, k - 1);
      assert SecondLockId(ts[k - 1]) == FirstLockId(ts[k]);
    }
  }

  /** Transfers between distinct ids can never wait on each other in a cycle. */
  lemma NoWaitCycle(ts: seq<TransferIds>)
    requires forall i :: 0 <= i < |ts| ==> ts[i].sourceId != ts[i].targetId
    ensures !WaitCycle(ts)
  {
    if WaitCycle(ts) {
      WaitChainIncreases(ts, |ts| - 1);
      assert false;
    }
  }

  /**
   * Why NoWaitCycle needs distinct ids: two transfers whose source and target carry
   * the same id already form a wait cycle when locks are named by id. In the program
   * they are two different objects, two copies of one stored account.
   */
  lemma EqualIdsFormWaitCycle(id: int)
    ensures WaitCycle([TransferIds(id, id), TransferIds(id, id)])
  {
  }

  // ---------------------------------------------------------------------------
  // Interest

  /** The scan's test: never accrued, or at least one whole month (LocalDate.until in MONTHS) before now. */
  predicate InterestDue(lastInterestDate: Option<Date>, now: Date): (due: bool)
    ensures lastInterestDate.None? ==> due
    ensures lastInterestDate == Some(now) ==> !due
  {
    lastInterestDate.None? || MonthsUntil(lastInterestDate.value, now) >= 1
  }

  /** For valid dates the test reads: never accrued, or a whole calendar month has passed. */
  lemma InterestDueIff(lastInterestDate: Option<Date>, now: Date)
    requires ValidDate(now)
    requires lastInterestDate.Some? ==> ValidDate(lastInterestDate.value)
    ensures InterestDue(lastInterestDate, now)
        <==> lastInterestDate.None? || WholeMonthElapsed(lastInterestDate.value, now)
  {
    if lastInterestDate.Some? {
      AtLeastOneMonthIff(lastInterestDate.value, now);
    }
  }

  /** One accrual: the configured rate is added as a flat amount and the date is stamped. */
  function Accrue(row: AccountRow, interestRate: real, today: Date): (r: AccountRow)
    ensures r.balance - row.balance == interestRate
    ensures r.lastInterestDate == Some(today)
    ensures r.(balance := row.balance, lastInterestDate := row.lastInterestDate) == row
  {
    row.(balance := row.balance + interestRate, lastInterestDate := Some(today))
  }

  /** An accrued account is not due again until a whole calendar month after `today`. */
  lemma AccrualIsOncePerMonth(row: AccountRow, interestRate: real, today: Date, later: Date)
    requires ValidDate(today) && ValidDate(later)
    ensures !InterestDue(Accrue(row, interestRate, today).lastInterestDate, today)
    ensures InterestDue(Accrue(row, interestRate, today).lastInterestDate, later) <==> WholeMonthElapsed(today, later)
  {
    AtLeastOneMonthIff(today, later);
  }

  /** The accounts the scan submits, in the order it meets them. */
  function DueAccounts(all: seq<Account>, now: Date): (due: seq<Account>)
    reads all
    ensures |due| <= |all|
    ensures forall j :: 0 <= j < |due| ==> due[j] in all && InterestDue(due[j].lastInterestDate, now)
    decreases |all|
  {
    if all == [] then []
    else
      var last := all[|all| - 1];
      DueAccounts(all[..|all| - 1], now) + (if InterestDue(last.lastInterestDate, now) then [last] else [])
  }

  /** The scan misses no due account (the function's own contract gives the converse). */
  lemma {:induction false} DueAccountsMembers(all: seq<Account>, now: Date)
    ensures forall i :: 0 <= i < |all| && InterestDue(all[i].lastInterestDate, now) ==> all[i] in DueAccounts(all, now)
    decreases |all|
  {
    if all != [] {
      var prefix := all[..|all| - 1];
      var last := all[|all| - 1];
      DueAccountsMembers(prefix, now);
      var d := DueAccounts(prefix, now);
      var due := DueAccounts(all, now);
      forall i | 0 <= i < |all| && InterestDue(all[i].lastInterestDate, now) ensures all[i] in due {
        if i < |prefix| {
          assert prefix[i] == all[i];
          assert all[i] in d;
        }
      }
    }
  }

  /** Accounts with distinct ids are submitted with distinct ids. */
  lemma {:induction false} DueAccountsDistinct(all: seq<Account>, now: Date)
    requires forall i, j :: 0 <= i < j < |all| ==> all[i].id != all[j].id
    ensures forall i, j :: 0 <= i < j < |DueAccounts(all, now)| ==> DueAccounts(all, now)[i].id != DueAccounts(all, now)[j].id
    decreases |all|
  {
    if all != [] {
      var prefix := all[..|all| - 1];
      var last := all[|all| - 1];
      DueAccountsDistinct(prefix, now);
      DueAccountsMembers(prefix, now);
      var d := DueAccounts(prefix, now);
      forall i | 0 <= i < |d| ensures d[i].id != last.id {
        assert d[i] in prefix;
        var p :| 0 <= p < |prefix| && prefix[p] == d[i];
        assert all[p] == d[i];
      }
      var due := DueAccounts(all, now);
      forall i, j | 0 <= i < j < |due| ensures due[i].id != due[j].id {
        if j == |d| {
          assert due[i] == d[i] && due[j] == last;
        } else {
          assert due[i] == d[i] && due[j] == d[j];
        }
      }
    }
  }

  /** The scan keeps store order: of two submissions, the earlier one comes earlier in `all`. */
  lemma {:induction false} DueAccountsInOrder(all: seq<Account>, now: Date)
    ensures forall i, j :: 0 <= i < j < |DueAccounts(all, now)| ==>
      exists p, q :: 0 <= p < q < |all| && all[p] == DueAccounts(all, now)[i] && all[q] == DueAccounts(all, now)[j]
    decreases |all|
  {
    if all != [] {
      var prefix := all[..|all| - 1];
      var last := all[|all| - 1];
      DueAccountsInOrder(prefix, now);
      DueAccountsMembers(prefix, now);
      var d := DueAccounts(prefix, now);
      var due := DueAccounts(all, now);
      assert due == d + (if InterestDue(last.lastInterestDate, now) then [last] else []);
      forall i, j | 0 <= i < j < |due|
        ensures exists p, q :: 0 <= p < q < |all| && all[p] == due[i] && all[q] == due[j]
      {
        if j < |d| {
          assert due[i] == d[i] && due[j] == d[j];
          var p, q :| 0 <= p < q < |prefix| && prefix[p] == d[i] && prefix[q] == d[j];
          assert all[p] == due[i] && all[q] == due[j];
        } else {
          assert due[i] == d[i] && due[j] == last;
          assert d[i] in prefix;
          var p :| 0 <= p < |prefix| && prefix[p] == d[i];
          assert all[p] == due[i] && all[|all| - 1] == due[j];
        }
      }
    } else {
      assert DueAccounts(all, now) == [];
    }
  }

  /**
   * The body of the periodic interest task up to the submissions (AccountService.java:144-155): walk
   * the accounts in store order and collect the due ones.
   */
  method ScanForInterest(all: seq<Account>, now: Date) returns (due: seq<Account>)
    ensures due == DueAccounts(all, now)
  {
    due := [];
    for n := 0 to |all|
      invariant due == DueAccounts(all[..n], now)
    {
      assert all[..n + 1][..n] == all[..n];
      if InterestDue(all[n].lastInterestDate, now) {
        due := due + [all[n]];
      }
    }
    assert all[..|all|] == all;
  }

  /** The rows after the task has accrued interest on the rows whose ids are in `ids`. */
  function AccrueAt(rows: map<int, AccountRow>, ids: seq<int>, interestRate: real, now: Date): (r: map<int, AccountRow>)
    ensures r.Keys == rows.Keys
    ensures forall k :: k in rows && k in ids ==> r[k] == Accrue(rows[k], interestRate, now)
    ensures forall k :: k in rows && k !in ids ==> r[k] == rows[k]
  {
    map k | k in rows :: if k in ids then Accrue(rows[k], interestRate, now) else rows[k]
  }

  /** The store after one tick: every due row accrued once, every other row untouched. */
  function AccrueDue(rows: map<int, AccountRow>, interestRate: real, now: Date): (r: map<int, AccountRow>)
    ensures r.Keys == rows.Keys
    ensures forall k :: k in rows && InterestDue(rows[k].lastInterestDate, now) ==>
      r[k] == Accrue(rows[k], interestRate, now)
    ensures forall k :: k in rows && !InterestDue(rows[k].lastInterestDate, now) ==> r[k] == rows[k]
  {
    map k | k in rows :: if InterestDue(rows[k].lastInterestDate, now) then Accrue(rows[k], interestRate, now) else rows[k]
  }

  /** The ids the scan submits, read off the store: the due keys of `order`, in that order. */
  function DueIds(order: seq<int>, rows: map<int, AccountRow>, now: Date): (ids: seq<int>)
    ensures |ids| <= |order|
    ensures forall j :: 0 <= j < |ids| ==> ids[j] in order && ids[j] in rows && InterestDue(rows[ids[j]].lastInterestDate, now)
    decreases |order|
  {
    if order == [] then []
    else
      var last := order[|order| - 1];
      DueIds(order[..|order| - 1], rows, now)
        + (if last in rows && InterestDue(rows[last].lastInterestDate, now) then [last] else [])
  }

  /** Every due key of `order` is among DueIds. */
  lemma {:induction false} DueIdsComplete(order: seq<int>, rows: map<int, AccountRow>, now: Date)
    ensures forall i :: 0 <= i < |order| && order[i] in rows && InterestDue(rows[order[i]].lastInterestDate, now) ==>
      order[i] in DueIds(order, rows, now)
    decreases |order|
  {
    if order != [] {
      var n := |order| - 1;
      DueIdsComplete(order[..n], rows, now);
      forall i | 0 <= i < n && order[i] in rows && InterestDue(rows[order[i]].lastInterestDate, now)
        ensures order[i] in DueIds(order, rows, now)
      {
        assert order[..n][i] == order[i];
      }
    }
  }

  /** With every key listed in `order`, DueIds holds every due key of the store. */
  lemma DueIdsAreTheDueKeys(order: seq<int>, rows: map<int, AccountRow>, now: Date)
    requires forall k :: k in rows ==> k in order
    ensures forall k :: k in rows && InterestDue(rows[k].lastInterestDate, now) ==> k in DueIds(order, rows, now)
  {
    DueIdsComplete(order, rows, now);
    forall k | k in rows && InterestDue(rows[k].lastInterestDate, now) ensures k in DueIds(order, rows, now) {
      var i :| 0 <= i < |order| && order[i] == k;
    }
  }

  /** A store order without repeats gives due ids without repeats. */
  lemma {:induction false} DueIdsDistinct(order: seq<int>, rows: map<int, AccountRow>, now: Date)
    requires forall i, j :: 0 <= i < j < |order| ==> order[i] != order[j]
    ensures forall i, j :: 0 <= i < j < |DueIds(order, rows, now)| ==> DueIds(order, rows, now)[i] != DueIds(order, rows, now)[j]
    decreases |order|
  {
    if order != [] {
      var n := |order| - 1;
      var prefix := order[..n];
      DueIdsDistinct(prefix, rows, now);
      var d := DueIds(prefix, rows, now);
      forall i | 0 <= i < |d| ensures d[i] != order[n] {
        var p :| 0 <= p < |prefix| && prefix[p] == d[i];
        assert order[p] == d[i];
      }
    }
  }

  /**
   * Scanning objects loaded from the store submits, one for one, the ids DueIds reads
   * off the store, and each submitted object holds its stored row.
   */
  lemma {:induction false} DueAccountsHaveDueIds(order: seq<int>, all: seq<Account>, rows: map<int, AccountRow>, now: Date)
    requires |all| == |order|
    requires forall i :: 0 <= i < |all| ==> all[i].id == order[i] && order[i] in rows && all[i].Row() == rows[order[i]]
    ensures |DueAccounts(all, now)| == |DueIds(order, rows, now)|
    ensures forall j :: 0 <= j < |DueAccounts(all, now)| ==>
      DueAccounts(all, now)[j].id == DueIds(order, rows, now)[j]
      && DueAccounts(all, now)[j].Row() == rows[DueIds(order, rows, now)[j]]
    decreases |all|
  {
    if all != [] {
      var n := |all| - 1;
      DueAccountsHaveDueIds(order[..n], all[..n], rows, now);
      assert all[n].lastInterestDate == rows[order[n]].lastInterestDate;
    }
  }

  /** Writing one more accrued row extends the set of accrued ids by one. */
  lemma AccrueAtStep(rows: map<int, AccountRow>, ids: seq<int>, n: nat, interestRate: real, now: Date)
    requires n < |ids| && ids[n] in rows && rows[ids[n]].id == ids[n]
    ensures Put(AccrueAt(rows, ids[..n], interestRate, now), ids[n], Accrue(rows[ids[n]], interestRate, now))
         == AccrueAt(rows, ids[..n + 1], interestRate, now)
  {
    assert ids[..n + 1] == ids[..n] + [ids[n]];
  }

  /** Once every due id has been accrued, and only those, the store is the one-tick result. */
  lemma AccrueAtAllDue(rows: map<int, AccountRow>, ids: seq<int>, interestRate: real, now: Date)
    requires forall j :: 0 <= j < |ids| ==> ids[j] in rows && InterestDue(rows[ids[j]].lastInterestDate, now)
    requires forall k :: k in rows && InterestDue(rows[k].lastInterestDate, now) ==> k in ids
    ensures AccrueAt(rows, ids, interestRate, now) == AccrueDue(rows, interestRate, now)
  {
    var a, b := AccrueAt(rows, ids, interestRate, now), AccrueDue(rows, interestRate, now);
    forall k | k in rows ensures a[k] == b[k] {
      if k in ids {
        var j :| 0 <= j < |ids| && ids[j] == k;
      }
    }
    assert a.Keys == b.Keys;
  }

  /**
   * transfer between two objects loaded separately for the same id (getAccount twice)
   * passes no check that they differ. Transfer's contract then gives the stored row as
   * below: the debit is overwritten by the credit, and the stored balance ends
   * `amount` higher, with no account debited.
   */
  lemma TransferBetweenCopiesCreatesMoney(rows: map<int, AccountRow>, id: int, amount: real)
    requires id in rows && rows[id].id == id
    ensures Put(Put(rows, id, Debit(rows[id], amount)), id, Credit(rows[id], amount))[id].balance
         == rows[id].balance + amount
  {
  }

  // ---------------------------------------------------------------------------
  // The service

  class AccountService {
    const accounts: AccountStore
    const transactionService: TransactionService

    ghost predicate Valid()
      reads this, accounts, transactionService, transactionService.store
    {
      accounts.Valid() && transactionService.Valid()
    }

    constructor (accounts: AccountStore, transactionService: TransactionService)
      requires accounts.Valid() && transactionService.Valid()
      ensures this.accounts == accounts && this.transactionService == transactionService
      ensures Valid()
    {
      this.accounts := accounts;
      this.transactionService := transactionService;
    }

    /**
     * deposit: a negative amount is refused and nothing changes; zero is accepted.
     * Otherwise the balance grows by the amount, the account is written under its own
     * id, and one DEPOSIT record is appended, which accounts for the change.
     */
    method Deposit(account: Account, amount: real, today: Date) returns (r: Outcome<Failure>)
      requires Valid()
      modifies account`balance, accounts, transactionService.store
      ensures Valid()
      ensures r.Fail? <==> amount < 0.0
      ensures r.Fail? ==> r.error == IllegalArgument("Refill amount must be positive")
      ensures r.Fail? ==> unchanged(account, accounts, transactionService.store)
      ensures r.Pass? ==> account.Row() == Credit(old(account.Row()), amount)
      ensures r.Pass? ==> accounts.rows == Put(old(accounts.rows), account.id, account.Row())
      ensures r.Pass? ==> accounts.writes == old(accounts.writes) + [account.id]
      ensures r.Pass? ==> transactionService.store.nextId == old(transactionService.store.nextId) + 1
      ensures r.Pass? ==> (transactionService.store.records == old(transactionService.store.records)
        + [WithId(DepositRecord(account.id, amount, today), old(transactionService.store.nextId))])
      ensures r.Pass? ==> (account.balance == old(account.balance)
        + NetEffect(transactionService.store.records[|old(transactionService.store.records)|..], account.id))
      ensures r.Pass? ==> forall a :: a != account.id ==>
        NetEffect(transactionService.store.records, a) == NetEffect(old(transactionService.store.records), a)
    {
      if amount < 0.0 {
        return Fail(IllegalArgument("Refill amount must be positive"));
      }
      ghost var before := transactionService.store.records;
      account.IncreaseBalance(amount);
      accounts.UpdateAccountById(account, account.id);
      transactionService.SaveDepositTransfer(account, amount, today);
      SingleRecordEffect(account.id, amount, today, old(transactionService.store.nextId), account.id + 1);
      assert transactionService.store.records[|before|..]
        == [WithId(DepositRecord(account.id, amount, today), old(transactionService.store.nextId))];
      forall a | a != account.id
        ensures NetEffect(transactionService.store.records, a) == NetEffect(before, a)
      {
        AppendUnrelatedKeepsNetEffect(before, [WithId(DepositRecord(account.id, amount, today), old(transactionService.store.nextId))], a);
      }
      r := Pass;
    }

    /**
     * withdraw: refused, with nothing changed, exactly when balance - amount < 0. The
     * amount itself is not checked. Otherwise the balance drops by the amount, the
     * account is written under its own id, and one WITHDRAWAL record of -amount is appended.
     */
    method Withdraw(account: Account, amount: real, today: Date) returns (r: Outcome<Failure>)
      requires Valid()
      modifies account`balance, accounts, transactionService.store
      ensures Valid()
      ensures r.Fail? <==> old(account.balance) - amount < 0.0
      ensures r.Fail? ==> r.error == IllegalArgument("Insufficient funds to withdraw")
      ensures r.Fail? ==> unchanged(account, accounts, transactionService.store)
      ensures r.Pass? ==> account.Row() == Debit(old(account.Row()), amount)
      ensures r.Pass? ==> accounts.rows == Put(old(accounts.rows), account.id, account.Row())
      ensures r.Pass? ==> accounts.writes == old(accounts.writes) + [account.id]
      ensures r.Pass? ==> transactionService.store.nextId == old(transactionService.store.nextId) + 1
      ensures r.Pass? ==> (transactionService.store.records == old(transactionService.store.records)
        + [WithId(WithdrawRecord(account.id, amount, today), old(transactionService.store.nextId))])
      ensures r.Pass? ==> (account.balance == old(account.balance)
        + NetEffect(transactionService.store.records[|old(transactionService.store.records)|..], account.id))
      ensures r.Pass? ==> forall a :: a != account.id ==>
        NetEffect(transactionService.store.records, a) == NetEffect(old(transactionService.store.records), a)
    {
      if account.balance - amount < 0.0 {
        return Fail(IllegalArgument("Insufficient funds to withdraw"));
      }
      ghost var before := transactionService.store.records;
      account.DecreaseBalance(amount);
      accounts.UpdateAccountById(account, account.id);
      transactionService.SaveWithdrawTransfer(account, amount, today);
      SingleRecordEffect(account.id, amount, today, old(transactionService.store.nextId), account.id + 1);
      assert transactionService.store.records[|before|..]
        == [WithId(WithdrawRecord(account.id, amount, today), old(transactionService.store.nextId))];
      forall a | a != account.id
        ensures NetEffect(transactionService.store.records, a) == NetEffect(before, a)
      {
        AppendUnrelatedKeepsNetEffect(before, [WithId(WithdrawRecord(account.id, amount, today), old(transactionService.store.nextId))], a);
      }
      r := Pass;
    }

    /**
     * transfer: refused, before any lock and with nothing changed, exactly when
     * source.balance - amount < 0. Neither the sign of the amount nor source != target
     * is checked. Otherwise: debit the source and write it, credit the target and write
     * it, then append TRANSFER_IN and TRANSFER_OUT. The two balances keep their sum.
     */
    method Transfer(source: Account, target: Account, amount: real, today: Date) returns (r: Outcome<Failure>)
      requires Valid()
      modifies source`balance, target`balance, accounts, transactionService.store
      ensures Valid()
      ensures r.Fail? <==> old(source.balance) - amount < 0.0
      ensures r.Fail? ==> r.error == IllegalArgument("Not enough funds")
      ensures r.Fail? ==> unchanged(source, target, accounts, transactionService.store)
      ensures r.Pass? && source != target ==>
        source.Row() == Debit(old(source.Row()), amount) && target.Row() == Credit(old(target.Row()), amount)
      ensures r.Pass? && source == target ==> source.Row() == old(source.Row())
      ensures r.Pass? ==> source.balance + target.balance == old(source.balance) + old(target.balance)
      ensures r.Pass? ==> (accounts.rows ==
        Put(Put(old(accounts.rows), source.id, Debit(old(source.Row()), amount)), target.id, target.Row()))
      ensures r.Pass? ==> accounts.writes == old(accounts.writes) + [source.id, target.id]
      ensures r.Pass? ==> transactionService.store.nextId == old(transactionService.store.nextId) + 2
      ensures r.Pass? ==> (transactionService.store.records == old(transactionService.store.records)
        + TransferPair(source.id, target.id, amount, today, old(transactionService.store.nextId)))
      ensures r.Pass? && source.id != target.id ==>
        var added := transactionService.store.records[|old(transactionService.store.records)|..];
        && source.balance == old(source.balance) + NetEffect(added, source.id)
        && target.balance == old(target.balance) + NetEffect(added, target.id)
    {
      if source.balance - amount < 0.0 {
        return Fail(IllegalArgument("Not enough funds"));
      }
      // AccountService.java:116-120 takes the monitors in the order FirstLocked, SecondLocked;
      // taking them is not modelled.
      ghost var before := transactionService.store.records;
      ghost var firstId := transactionService.store.nextId;
      source.DecreaseBalance(amount);
      accounts.UpdateAccountById(source, source.id);
      target.IncreaseBalance(amount);
      accounts.UpdateAccountById(target, target.id);
      transactionService.CreateTransferTransactions(source, target, amount, today);
      assert transactionService.store.records[|before|..] == TransferPair(source.id, target.id, amount, today, firstId);
      TransferPairEffect(source.id, target.id, amount, today, firstId, source.id);
      TransferPairEffect(source.id, target.id, amount, today, firstId, target.id);
      r := Pass;
    }

    /**
     * calculateAndApplyInterest: add the rate to the balance as a flat amount, stamp
     * today as the last interest date, and write the account under its own id. Reading
     * the rate from config.yml is replaced by the parameter.
     */
    method CalculateAndApplyInterest(account: Account, interestRate: real, today: Date)
      requires Valid()
      modifies account`balance, account`lastInterestDate, accounts
      ensures Valid()
      ensures account.Row() == Accrue(old(account.Row()), interestRate, today)
      ensures accounts.rows == Put(old(accounts.rows), account.id, account.Row())
      ensures accounts.writes == old(accounts.writes) + [account.id]
    {
      account.IncreaseBalance(interestRate);
      account.SetLastInterestDate(Some(today));
      accounts.UpdateAccountById(account, account.id);
    }

    /**
     * One run of the periodic interest task, with the submitted work run one task after
     * another: load all accounts (in the store's `order`), collect the due ones, and apply
     * interest to each. Every due row is accrued exactly once; the others stay as they were.
     */
    method InterestTick(order: seq<int>, interestRate: real, now: Date)
      requires Valid()
      requires forall i :: 0 <= i < |order| ==> order[i] in accounts.rows
      requires forall k :: k in accounts.rows ==> k in order
      requires forall i, j :: 0 <= i < j < |order| ==> order[i] != order[j]
      modifies accounts
      ensures Valid()
      ensures accounts.rows == AccrueDue(old(accounts.rows), interestRate, now)
      ensures accounts.writes == old(accounts.writes) + DueIds(order, old(accounts.rows), now)
    {
      ghost var rows0 := accounts.rows;
      var all := accounts.GetAllAccounts(order);
      var due := ScanForInterest(all, now);
      ghost var ids := DueIds(order, rows0, now);
      DueAccountsHaveDueIds(order, all, rows0, now);
      DueIdsDistinct(order, rows0, now);
      DueIdsAreTheDueKeys(order, rows0, now);
      ApplyInterestToEach(due, ids, interestRate, now);
      AccrueAtAllDue(rows0, ids, interestRate, now);
    }

    /** The submitted tasks, run one after another in submission order. */
    method ApplyInterestToEach(due: seq<Account>, ghost ids: seq<int>, interestRate: real, now: Date)
      requires Valid()
      requires |ids| == |due|
      requires forall j :: 0 <= j < |due| ==> due[j].id == ids[j] && ids[j] in accounts.rows
      requires forall j :: 0 <= j < |due| ==> due[j].Row() == accounts.rows[ids[j]]
      requires forall i, j :: 0 <= i < j < |due| ==> ids[i] != ids[j]
      modifies accounts, due
      ensures Valid()
      ensures accounts.rows == AccrueAt(old(accounts.rows), ids, interestRate, now)
      ensures accounts.writes == old(accounts.writes) + ids
      ensures forall j :: 0 <= j < |due| ==> due[j].Row() == Accrue(old(due[j].Row()), interestRate, now)
    {
      ghost var rows0, writes0 := accounts.rows, accounts.writes;
      for n := 0 to |due|
        invariant Valid()
        invariant forall j :: 0 <= j < |due| ==> due[j].id == ids[j]
        invariant accounts.rows == AccrueAt(rows0, ids[..n], interestRate, now)
        invariant accounts.writes == writes0 + ids[..n]
        invariant forall j :: 0 <= j < |due| ==>
          due[j].Row() == if j < n then Accrue(rows0[ids[j]], interestRate, now) else rows0[ids[j]]
      {
        ApplyInterestStep(due, ids, n, rows0, writes0, interestRate, now);
      }
      assert ids[..|due|] == ids;
    }

    /** The n-th submitted task, run after the first n: it accrues one more due account. */
    method ApplyInterestStep(due: seq<Account>, ghost ids: seq<int>, n: nat, ghost rows0: map<int, AccountRow>,
                             ghost writes0: seq<int>, interestRate: real, now: Date)
      requires Valid()
      requires n < |due| == |ids|
      requires forall j :: 0 <= j < |due| ==> due[j].id == ids[j] && ids[j] in rows0
      requires forall i, j :: 0 <= i < j < |due| ==> ids[i] != ids[j]
      requires accounts.rows == AccrueAt(rows0, ids[..n], interestRate, now)
      requires accounts.writes == writes0 + ids[..n]
      requires forall j :: 0 <= j < |due| ==>
        due[j].Row() == if j < n then Accrue(rows0[ids[j]], interestRate, now) else rows0[ids[j]]
      modifies accounts, due[n]
      ensures Valid()
      ensures forall j :: 0 <= j < |due| ==> due[j].id == ids[j]
      ensures accounts.rows == AccrueAt(rows0, ids[..n + 1], interestRate, now)
      ensures accounts.writes == writes0 + ids[..n + 1]
      ensures forall j :: 0 <= j < |due| ==>
        due[j].Row() == if j < n + 1 then Accrue(rows0[ids[j]], interestRate, now) else rows0[ids[j]]
    {
      assert forall j :: 0 <= j < |due| && j != n ==> due[j] != due[n];
      CalculateAndApplyInterest(due[n], interestRate, now);
      AccrueAtStep(rows0, ids, n, interestRate, now);
      assert ids[..n + 1] == ids[..n] + [ids[n]];
    }

    /** getAccount: the stored account as a fresh object, or "Account not found". */
    method GetAccount(accountId: int) returns (r: Result<Account, Failure>)
      requires Valid()
      ensures r.Failure? <==> accountId !in accounts.rows
      ensures r.Failure? ==> r.error == Runtime("Account not found")
      ensures r.Success? ==> fresh(r.value) && r.value.Row() == accounts.rows[accountId]
    {
      var a := accounts.GetAccountById(accountId);
      if a != null {
        r := Success(a);
      } else {
        r := Failure(Runtime("Account not found"));
      }
    }

    /** deleteAccount: "Account not found" when absent; otherwise only that row goes. */
    method DeleteAccount(accountId: int) returns (r: Outcome<Failure>)
      requires Valid()
      modifies accounts`rows
      ensures Valid()
      ensures r.Fail? <==> accountId !in old(accounts.rows)
      ensures r.Fail? ==> r.error == Runtime("Account not found") && accounts.rows == old(accounts.rows)
      ensures r.Pass? ==> accounts.rows == old(accounts.rows) - {accountId}
    {
      var a := accounts.GetAccountById(accountId);
      if a != null {
        accounts.DeleteAccountById(accountId);
        r := Pass;
      } else {
        r := Fail(Runtime("Account not found"));
      }
    }
  }
}
