/**
 * Ledger-record construction and the transaction service (TransactionService.java).
 * Receipt generation (createCheck, createTransferCheck) is not part of this model.
 */
module TransactionServices {
  import opened Results
  import opened Dates
  import opened TransactionTypes
  import opened Transactions
  import opened Accounts
  import opened Repositories

  // The records the service builds, before the store gives them an id
  // (Transaction.builder() leaves id at 0).

  /** A deposit record stands for +amount on the account and for nothing on any other. */
  function DepositRecord(accountId: int, amount: real, today: Date): (r: Transaction)
    ensures r.kind == Deposit && r.id == 0 && r.date == today
    ensures forall a :: Effect(r, a) == if a == accountId then amount else 0.0
  {
    Transaction(0, accountId, accountId, Deposit, amount, today)
  }

  /** A withdrawal record stands for -amount on the account and for nothing on any other. */
  function WithdrawRecord(accountId: int, amount: real, today: Date): (r: Transaction)
    ensures r.kind == Withdrawal && r.id == 0 && r.date == today
    ensures forall a :: Effect(r, a) == if a == accountId then -amount else 0.0
  {
    Transaction(0, accountId, accountId, Withdrawal, -amount, today)
  }

  /** The TRANSFER_IN record names both accounts and stands for +amount on the target only. */
  function TransferInRecord(sourceId: int, targetId: int, amount: real, today: Date): (r: Transaction)
    ensures r.sourceAccount == sourceId && r.targetAccount == targetId && r.id == 0 && r.date == today
    ensures forall a :: Effect(r, a) == if a == targetId then amount else 0.0
  {
    Transaction(0, sourceId, targetId, TransferIn, amount, today)
  }

  /** The TRANSFER_OUT record names both accounts and stands for -amount on the source only. */
  function TransferOutRecord(sourceId: int, targetId: int, amount: real, today: Date): (r: Transaction)
    ensures r.sourceAccount == sourceId && r.targetAccount == targetId && r.id == 0 && r.date == today
    ensures forall a :: Effect(r, a) == if a == sourceId then -amount else 0.0
  {
    Transaction(0, sourceId, targetId, TransferOut, -amount, today)
  }

  /** The two records of one transfer, in the order they are saved, with the ids they get. */
  function TransferPair(sourceId: int, targetId: int, amount: real, today: Date, firstId: int): (p: seq<Transaction>)
    ensures |p| == 2 && p[0].kind == TransferIn && p[1].kind == TransferOut
    ensures p[0].id == firstId && p[1].id == firstId + 1
  {
    [WithId(TransferInRecord(sourceId, targetId, amount, today), firstId),
     WithId(TransferOutRecord(sourceId, targetId, amount, today), firstId + 1)]
  }

  /**
   * A deposit record moves the account's balance by +amount and a withdrawal record by
   * -amount; neither touches any other account.
   */
  lemma SingleRecordEffect(accountId: int, amount: real, today: Date, id: int, other: int)
    requires other != accountId
    ensures NetEffect([WithId(DepositRecord(accountId, amount, today), id)], accountId) == amount
    ensures NetEffect([WithId(WithdrawRecord(accountId, amount, today), id)], accountId) == -amount
    ensures NetEffect([WithId(DepositRecord(accountId, amount, today), id)], other) == 0.0
    ensures NetEffect([WithId(WithdrawRecord(accountId, amount, today), id)], other) == 0.0
  {
    var d := [WithId(DepositRecord(accountId, amount, today), id)];
    var w := [WithId(WithdrawRecord(accountId, amount, today), id)];
    assert d[..0] == [] && w[..0] == [];
  }

  /**
   * The two transfer records carry opposite amounts that sum to zero, both name the
   * source and the target, share the date, and are TRANSFER_IN then TRANSFER_OUT.
   */
  lemma TransferPairShape(sourceId: int, targetId: int, amount: real, today: Date, firstId: int)
    ensures var p := TransferPair(sourceId, targetId, amount, today, firstId);
      && |p| == 2
      && p[0].kind == TransferIn && p[1].kind == TransferOut
      && p[0].amount == amount && p[1].amount == -amount && p[0].amount + p[1].amount == 0.0
      && p[0].sourceAccount == p[1].sourceAccount == sourceId
      && p[0].targetAccount == p[1].targetAccount == targetId
      && p[0].date == p[1].date == today
      && p[0].id == firstId && p[1].id == firstId + 1
  {
  }

  /**
   * What the two transfer records say about balances: the source loses `amount`, the
   * target gains it, every other account is untouched, and a transfer from an account
   * to itself nets to zero.
   */
  lemma TransferPairEffect(sourceId: int, targetId: int, amount: real, today: Date, firstId: int, other: int)
    ensures var p := TransferPair(sourceId, targetId, amount, today, firstId);
      && NetEffect(p, other) ==
           (if other == targetId then amount else 0.0) - (if other == sourceId then amount else 0.0)
  {
    var p := TransferPair(sourceId, targetId, amount, today, firstId);
    assert p[..1][..0] == [];
    assert NetEffect(p[..1], other) == Effect(p[0], other);
    assert NetEffect(p, other) == Effect(p[0], other) + Effect(p[1], other);
  }

  /** Summed over the two accounts, a transfer's records change nothing. */
  lemma TransferPairConserves(sourceId: int, targetId: int, amount: real, today: Date, firstId: int)
    requires sourceId != targetId
    ensures var p := TransferPair(sourceId, targetId, amount, today, firstId);
      NetEffect(p, sourceId) + NetEffect(p, targetId) == 0.0
  {
    TransferPairEffect(sourceId, targetId, amount, today, firstId, sourceId);
    TransferPairEffect(sourceId, targetId, amount, today, firstId, targetId);
  }

  /** A deposit followed by a withdrawal of the same amount leaves the account's ledger balance as it was. */
  lemma DepositThenWithdrawNetsZero(log: seq<Transaction>, accountId: int, amount: real, today: Date, id1: int, id2: int)
    ensures NetEffect(log + [WithId(DepositRecord(accountId, amount, today), id1)]
                          + [WithId(WithdrawRecord(accountId, amount, today), id2)], accountId)
         == NetEffect(log, accountId)
  {
    var d := [WithId(DepositRecord(accountId, amount, today), id1)];
    var w := [WithId(WithdrawRecord(accountId, amount, today), id2)];
    SingleRecordEffect(accountId, amount, today, id1, accountId + 1);
    SingleRecordEffect(accountId, amount, today, id2, accountId + 1);
    NetEffectConcat(log, d, accountId);
    NetEffectConcat(log + d, w, accountId);
  }

  /**
   * As written, the statement query selects by source account only. Both transfer
   * records carry the source's id, so the source's statement lists both, +amount and
   * -amount, adding up to zero, and the target's statement lists neither.
   */
  lemma StatementOfTransferAsWritten(sourceId: int, targetId: int, amount: real, today: Date, firstId: int)
    requires sourceId != targetId
    ensures var p := TransferPair(sourceId, targetId, amount, today, firstId);
      && StatementRecords(p, sourceId) == p
      && Total(StatementRecords(p, sourceId)) == 0.0
      && StatementRecords(p, targetId) == []
  {
    var p := TransferPair(sourceId, targetId, amount, today, firstId);
    var first := p[..1];
    assert first[..0] == [];
    assert StatementRecords(first, sourceId) == [p[0]];
    assert StatementRecords(first, targetId) == [];
    assert StatementRecords(p, sourceId) == StatementRecords(first, sourceId) + [p[1]];
    assert StatementRecords(p, targetId) == StatementRecords(first, targetId) + [];
    assert first == [p[0]] && p[..|p| - 1] == first;
    assert Total(first) == p[0].amount;
  }

  /**
   * Selecting by the account each record concerns, the source's records are the
   * TRANSFER_OUT of -amount, the target's the TRANSFER_IN of +amount, and each adds up
   * to that account's balance change.
   */
  lemma StatementOfTransferCorrected(sourceId: int, targetId: int, amount: real, today: Date, firstId: int)
    requires sourceId != targetId
    ensures var p := TransferPair(sourceId, targetId, amount, today, firstId);
      && AccountRecords(p, sourceId) == [p[1]]
      && AccountRecords(p, targetId) == [p[0]]
      && Total(AccountRecords(p, sourceId)) == -amount
      && Total(AccountRecords(p, targetId)) == amount
  {
    var p := TransferPair(sourceId, targetId, amount, today, firstId);
    assert AffectedAccount(p[0]) == targetId && AffectedAccount(p[1]) == sourceId;
    assert p[..1] == [p[0]] && [p[0]][..0] == [] && [p[1]][..0] == [];
    assert AccountRecords([p[0]], sourceId) == [] && AccountRecords([p[0]], targetId) == [p[0]];
  }

  class TransactionService {
    const store: TransactionStore

    ghost predicate Valid()
      reads this, store
    {
      store.Valid()
    }

    constructor (store: TransactionStore)
      requires store.Valid()
      ensures this.store == store && Valid()
    {
      this.store := store;
    }

    /** getTransaction: the stored record, or "Transaction not found". */
    method GetTransaction(transactionId: int) returns (r: Result<Transaction, Failure>)
      requires Valid()
      ensures r.Success? ==> r.value in store.records && r.value.id == transactionId
      ensures r.Failure? <==> forall i :: 0 <= i < |store.records| ==> store.records[i].id != transactionId
      ensures r.Failure? ==> r.error == Runtime("Transaction not found")
    {
      var found := store.GetTransactionById(transactionId);
      if found.Some? {
        r := Success(found.value);
      } else {
        r := Failure(Runtime("Transaction not found"));
      }
    }

    /** saveTransaction: stamp today's date on the record, then insert it. */
    method SaveTransaction(t: Transaction, today: Date) returns (saved: Transaction)
      requires Valid()
      modifies store
      ensures Valid()
      ensures saved == WithId(WithDate(t, today), old(store.nextId))
      ensures store.records == old(store.records) + [saved]
      ensures store.nextId == old(store.nextId) + 1
    {
      var dated := WithDate(t, today);
      saved := store.SaveTransaction(dated);
    }

    /**
     * deleteTransaction: "Transaction not found" when no record has the id; otherwise
     * exactly that record goes and the others stay, in order.
     */
    method DeleteTransaction(transactionId: int) returns (r: Outcome<Failure>)
      requires Valid()
      modifies store`records
      ensures Valid()
      ensures r.Fail? <==> forall i :: 0 <= i < |old(store.records)| ==> old(store.records)[i].id != transactionId
      ensures r.Fail? ==> r.error == Runtime("Transaction not found") && store.records == old(store.records)
      ensures r.Pass? ==> store.records == Without(old(store.records), transactionId)
      ensures r.Pass? ==> |store.records| == |old(store.records)| - 1
    {
      var found := store.GetTransactionById(transactionId);
      if found.Some? {
        ghost var k :| 0 <= k < |store.records| && store.records[k] == found.value;
        WithoutRemovesOne(store.records, store.nextId, k);
        store.DeleteTransactionById(transactionId);
        r := Pass;
      } else {
        r := Fail(Runtime("Transaction not found"));
      }
    }

    /** createTransferTransactions: save TRANSFER_IN (+amount), then TRANSFER_OUT (-amount). */
    method CreateTransferTransactions(source: Account, target: Account, amount: real, today: Date)
      requires Valid()
      modifies store
      ensures Valid()
      ensures store.records == old(store.records) + TransferPair(source.id, target.id, amount, today, old(store.nextId))
      ensures store.nextId == old(store.nextId) + 2
    {
      var inRecord := store.SaveTransaction(TransferInRecord(source.id, target.id, amount, today));
      var outRecord := store.SaveTransaction(TransferOutRecord(source.id, target.id, amount, today));
    }

    /** saveDepositTransfer: save one DEPOSIT record of +amount for the account. */
    method SaveDepositTransfer(account: Account, amount: real, today: Date)
      requires Valid()
      modifies store
      ensures Valid()
      ensures store.records == old(store.records) + [WithId(DepositRecord(account.id, amount, today), old(store.nextId))]
      ensures store.nextId == old(store.nextId) + 1
    {
      var saved := store.SaveTransaction(DepositRecord(account.id, amount, today));
    }

    /** saveWithdrawTransfer: save one WITHDRAWAL record of -amount for the account. */
    method SaveWithdrawTransfer(account: Account, amount: real, today: Date)
      requires Valid()
      modifies store
      ensures Valid()
      ensures store.records == old(store.records) + [WithId(WithdrawRecord(account.id, amount, today), old(store.nextId))]
      ensures store.nextId == old(store.nextId) + 1
    {
      var saved := store.SaveTransaction(WithdrawRecord(account.id, amount, today));
    }
  }
}
