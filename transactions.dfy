/**
 * The ledger record (Transaction.java) and what a sequence of records says about
 * each account's balance.
 */
module Transactions {
  import opened Dates
  import opened TransactionTypes

  /**
   * One ledger record. Java's field `type` is called `kind` here (`type` is a
   * Dafny keyword). Equality is structural, as Lombok's @Data equals is.
   */
  datatype Transaction = Transaction(
    id: int,
    sourceAccount: int,
    targetAccount: int,
    kind: TransactionType,
    amount: real,
    date: Date)

  /** @Data equality: two records are equal exactly when all six fields are. */
  lemma EqualityIsFieldwise(a: Transaction, b: Transaction)
    ensures a == b <==>
      (&& a.id == b.id && a.sourceAccount == b.sourceAccount && a.targetAccount == b.targetAccount
       && a.kind == b.kind && a.amount == b.amount && a.date == b.date)
  {
  }

  /** setId: the id becomes `id`; putting the old id back gives the original record. */
  function WithId(t: Transaction, id: int): (r: Transaction)
    ensures r.id == id && r.(id := t.id) == t
  {
    t.(id := id)
  }

  /** setAmount: only the amount changes. */
  function WithAmount(t: Transaction, amount: real): (r: Transaction)
    ensures r.amount == amount && r.(amount := t.amount) == t
  {
    t.(amount := amount)
  }

  /** setDate: only the date changes. */
  function WithDate(t: Transaction, date: Date): (r: Transaction)
    ensures r.date == date && r.(date := t.date) == t
  {
    t.(date := date)
  }

  /**
   * The account whose balance a record describes: credits (deposit, transfer-in)
   * land on the target account, debits (withdrawal, transfer-out) leave the source.
   */
  function AffectedAccount(t: Transaction): int {
    match t.kind
    case Deposit => t.targetAccount
    case TransferIn => t.targetAccount
    case Withdrawal => t.sourceAccount
    case TransferOut => t.sourceAccount
  }

  /** The signed change one record stands for on the balance of `accountId`. */
  function Effect(t: Transaction, accountId: int): real {
    if AffectedAccount(t) == accountId then t.amount else 0.0
  }

  /** The total change a run of records stands for on the balance of `accountId`. */
  function NetEffect(records: seq<Transaction>, accountId: int): real
    decreases |records|
  {
    if records == [] then 0.0
    else NetEffect(records[..|records| - 1], accountId) + Effect(records[|records| - 1], accountId)
  }

  /** The effect of a log is the sum of the effects of its parts, so appending adds. */
  lemma {:induction false} NetEffectConcat(a: seq<Transaction>, b: seq<Transaction>, accountId: int)
    ensures NetEffect(a + b, accountId) == NetEffect(a, accountId) + NetEffect(b, accountId)
    decreases |b|
  {
    if b == [] {
      assert a + b == a;
    } else {
      assert (a + b)[..|a + b| - 1] == a + b[..|b| - 1];
      NetEffectConcat(a, b[..|b| - 1], accountId);
    }
  }

  /** Records that name other accounts only leave a balance where it was. */
  lemma {:induction false} NetEffectOfUnrelated(records: seq<Transaction>, accountId: int)
    requires forall i :: 0 <= i < |records| ==> AffectedAccount(records[i]) != accountId
    ensures NetEffect(records, accountId) == 0.0
    decreases |records|
  {
    if records != [] {
      NetEffectOfUnrelated(records[..|records| - 1], accountId);
    }
  }

  /** Sum of the amounts of a run of records. */
  function Total(records: seq<Transaction>): real
    decreases |records|
  {
    if records == [] then 0.0 else Total(records[..|records| - 1]) + records[|records| - 1].amount
  }

  /**
   * The records an account statement lists (getAllTransactionsByAccountIdAndTime, date
   * range aside): exactly the stored records whose source account is the account.
   */
  function StatementRecords(records: seq<Transaction>, accountId: int): (r: seq<Transaction>)
    ensures forall i :: 0 <= i < |r| ==> r[i] in records && r[i].sourceAccount == accountId
    ensures forall t :: t in records && t.sourceAccount == accountId ==> t in r
    decreases |records|
  {
    if records == [] then []
    else
      var last := records[|records| - 1];
      StatementRecords(records[..|records| - 1], accountId) + (if last.sourceAccount == accountId then [last] else [])
  }

  /** Exactly the records that concern an account under AffectedAccount, in log order. */
  function AccountRecords(records: seq<Transaction>, accountId: int): (r: seq<Transaction>)
    ensures forall i :: 0 <= i < |r| ==> r[i] in records && AffectedAccount(r[i]) == accountId
    ensures forall t :: t in records && AffectedAccount(t) == accountId ==> t in r
    decreases |records|
  {
    if records == [] then []
    else
      var last := records[|records| - 1];
      AccountRecords(records[..|records| - 1], accountId) + (if AffectedAccount(last) == accountId then [last] else [])
  }

  /** The records of an account add up to the change the whole log stands for on its balance. */
  lemma {:induction false} NetEffectIsTotalOfAccountRecords(records: seq<Transaction>, accountId: int)
    ensures NetEffect(records, accountId) == Total(AccountRecords(records, accountId))
    decreases |records|
  {
    if records != [] {
      var prefix := records[..|records| - 1];
      var last := records[|records| - 1];
      NetEffectIsTotalOfAccountRecords(prefix, accountId);
      var a := AccountRecords(prefix, accountId);
      if AffectedAccount(last) == accountId {
        assert (a + [last])[..|a + [last]| - 1] == a;
      } else {
        assert a + [] == a;
      }
    }
  }

  /** Appending records that concern other accounts leaves an account's ledger balance as it was. */
  lemma AppendUnrelatedKeepsNetEffect(log: seq<Transaction>, added: seq<Transaction>, accountId: int)
    requires forall i :: 0 <= i < |added| ==> AffectedAccount(added[i]) != accountId
    ensures NetEffect(log + added, accountId) == NetEffect(log, accountId)
  {
    NetEffectConcat(log, added, accountId);
    NetEffectOfUnrelated(added, accountId);
  }
}
