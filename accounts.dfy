/** The bank account (Account.java): a live object whose balance is changed in place. */
module Accounts {
  import opened Results
  import opened Dates

  /**
   * The values of an account's seven fields at one moment: what the account store
   * keeps per row. `lastInterestDate` is None until the first accrual (Java null).
   */
  datatype AccountRow = AccountRow(
    id: int,
    accountNumber: string,
    date: Date,
    userId: int,
    bankId: int,
    balance: real,
    lastInterestDate: Option<Date>)

  /** The row after a credit of `amount`: only the balance differs. */
  function Credit(row: AccountRow, amount: real): AccountRow {
    row.(balance := row.balance + amount)
  }

  /** The row after a debit of `amount`: only the balance differs. */
  function Debit(row: AccountRow, amount: real): AccountRow {
    row.(balance := row.balance - amount)
  }

  /** A debit followed by a credit of the same amount restores the row (exact arithmetic). */
  lemma DebitThenCreditRestores(row: AccountRow, amount: real)
    ensures Credit(Debit(row, amount), amount) == row
  {
  }

  class Account {
    var id: int
    var accountNumber: string
    var date: Date
    var userId: int
    var bankId: int
    var balance: real
    var lastInterestDate: Option<Date>

    /** The current values of all fields. */
    function Row(): AccountRow
      reads this
    {
      AccountRow(id, accountNumber, date, userId, bankId, balance, lastInterestDate)
    }

    /** The all-arguments constructor, as used when a row is read back from the store. */
    constructor (row: AccountRow)
      ensures Row() == row
    {
      id := row.id;
      accountNumber := row.accountNumber;
      date := row.date;
      userId := row.userId;
      bankId := row.bankId;
      balance := row.balance;
      lastInterestDate := row.lastInterestDate;
    }

    /** decreaseBalance: no guard; the balance may become negative. */
    method DecreaseBalance(amount: real)
      modifies this`balance
      ensures balance == old(balance) - amount
      ensures Row() == Debit(old(Row()), amount)
    {
      balance := balance - amount;
    }

    /** increaseBalance. */
    method IncreaseBalance(amount: real)
      modifies this`balance
      ensures balance == old(balance) + amount
      ensures Row() == Credit(old(Row()), amount)
    {
      balance := balance + amount;
    }

    /** setLastInterestDate (Lombok setter). */
    method SetLastInterestDate(d: Option<Date>)
      modifies this`lastInterestDate
      ensures Row() == old(Row()).(lastInterestDate := d)
    {
      lastInterestDate := d;
    }
  }
}
