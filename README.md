# Clever-Bank ledger core in Dafny

This project models the ledger logic of Clever-Bank, a small Java banking back end, run one step at a time:

- bank accounts whose balance changes in place (`increaseBalance`, `decreaseBalance`);
- the money-movement operations of `AccountService`: `deposit`, `withdraw` and `transfer`, including the choice of which account `transfer` locks first;
- the ledger records that `TransactionService` builds and saves for each operation;
- the periodic interest task: the scan that picks the due accounts, and `calculateAndApplyInterest`;
- the not-found checks of `getAccount`, `deleteAccount`, `getTransaction` and `deleteTransaction`.

Layout, one module per file:

| file | module | models |
|---|---|---|
| `results.dfy` | `Results` | `Option`, `Result`, `Outcome`, and the two exception kinds with their messages |
| `dates.dfy` | `Dates` | `LocalDate` as (year, month, day), and `until(..., MONTHS)` as the JDK computes it |
| `transaction_types.dfy` | `TransactionTypes` | the four-kind enum, `getDescription`, `name()` and `valueOf` |
| `transactions.dfy` | `Transactions` | the ledger record, its setters, and what a run of records says about a balance |
| `accounts.dfy` | `Accounts` | `class Account`, with its fields and balance mutators; `AccountRow` snapshots one account's fields |
| `repositories.dfy` | `Repositories` | the account store (a map from id to row) and the transaction store (a log with generated ids) |
| `transaction_service.dfy` | `TransactionServices` | record construction and `TransactionService` |
| `account_service.dfy` | `AccountServices` | lock order, the interest scan and accrual, and `AccountService` |

Other modelling choices:

- Money is `real`, which is exact, so no `double` rounding is modelled.
- The two repositories are abstract stores. The account store is a `map<int, AccountRow>`. `updateAccountById` is `Put`, which overwrites the whole row at an existing key and changes nothing when no row has that key. This matches `UPDATE ... WHERE id = ?`.
- The account store also keeps a ghost log, `writes`, of the ids passed to `updateAccountById`. It is used to state how many account writes each operation makes.
- The transaction store is a `seq<Transaction>` plus `nextId`. Inserting gives the record the next id, so ids strictly increase along the log.
- "Today" (`LocalDate.now()`) and the interest rate (read from `config.yml`) are parameters.
- The Java exceptions are results: `Outcome.Fail` or `Result.Failure`, carrying the exception kind and its message.
- The model gives each ledger record a meaning of its own, `AffectedAccount`. A DEPOSIT or TRANSFER_IN record credits its target account. A WITHDRAWAL or TRANSFER_OUT record debits its source account, by its (negative) amount. `NetEffect` sums these effects. `Deposit`, `Withdraw` and `Transfer` state that the records they append account exactly for the balance changes they make. There are two exceptions:
  - A transfer between two objects that carry the same id: its records net to zero on that id, while the stored balance rises by the amount (`TransferBetweenCopiesCreatesMoney`). `Transfer`'s accounting clause therefore requires distinct ids.
  - Interest accrual: it changes balances but saves no ledger record (`AccountService.java:176-178`). `CalculateAndApplyInterest` and `InterestTick` leave the transaction store alone, so after an interest run an account's `NetEffect` falls short of its stored balance by the interest accrued.
- This attribution is the model's, not the program's. The program's only reader of records is the account statement (`UserService.generateStatementForUser`). It selects records by `source_account` alone (`TransactionRepository.java:84`), so it disagrees with `AffectedAccount` for transfers; see "## Findings".

In several places the code does less than its own names and messages suggest: the message "Refill amount must be positive", the parameter name `interestRate`, and the sorting of locks by id. The model follows the code:

- `deposit` rejects only a negative amount, so a deposit of zero succeeds.
- `withdraw` and `transfer` never check the sign of the amount. A negative withdrawal raises the balance.
- `transfer` does not check that source and target differ.
  - For one object passed twice (`source == target`), the model states that the balance ends where it started and that both records are still appended.
  - For two objects loaded separately for the same id (two calls of `getAccount`), the objects differ. The target's write then overwrites the source's, so the stored balance ends `amount` higher and the stored row is never debited: money is created. Only the in-memory source object is debited. `TransferBetweenCopiesCreatesMoney` states the stored row that `Transfer`'s contract gives in this case.
- Interest adds the configured rate as a flat amount. The balance read at `AccountService.java:168` is never used.
- Interest accrual writes the account but saves no ledger record, unlike deposit, withdraw and transfer.
- The insufficient-funds check in `transfer` runs before the locks are taken.
- The `commit` in `transfer` covers none of the writes, because each repository call opens its own connection. The model makes no atomicity claim.

## Model

| member | source | states |
|---|---|---|
| Accounts.Account.constructor | src/main/java/org/CleverBank/Models/Account.java:13-51 | the all-arguments constructor sets exactly the seven given field values |
| Accounts.Account.IncreaseBalance | src/main/java/org/CleverBank/Models/Account.java:67-69 | balance becomes balance + amount; no other field changes (frame is the balance field only) |
| Accounts.Account.DecreaseBalance | src/main/java/org/CleverBank/Models/Account.java:58-60 | balance becomes balance - amount, with no precondition, so it may go negative; no other field changes |
| Accounts.Account.SetLastInterestDate | src/main/java/org/CleverBank/Models/Account.java:51 | only lastInterestDate changes, to the given value |
| Accounts.DebitThenCreditRestores | src/main/java/org/CleverBank/Models/Account.java:58-69 | a decrease followed by an increase of the same amount restores the whole account |
| TransactionTypes.ExactlyFourTypes | src/main/java/org/CleverBank/Models/TransactionType.java:10-25 | there are exactly four kinds, every kind is one of them, and they are pairwise different |
| TransactionTypes.Description | src/main/java/org/CleverBank/Models/TransactionType.java:10-45 | getDescription: a non-empty Russian text for each kind (letters and spaces only); DescriptionInjective shows the texts tell the kinds apart |
| TransactionTypes.DescriptionInjective | src/main/java/org/CleverBank/Models/TransactionType.java:10-45 | two kinds have the same getDescription text exactly when they are the same kind |
| TransactionTypes.Name | src/main/java/org/CleverBank/Repository/TransactionRepository.java:116 | name(): a non-empty upper-case identifier (letters and `_`), which is what the store persists; NameRoundTrip reads it back |
| TransactionTypes.ValueOf | src/main/java/org/CleverBank/Repository/TransactionRepository.java:187 | valueOf yields a kind exactly when the string is that kind's name(); any other string fails (None) |
| TransactionTypes.NameRoundTrip | src/main/java/org/CleverBank/Repository/TransactionRepository.java:116 | storing a kind by name() and reading it back with valueOf gives the same kind |
| Transactions.EqualityIsFieldwise | src/main/java/org/CleverBank/Models/Transaction.java:12-46 | two records are equal exactly when all six fields are equal |
| Transactions.WithId | src/main/java/org/CleverBank/Models/Transaction.java:20 | setId sets the id and changes no other field |
| Transactions.WithAmount | src/main/java/org/CleverBank/Models/Transaction.java:40 | setAmount sets the amount and changes no other field |
| Transactions.WithDate | src/main/java/org/CleverBank/Models/Transaction.java:45 | setDate sets the date and changes no other field |
| Transactions.NetEffectConcat | src/main/java/org/CleverBank/Service/AccountService.java:78-137 | the ledger balance of a log is additive, so the records an operation appends add their effect to it |
| Transactions.NetEffectOfUnrelated | src/main/java/org/CleverBank/Service/AccountService.java:78-137 | records that concern other accounts contribute nothing to an account's ledger balance |
| Transactions.AppendUnrelatedKeepsNetEffect | src/main/java/org/CleverBank/Service/TransactionService.java:157-187 | appending records of other accounts, as any other account's deposit, withdrawal or transfer does, leaves this account's ledger balance as it was |
| Transactions.StatementRecords | src/main/java/org/CleverBank/Repository/TransactionRepository.java:83-100 | the statement query lists exactly the stored records whose source account is the account: every one it lists matches, and every matching one is listed (the date range is not modelled) |
| Transactions.AccountRecords | src/main/java/org/CleverBank/Service/UserService.java:82-83 | the corrected statement selection: exactly the stored records that concern the account, in both directions |
| Transactions.NetEffectIsTotalOfAccountRecords | src/main/java/org/CleverBank/Service/UserService.java:82-83 | the corrected statement's amounts add up to the account's ledger balance over the whole log |
| Dates.TruncDiv32 | src/main/java/org/CleverBank/Service/AccountService.java:151 | division by 32 truncating toward zero, as the JDK's month count does: bounds on both sides for either sign |
| Dates.MonthsUntil | src/main/java/org/CleverBank/Service/AccountService.java:151 | until(end, MONTHS) is at least one exactly when the packed month-and-day distance is at least 32, and at most minus one exactly when it is at most -32 |
| Dates.AtLeastOneMonthIff | src/main/java/org/CleverBank/Service/AccountService.java:151 | for valid dates, the month count is >= 1 exactly when two or more months have passed, or the next month has been reached on the same or a later day |
| Dates.NoMonthToItself | src/main/java/org/CleverBank/Service/AccountService.java:151 | a date is zero months from itself |
| Repositories.Put | src/main/java/org/CleverBank/Repository/AccountRepository.java:112-128 | update by id overwrites the row at an existing key, keeps the key set, and leaves every other row alone |
| Repositories.AccountStore.GetAccountById | src/main/java/org/CleverBank/Repository/AccountRepository.java:33-48 | null exactly when the id is absent; otherwise a fresh object holding the stored row |
| Repositories.AccountStore.GetAllAccounts | src/main/java/org/CleverBank/Repository/AccountRepository.java:56-70 | one fresh object per stored row, in the given store order, each holding that row |
| Repositories.AccountStore.UpdateAccountById | src/main/java/org/CleverBank/Repository/AccountRepository.java:112-128 | the rows become Put(rows, id, account's fields), and the write is logged |
| Repositories.AccountStore.DeleteAccountById | src/main/java/org/CleverBank/Repository/AccountRepository.java:136-145 | exactly the row with that id is removed, if there is one |
| Repositories.Without | src/main/java/org/CleverBank/Repository/TransactionRepository.java:164-173 | delete by id: the log without the records that carry the id, never longer than before |
| Repositories.WithoutMembers | src/main/java/org/CleverBank/Repository/TransactionRepository.java:164-173 | after delete by id, a record remains exactly when it was there and has another id |
| Repositories.WithoutKeepsOrder | src/main/java/org/CleverBank/Repository/TransactionRepository.java:164-173 | delete keeps the log's ids strictly increasing |
| Repositories.WithoutAbsent | src/main/java/org/CleverBank/Repository/TransactionRepository.java:164-173 | deleting an id no record has leaves the log as it was |
| Repositories.WithoutRemovesOne | src/main/java/org/CleverBank/Repository/TransactionRepository.java:164-173 | since ids are unique, deleting a present id removes exactly one record |
| Repositories.TransactionStore.SaveTransaction | src/main/java/org/CleverBank/Repository/TransactionRepository.java:109-132 | insert gives the record the next generated id, appends it, and returns it with that id; earlier records stay as they were |
| Repositories.TransactionStore.GetTransactionById | src/main/java/org/CleverBank/Repository/TransactionRepository.java:35-50 | returns a stored record with that id, or None exactly when no record has it |
| Repositories.TransactionStore.DeleteTransactionById | src/main/java/org/CleverBank/Repository/TransactionRepository.java:164-173 | the log loses exactly the records with that id, in order, and its ids stay ordered |
| TransactionServices.DepositRecord | src/main/java/org/CleverBank/Service/TransactionService.java:158-164 | the record a deposit builds, before the store gives it an id: DEPOSIT, today's date, standing for +amount on the account and for nothing on any other account |
| TransactionServices.WithdrawRecord | src/main/java/org/CleverBank/Service/TransactionService.java:177-183 | the record a withdrawal builds: WITHDRAWAL, today's date, standing for -amount on the account and for nothing on any other account |
| TransactionServices.TransferInRecord | src/main/java/org/CleverBank/Service/TransactionService.java:113-119 | the TRANSFER_IN record of a transfer: it names the source and the target, carries today's date, and stands for +amount on the target only |
| TransactionServices.TransferOutRecord | src/main/java/org/CleverBank/Service/TransactionService.java:122-128 | the TRANSFER_OUT record of a transfer: it names the source and the target, carries today's date, and stands for -amount on the source only |
| TransactionServices.TransferPair | src/main/java/org/CleverBank/Service/TransactionService.java:112-129 | the two transfer records in save order, TRANSFER_IN then TRANSFER_OUT, under consecutive ids |
| TransactionServices.SingleRecordEffect | src/main/java/org/CleverBank/Service/TransactionService.java:157-187 | a DEPOSIT record means +amount on its account, a WITHDRAWAL record means -amount, and neither affects any other account |
| TransactionServices.DepositThenWithdrawNetsZero | src/main/java/org/CleverBank/Service/AccountService.java:78-101 | a deposit followed by a withdrawal of the same amount leaves the account's ledger balance where it was |
| TransactionServices.TransferPairShape | src/main/java/org/CleverBank/Service/TransactionService.java:112-129 | a transfer makes two records, TRANSFER_IN (+amount) then TRANSFER_OUT (-amount); both have the same source, target and date, and their amounts sum to zero |
| TransactionServices.TransferPairEffect | src/main/java/org/CleverBank/Service/TransactionService.java:112-129 | the two transfer records mean -amount on the source, +amount on the target, nothing elsewhere, and zero overall for a self-transfer |
| TransactionServices.TransferPairConserves | src/main/java/org/CleverBank/Service/TransactionService.java:114-123 | between distinct accounts, the two records' effects sum to zero |
| TransactionServices.StatementOfTransferAsWritten | src/main/java/org/CleverBank/Repository/TransactionRepository.java:84 | as written, the source's statement lists both transfer records, adding up to zero, and the target's statement lists neither |
| TransactionServices.StatementOfTransferCorrected | src/main/java/org/CleverBank/Service/UserService.java:82-83 | selecting by the account a record concerns, the source's statement is the TRANSFER_OUT (-amount) and the target's the TRANSFER_IN (+amount) |
| TransactionServices.TransactionService.GetTransaction | src/main/java/org/CleverBank/Service/TransactionService.java:40-47 | returns the stored record with that id, or fails with "Transaction not found" exactly when the id is absent |
| TransactionServices.TransactionService.SaveTransaction | src/main/java/org/CleverBank/Service/TransactionService.java:76-79 | stamps today's date, keeps the other fields, gets the next id (which then advances by one), and only appends |
| TransactionServices.TransactionService.DeleteTransaction | src/main/java/org/CleverBank/Service/TransactionService.java:97-103 | fails with "Transaction not found", changing nothing, exactly when the id is absent; otherwise removes exactly that one record and keeps the others in order |
| TransactionServices.TransactionService.CreateTransferTransactions | src/main/java/org/CleverBank/Service/TransactionService.java:112-132 | appends exactly the two transfer records, in order, with consecutive new ids |
| TransactionServices.TransactionService.SaveDepositTransfer | src/main/java/org/CleverBank/Service/TransactionService.java:157-168 | appends exactly one DEPOSIT record of +amount, with source = target = the account id and today's date |
| TransactionServices.TransactionService.SaveWithdrawTransfer | src/main/java/org/CleverBank/Service/TransactionService.java:176-187 | appends exactly one WITHDRAWAL record of -amount, with source = target = the account id and today's date |
| AccountServices.FirstLocked | src/main/java/org/CleverBank/Service/AccountService.java:116 | the first monitor goes to the account whose id is not larger than the other's, and to the target on equal ids |
| AccountServices.SecondLocked | src/main/java/org/CleverBank/Service/AccountService.java:117 | the second monitor goes to the other account, whose id is not smaller |
| AccountServices.LockOrderIsGlobal | src/main/java/org/CleverBank/Service/AccountService.java:116-117 | the first lock goes to the strictly smaller id, and to the target when the ids are equal; the two locks go to different sides; the locked ids are exactly {source, target}, and the first is never larger than the second |
| AccountServices.LockOrderSymmetric | src/main/java/org/CleverBank/Service/AccountService.java:116-117 | for distinct ids, transfer(a, b) and transfer(b, a) lock the same account first and the same one second |
| AccountServices.WaitChainIncreases | src/main/java/org/CleverBank/Service/AccountService.java:116-120 | along a chain of transfers each waiting on the next one's first lock, the ids strictly increase |
| AccountServices.NoWaitCycle | src/main/java/org/CleverBank/Service/AccountService.java:116-120 | transfers between distinct ids cannot wait on one another in a cycle, so the lock order rules out this deadlock |
| AccountServices.EqualIdsFormWaitCycle | src/main/java/org/CleverBank/Service/AccountService.java:116-120 | with locks named by id, two transfers whose source and target share one id do form a wait cycle, which is why NoWaitCycle needs distinct ids |
| AccountServices.InterestDue | src/main/java/org/CleverBank/Service/AccountService.java:151 | the scan's test: an account that never accrued is due, and one that accrued today is not |
| AccountServices.InterestDueIff | src/main/java/org/CleverBank/Service/AccountService.java:151 | an account is due exactly when it has never accrued interest, or a whole calendar month has passed since it last did |
| AccountServices.Accrue | src/main/java/org/CleverBank/Service/AccountService.java:176-177 | accrual adds exactly the rate, whatever the balance, stamps today as the last interest date, and changes nothing else |
| AccountServices.AccrualIsOncePerMonth | src/main/java/org/CleverBank/Service/AccountService.java:151-177 | an accrued account is not due again today, and is due on a later date exactly when a whole month has passed |
| AccountServices.DueAccounts | src/main/java/org/CleverBank/Service/AccountService.java:148-155 | the scan's submissions, never more than the accounts: each is one of the accounts and is due |
| AccountServices.DueAccountsMembers | src/main/java/org/CleverBank/Service/AccountService.java:148-155 | the scan misses no due account |
| AccountServices.DueAccountsDistinct | src/main/java/org/CleverBank/Service/AccountService.java:148-155 | accounts with distinct ids are submitted with distinct ids |
| AccountServices.DueAccountsInOrder | src/main/java/org/CleverBank/Service/AccountService.java:148-155 | submissions come in store order |
| AccountServices.ScanForInterest | src/main/java/org/CleverBank/Service/AccountService.java:148-155 | the scan loop returns exactly the due accounts, in the order it meets them |
| AccountServices.AccrueAt | src/main/java/org/CleverBank/Service/AccountService.java:167-179 | the store after accruing the given ids: those rows accrued, all others untouched, same keys |
| AccountServices.AccrueDue | src/main/java/org/CleverBank/Service/AccountService.java:146-179 | after one interest run every due row has been accrued once and every other row is unchanged |
| AccountServices.DueIds | src/main/java/org/CleverBank/Service/AccountService.java:146-155 | the ids the scan submits, read off the store: only keys of the store order that are due, in that order |
| AccountServices.DueIdsComplete | src/main/java/org/CleverBank/Service/AccountService.java:148-155 | every due key in the store order is submitted |
| AccountServices.DueIdsAreTheDueKeys | src/main/java/org/CleverBank/Service/AccountService.java:146-155 | when the order lists every key, every due row of the store is submitted |
| AccountServices.DueIdsDistinct | src/main/java/org/CleverBank/Service/AccountService.java:148-155 | no id is submitted twice |
| AccountServices.DueAccountsHaveDueIds | src/main/java/org/CleverBank/Service/AccountService.java:146-155 | the objects the scan submits carry, one for one, the due ids of the store and hold their stored rows |
| AccountServices.AccrueAtStep | src/main/java/org/CleverBank/Service/AccountService.java:178 | writing one more accrued account adds its id to the set of accrued rows |
| AccountServices.AccrueAtAllDue | src/main/java/org/CleverBank/Service/AccountService.java:146-179 | once exactly the due rows have been accrued, the store equals the one-run result |
| AccountServices.TransferBetweenCopiesCreatesMoney | src/main/java/org/CleverBank/Service/AccountService.java:124-128 | for two copies of one stored account, the target's write overwrites the source's debit, so the stored balance rises by the amount |
| AccountServices.AccountService.Deposit | src/main/java/org/CleverBank/Service/AccountService.java:78-85 | fails with "Refill amount must be positive" exactly when amount < 0, and then changes nothing (zero is accepted). On success: the balance rises by amount and nothing else changes; the account is written once under its own id; one DEPOSIT record is appended under the next id, and it accounts for the change; every other account's ledger balance is unchanged |
| AccountServices.AccountService.Withdraw | src/main/java/org/CleverBank/Service/AccountService.java:94-101 | fails with "Insufficient funds to withdraw" exactly when balance - amount < 0, and then changes nothing (the amount's sign is not checked). On success: the balance falls by amount; the account is written once; one WITHDRAWAL record of -amount is appended under the next id, and it accounts for the change; every other account's ledger balance is unchanged |
| AccountServices.AccountService.Transfer | src/main/java/org/CleverBank/Service/AccountService.java:111-137 | fails with "Not enough funds" exactly when source.balance - amount < 0, and then changes neither account, the store nor the log. On success: for distinct objects the source is debited and the target credited; the sum of the two balances is kept; exactly two writes, source then target; TRANSFER_IN then TRANSFER_OUT are appended under the next two ids, and for distinct ids they account for both balances. One object passed twice keeps its balance |
| AccountServices.AccountService.CalculateAndApplyInterest | src/main/java/org/CleverBank/Service/AccountService.java:167-179 | the account becomes its accrual (balance + rate, last interest date = today), and it is written once under its own id |
| AccountServices.AccountService.InterestTick | src/main/java/org/CleverBank/Service/AccountService.java:144-156 | one run of the interest task over the whole store, with the submitted work run in order: due rows accrued once, the rest untouched, and exactly one write per due id, in store order |
| AccountServices.AccountService.ApplyInterestToEach | src/main/java/org/CleverBank/Service/AccountService.java:148-155 | applying interest to each submitted account in turn accrues exactly the submitted ids and writes them in submission order; each submitted object becomes its own accrual |
| AccountServices.AccountService.ApplyInterestStep | src/main/java/org/CleverBank/Service/AccountService.java:153 | one submitted task, the loop body of ApplyInterestToEach: when the first n submitted accounts have been accrued and written, it accrues and writes account n. The store, the write log and the submitted objects then stand as after n + 1 tasks |
| AccountServices.AccountService.GetAccount | src/main/java/org/CleverBank/Service/AccountService.java:197-204 | fails with "Account not found" exactly when the id is absent; otherwise returns a fresh object holding the stored row |
| AccountServices.AccountService.DeleteAccount | src/main/java/org/CleverBank/Service/AccountService.java:242-248 | fails with "Account not found", changing nothing, exactly when the id is absent; otherwise removes exactly that row |

## Findings

| source | as written | input that shows it | evidently intended | confidence | as-written member | corrected member |
|---|---|---|---|---|---|---|
| src/main/java/org/CleverBank/Repository/TransactionRepository.java:84 | the account statement selects records by `source_account` only, and both records of a transfer carry the source's id (TransactionService.java:115, 124) | transfer(s, t, 50) with distinct ids: s's statement lists +50 and -50, which add up to 0, although s lost 50; t's statement lists nothing, although t gained 50 | each account's statement lists the records that concern it: the TRANSFER_OUT for the source and the TRANSFER_IN ("Перевод на получателя", transfer to the recipient) for the target | medium; not executed | TransactionServices.StatementOfTransferAsWritten | TransactionServices.StatementOfTransferCorrected |

The corrected selection is `Transactions.AccountRecords`. `Transactions.NetEffectIsTotalOfAccountRecords` proves that its amounts add up to `NetEffect`, and `NetEffect` is what the operations' contracts use.

## Left out

- Threads and monitors are not modelled: `synchronized`, the scheduled executor, the worker pool and `stopInterestCalculation`. The lock order is kept as a pure choice, with a deadlock-freedom lemma over chains of waiting transfers. The interest task runs its submitted work one task after another, in submission order.
- AccountServices.NoWaitCycle: locks are modelled per account id, but Java monitors belong to objects. `getAccountById` returns a new object on every call (`AccountRepository.java:40`, `155-156`), and `transfer` accepts equal ids. Take two copies X and X' of one account: `transfer(X, X')` locks X' then X, and `transfer(X', X)` locks X then X', so the two can deadlock. The lemma needs distinct ids and does not cover this case; `EqualIdsFormWaitCycle` shows that named by id such transfers do form a cycle.
- The JDBC connection and `commit` in `transfer` are not modelled. The model claims neither rollback nor atomicity; `transfer` is the straight-line sequence of its steps.
- SQL and JDBC are replaced by the abstract stores described above. Not modelled: SQL errors, the "Failed to ..." runtime exceptions, and a missing generated key.
- Receipts are not part of this model: `createCheck`, `createTransferCheck` and `DocumentGenerator`. These call `bankRepository.getBankById(..).getName()` (`TransactionService.java:142-143`, `197`), and `getBankById` returns null for a missing bank. For an account whose bank row is missing, that call throws a NullPointerException after the ledger records are saved (and, in `transfer`, before the commit at `AccountService.java:131`). The model reports `Pass` in that case.
- Loading `config.yml` is not modelled; the interest rate is a parameter. Reading the clock is not modelled either: the date is a parameter, and every call of `LocalDate.now()` within one operation is taken to return the same date. In the interest run these are the calls at `AccountService.java:145` and `177`.
- TransactionServices.TransferPairShape: `createTransferTransactions` reads `LocalDate.now()` once per record (`TransactionService.java:117` and `126`). `TransferPair` and `TransactionService.CreateTransferTransactions` give both records the one `today`, so the lemma's "same date" conjunct holds only under this abstraction. A transfer that straddles midnight stores two different dates.
- Balances and amounts are exact reals, so `double` rounding is not modelled.
- Month lengths are not modelled: a valid date only needs month 1..12 and day 1..31. The month count follows the JDK's packed month-and-day formula.
- `AccountRepository.getAllAccounts` has no ORDER BY, so it promises no row order. The model takes the order as a parameter: a list of every id, once each.
- Repositories.AccountStore.UpdateAccountById: `Date.valueOf(null)` throws when `lastInterestDate` is null. The model does not include this failure and writes the row (`AccountRepository.java:122`).
- Repositories.AccountStore.GetAccountById, Repositories.AccountStore.GetAllAccounts, AccountServices.AccountService.InterestTick: `toLocalDate()` on a null `last_interest_date` throws when an account is read back (`AccountRepository.java:162`). The model instead reads it back as None. For that reason the scan's `lastInterestDate == null` branch is kept. In the program, `getAllAccounts` reads rows through the same mapper (`AccountRepository.java:63`), so one such row makes the whole interest task throw at `AccountService.java:146`. Under `scheduleAtFixedRate`, a task that throws is never run again. The model's run instead accrues that row.
- Transactions.StatementRecords: the statement's date range (`BETWEEN ? AND ?`) and the text it prints are not modelled; only which records it selects. The query has no ORDER BY, so the program promises no order. The model lists the records in log order, and its contract states only which records are listed.
- Transactions.AccountRecords: the body keeps log order, but the contract states only which records are listed, in both directions, not their order.
- A `Transaction` is a value, so setters return an updated copy. The object aliasing in `saveTransaction`, where the caller's own object gets the new date and id, is not modelled.
- Not modelled: `getAllTransaction`, `getAllTransactionByAccountAndTime`, `updateTransaction`, `saveAccount`, `updateAccount`, and the `getAllAccounts` service wrapper. None of them is part of the ledger core.
- Not part of this model: `UserService` (beyond which records its statement selects), `BankService`, `DatabaseUtil`, `Main` and the `User`/`Bank` models.
