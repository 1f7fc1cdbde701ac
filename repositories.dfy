/**
 * The two stores the services talk to, as abstract state: accounts keyed by id,
 * and the transaction log with store-generated ids. The SQL behind them is not modelled.
 */
module Repositories {
  import opened Results
  import opened Accounts
  import opened Transactions

  /**
   * updateAccountById(row, key): an UPDATE ... WHERE id = key. It overwrites every
   * column of an existing row and leaves the table alone when no row has that id.
   */
  function Put(rows: map<int, AccountRow>, key: int, row: AccountRow): (r: map<int, AccountRow>)
    ensures r.Keys == rows.Keys
    ensures key in rows ==> r[key] == row.(id := key)
    ensures forall k :: k in rows && k != key ==> r[k] == rows[k]
  {
    if key in rows then rows[key := row.(id := key)] else rows
  }

  class AccountStore {
    var rows: map<int, AccountRow>
    /** The ids passed to updateAccountById, in call order. */
    ghost var writes: seq<int>

    /** Every row carries its own key as id. */
    ghost predicate Valid()
      reads this
    {
      forall k :: k in rows ==> rows[k].id == k
    }

    constructor (initial: map<int, AccountRow>)
      requires forall k :: k in initial ==> initial[k].id == k
      ensures Valid() && rows == initial && writes == []
    {
      rows := initial;
      writes := [];
    }

    /** getAccountById: a fresh object holding the row, or null when the id is absent. */
    method GetAccountById(accountId: int) returns (a: Account?)
      requires Valid()
      ensures a == null <==> accountId !in rows
      ensures a != null ==> fresh(a) && a.Row() == rows[accountId] && a.id == accountId
    {
      if accountId in rows {
        a := new Account(rows[accountId]);
      } else {
        a := null;
      }
    }

    /**
     * getAllAccounts: one fresh object per row, in the order the database returns
     * the rows. SELECT without ORDER BY promises no particular order, so that order
     * is a parameter: `order` lists every key once.
     */
    method GetAllAccounts(order: seq<int>) returns (all: seq<Account>)
      requires Valid()
      requires forall i :: 0 <= i < |order| ==> order[i] in rows
      requires forall k :: k in rows ==> k in order
      requires forall i, j :: 0 <= i < j < |order| ==> order[i] != order[j]
      ensures |all| == |order|
      ensures forall i :: 0 <= i < |all| ==> fresh(all[i]) && all[i].Row() == rows[order[i]]
      ensures forall i :: 0 <= i < |all| ==> all[i].id == order[i]
    {
      all := [];
      for n := 0 to |order|
        invariant |all| == n
        invariant forall i :: 0 <= i < n ==> fresh(all[i]) && all[i].Row() == rows[order[i]]
      {
        var a := new Account(rows[order[n]]);
        all := all + [a];
      }
    }

    /** updateAccountById(account, accountId). */
    method UpdateAccountById(account: Account, accountId: int)
      requires Valid()
      modifies this
      ensures Valid()
      ensures rows == Put(old(rows), accountId, account.Row())
      ensures writes == old(writes) + [accountId]
    {
      rows := Put(rows, accountId, account.Row());
      writes := writes + [accountId];
    }

    /** deleteAccountById: a DELETE ... WHERE id, which removes nothing when the id is absent. */
    method DeleteAccountById(accountId: int)
      requires Valid()
      modifies this`rows
      ensures Valid()
      ensures rows == old(rows) - {accountId}
    {
      rows := rows - {accountId};
    }
  }

  /** Ids strictly increase along the log and lie in [1, nextId). */
  ghost predicate IdsOrdered(records: seq<Transaction>, nextId: int) {
    && (forall i, j :: 0 <= i < j < |records| ==> records[i].id < records[j].id)
    && (forall i :: 0 <= i < |records| ==> 1 <= records[i].id < nextId)
  }

  /** The log without the records whose id is `id`, order kept (DELETE ... WHERE id). */
  function Without(records: seq<Transaction>, id: int): (r: seq<Transaction>)
    ensures |r| <= |records|
    decreases |records|
  {
    if records == [] then []
    else if records[0].id == id then Without(records[1..], id)
    else [records[0]] + Without(records[1..], id)
  }

  /** Exactly the records with other ids survive a delete. */
  lemma {:induction false} WithoutMembers(records: seq<Transaction>, id: int)
    ensures forall t :: t in Without(records, id) <==> t in records && t.id != id
    decreases |records|
  {
    if records != [] {
      WithoutMembers(records[1..], id);
      assert records == [records[0]] + records[1..];
    }
  }

  /** With ordered ids, a delete keeps them ordered. */
  lemma {:induction false} WithoutKeepsOrder(records: seq<Transaction>, nextId: int, id: int)
    requires IdsOrdered(records, nextId)
    ensures IdsOrdered(Without(records, id), nextId)
    decreases |records|
  {
    if records != [] {
      var rest := records[1..];
      assert IdsOrdered(rest, nextId);
      WithoutKeepsOrder(rest, nextId, id);
      if records[0].id != id {
        var tail := Without(rest, id);
        WithoutMembers(rest, id);
        var w := [records[0]] + tail;
        assert Without(records, id) == w;
        forall j | 0 <= j < |tail| ensures records[0].id < tail[j].id {
          assert tail[j] in rest;
        }
        assert forall j :: 0 < j < |w| ==> w[j] == tail[j - 1];
      }
    }
  }

  /** Deleting an id that no record has leaves the log as it was. */
  lemma {:induction false} WithoutAbsent(records: seq<Transaction>, id: int)
    requires forall i :: 0 <= i < |records| ==> records[i].id != id
    ensures Without(records, id) == records
    decreases |records|
  {
    if records != [] {
      WithoutAbsent(records[1..], id);
      assert records == [records[0]] + records[1..];
    }
  }

  /** With unique ids, deleting a present id removes exactly one record. */
  lemma {:induction false} WithoutRemovesOne(records: seq<Transaction>, nextId: int, k: nat)
    requires IdsOrdered(records, nextId) && k < |records|
    ensures |Without(records, records[k].id)| == |records| - 1
    decreases |records|
  {
    var id := records[k].id;
    var rest := records[1..];
    assert IdsOrdered(rest, nextId);
    if k == 0 {
      WithoutAbsent(rest, id);
    } else {
      WithoutRemovesOne(rest, nextId, k - 1);
    }
  }

  class TransactionStore {
    var records: seq<Transaction>
    /** The id the next insert will be given (a SERIAL column starting at 1). */
    var nextId: int

    ghost predicate Valid()
      reads this
    {
      nextId >= 1 && IdsOrdered(records, nextId)
    }

    constructor ()
      ensures Valid() && records == [] && nextId == 1
    {
      records := [];
      nextId := 1;
    }

    /**
     * saveTransaction: insert the record under a fresh id, set that id on it
     * and return it. The id the caller put in the record is ignored.
     */
    method SaveTransaction(t: Transaction) returns (saved: Transaction)
      requires Valid()
      modifies this
      ensures Valid()
      ensures saved == WithId(t, old(nextId))
      ensures records == old(records) + [saved]
      ensures nextId == old(nextId) + 1
    {
      saved := WithId(t, nextId);
      records := records + [saved];
      nextId := nextId + 1;
    }

    /** getTransactionById: the record with that id, or None (Java null). */
    method GetTransactionById(id: int) returns (r: Option<Transaction>)
      requires Valid()
      ensures r.Some? ==> r.value in records && r.value.id == id
      ensures r.None? <==> forall i :: 0 <= i < |records| ==> records[i].id != id
    {
      var i := 0;
      while i < |records|
        invariant 0 <= i <= |records|
        invariant forall j :: 0 <= j < i ==> records[j].id != id
      {
        if records[i].id == id {
          return Some(records[i]);
        }
        i := i + 1;
      }
      return None;
    }

    /** deleteTransactionById. */
    method DeleteTransactionById(id: int)
      requires Valid()
      modifies this`records
      ensures Valid()
      ensures records == Without(old(records), id)
    {
      WithoutKeepsOrder(records, nextId, id);
      records := Without(records, id);
    }
  }
}
