/** The mutating handlers of controllers/transactionController.js
    (createTransaction, updateTransaction, deleteTransaction) on an in-memory
    transaction collection. Every update and delete looks the record up by id
    AND owner in one predicate; a miss answers 404 and changes nothing. */
module TransactionStore {
  import opened Common
  import opened Transactions
  import opened TransactionQueries

  /** The filter `{ _id: id, userId: owner }` of findOneAndUpdate / findOneAndDelete. */
  predicate Selects(t: Transaction, id: TxId, owner: UserId) {
    t.id == id && t.userId == owner
  }

  /** Index of the first record the filter selects, if any. */
  function Lookup(rows: seq<Transaction>, id: TxId, owner: UserId): (r: Option<nat>)
    ensures r.None? <==> forall k :: 0 <= k < |rows| ==> !Selects(rows[k], id, owner)
    ensures r.Some? ==> r.value < |rows| && Selects(rows[r.value], id, owner)
    ensures r.Some? ==> forall k :: 0 <= k < r.value ==> !Selects(rows[k], id, owner)
  {
    FirstWhere(rows, (t: Transaction) => Selects(t, id, owner))
  }

  predicate DistinctIds(rows: seq<Transaction>) {
    forall i, j :: 0 <= i < j < |rows| ==> rows[i].id != rows[j].id
  }

  /** The record after `findOneAndUpdate(filter, { description, amount, type,
      category }, { new: true })`: the update value of the description goes
      through the schema's trim setter; the other three fields come from the
      body as given (no validators run on this update) and updatedAt is
      stamped; id, owner, date and createdAt are kept. */
  function Revise(t: Transaction, description: string, amount: int, txType: string, category: string, now: int): (r: Transaction)
    ensures r.id == t.id && r.userId == t.userId && r.date == t.date && r.createdAt == t.createdAt
    ensures r.description == Trim(description)
    ensures Trimmed(r.description) && |r.description| <= |description|
    ensures Trimmed(description) ==> r.description == description
    ensures r.amount == amount && r.txType == txType && r.category == category && r.updatedAt == now
  {
    var d := Trim(description);
    assert Trimmed(description) ==> d == description by {
      if Trimmed(description) { TrimOfTrimmed(description); }
    }
    t.(description := d, amount := amount, txType := txType, category := category, updatedAt := now)
  }

  /** Creating a record for `owner` adds it to that owner's view and to no one else's. */
  lemma CreateScoped(rows: seq<Transaction>, t: Transaction, owner: UserId)
    ensures ForOwner(rows + [t], owner) == if t.userId == owner then ForOwner(rows, owner) + [t] else ForOwner(rows, owner)
  {
    assert (rows + [t])[..|rows|] == rows;
  }

  /** Replacing a record by one with the same owner leaves every other user's records as they were. */
  lemma {:induction false} ReviseKeepsOthers(rows: seq<Transaction>, i: nat, t: Transaction, other: UserId)
    requires i < |rows| && t.userId == rows[i].userId && other != t.userId
    ensures ForOwner(rows[i := t], other) == ForOwner(rows, other)
    decreases |rows|
  {
    var n := |rows| - 1;
    if i < n {
      assert rows[i := t][..n] == rows[..n][i := t];
      ReviseKeepsOthers(rows[..n], i, t, other);
    } else {
      assert rows[i := t][..n] == rows[..n];
    }
  }

  /** Removing one record leaves every other user's records as they were. */
  lemma RemoveKeepsOthers(rows: seq<Transaction>, i: nat, other: UserId)
    requires i < |rows| && other != rows[i].userId
    ensures ForOwner(rows[..i] + rows[i + 1..], other) == ForOwner(rows, other)
  {
    var keep := (t: Transaction) => t.userId == other;
    assert rows == rows[..i] + [rows[i]] + rows[i + 1..];
    WhereConcat(rows[..i] + [rows[i]], rows[i + 1..], keep);
    WhereConcat(rows[..i], [rows[i]], keep);
    WhereConcat(rows[..i], rows[i + 1..], keep);
    assert Where([rows[i]], keep) == [];
  }

  /** Removing the selected record removes exactly that one record: the rest is
      the old collection minus it, and with unique ids no record with that id is left. */
  lemma RemoveExact(rows: seq<Transaction>, i: nat)
    requires i < |rows| && DistinctIds(rows)
    ensures multiset(rows[..i] + rows[i + 1..]) == multiset(rows) - multiset{rows[i]}
    ensures forall t :: t in rows[..i] + rows[i + 1..] ==> t.id != rows[i].id
    ensures DistinctIds(rows[..i] + rows[i + 1..])
  {
    assert rows == rows[..i] + [rows[i]] + rows[i + 1..];
    var rest := rows[..i] + rows[i + 1..];
    forall t | t in rest ensures t.id != rows[i].id {
      var k :| 0 <= k < |rest| && rest[k] == t;
      if k < i { assert rest[k] == rows[k]; } else { assert rest[k] == rows[k + 1]; }
    }
    forall a, b | 0 <= a < b < |rest| ensures rest[a].id != rest[b].id {
      var a' := if a < i then a else a + 1;
      var b' := if b < i then b else b + 1;
      assert rest[a] == rows[a'] && rest[b] == rows[b'];
    }
  }

  /** The transaction collection. Ids are handed out from a counter, so they are unique. */
  class Collection {
    var rows: seq<Transaction>
    var nextId: TxId

    ghost predicate Valid()
      reads this
    {
      && DistinctIds(rows)
      && forall k :: 0 <= k < |rows| ==> rows[k].id < nextId
    }

    constructor ()
      ensures Valid() && rows == []
    {
      rows := [];
      nextId := 0;
    }

    /** createTransaction: the owner is the caller, never a body field. A body
        the validators reject makes `save` throw, which the handler answers
        with 500; otherwise the record is stored and answered with 201. */
    method Create(caller: UserId, body: Body, now: int) returns (status: nat, created: Option<Transaction>)
      requires Valid()
      modifies this
      ensures Valid()
      ensures status == 201 <==> Admissible(body)
      ensures status == 201 ==> && created == Build(old(nextId), body, None, caller, now)
                                && created.Some?
                                && created.value.userId == caller
                                && ValidTransaction(created.value)
                                && rows == old(rows) + [created.value]
      ensures status != 201 ==> status == 500 && created == None && rows == old(rows)
    {
      var t := Build(nextId, body, None, caller, now);
      if t.None? {
        return 500, None;
      }
      rows := rows + [t.value];
      nextId := nextId + 1;
      status, created := 201, t;
    }

    /** updateTransaction. */
    method Update(caller: UserId, id: TxId, description: string, amount: int, txType: string, category: string, now: int)
      returns (status: nat, updated: Option<Transaction>)
      requires Valid()
      modifies this
      ensures Valid() && nextId == old(nextId)
      ensures status == 404 <==> Lookup(old(rows), id, caller).None?
      ensures status == 404 ==> updated == None && rows == old(rows)
      ensures status != 404 ==>
        var i := Lookup(old(rows), id, caller).value;
        && status == 200
        && updated == Some(Revise(old(rows)[i], description, amount, txType, category, now))
        && rows == old(rows)[i := updated.value]
    {
      var found := Lookup(rows, id, caller);
      if found.None? {
        return 404, None;
      }
      var i := found.value;
      var t := Revise(rows[i], description, amount, txType, category, now);
      rows := rows[i := t];
      status, updated := 200, Some(t);
    }

    /** deleteTransaction. */
    method Delete(caller: UserId, id: TxId) returns (status: nat)
      requires Valid()
      modifies this
      ensures Valid() && nextId == old(nextId)
      ensures status == 404 <==> Lookup(old(rows), id, caller).None?
      ensures status == 404 ==> rows == old(rows)
      ensures status != 404 ==>
        var i := Lookup(old(rows), id, caller).value;
        && status == 200
        && rows == old(rows)[..i] + old(rows)[i + 1..]
        && multiset(rows) == multiset(old(rows)) - multiset{old(rows)[i]}
        && Lookup(rows, id, caller).None?
    {
      var found := Lookup(rows, id, caller);
      if found.None? {
        return 404;
      }
      var i := found.value;
      RemoveExact(rows, i);
      rows := rows[..i] + rows[i + 1..];
      status := 200;
    }
  }
}
