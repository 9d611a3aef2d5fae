/** The transaction schema (models/transaction.js): a record type, the
    validators Mongoose runs on save, and construction of a new document
    with its defaults. */
module Transactions {
  import opened Common

  type TxId = nat

  const Income: string := "income"
  const Expense: string := "expense"
  const MaxDescriptionLength: nat := 100

  /** A stored transaction. Amounts are integers (minor units) and dates are
      integer timestamps; createdAt and updatedAt come from `timestamps: true`. */
  datatype Transaction = Transaction(
    id: TxId,
    description: string,
    amount: int,
    txType: string,
    category: string,
    date: int,
    userId: UserId,
    createdAt: int,
    updatedAt: int)

  /** The fields a client may send; a field absent from the body is None.
      There is no owner field: the owner never comes from the body. */
  datatype Body = Body(
    description: Option<string>,
    amount: Option<int>,
    txType: Option<string>,
    category: Option<string>)

  predicate IsTxType(s: string) {
    s == Income || s == Expense
  }

  /** What every transaction that passed the schema's validators satisfies. */
  predicate ValidTransaction(t: Transaction) {
    && t.description != []
    && Utf16Length(t.description) <= MaxDescriptionLength
    && Trimmed(t.description)
    && t.amount >= 0
    && IsTxType(t.txType)
    && t.category != []
  }

  /** The validators of the schema, applied to a body after the trim setter:
      every field is required (a required string must be non-empty), the
      trimmed description is at most 100 UTF-16 code units long, the amount is at least 0
      and the type is one of the enum values. */
  predicate Admissible(body: Body) {
    && body.description.Some?
    && Trim(body.description.value) != []
    && Utf16Length(Trim(body.description.value)) <= MaxDescriptionLength
    && body.amount.Some? && body.amount.value >= 0
    && body.txType.Some? && IsTxType(body.txType.value)
    && body.category.Some? && body.category.value != []
  }

  /** `new Transaction({...})` followed by the validation that `save` runs:
      None when a validator rejects the document. A missing date defaults to
      the creation time `now`. */
  function Build(id: TxId, body: Body, date: Option<int>, owner: UserId, now: int): (r: Option<Transaction>)
    ensures r.Some? <==> Admissible(body)
    ensures r.Some? ==> ValidTransaction(r.value)
    ensures r.Some? ==> r.value.id == id && r.value.userId == owner
    ensures r.Some? ==> r.value.date == (if date.Some? then date.value else now)
    ensures r.Some? ==> r.value.createdAt == now && r.value.updatedAt == now
    ensures r.Some? ==> && r.value.description == Trim(body.description.value)
                        && r.value.amount == body.amount.value
                        && r.value.txType == body.txType.value
                        && r.value.category == body.category.value
  {
    if Admissible(body) then
      var description := Trim(body.description.value);
      Some(Transaction(id, description, body.amount.value, body.txType.value, body.category.value,
                       if date.Some? then date.value else now, owner, now, now))
    else
      None
  }
}
