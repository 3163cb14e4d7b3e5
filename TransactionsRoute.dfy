/** /api/transactions: POST validates its body, fills in the category and
    appends one transaction; GET lists every transaction, latest date first.
    The clock reading `now` is a parameter. */
module TransactionsRoute {
  import opened Records
  import opened Sorting
  import opened Calendar

  /** The destructured POST body. A field the client left out is its falsy
      value (None for the date), `parseFloat(amount)` is taken as already
      applied, and `new Date(date)` as having given a calendar date. */
  datatype TransactionInput = TransactionInput(
    amount: real,
    date: Option<Date>,
    description: string,
    category: string,
    kind: string)

  /** `!amount || !date || !description || !type` is false. The category is
      not required. */
  predicate Complete(input: TransactionInput) {
    input.amount != 0.0 && input.date.Some? && input.description != "" && input.kind != ""
  }

  /** `category || 'Other'`. */
  function StoredCategory(category: string): (c: string)
    ensures c != ""
    ensures category != "" ==> c == category
    ensures category == "" ==> c == OtherCategory
  {
    if category == "" then OtherCategory else category
  }

  /** The record the route inserts, created and updated at `now`. */
  function NewTransaction(input: TransactionInput, now: int): (t: Transaction)
    requires Complete(input)
    ensures t.amount == input.amount && t.date == input.date.value
    ensures t.description == input.description && t.kind == input.kind
    ensures t.category.Some? && t.category.value != ""
    ensures input.category != "" ==> t.category == Some(input.category)
    ensures t.createdAt == now && t.updatedAt == now
  {
    Transaction(input.amount, input.date.value, input.description, Some(StoredCategory(input.category)),
                input.kind, now, now)
  }

  /** The reply to a POST: the inserted record, or 400. */
  function PostReplyOf(input: TransactionInput, now: int): (r: Reply<Transaction>)
    ensures r.BadRequest? <==> !Complete(input)
    ensures r.BadRequest? ==> r.error == MissingFields
  {
    if Complete(input) then Ok(NewTransaction(input, now)) else BadRequest(MissingFields)
  }

  /** The collection after a POST. */
  function AfterPost(ts: seq<Transaction>, input: TransactionInput, now: int): (r: seq<Transaction>)
    ensures ts <= r
    ensures |r| == if Complete(input) then |ts| + 1 else |ts|
  {
    if Complete(input) then ts + [NewTransaction(input, now)] else ts
  }

  /** Every record the route has stored carries a non-empty category. */
  predicate Categorised(ts: seq<Transaction>) {
    forall i :: 0 <= i < |ts| ==> ts[i].category.Some? && ts[i].category.value != ""
  }

  /** A POST adds exactly the one new record when the body is complete and
      nothing otherwise; the records already there keep their places, and
      the store stays categorised. */
  lemma {:induction false} PostExact(ts: seq<Transaction>, input: TransactionInput, now: int)
    ensures var after := AfterPost(ts, input, now);
            && after[..|ts|] == ts
            && (Complete(input) ==> |after| == |ts| + 1 && after[|ts|] == PostReplyOf(input, now).body)
            && (!Complete(input) ==> after == ts)
            && (Categorised(ts) ==> Categorised(after))
  {
    var after := AfterPost(ts, input, now);
    if !Complete(input) {
      assert after[..|ts|] == ts;
    }
  }

  /** The listing of GET. Records of the same date come out in one of the
      orders the database may use. */
  function Listing(ts: seq<Transaction>): seq<Transaction> {
    SortBy(ts, ByDateDesc)
  }

  lemma {:induction false} ListingExact(ts: seq<Transaction>)
    ensures multiset(Listing(ts)) == multiset(ts)
    ensures forall i, j :: 0 <= i < j < |Listing(ts)| ==> DateLe(Listing(ts)[j].date, Listing(ts)[i].date)
  {
    DateOrderTotal();
    SortBySorted(ts, ByDateDesc);
  }

  /** The transactions collection. */
  class TransactionStore {
    var transactions: seq<Transaction>

    constructor()
      ensures transactions == []
    {
      transactions := [];
    }

    /** POST /api/transactions at instant `now`. */
    method Post(input: TransactionInput, now: int) returns (reply: Reply<Transaction>)
      modifies this
      ensures transactions == AfterPost(old(transactions), input, now)
      ensures reply == PostReplyOf(input, now)
    {
      if !Complete(input) {
        return BadRequest(MissingFields);
      }
      var t := NewTransaction(input, now);
      transactions := transactions + [t];
      reply := Ok(t);
    }

    /** GET /api/transactions: every transaction, latest date first. */
    method List() returns (r: seq<Transaction>)
      ensures multiset(r) == multiset(transactions)
      ensures forall i, j :: 0 <= i < j < |r| ==> DateLe(r[j].date, r[i].date)
    {
      r := Listing(transactions);
      ListingExact(transactions);
    }
  }
}
