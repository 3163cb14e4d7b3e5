/** /api/budgets: the budgets collection as a table keyed by (category,
    month, year). POST validates its body and then updates the budget with
    that key in place or inserts a new one; GET lists every budget, latest
    year first and, within a year, latest month string first. The clock
    reading `now` is a parameter. */
module BudgetsRoute {
  import opened Records
  import opened Sorting
  import opened Text

  /** The destructured POST body. A field the client left out is its falsy
      value, and `parseFloat(amount)` is taken as already applied. */
  datatype BudgetInput = BudgetInput(category: string, amount: real, month: string, year: int)

  /** `!category || !amount || !month || !year` is false. */
  predicate Complete(input: BudgetInput) {
    input.category != "" && input.amount != 0.0 && input.month != "" && input.year != 0
  }

  /** The POST replies: 400 with its message, `{ success, updated: true }`,
      or the inserted budget. */
  datatype PostReply = Rejected(error: string) | Updated | Created(budget: Budget)

  predicate HasKey(b: Budget, category: string, month: string, year: int) {
    b.category == category && b.month == month && b.year == year
  }

  /** At most one budget per (category, month, year). */
  predicate UniqueKeys(bs: seq<Budget>) {
    forall i, j :: 0 <= i < j < |bs| ==>
      !HasKey(bs[j], bs[i].category, bs[i].month, bs[i].year)
  }

  /** What the store keeps: unique keys, and no zero amount (POST refuses one). */
  predicate WellFormed(bs: seq<Budget>) {
    UniqueKeys(bs) && forall i :: 0 <= i < |bs| ==> bs[i].amount != 0.0
  }

  /** `findOne({ category, month, year })`: the position of the first budget
      with the key, None when there is none. */
  function FindKey(bs: seq<Budget>, category: string, month: string, year: int): (r: Option<nat>)
    ensures r.None? <==> forall i :: 0 <= i < |bs| ==> !HasKey(bs[i], category, month, year)
    ensures r.Some? ==> r.value < |bs| && HasKey(bs[r.value], category, month, year)
                        && forall i :: 0 <= i < r.value ==> !HasKey(bs[i], category, month, year)
  {
    if |bs| == 0 then None
    else if HasKey(bs[0], category, month, year) then Some(0)
    else
      var r := FindKey(bs[1..], category, month, year);
      assert forall i :: 1 <= i < |bs| ==> bs[i] == bs[1..][i - 1];
      if r.None? then None else Some(r.value + 1)
  }

  /** The budget the insert branch builds. */
  function NewBudget(input: BudgetInput, now: int): Budget {
    Budget(input.category, input.amount, input.month, input.year, now, now)
  }

  /** The collection after a POST at instant `now`. */
  function AfterPost(bs: seq<Budget>, input: BudgetInput, now: int): (r: seq<Budget>)
    ensures !Complete(input) ==> r == bs
    ensures |bs| <= |r| <= |bs| + 1
    ensures Complete(input) ==> exists i :: 0 <= i < |r| && HasKey(r[i], input.category, input.month, input.year)
                                              && r[i].amount == input.amount
  {
    if !Complete(input) then bs
    else
      var found := FindKey(bs, input.category, input.month, input.year);
      if found.Some? then
        var r := bs[found.value := bs[found.value].(amount := input.amount, updatedAt := now)];
        assert HasKey(r[found.value], input.category, input.month, input.year);
        r
      else
        var r := bs + [NewBudget(input, now)];
        assert r[|bs|] == NewBudget(input, now);
        r
  }

  /** The reply to a POST at instant `now`. */
  function PostReplyOf(bs: seq<Budget>, input: BudgetInput, now: int): (r: PostReply)
    ensures r.Rejected? <==> !Complete(input)
    ensures r.Rejected? ==> r.error == MissingFields
    ensures r.Updated? <==> Complete(input) && exists i :: 0 <= i < |bs| && HasKey(bs[i], input.category, input.month, input.year)
    ensures r.Created? ==> HasKey(r.budget, input.category, input.month, input.year) && r.budget.amount == input.amount
  {
    if !Complete(input) then Rejected(MissingFields)
    else if FindKey(bs, input.category, input.month, input.year).Some? then Updated
    else Created(NewBudget(input, now))
  }

  /** `.sort({ year: -1, month: -1 })`: later year first, then the month
      string in descending code-point order. */
  function ByYearMonthDesc(a: Budget, b: Budget): bool {
    a.year > b.year || (a.year == b.year && StrLe(b.month, a.month))
  }

  lemma BudgetOrderTotal()
    ensures TotalPreorder(ByYearMonthDesc)
  {
    forall a: Budget, b: Budget ensures ByYearMonthDesc(a, b) || ByYearMonthDesc(b, a) {
      StrLeTotal(a.month, b.month);
    }
    forall a: Budget, b: Budget, c: Budget | ByYearMonthDesc(a, b) && ByYearMonthDesc(b, c)
      ensures ByYearMonthDesc(a, c)
    {
      if a.year == b.year && b.year == c.year {
        StrLeTransitive(c.month, b.month, a.month);
      }
    }
  }

  /** The listing of GET: every budget, in the order above. Ties (same year
      and month) come out in one of the orders the database may use. */
  function Listing(bs: seq<Budget>): seq<Budget> {
    SortBy(bs, ByYearMonthDesc)
  }

  lemma {:induction false} ListingExact(bs: seq<Budget>)
    ensures multiset(Listing(bs)) == multiset(bs)
    ensures forall i, j :: 0 <= i < j < |Listing(bs)| ==>
              var a, b := Listing(bs)[i], Listing(bs)[j];
              a.year > b.year || (a.year == b.year && StrLe(b.month, a.month))
  {
    BudgetOrderTotal();
    SortBySorted(bs, ByYearMonthDesc);
  }

  /** An incomplete body is refused with 400 and changes nothing. */
  lemma {:induction false} PostRejects(bs: seq<Budget>, input: BudgetInput, now: int)
    requires !Complete(input)
    ensures PostReplyOf(bs, input, now) == Rejected(MissingFields)
    ensures AfterPost(bs, input, now) == bs
  {
  }

  /** With a budget of that key in the table, only its amount and update
      time change: the number of budgets, every other budget, and its
      category, month, year and creation time stay. */
  lemma {:induction false} PostUpdates(bs: seq<Budget>, input: BudgetInput, now: int, k: nat)
    requires Complete(input) && UniqueKeys(bs)
    requires k < |bs| && HasKey(bs[k], input.category, input.month, input.year)
    ensures PostReplyOf(bs, input, now) == Updated
    ensures var after := AfterPost(bs, input, now);
            && |after| == |bs|
            && after[k] == Budget(bs[k].category, input.amount, bs[k].month, bs[k].year, bs[k].createdAt, now)
            && forall i :: 0 <= i < |bs| && i != k ==> after[i] == bs[i]
  {
    var f := FindKey(bs, input.category, input.month, input.year).value;
    if f != k {
      assert false;
    }
  }

  /** Without a budget of that key, exactly one budget with the given fields
      and both times `now` is appended. */
  lemma {:induction false} PostCreates(bs: seq<Budget>, input: BudgetInput, now: int)
    requires Complete(input)
    requires forall i :: 0 <= i < |bs| ==> !HasKey(bs[i], input.category, input.month, input.year)
    ensures PostReplyOf(bs, input, now) == Created(Budget(input.category, input.amount, input.month, input.year, now, now))
    ensures AfterPost(bs, input, now) == bs + [Budget(input.category, input.amount, input.month, input.year, now, now)]
  {
  }

  /** A POST keeps the table well formed, leaves every budget with another
      key untouched, and afterwards the key has exactly one budget, holding
      the posted amount, when the body was complete. */
  lemma {:induction false} PostKeepsTable(bs: seq<Budget>, input: BudgetInput, now: int)
    requires WellFormed(bs)
    ensures var after := AfterPost(bs, input, now);
            && WellFormed(after)
            && (forall b :: b in bs && !HasKey(b, input.category, input.month, input.year) ==> b in after)
            && (forall b :: b in after && !HasKey(b, input.category, input.month, input.year) ==> b in bs)
            && (Complete(input) ==>
                  exists k :: 0 <= k < |after| && HasKey(after[k], input.category, input.month, input.year)
                    && after[k].amount == input.amount
                    && forall i :: 0 <= i < |after| && i != k ==> !HasKey(after[i], input.category, input.month, input.year))
  {
    var after := AfterPost(bs, input, now);
    if Complete(input) {
      var found := FindKey(bs, input.category, input.month, input.year);
      if found.Some? {
        var k := found.value;
        PostUpdates(bs, input, now, k);
        forall i | 0 <= i < |after| && i != k
          ensures !HasKey(after[i], input.category, input.month, input.year)
        {
          if i < k {
            assert !HasKey(bs[k], bs[i].category, bs[i].month, bs[i].year);
          } else {
            assert !HasKey(bs[i], bs[k].category, bs[k].month, bs[k].year);
          }
        }
        forall i, j | 0 <= i < j < |after|
          ensures !HasKey(after[j], after[i].category, after[i].month, after[i].year)
        {
          assert !HasKey(bs[j], bs[i].category, bs[i].month, bs[i].year);
        }
        forall b | b in bs && !HasKey(b, input.category, input.month, input.year) ensures b in after {
          var i :| 0 <= i < |bs| && bs[i] == b;
          assert after[i] == b;
        }
        forall b | b in after && !HasKey(b, input.category, input.month, input.year) ensures b in bs {
          var i :| 0 <= i < |after| && after[i] == b;
          assert bs[i] == b;
        }
      } else {
        PostCreates(bs, input, now);
        var k := |bs|;
        assert after[k] == NewBudget(input, now);
        forall i | 0 <= i < |after| && i != k
          ensures !HasKey(after[i], input.category, input.month, input.year)
        {
          assert after[i] == bs[i];
        }
      }
    }
  }

  /** Posting the same body twice at the same instant leaves the table as
      one post does. */
  lemma {:induction false} PostIdempotent(bs: seq<Budget>, input: BudgetInput, now: int)
    requires WellFormed(bs)
    ensures AfterPost(AfterPost(bs, input, now), input, now) == AfterPost(bs, input, now)
  {
    var once := AfterPost(bs, input, now);
    if Complete(input) {
      PostKeepsTable(bs, input, now);
      var k :| 0 <= k < |once| && HasKey(once[k], input.category, input.month, input.year)
                 && once[k].amount == input.amount
                 && forall i :: 0 <= i < |once| && i != k ==> !HasKey(once[i], input.category, input.month, input.year);
      PostUpdates(once, input, now, k);
      var found := FindKey(bs, input.category, input.month, input.year);
      if found.Some? {
        PostUpdates(bs, input, now, found.value);
      } else {
        PostCreates(bs, input, now);
      }
      assert AfterPost(once, input, now) == once;
    }
  }

  /** The budgets collection. */
  class BudgetStore {
    var budgets: seq<Budget>

    ghost predicate Valid()
      reads this
    {
      WellFormed(budgets)
    }

    constructor()
      ensures Valid() && budgets == []
    {
      budgets := [];
    }

    /** POST /api/budgets at instant `now`. */
    method Post(input: BudgetInput, now: int) returns (reply: PostReply)
      requires Valid()
      modifies this
      ensures Valid()
      ensures budgets == AfterPost(old(budgets), input, now)
      ensures reply == PostReplyOf(old(budgets), input, now)
    {
      PostKeepsTable(budgets, input, now);
      if !Complete(input) {
        return Rejected(MissingFields);
      }
      var existing := FindKey(budgets, input.category, input.month, input.year);
      if existing.Some? {
        var k := existing.value;
        budgets := budgets[k := budgets[k].(amount := input.amount, updatedAt := now)];
        reply := Updated;
      } else {
        var budget := NewBudget(input, now);
        budgets := budgets + [budget];
        reply := Created(budget);
      }
    }

    /** GET /api/budgets: every budget, later year first, then later month. */
    method List() returns (r: seq<Budget>)
      ensures multiset(r) == multiset(budgets)
      ensures forall i, j :: 0 <= i < j < |r| ==>
                r[i].year > r[j].year || (r[i].year == r[j].year && StrLe(r[j].month, r[i].month))
    {
      r := Listing(budgets);
      ListingExact(budgets);
    }
  }
}
