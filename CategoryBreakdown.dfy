/** The category breakdown card: the total of all category amounts, the
    caller's array sorted in place biggest first, the first five rows with
    their share of the total, and an "And N more categories" line. */
module CategoryBreakdown {
  import opened Records
  import opened Sorting

  /** `data.reduce((sum, item) => sum + item.amount, 0)`. */
  function TotalAmount(data: seq<CategoryExpense>): (total: real)
    ensures (forall i :: 0 <= i < |data| ==> data[i].amount >= 0.0) ==> total >= 0.0
    ensures (forall i :: 0 <= i < |data| ==> data[i].amount >= 0.0) ==>
              forall i :: 0 <= i < |data| ==> data[i].amount <= total
  {
    if |data| == 0 then 0.0 else TotalAmount(data[..|data| - 1]) + data[|data| - 1].amount
  }

  /** Taking one row out lowers the total by that row's amount. */
  lemma {:induction false} TotalAmountRemove(data: seq<CategoryExpense>, k: nat)
    requires k < |data|
    ensures TotalAmount(data) == TotalAmount(data[..k] + data[k + 1..]) + data[k].amount
  {
    var init := data[..|data| - 1];
    if k < |data| - 1 {
      TotalAmountRemove(init, k);
      assert data[..k] + data[k + 1..] == (init[..k] + init[k + 1..]) + [data[|data| - 1]];
    } else {
      assert data[..k] + data[k + 1..] == init;
    }
  }

  /** The total does not depend on the order of the rows, so it is the same
      before and after the in-place sort. */
  lemma {:induction false} TotalAmountPermutation(a: seq<CategoryExpense>, b: seq<CategoryExpense>)
    requires multiset(a) == multiset(b)
    ensures TotalAmount(a) == TotalAmount(b)
    decreases |a|
  {
    if |a| == 0 {
      assert |b| == |multiset(b)| == 0;
    } else {
      var k := PermutationStep(a, b);
      var init := a[..|a| - 1];
      assert a == init + [a[|a| - 1]];
      TotalAmountPermutation(init, b[..k] + b[k + 1..]);
      TotalAmountRemove(b, k);
    }
  }

  /** `(a, b) => b.amount - a.amount`: a comes first when it is not smaller. */
  predicate ByAmountDesc(a: CategoryExpense, b: CategoryExpense) {
    a.amount >= b.amount
  }

  lemma AmountOrderTotal()
    ensures TotalPreorder(ByAmountDesc)
  {
  }

  /** `(item.amount / totalAmount) * 100`. With a zero total JavaScript
      yields NaN or an infinity, modelled as None. */
  function Share(amount: real, total: real): (p: Option<real>)
    ensures p.None? <==> total == 0.0
    ensures p.Some? ==> p.value * total == amount * 100.0
  {
    if total == 0.0 then None else Some(amount / total * 100.0)
  }

  datatype Row = Row(category: string, color: string, amount: real, share: Option<real>)

  /** The card: the empty-state message, or the rows shown and, when more
      than five categories exist, how many are not shown. */
  datatype Card = NoCategoryData | Breakdown(rows: seq<Row>, more: Option<nat>)

  /** The card for rows already in display order, with the total taken over
      all of them. */
  function CardOf(sorted: seq<CategoryExpense>, total: real): (c: Card)
    ensures c.NoCategoryData? <==> |sorted| == 0
    ensures c.Breakdown? ==>
              && |c.rows| == Min(5, |sorted|)
              && (forall i :: 0 <= i < |c.rows| ==>
                    c.rows[i] == Row(sorted[i].category, sorted[i].color, sorted[i].amount, Share(sorted[i].amount, total)))
              && (c.more.Some? <==> |sorted| > 5)
              && (c.more.Some? ==> c.more.value + |c.rows| == |sorted|)
  {
    if |sorted| == 0 then NoCategoryData
    else
      var shown := sorted[..Min(5, |sorted|)];
      Breakdown(
        seq(|shown|, i requires 0 <= i < |shown| =>
          Row(shown[i].category, shown[i].color, shown[i].amount, Share(shown[i].amount, total))),
        if |sorted| > 5 then Some(|sorted| - 5) else None)
  }

  /** The shown rows are the biggest: in non-increasing order, and none of
      the rows left out is bigger than any row shown. */
  lemma {:induction false} CardShowsBiggest(sorted: seq<CategoryExpense>, total: real)
    requires SortedBy(sorted, ByAmountDesc)
    ensures var c := CardOf(sorted, total);
            c.Breakdown? ==>
              && (forall i, j :: 0 <= i < j < |c.rows| ==> c.rows[i].amount >= c.rows[j].amount)
              && (forall i, j :: 0 <= i < |c.rows| <= j < |sorted| ==> sorted[j].amount <= c.rows[i].amount)
  {
  }

  /** Renders the card from the caller's array. The total is read first;
      except for an empty array, the array is then sorted in place, stably,
      so rows of equal amount keep their input order and the card is that
      of `SortBy` over the input. */
  method Render(data: array<CategoryExpense>) returns (c: Card)
    modifies data
    ensures multiset(data[..]) == multiset(old(data[..]))
    ensures SortedBy(data[..], ByAmountDesc) || data.Length == 0
    ensures c == CardOf(data[..], TotalAmount(old(data[..])))
    ensures c == CardOf(data[..], TotalAmount(data[..]))
    ensures SameTies(data[..], old(data[..]), ByAmountDesc)
    ensures c == CardOf(SortBy(old(data[..]), ByAmountDesc), TotalAmount(old(data[..])))
  {
    var total := TotalAmount(data[..]);
    if data.Length == 0 {
      return NoCategoryData;
    }
    AmountOrderTotal();
    SortInPlace(data, ByAmountDesc);
    TotalAmountPermutation(old(data[..]), data[..]);
    c := CardOf(data[..], total);
  }
}
