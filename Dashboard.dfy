/** The dashboard page: which view it shows (loading, error, or the
    dashboard), and the income, expense and net-balance figures of its
    summary cards, taken over the transactions it fetched. */
module Dashboard {
  import opened Records
  import opened Sorting
  import opened Grouping
  import TransactionsRoute

  /** `transactions.filter(t => t.type === kind).reduce((sum, t) => sum + t.amount, 0)`. */
  function KindTotal(ts: seq<Transaction>, kind: string): (total: real)
    ensures (forall i :: 0 <= i < |ts| ==> ts[i].kind != kind) ==> total == 0.0
  {
    Total(Filter(ts, (t: Transaction) => t.kind == kind))
  }

  function TotalIncome(ts: seq<Transaction>): real {
    KindTotal(ts, Income)
  }

  function TotalExpenses(ts: seq<Transaction>): real {
    KindTotal(ts, Expense)
  }

  /** What one transaction adds to the total of `kind`. */
  function Contribution(t: Transaction, kind: string): real {
    if t.kind == kind then t.amount else 0.0
  }

  /** Appending a transaction adds its amount to the total of its own type
      and nothing to the other totals. */
  lemma {:induction false} KindTotalAppend(ts: seq<Transaction>, t: Transaction, kind: string)
    ensures KindTotal(ts + [t], kind) == KindTotal(ts, kind) + Contribution(t, kind)
  {
    var p := (x: Transaction) => x.kind == kind;
    var s := ts + [t];
    assert s[..|s| - 1] == ts;
    var rest := Filter(ts, p);
    if p(t) {
      assert Filter(s, p) == rest + [t];
      assert (rest + [t])[..|rest|] == rest;
    } else {
      assert Filter(s, p) == rest;
    }
  }

  /** Taking one transaction out lowers each total by its contribution. */
  lemma {:induction false} KindTotalRemove(ts: seq<Transaction>, k: nat, kind: string)
    requires k < |ts|
    ensures KindTotal(ts, kind) == KindTotal(ts[..k] + ts[k + 1..], kind) + Contribution(ts[k], kind)
  {
    var init := ts[..|ts| - 1];
    var last := ts[|ts| - 1];
    var rem := ts[..k] + ts[k + 1..];
    assert ts == init + [last];
    KindTotalAppend(init, last, kind);
    if k < |ts| - 1 {
      var remInit := init[..k] + init[k + 1..];
      assert rem == remInit + [last];
      KindTotalRemove(init, k, kind);
      KindTotalAppend(remInit, last, kind);
    } else {
      assert rem == init;
    }
  }

  /** The totals do not depend on the order of the transactions. */
  lemma {:induction false} KindTotalPermutation(a: seq<Transaction>, b: seq<Transaction>, kind: string)
    requires multiset(a) == multiset(b)
    ensures KindTotal(a, kind) == KindTotal(b, kind)
    decreases |a|
  {
    if |a| == 0 {
      assert |b| == |multiset(b)| == 0;
    } else {
      var k := PermutationStep(a, b);
      var init := a[..|a| - 1];
      assert a == init + [a[|a| - 1]];
      KindTotalPermutation(init, b[..k] + b[k + 1..], kind);
      KindTotalAppend(init, a[|a| - 1], kind);
      KindTotalRemove(b, k, kind);
    }
  }

  /** The page's figures over the route's listing, newest first, are those
      over the stored collection in any order. */
  lemma {:induction false} TotalsOfListing(ts: seq<Transaction>)
    ensures TotalIncome(TransactionsRoute.Listing(ts)) == TotalIncome(ts)
    ensures TotalExpenses(TransactionsRoute.Listing(ts)) == TotalExpenses(ts)
  {
    TransactionsRoute.ListingExact(ts);
    KindTotalPermutation(TransactionsRoute.Listing(ts), ts, Income);
    KindTotalPermutation(TransactionsRoute.Listing(ts), ts, Expense);
  }

  /** When every transaction is income or expense, the two totals add up to
      the sum of all amounts. */
  lemma {:induction false} TotalsSplit(ts: seq<Transaction>)
    requires forall i :: 0 <= i < |ts| ==> ts[i].kind == Income || ts[i].kind == Expense
    ensures TotalIncome(ts) + TotalExpenses(ts) == Total(ts)
  {
    if |ts| == 0 {
    } else {
      var init := ts[..|ts| - 1];
      var last := ts[|ts| - 1];
      assert ts == init + [last];
      TotalsSplit(init);
      KindTotalAppend(init, last, Income);
      KindTotalAppend(init, last, Expense);
    }
  }

  /** `totalIncome - totalExpenses`. */
  function NetBalance(ts: seq<Transaction>): (net: real)
    ensures (forall i :: 0 <= i < |ts| ==> ts[i].kind != Expense) ==> net == TotalIncome(ts)
    ensures (forall i :: 0 <= i < |ts| ==> ts[i].kind != Income) ==> net == 0.0 - TotalExpenses(ts)
  {
    TotalIncome(ts) - TotalExpenses(ts)
  }

  /** A successful POST of an income raises the net balance by its amount; of
      an expense, lowers it by its amount; a refused POST leaves it as it was. */
  lemma {:induction false} NetAfterPost(ts: seq<Transaction>, input: TransactionsRoute.TransactionInput, now: int)
    requires input.kind == Income || input.kind == Expense
    ensures var after := TransactionsRoute.AfterPost(ts, input, now);
            && (!TransactionsRoute.Complete(input) ==> NetBalance(after) == NetBalance(ts))
            && (TransactionsRoute.Complete(input) && input.kind == Income ==>
                  NetBalance(after) == NetBalance(ts) + input.amount)
            && (TransactionsRoute.Complete(input) && input.kind == Expense ==>
                  NetBalance(after) == NetBalance(ts) - input.amount)
  {
    if TransactionsRoute.Complete(input) {
      var t := TransactionsRoute.NewTransaction(input, now);
      KindTotalAppend(ts, t, Income);
      KindTotalAppend(ts, t, Expense);
    }
  }

  /** What the page renders: the loading state; the error message; or the
      three summary figures, the net balance green when not negative. */
  datatype View = LoadingView
                | ErrorView(message: string)
                | DashboardView(income: real, expenses: real, net: real, netGreen: bool)

  function ViewOf(loading: bool, error: Option<string>, ts: seq<Transaction>): (v: View)
    ensures v.LoadingView? <==> loading
    ensures v.ErrorView? <==> !loading && error.Some? && error.value != ""
    ensures v.ErrorView? ==> v.message == error.value
    ensures v.DashboardView? ==>
              && v.income == TotalIncome(ts) && v.expenses == TotalExpenses(ts)
              && v.net == v.income - v.expenses
              && (v.netGreen <==> v.income >= v.expenses)
  {
    if loading then LoadingView
    else if error.Some? && error.value != "" then ErrorView(error.value)
    else
      var income := TotalIncome(ts);
      var expenses := TotalExpenses(ts);
      DashboardView(income, expenses, income - expenses, income - expenses >= 0.0)
  }

  /** Adding an expense can only turn a red net balance red again, and adding
      an income can only turn a green one green again. */
  lemma {:induction false} ToneAfterPost(ts: seq<Transaction>, input: TransactionsRoute.TransactionInput, now: int)
    requires TransactionsRoute.Complete(input) && input.amount > 0.0
    requires input.kind == Income || input.kind == Expense
    ensures var before := ViewOf(false, None, ts);
            var after := ViewOf(false, None, TransactionsRoute.AfterPost(ts, input, now));
            && (input.kind == Expense && !before.netGreen ==> !after.netGreen)
            && (input.kind == Income && before.netGreen ==> after.netGreen)
  {
    NetAfterPost(ts, input, now);
  }
}
