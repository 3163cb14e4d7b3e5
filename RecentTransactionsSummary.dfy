/** The recent-transactions card: the caller's array sorted in place newest
    first, then its first five entries, or an empty-state message. */
module RecentTransactionsSummary {
  import opened Records
  import opened Sorting
  import opened Calendar

  datatype Card = NoRecentTransactions | Recent(shown: seq<Transaction>)

  /** The card for transactions already sorted newest first: `slice(0, 5)`,
      and the message when that slice is empty. */
  function CardOf(sorted: seq<Transaction>): (c: Card)
    ensures c.NoRecentTransactions? <==> |sorted| == 0
    ensures c.Recent? ==> c.shown <= sorted && |c.shown| == Min(5, |sorted|)
  {
    var recent := sorted[..Min(5, |sorted|)];
    if |recent| == 0 then NoRecentTransactions else Recent(recent)
  }

  /** The message appears exactly for no transactions; otherwise at most
      five are shown, the first ones, newest first, and none left out is
      newer than one shown. */
  lemma {:induction false} CardOfSorted(sorted: seq<Transaction>)
    requires SortedBy(sorted, ByDateDesc)
    ensures var c := CardOf(sorted);
            && (c.NoRecentTransactions? <==> |sorted| == 0)
            && (c.Recent? ==>
                  && |c.shown| == Min(5, |sorted|)
                  && c.shown == sorted[..|c.shown|]
                  && (forall i, j :: 0 <= i < j < |c.shown| ==> DateLe(c.shown[j].date, c.shown[i].date))
                  && (forall x, y :: x in c.shown && y in sorted[|c.shown|..] ==> DateLe(y.date, x.date)))
  {
    if |sorted| > 0 {
      SortedSplit(sorted, ByDateDesc, Min(5, |sorted|));
    }
  }

  /** Renders the card, reordering the caller's array in place. */
  method Render(transactions: array<Transaction>) returns (c: Card)
    modifies transactions
    ensures multiset(transactions[..]) == multiset(old(transactions[..]))
    ensures SortedBy(transactions[..], ByDateDesc)
    ensures SameTies(transactions[..], old(transactions[..]), ByDateDesc)
    ensures c == CardOf(transactions[..])
    ensures c == CardOf(SortBy(old(transactions[..]), ByDateDesc))
  {
    DateOrderTotal();
    SortInPlace(transactions, ByDateDesc);
    c := CardOf(transactions[..]);
  }
}
