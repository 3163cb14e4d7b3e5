/** The aggregation stages the routes run over the transactions collection,
    as pure functions over a sequence of records: `$match` (Filter), a
    `$group` by some key with `$sum: '$amount'` and `$sum: 1` (GroupBy), and
    the plain sum of amounts. Groups come out in order of first appearance,
    one of the orders MongoDB may return them in. */
module Grouping {
  import opened Records
  import opened Sorting
  import opened Calendar

  /** Sum of the amounts, added up from the first record to the last. */
  function Total(ts: seq<Transaction>): real {
    if |ts| == 0 then 0.0 else Total(ts[..|ts| - 1]) + ts[|ts| - 1].amount
  }

  /** `$match` / `Array.prototype.filter`, keeping the order of the input. */
  function Filter<T(==)>(s: seq<T>, p: T -> bool): (r: seq<T>)
    ensures |r| <= |s|
    ensures forall i :: 0 <= i < |r| ==> r[i] in s && p(r[i])
    ensures forall i :: 0 <= i < |s| && p(s[i]) ==> s[i] in r
  {
    if |s| == 0 then []
    else
      var init := s[..|s| - 1];
      var rest := Filter(init, p);
      assert forall i :: 0 <= i < |init| ==> init[i] == s[i];
      if p(s[|s| - 1]) then rest + [s[|s| - 1]] else rest
  }

  /** Filtering with two predicates that agree on the input gives the same result. */
  lemma {:induction false} FilterAgree<T>(s: seq<T>, p: T -> bool, q: T -> bool)
    requires forall i :: 0 <= i < |s| ==> p(s[i]) == q(s[i])
    ensures Filter(s, p) == Filter(s, q)
  {
    if |s| > 0 {
      FilterAgree(s[..|s| - 1], p, q);
    }
  }

  /** `$match: { type: 'expense', date: { $gte: start, $lte: end } }`. */
  function ExpensesBetween(txs: seq<Transaction>, start: Date, end: Date): seq<Transaction> {
    Filter(txs, (t: Transaction) => t.kind == Expense && InWindow(t.date, start, end))
  }

  /** The key of `$group: { _id: '$category' }`. */
  function Category(t: Transaction): CategoryKey {
    t.category
  }

  /** `$sum: '$amount'` over the records whose key is k. */
  function SumFor<K(==)>(ts: seq<Transaction>, key: Transaction -> K, k: K): real {
    if |ts| == 0 then 0.0
    else SumFor(ts[..|ts| - 1], key, k) + (if key(ts[|ts| - 1]) == k then ts[|ts| - 1].amount else 0.0)
  }

  /** `$sum: 1` over the records whose key is k. */
  function CountFor<K(==)>(ts: seq<Transaction>, key: Transaction -> K, k: K): nat {
    if |ts| == 0 then 0
    else CountFor(ts[..|ts| - 1], key, k) + (if key(ts[|ts| - 1]) == k then 1 else 0)
  }

  /** The distinct keys of the records, in order of first appearance. */
  function Keys<K(==)>(ts: seq<Transaction>, key: Transaction -> K): (ks: seq<K>)
    ensures Distinct(ks)
  {
    if |ts| == 0 then []
    else
      var rest := Keys(ts[..|ts| - 1], key);
      if key(ts[|ts| - 1]) in rest then rest else rest + [key(ts[|ts| - 1])]
  }

  /** Every record's key is listed, and every listed key is some record's. */
  lemma {:induction false} KeysExact<K>(ts: seq<Transaction>, key: Transaction -> K)
    ensures forall i :: 0 <= i < |ts| ==> key(ts[i]) in Keys(ts, key)
    ensures forall j :: 0 <= j < |Keys(ts, key)| ==>
              exists i :: 0 <= i < |ts| && key(ts[i]) == Keys(ts, key)[j]
  {
    if |ts| > 0 {
      var init := ts[..|ts| - 1];
      KeysExact(init, key);
      assert forall i :: 0 <= i < |init| ==> init[i] == ts[i];
      var ks0, ks := Keys(init, key), Keys(ts, key);
      assert ks == ks0 || ks == ks0 + [key(ts[|ts| - 1])];
      forall i | 0 <= i < |ts| ensures key(ts[i]) in ks {
        if i < |init| {
          assert key(init[i]) in ks0;
        }
      }
      forall j | 0 <= j < |Keys(ts, key)|
        ensures exists i :: 0 <= i < |ts| && key(ts[i]) == Keys(ts, key)[j]
      {
        if j < |ks0| {
          assert ks[j] == ks0[j];
          var i :| 0 <= i < |init| && key(init[i]) == ks0[j];
          assert key(ts[i]) == ks[j];
        } else {
          assert key(ts[|ts| - 1]) == ks[j];
        }
      }
      assert forall j :: 0 <= j < |Keys(ts, key)| ==>
              exists i :: 0 <= i < |ts| && key(ts[i]) == Keys(ts, key)[j];
    } else {
      assert Keys(ts, key) == [];
    }
  }

  datatype Group<K> = Group(key: K, amount: real, count: nat)

  /** One group per key of ks, in the order of ks. */
  function GroupsFor<K(==)>(ts: seq<Transaction>, key: Transaction -> K, ks: seq<K>): (g: seq<Group<K>>)
    ensures |g| == |ks|
    ensures forall i :: 0 <= i < |ks| ==>
              g[i] == Group(ks[i], SumFor(ts, key, ks[i]), CountFor(ts, key, ks[i]))
  {
    if |ks| == 0 then []
    else
      var k := ks[|ks| - 1];
      GroupsFor(ts, key, ks[..|ks| - 1]) + [Group(k, SumFor(ts, key, k), CountFor(ts, key, k))]
  }

  /** `$group: { _id: key, amount: { $sum: '$amount' }, count: { $sum: 1 } }`. */
  function GroupBy<K(==)>(ts: seq<Transaction>, key: Transaction -> K): seq<Group<K>> {
    GroupsFor(ts, key, Keys(ts, key))
  }

  /** The first group whose key is k, as `Array.prototype.find` returns it. */
  function FindGroup<K(==)>(gs: seq<Group<K>>, k: K): (r: Option<Group<K>>)
    ensures r.Some? <==> exists i :: 0 <= i < |gs| && gs[i].key == k
    ensures r.Some? ==> r.value in gs && r.value.key == k
  {
    if |gs| == 0 then None
    else if gs[0].key == k then Some(gs[0])
    else
      var r := FindGroup(gs[1..], k);
      assert forall i :: 1 <= i < |gs| ==> gs[i] == gs[1..][i - 1];
      r
  }

  function GroupAmount<K>(gs: seq<Group<K>>): real {
    if |gs| == 0 then 0.0 else GroupAmount(gs[..|gs| - 1]) + gs[|gs| - 1].amount
  }

  function GroupCount<K>(gs: seq<Group<K>>): nat {
    if |gs| == 0 then 0 else GroupCount(gs[..|gs| - 1]) + gs[|gs| - 1].count
  }

  /** The key's sum and count are the total and the number of the records
      carrying that key. */
  lemma {:induction false} SumForIsFilteredTotal<K>(ts: seq<Transaction>, key: Transaction -> K, k: K)
    ensures SumFor(ts, key, k) == Total(Filter(ts, t => key(t) == k))
    ensures CountFor(ts, key, k) == |Filter(ts, t => key(t) == k)|
  {
    if |ts| > 0 {
      SumForIsFilteredTotal(ts[..|ts| - 1], key, k);
      var rest := Filter(ts[..|ts| - 1], t => key(t) == k);
      if key(ts[|ts| - 1]) == k {
        assert (rest + [ts[|ts| - 1]])[..|rest|] == rest;
      }
    }
  }

  /** A key with a positive count is carried by some record. */
  lemma {:induction false} CountPositiveWitness<K>(ts: seq<Transaction>, key: Transaction -> K, k: K)
    requires CountFor(ts, key, k) > 0
    ensures exists i :: 0 <= i < |ts| && key(ts[i]) == k
  {
    if key(ts[|ts| - 1]) != k {
      CountPositiveWitness(ts[..|ts| - 1], key, k);
      var i :| 0 <= i < |ts| - 1 && key(ts[..|ts| - 1][i]) == k;
      assert ts[i] == ts[..|ts| - 1][i];
    }
  }

  /** A key that no record carries has sum and count 0. */
  lemma {:induction false} AbsentKeySumsToZero<K>(ts: seq<Transaction>, key: Transaction -> K, k: K)
    requires k !in Keys(ts, key)
    ensures SumFor(ts, key, k) == 0.0 && CountFor(ts, key, k) == 0
  {
    if |ts| > 0 {
      var init := ts[..|ts| - 1];
      assert forall i :: 0 <= i < |init| ==> init[i] == ts[i];
      assert key(ts[|ts| - 1]) != k;
      AbsentKeySumsToZero(init, key, k);
    }
  }

  /** Extending the records by their last one adds its amount to exactly the
      group of its key, if that key is listed. */
  lemma {:induction false} GroupsForStep<K>(ts: seq<Transaction>, key: Transaction -> K, ks: seq<K>)
    requires |ts| > 0 && Distinct(ks)
    ensures var t := ts[|ts| - 1];
            var g0 := GroupsFor(ts[..|ts| - 1], key, ks);
            var g := GroupsFor(ts, key, ks);
            GroupAmount(g) == GroupAmount(g0) + (if key(t) in ks then t.amount else 0.0)
            && GroupCount(g) == GroupCount(g0) + (if key(t) in ks then 1 else 0)
  {
    if |ks| > 0 {
      var init := ks[..|ks| - 1];
      assert Distinct(init);
      GroupsForStep(ts, key, init);
      assert GroupsFor(ts, key, ks)[..|ks| - 1] == GroupsFor(ts, key, init);
      assert GroupsFor(ts[..|ts| - 1], key, ks)[..|ks| - 1] == GroupsFor(ts[..|ts| - 1], key, init);
      assert key(ts[|ts| - 1]) in ks <==> key(ts[|ts| - 1]) in init || key(ts[|ts| - 1]) == ks[|ks| - 1];
      assert ks[|ks| - 1] in init ==> false;
    }
  }

  /** The groups partition the records: their amounts add up to the total
      and their counts to the number of records. */
  lemma {:induction false} GroupsPartition<K>(ts: seq<Transaction>, key: Transaction -> K)
    ensures GroupAmount(GroupBy(ts, key)) == Total(ts)
    ensures GroupCount(GroupBy(ts, key)) == |ts|
  {
    if |ts| > 0 {
      var init := ts[..|ts| - 1];
      var t := ts[|ts| - 1];
      var ks0 := Keys(init, key);
      GroupsPartition(init, key);
      GroupsForStep(ts, key, ks0);
      if key(t) in ks0 {
        assert Keys(ts, key) == ks0;
      } else {
        assert Keys(ts, key) == ks0 + [key(t)];
        NewKeyGroup(ts, key, ks0);
      }
    }
  }

  /** Appending a key that only the last record carries adds that record's
      amount and a count of 1. */
  lemma {:induction false} NewKeyGroup<K>(ts: seq<Transaction>, key: Transaction -> K, ks0: seq<K>)
    requires |ts| > 0 && ks0 == Keys(ts[..|ts| - 1], key) && key(ts[|ts| - 1]) !in ks0
    ensures GroupAmount(GroupsFor(ts, key, ks0 + [key(ts[|ts| - 1])]))
            == GroupAmount(GroupsFor(ts, key, ks0)) + ts[|ts| - 1].amount
    ensures GroupCount(GroupsFor(ts, key, ks0 + [key(ts[|ts| - 1])]))
            == GroupCount(GroupsFor(ts, key, ks0)) + 1
  {
    var k := key(ts[|ts| - 1]);
    var ks := ks0 + [k];
    var g := GroupsFor(ts, key, ks);
    assert ks[..|ks| - 1] == ks0;
    assert g[..|g| - 1] == GroupsFor(ts, key, ks0);
    AbsentKeySumsToZero(ts[..|ts| - 1], key, k);
    assert g[|g| - 1] == Group(k, ts[|ts| - 1].amount, 1);
  }

  /** The groups have distinct keys, every record's key has a group, and
      each group holds its key's sum and a positive count. */
  lemma {:induction false} GroupByGroups<K>(ts: seq<Transaction>, key: Transaction -> K)
    ensures forall i, j :: 0 <= i < j < |GroupBy(ts, key)| ==> GroupBy(ts, key)[i].key != GroupBy(ts, key)[j].key
    ensures forall i :: 0 <= i < |ts| ==>
              exists j :: 0 <= j < |GroupBy(ts, key)| && GroupBy(ts, key)[j].key == key(ts[i])
    ensures forall j :: 0 <= j < |GroupBy(ts, key)| ==>
              var g := GroupBy(ts, key)[j];
              g.amount == SumFor(ts, key, g.key) && g.count == CountFor(ts, key, g.key) && g.count > 0
  {
    GroupByCovers(ts, key);
    GroupByCountsPositive(ts, key);
    var gs := GroupBy(ts, key);
    assert forall i :: 0 <= i < |ts| ==> exists j :: 0 <= j < |gs| && gs[j].key == key(ts[i]);
  }

  /** Every record's key has a group. */
  lemma {:induction false} GroupByCovers<K>(ts: seq<Transaction>, key: Transaction -> K)
    ensures forall i :: 0 <= i < |ts| ==>
              exists j :: 0 <= j < |GroupBy(ts, key)| && GroupBy(ts, key)[j].key == key(ts[i])
  {
    var ks := Keys(ts, key);
    var gs := GroupBy(ts, key);
    KeysExact(ts, key);
    forall i | 0 <= i < |ts|
      ensures exists j :: 0 <= j < |gs| && gs[j].key == key(ts[i])
    {
      var j :| 0 <= j < |ks| && ks[j] == key(ts[i]);
      assert gs[j].key == key(ts[i]);
    }
  }

  /** Every group's count is positive. */
  lemma {:induction false} GroupByCountsPositive<K>(ts: seq<Transaction>, key: Transaction -> K)
    ensures forall j :: 0 <= j < |GroupBy(ts, key)| ==> GroupBy(ts, key)[j].count > 0
  {
    var ks := Keys(ts, key);
    var gs := GroupBy(ts, key);
    KeysExact(ts, key);
    forall j | 0 <= j < |gs|
      ensures gs[j].count > 0
    {
      var i :| 0 <= i < |ts| && key(ts[i]) == ks[j];
      if gs[j].count == 0 {
        CountZeroAbsent(ts, key, ks[j]);
        assert false;
      }
    }
  }

  /** Looking a key up among the groups (`groups.find(g => g._id === k)`)
      finds the key's sum and count exactly when some record carries it, and
      otherwise the key's sum is 0. */
  lemma {:induction false} FindInGroupBy<K>(ts: seq<Transaction>, key: Transaction -> K, k: K)
    ensures var r := FindGroup(GroupBy(ts, key), k);
            && (r.Some? <==> CountFor(ts, key, k) > 0)
            && (r.Some? ==> r.value == Group(k, SumFor(ts, key, k), CountFor(ts, key, k)))
            && (r.None? ==> SumFor(ts, key, k) == 0.0 && CountFor(ts, key, k) == 0)
  {
    var ks := Keys(ts, key);
    var gs := GroupBy(ts, key);
    GroupByGroups(ts, key);
    if k in ks {
      var j :| 0 <= j < |ks| && ks[j] == k;
      assert gs[j].key == k;
      var r := FindGroup(gs, k);
      var j' :| 0 <= j' < |gs| && gs[j'] == r.value;
    } else {
      AbsentKeySumsToZero(ts, key, k);
      assert forall j :: 0 <= j < |gs| ==> gs[j].key == ks[j];
    }
  }

  /** A key whose count is 0 is carried by no record. */
  lemma {:induction false} CountZeroAbsent<K>(ts: seq<Transaction>, key: Transaction -> K, k: K)
    requires CountFor(ts, key, k) == 0
    ensures forall i :: 0 <= i < |ts| ==> key(ts[i]) != k
  {
    if |ts| > 0 {
      var init := ts[..|ts| - 1];
      CountZeroAbsent(init, key, k);
      assert forall i :: 0 <= i < |init| ==> init[i] == ts[i];
    }
  }

  /** The number of groups is the number of distinct key values. */
  lemma {:induction false} KeysCount<K>(ts: seq<Transaction>, key: Transaction -> K)
    ensures |Keys(ts, key)| == |set i | 0 <= i < |ts| :: key(ts[i])|
  {
    var ks := Keys(ts, key);
    KeysExact(ts, key);
    assert (set i | 0 <= i < |ts| :: key(ts[i])) == (set k | k in ks) by {
      forall k | k in ks ensures k in (set i | 0 <= i < |ts| :: key(ts[i])) {
        var j :| 0 <= j < |ks| && ks[j] == k;
        var i :| 0 <= i < |ts| && key(ts[i]) == ks[j];
      }
    }
    DistinctCardinality(ks);
  }

  lemma {:induction false} DistinctCardinality<K>(ks: seq<K>)
    requires Distinct(ks)
    ensures |set k | k in ks| == |ks|
  {
    if |ks| > 0 {
      var init := ks[..|ks| - 1];
      assert Distinct(init);
      DistinctCardinality(init);
      assert (set k | k in ks) == (set k | k in init) + {ks[|ks| - 1]};
      assert ks[|ks| - 1] !in init;
    }
  }

  /** What GroupByGroups establishes about a sequence of groups. */
  predicate Grouped<K(==)>(gs: seq<Group<K>>, ts: seq<Transaction>, key: Transaction -> K) {
    && (forall i, j :: 0 <= i < j < |gs| ==> gs[i].key != gs[j].key)
    && (forall i :: 0 <= i < |ts| ==> exists q :: 0 <= q < |gs| && gs[q].key == key(ts[i]))
    && (forall i :: 0 <= i < |gs| ==>
          && gs[i].amount == SumFor(ts, key, gs[i].key)
          && gs[i].count == CountFor(ts, key, gs[i].key)
          && gs[i].count > 0)
  }

  /** Reordering the groups keeps them grouped. */
  lemma {:induction false} GroupedPermutation<K>(gs: seq<Group<K>>, sorted: seq<Group<K>>, ts: seq<Transaction>, key: Transaction -> K)
    requires multiset(gs) == multiset(sorted) && Grouped(gs, ts, key)
    ensures |sorted| == |gs| && Grouped(sorted, ts, key)
  {
    assert |sorted| == |multiset(sorted)| == |multiset(gs)| == |gs|;
    forall i | 0 <= i < |sorted| ensures exists p :: 0 <= p < |gs| && gs[p] == sorted[i] {
      assert sorted[i] in multiset(gs);
    }
    assert Distinct(gs);
    DistinctPermutation(gs, sorted);
    forall i, j | 0 <= i < j < |sorted| ensures sorted[i].key != sorted[j].key {
      var p :| 0 <= p < |gs| && gs[p] == sorted[i];
      var q :| 0 <= q < |gs| && gs[q] == sorted[j];
      assert p != q;
    }
    forall i | 0 <= i < |ts| ensures exists q :: 0 <= q < |sorted| && sorted[q].key == key(ts[i]) {
      var p :| 0 <= p < |gs| && gs[p].key == key(ts[i]);
      assert gs[p] in multiset(sorted);
      var q :| 0 <= q < |sorted| && sorted[q] == gs[p];
    }
  }

  /** The groups put in `$sort` order by le: ordered, one per distinct key,
      each holding its key's sum and a positive count, no key twice, and
      every record's key among them. */
  lemma {:induction false} SortedGroupBy<K(!new)>(ts: seq<Transaction>, key: Transaction -> K, le: (Group<K>, Group<K>) -> bool)
    requires TotalPreorder(le)
    ensures var sorted := SortBy(GroupBy(ts, key), le);
            SortedBy(sorted, le) && |sorted| == |Keys(ts, key)| && Grouped(sorted, ts, key)
  {
    var gs := GroupBy(ts, key);
    GroupByGroups(ts, key);
    assert Grouped(gs, ts, key);
    SortBySorted(gs, le);
    GroupedPermutation(gs, SortBy(gs, le), ts, key);
  }
}
