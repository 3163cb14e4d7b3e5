/** GET /api/charts: the expense total of every month of the trailing year
    that has expenses, in calendar order and labelled "YYYY-MM", and the
    all-time expense total of every stored category value, labelled and
    coloured from the predefined category table. "Now" is a parameter. */
module ChartsRoute {
  import opened Records
  import opened Sorting
  import opened Calendar
  import opened Text
  import opened Grouping

  /** The group key `{ year: { $year: '$date' }, month: { $month: '$date' } }`. */
  function YearMonth(t: Transaction): (int, int) {
    (t.date.year, t.date.month)
  }

  /** `$match: { type: 'expense', date: { $gte: <now less twelve months> } }`. */
  function RecentExpenses(now: Date, txs: seq<Transaction>): seq<Transaction>
    requires ValidDate(now)
  {
    var start := TwelveMonthsBefore(now);
    Filter(txs, (t: Transaction) => t.kind == Expense && DateLe(start, t.date))
  }

  /** `$sort: { '_id.year': 1, '_id.month': 1 }`. */
  function ByMonthAscending(a: Group<(int, int)>, b: Group<(int, int)>): bool {
    a.key.0 < b.key.0 || (a.key.0 == b.key.0 && a.key.1 <= b.key.1)
  }

  lemma MonthOrderTotal()
    ensures TotalPreorder(ByMonthAscending)
  {
  }

  /** `monthlyData`: the per-month groups of the recent expenses, in calendar order. */
  function MonthlyGroups(now: Date, txs: seq<Transaction>): seq<Group<(int, int)>>
    requires ValidDate(now)
  {
    SortBy(GroupBy(RecentExpenses(now, txs), YearMonth), ByMonthAscending)
  }

  /** `${year}-${String(month).padStart(2, '0')}`. */
  function MonthLabel(year: int, month: int): string {
    IntToString(year) + "-" + PadTwo(month)
  }

  function MonthlyExpenses(now: Date, txs: seq<Transaction>): (ms: seq<MonthlyExpense>)
    requires ValidDate(now)
    ensures var rec := RecentExpenses(now, txs);
            |ms| == |set i | 0 <= i < |rec| :: (rec[i].date.year, rec[i].date.month)|
  {
    MonthlyGroupsExact(now, txs);
    var gs := MonthlyGroups(now, txs);
    seq(|gs|, i requires 0 <= i < |gs| => MonthlyExpense(MonthLabel(gs[i].key.0, gs[i].key.1), gs[i].amount))
  }

  /** `$match: { type: 'expense' }`. */
  function AllExpenses(txs: seq<Transaction>): seq<Transaction> {
    Filter(txs, (t: Transaction) => t.kind == Expense)
  }

  /** `item._id || 'Other'`: an absent or empty category is labelled Other. */
  function CategoryLabel(k: CategoryKey): (shown: string)
    ensures shown != ""
    ensures shown == OtherCategory <==> k.None? || k.value == "" || k.value == OtherCategory
  {
    if k.None? || k.value == "" then OtherCategory else k.value
  }

  datatype CategoryColor = CategoryColor(name: string, color: string)

  /** `predefinedCategories`. */
  const PredefinedCategories: seq<CategoryColor> := [
    CategoryColor("Food & Dining", "#FF6B6B"),
    CategoryColor("Transportation", "#4ECDC4"),
    CategoryColor("Shopping", "#45B7D1"),
    CategoryColor("Entertainment", "#96CEB4"),
    CategoryColor("Bills & Utilities", "#FFEAA7"),
    CategoryColor("Healthcare", "#DDA0DD"),
    CategoryColor("Education", "#98D8C8"),
    CategoryColor("Travel", "#F7DC6F"),
    CategoryColor("Groceries", "#BB8FCE"),
    CategoryColor("Other", "#AED6F1")
  ]

  const FallbackColor: string := "#AED6F1"

  /** `table.find(cat => cat.name === name)?.color`: the colour of the first
      entry with that name, None when there is none. */
  function FindColor(table: seq<CategoryColor>, name: string): (r: Option<string>)
    ensures (forall i :: 0 <= i < |table| ==> table[i].name != name) ==> r.None?
    ensures forall i :: 0 <= i < |table| && table[i].name == name && (forall j :: 0 <= j < i ==> table[j].name != name) ==>
              r == Some(table[i].color)
  {
    if |table| == 0 then None
    else if table[0].name == name then Some(table[0].color)
    else
      var r := FindColor(table[1..], name);
      assert forall i :: 1 <= i < |table| ==> table[i] == table[1..][i - 1];
      r
  }

  /** `category?.color || '#AED6F1'`. */
  function ColorOf(name: string): string {
    var c := FindColor(PredefinedCategories, name);
    if c.Some? && c.value != "" then c.value else FallbackColor
  }

  /** `categoryData.map(...)`: each group relabelled and coloured. */
  function CategoryRows(gs: seq<Group<CategoryKey>>): seq<CategoryExpense> {
    seq(|gs|, i requires 0 <= i < |gs| =>
      CategoryExpense(CategoryLabel(gs[i].key), gs[i].amount, ColorOf(CategoryLabel(gs[i].key))))
  }

  /** One row per distinct category value of the stored expenses, none
      with an empty label. */
  function CategoryExpenses(txs: seq<Transaction>): (cs: seq<CategoryExpense>)
    ensures var exp := AllExpenses(txs);
            |cs| == |set i | 0 <= i < |exp| :: exp[i].category|
    ensures forall i :: 0 <= i < |cs| ==> cs[i].category != ""
  {
    CategoryRowsCount(AllExpenses(txs));
    CategoryRows(GroupBy(AllExpenses(txs), Category))
  }

  datatype ChartData = ChartData(monthlyExpenses: seq<MonthlyExpense>, categoryExpenses: seq<CategoryExpense>)

  /** The reply body at instant `now`: one point per month of the trailing
      year that has an expense, and one row per stored category value of the
      expenses. */
  function Charts(now: Date, txs: seq<Transaction>): (r: ChartData)
    requires ValidDate(now)
    ensures var rec := RecentExpenses(now, txs);
            |r.monthlyExpenses| == |set i | 0 <= i < |rec| :: (rec[i].date.year, rec[i].date.month)|
    ensures var exp := AllExpenses(txs);
            |r.categoryExpenses| == |set i | 0 <= i < |exp| :: exp[i].category|
  {
    ChartData(MonthlyExpenses(now, txs), CategoryExpenses(txs))
  }

  /** The monthly series counts exactly the expenses dated on or after the
      same day twelve months before now. */
  lemma {:induction false} RecentExpensesExact(now: Date, txs: seq<Transaction>, t: Transaction)
    requires ValidDate(now)
    ensures t in RecentExpenses(now, txs) <==> t in txs && t.kind == Expense && DateLe(TwelveMonthsBefore(now), t.date)
  {
  }

  /** Grouping any records by month and sorting the groups ascending gives
      one group per month that occurs, holding that month's sum, in strictly
      increasing calendar order. */
  lemma {:induction false} MonthGroupsOf(rec: seq<Transaction>)
    ensures var gs := SortBy(GroupBy(rec, YearMonth), ByMonthAscending);
            && |gs| == |set i | 0 <= i < |rec| :: (rec[i].date.year, rec[i].date.month)|
            && (forall i :: 0 <= i < |gs| ==>
                  && gs[i].amount == SumFor(rec, YearMonth, gs[i].key)
                  && CountFor(rec, YearMonth, gs[i].key) > 0)
            && (forall i :: 0 <= i < |rec| ==>
                  exists j :: 0 <= j < |gs| && gs[j].key == (rec[i].date.year, rec[i].date.month))
            && (forall i, j :: 0 <= i < j < |gs| ==>
                  gs[i].key.0 < gs[j].key.0 || (gs[i].key.0 == gs[j].key.0 && gs[i].key.1 < gs[j].key.1))
  {
    var key: Transaction -> (int, int) := YearMonth;
    var gs := SortBy(GroupBy(rec, key), ByMonthAscending);
    MonthOrderTotal();
    SortedGroupBy(rec, key, ByMonthAscending);
    KeysCount(rec, key);
    MonthSetViaKey(rec, key);
    forall i | 0 <= i < |rec|
      ensures exists j :: 0 <= j < |gs| && gs[j].key == (rec[i].date.year, rec[i].date.month)
    {
      assert key(rec[i]) == (rec[i].date.year, rec[i].date.month);
    }
    AscendingStrict(gs);
  }

  /** The set of months of the records, taken through the key function. */
  lemma {:induction false} MonthSetViaKey(rec: seq<Transaction>, key: Transaction -> (int, int))
    requires key == YearMonth
    ensures (set i | 0 <= i < |rec| :: (rec[i].date.year, rec[i].date.month)) == (set i | 0 <= i < |rec| :: key(rec[i]))
  {
    var months := set i | 0 <= i < |rec| :: (rec[i].date.year, rec[i].date.month);
    var viaKey := set i | 0 <= i < |rec| :: key(rec[i]);
    forall k | k in viaKey ensures k in months {
      var i :| 0 <= i < |rec| && key(rec[i]) == k;
      assert (rec[i].date.year, rec[i].date.month) == k;
    }
    forall k | k in months ensures k in viaKey {
      var i :| 0 <= i < |rec| && (rec[i].date.year, rec[i].date.month) == k;
      assert key(rec[i]) == k;
    }
  }

  /** Ascending groups with distinct months are strictly ascending. */
  lemma {:induction false} AscendingStrict(gs: seq<Group<(int, int)>>)
    requires SortedBy(gs, ByMonthAscending)
    requires forall i, j :: 0 <= i < j < |gs| ==> gs[i].key != gs[j].key
    ensures forall i, j :: 0 <= i < j < |gs| ==>
              gs[i].key.0 < gs[j].key.0 || (gs[i].key.0 == gs[j].key.0 && gs[i].key.1 < gs[j].key.1)
  {
    forall i, j | 0 <= i < j < |gs|
      ensures gs[i].key.0 < gs[j].key.0 || (gs[i].key.0 == gs[j].key.0 && gs[i].key.1 < gs[j].key.1)
    {
      assert ByMonthAscending(gs[i], gs[j]) && gs[i].key != gs[j].key;
    }
  }

  /** The monthly groups: one per month that has a recent expense, holding
      that month's sum; months without expenses are absent; and the months
      come in strictly increasing calendar order. */
  lemma {:induction false} MonthlyGroupsExact(now: Date, txs: seq<Transaction>)
    requires ValidDate(now)
    ensures var rec := RecentExpenses(now, txs);
            var gs := MonthlyGroups(now, txs);
            && |gs| == |set i | 0 <= i < |rec| :: (rec[i].date.year, rec[i].date.month)|
            && (forall i :: 0 <= i < |gs| ==>
                  && gs[i].amount == SumFor(rec, YearMonth, gs[i].key)
                  && CountFor(rec, YearMonth, gs[i].key) > 0)
            && (forall i :: 0 <= i < |rec| ==>
                  exists j :: 0 <= j < |gs| && gs[j].key == (rec[i].date.year, rec[i].date.month))
            && (forall i, j :: 0 <= i < j < |gs| ==>
                  gs[i].key.0 < gs[j].key.0 || (gs[i].key.0 == gs[j].key.0 && gs[i].key.1 < gs[j].key.1))
  {
    MonthGroupsOf(RecentExpenses(now, txs));
  }

  /** Each point carries its group's label and sum. */
  lemma {:induction false} MonthlyExpensesLabels(now: Date, txs: seq<Transaction>)
    requires ValidDate(now)
    ensures var gs := MonthlyGroups(now, txs);
            var ms := MonthlyExpenses(now, txs);
            && |ms| == |gs|
            && (forall i :: 0 <= i < |ms| ==>
                  ms[i].month == MonthLabel(gs[i].key.0, gs[i].key.1) && ms[i].amount == gs[i].amount)
  {
  }

  /** A label of a month 1..12 reads back as its year (parseInt stops at the
      dash) followed by "-" and the two-digit month. */
  lemma {:induction false} MonthLabelParts(year: int, month: int)
    requires 1 <= month <= 12
    ensures var text := MonthLabel(year, month);
            && |text| >= 4
            && ParseInt(text) == Some(year)
            && text[|text| - 3] == '-'
            && text[|text| - 2..] == PadTwo(month)
            && ParseInt(text[|text| - 2..]) == Some(month)
  {
    var y, m := IntToString(year), PadTwo(month);
    ParseIntOfIntToStringThen(year, "-" + m);
    ParseIntOfPadTwo(month);
    LabelShape(y, m);
  }

  /** The shape of `y + "-" + m` for a non-empty y and a two-character m. */
  lemma {:induction false} LabelShape(y: string, m: string)
    requires |y| > 0 && |m| == 2
    ensures var text := y + "-" + m;
            && text == y + ("-" + m)
            && |text| >= 4 && text[|text| - 3] == '-' && text[|text| - 2..] == m
  {
    var text := y + "-" + m;
    assert text == y + ("-" + m);
    assert text[|text| - 2..] == m;
  }

  /** Distinct months get distinct labels. */
  lemma {:induction false} MonthLabelInjective(y1: int, m1: int, y2: int, m2: int)
    requires 1 <= m1 <= 12 && 1 <= m2 <= 12
    ensures MonthLabel(y1, m1) == MonthLabel(y2, m2) <==> y1 == y2 && m1 == m2
  {
    MonthLabelParts(y1, m1);
    MonthLabelParts(y2, m2);
  }

  /** Every predefined name finds its own entry's colour: the names are
      distinct, since no two have both the same length and the same first
      letter. */
  lemma ColorOfPredefined()
    ensures forall i :: 0 <= i < |PredefinedCategories| ==>
              ColorOf(PredefinedCategories[i].name) == PredefinedCategories[i].color
  {
    var table := PredefinedCategories;
    forall i, j | 0 <= j < i < |table| ensures table[j].name != table[i].name {
      assert |table[j].name| != |table[i].name| || table[j].name[0] != table[i].name[0];
    }
  }

  /** A name outside the table gets the fallback colour, which is also the
      colour of Other. */
  lemma {:induction false} ColorOfFallback(name: string)
    ensures (forall i :: 0 <= i < |PredefinedCategories| ==> PredefinedCategories[i].name != name) ==>
              ColorOf(name) == FallbackColor
    ensures ColorOf(OtherCategory) == FallbackColor
  {
    ColorOfPredefined();
    assert PredefinedCategories[9].name == OtherCategory;
  }

  /** One row per distinct category value of the records. */
  lemma {:induction false} CategoryRowsCount(exp: seq<Transaction>)
    ensures |CategoryRows(GroupBy(exp, Category))| == |set i | 0 <= i < |exp| :: exp[i].category|
  {
    var key: Transaction -> CategoryKey := Category;
    KeysCount(exp, key);
    var cats := set i | 0 <= i < |exp| :: exp[i].category;
    var viaKey := set i | 0 <= i < |exp| :: key(exp[i]);
    assert cats == viaKey by {
      forall k | k in viaKey ensures k in cats {
        var i :| 0 <= i < |exp| && key(exp[i]) == k;
        assert exp[i].category == k;
      }
    }
  }

  /** Each row is some value's label, sum and colour, and every record's
      value has its row. */
  lemma {:induction false} CategoryRowsSums(exp: seq<Transaction>)
    ensures var cs := CategoryRows(GroupBy(exp, Category));
            && (forall i :: 0 <= i < |cs| ==>
                  && cs[i].color == ColorOf(cs[i].category)
                  && exists k :: CountFor(exp, Category, k) > 0
                       && cs[i].category == CategoryLabel(k) && cs[i].amount == SumFor(exp, Category, k))
            && (forall i :: 0 <= i < |exp| ==>
                  exists j :: 0 <= j < |cs| && cs[j].category == CategoryLabel(exp[i].category)
                    && cs[j].amount == SumFor(exp, Category, exp[i].category))
  {
    var gs := GroupBy(exp, Category);
    var cs := CategoryRows(gs);
    GroupByGroups(exp, Category);
    forall i | 0 <= i < |cs|
      ensures exists k :: CountFor(exp, Category, k) > 0
                && cs[i].category == CategoryLabel(k) && cs[i].amount == SumFor(exp, Category, k)
    {
      var k := gs[i].key;
      assert CountFor(exp, Category, k) > 0;
    }
    forall i | 0 <= i < |exp|
      ensures exists j :: 0 <= j < |cs| && cs[j].category == CategoryLabel(exp[i].category)
                && cs[j].amount == SumFor(exp, Category, exp[i].category)
    {
      var j :| 0 <= j < |gs| && gs[j].key == Category(exp[i]);
      assert cs[j].category == CategoryLabel(exp[i].category);
    }
  }

  /** The category series of the records exp: one row per distinct stored
      category value, holding that value's sum, labelled by CategoryLabel and
      coloured by its label; every record's category value has its row. */
  ghost predicate CategorySeries(cs: seq<CategoryExpense>, exp: seq<Transaction>) {
    && |cs| == |set i | 0 <= i < |exp| :: exp[i].category|
    && (forall i :: 0 <= i < |cs| ==>
          && cs[i].color == ColorOf(cs[i].category)
          && exists k :: CountFor(exp, Category, k) > 0
               && cs[i].category == CategoryLabel(k) && cs[i].amount == SumFor(exp, Category, k))
    && (forall i :: 0 <= i < |exp| ==>
          exists j :: 0 <= j < |cs| && cs[j].category == CategoryLabel(exp[i].category)
            && cs[j].amount == SumFor(exp, Category, exp[i].category))
  }

  /** The reply's category series is that of all expenses. */
  lemma {:induction false} CategoryExpensesExact(txs: seq<Transaction>)
    ensures CategorySeries(CategoryExpenses(txs), AllExpenses(txs))
  {
    var exp := AllExpenses(txs);
    var cs := CategoryRows(GroupBy(exp, Category));
    CategoryRowsCount(exp);
    CategoryRowsSums(exp);
    assert CategorySeries(cs, exp);
  }

  /** Relabelling after grouping can give two rows labelled Other: one for
      expenses without a category and one for those stored as "Other". */
  lemma TwoOtherRows()
    ensures var none := Transaction(10.0, Date(2024, 1, 5), "a", None, Expense, 0, 0);
            var other := Transaction(20.0, Date(2024, 1, 6), "b", Some(OtherCategory), Expense, 0, 0);
            var cs := CategoryExpenses([none, other]);
            |cs| == 2 && cs[0].category == OtherCategory && cs[1].category == OtherCategory
              && cs[0].amount == 10.0 && cs[1].amount == 20.0
  {
    var none := Transaction(10.0, Date(2024, 1, 5), "a", None, Expense, 0, 0);
    var other := Transaction(20.0, Date(2024, 1, 6), "b", Some(OtherCategory), Expense, 0, 0);
    var txs := [none, other];
    assert txs[..1] == [none];
    assert [none][..0] == [];
    assert AllExpenses([none]) == [none];
    assert AllExpenses(txs) == txs;
    assert Keys([none], Category) == [None];
    assert Keys(txs, Category) == [None, Some(OtherCategory)];
    assert SumFor([none], Category, None) == 10.0;
    assert SumFor([none], Category, Some(OtherCategory)) == 0.0;
  }
}
