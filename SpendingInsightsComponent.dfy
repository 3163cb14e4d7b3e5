/** The spending-insights view: the signed month-over-month figure, the
    on-track count of the budget adherence list, and per budget the
    progress bar width, the over-budget flag and the "Over by" amount. */
module SpendingInsightsComponent {
  import opened Records
  import opened Grouping
  import opened InsightsRoute

  /** `${isIncreased ? '+' : '-'}${Math.abs(change).toFixed(1)}%` before the
      number formatting: the sign shown and the magnitude shown. */
  datatype SignedFigure = SignedFigure(sign: char, magnitude: real)

  function ChangeFigure(change: real): (f: SignedFigure)
    ensures f.sign == '+' <==> change > 0.0
    ensures f.sign == '+' || f.sign == '-'
    ensures f.magnitude >= 0.0
    ensures (if f.sign == '+' then f.magnitude else -f.magnitude) == change
  {
    var magnitude := if change < 0.0 then -change else change;
    SignedFigure(if change > 0.0 then '+' else '-', magnitude)
  }

  /** No change is shown as a decrease of 0. */
  lemma NoChangeShowsMinus()
    ensures ChangeFigure(0.0) == SignedFigure('-', 0.0)
  {
  }

  /** `budgetAdherence.filter(b => b.status === 'on-track').length`. */
  function OnTrackCount(adh: seq<Adherence>): (n: nat)
    ensures n <= |adh|
  {
    if |adh| == 0 then 0
    else OnTrackCount(adh[..|adh| - 1]) + (if adh[|adh| - 1].status == OnTrack then 1 else 0)
  }

  /** All budgets are on track exactly when the count reaches the total, and
      none is exactly when it is 0. */
  lemma {:induction false} OnTrackCountExact(adh: seq<Adherence>)
    ensures OnTrackCount(adh) == |adh| <==> forall i :: 0 <= i < |adh| ==> adh[i].status == OnTrack
    ensures OnTrackCount(adh) == 0 <==> forall i :: 0 <= i < |adh| ==> adh[i].status != OnTrack
  {
    if |adh| > 0 {
      var init := adh[..|adh| - 1];
      OnTrackCountExact(init);
      assert forall i :: 0 <= i < |init| ==> init[i] == adh[i];
    }
  }

  /** `Math.min(budget.adherence, 100)`. */
  function ProgressWidth(adherence: real): (w: real)
    ensures w <= 100.0 && w <= adherence
    ensures w == adherence || w == 100.0
  {
    if adherence <= 100.0 then adherence else 100.0
  }

  /** `budget.adherence > 100`. */
  predicate IsOverBudget(a: Adherence) {
    a.adherence > 100.0
  }

  /** The "Over by" figure, shown only for an over-budget entry. */
  function OverBy(a: Adherence): (r: Option<real>)
    ensures r.Some? <==> IsOverBudget(a)
    ensures r.Some? ==> r.value == a.spent - a.budget
  {
    if IsOverBudget(a) then Some(a.spent - a.budget) else None
  }

  /** For a positive budget the bar's flag agrees with the route's status,
      the bar is full exactly when over budget, and the "Over by" figure is
      positive. */
  lemma {:induction false} FlagAgreesWithStatus(b: Budget, spending: seq<Group<CategoryKey>>)
    requires b.amount > 0.0
    ensures var a := AdherenceOf(b, spending);
            && (IsOverBudget(a) <==> a.status == OverBudget)
            && (IsOverBudget(a) ==> ProgressWidth(a.adherence) == 100.0 && OverBy(a).value > 0.0)
  {
    var a := AdherenceOf(b, spending);
    var q := a.spent / b.amount;
    assert a.adherence == q * 100.0;
    assert a.spent == q * b.amount;
    ScaleCompare(q, 1.0, b.amount);
  }

  lemma {:induction false} ScaleCompare(x: real, y: real, c: real)
    requires c > 0.0
    ensures x > y <==> x * c > y * c
  {
    assert x * c - y * c == (x - y) * c;
  }

  /** For a budget of 0 the flag and the status disagree: spending on it is
      "over-budget" to the route but is never flagged, as its adherence is 0. */
  lemma {:induction false} ZeroBudgetDisagrees(b: Budget, spending: seq<Group<CategoryKey>>)
    requires b.amount == 0.0
    requires FindGroup(spending, Some(b.category)).Some?
    requires FindGroup(spending, Some(b.category)).value.amount > 0.0
    ensures var a := AdherenceOf(b, spending);
            a.status == OverBudget && !IsOverBudget(a) && OverBy(a).None?
  {
  }
}
