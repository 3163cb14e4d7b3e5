/** The budget form: its fields, the two client-side checks run before
    anything is sent, the POST body it builds (the month zero-padded to two
    digits), the year choices, and the dialog state around a save. Whether
    the save succeeded is a parameter. */
module BudgetForm {
  import opened Records
  import opened Text
  import BudgetsRoute

  /** The form's state: the category chosen, the amount text, and the month
      (1..12) and year chosen from the selects. */
  datatype Fields = Fields(category: string, amount: NumberText, month: int, year: int)

  /** The fields on opening and after a save: no category, no amount, and
      the current month and year. */
  function BlankFields(today: Date): (f: Fields)
    ensures f.category == "" && f.amount == Blank
    ensures f.month == today.month && f.year == today.year
  {
    Fields("", Blank, today.month, today.year)
  }

  const FillRequired: string := "Please fill in all required fields"
  const InvalidAmount: string := "Please enter a valid amount"

  /** What a submit does before any request: refuse with a message, or send
      the body. */
  datatype Verdict = Refuse(message: string) | Send(body: BudgetsRoute.BudgetInput)

  /** The two checks, in order, and the body: the parsed amount and the month
      as two digits. */
  function Check(f: Fields): (v: Verdict)
    ensures v == Refuse(FillRequired) <==> f.category == "" || f.amount.Blank?
    ensures v == Refuse(InvalidAmount) <==> f.category != "" && f.amount.Typed? && !ParsesPositive(f.amount)
    ensures v.Send? <==> f.category != "" && ParsesPositive(f.amount)
    ensures v.Send? ==> v.body.category == f.category && v.body.amount == f.amount.parsed.value
                        && v.body.month == PadTwo(f.month) && v.body.year == f.year
  {
    if f.category == "" || f.amount.Blank? then Refuse(FillRequired)
    else if !ParsesPositive(f.amount) then Refuse(InvalidAmount)
    else Send(BudgetsRoute.BudgetInput(f.category, f.amount.parsed.value, PadTwo(f.month), f.year))
  }

  /** A blank form is always refused for missing fields. */
  lemma {:induction false} BlankRefused(today: Date)
    ensures Check(BlankFields(today)) == Refuse(FillRequired)
  {
  }

  /** A body the form sends has a positive amount and passes the route's own
      presence check whenever the year is not 0, so the route does not
      answer 400 to it. */
  lemma {:induction false} SentBodyAccepted(f: Fields, bs: seq<Budget>, now: int)
    requires Check(f).Send? && f.year != 0
    ensures Check(f).body.amount > 0.0
    ensures BudgetsRoute.Complete(Check(f).body)
    ensures !BudgetsRoute.PostReplyOf(bs, Check(f).body, now).Rejected?
  {
    var m := PadTwo(f.month);
    assert |NatToString(0)| == 1;
    if f.month >= 0 {
      assert |NatToString(f.month)| >= 1;
    }
    assert |m| >= 1;
  }

  /** For a month 1..12 the body's month is two characters, reads back as the
      month with `parseInt`, and, between two such bodies, the routes' string
      order on months is the numeric order. */
  lemma {:induction false} SentMonthEncoding(f: Fields, g: Fields)
    requires Check(f).Send? && Check(g).Send?
    requires 1 <= f.month <= 12 && 1 <= g.month <= 12
    ensures |Check(f).body.month| == 2
    ensures ParseInt(Check(f).body.month) == Some(f.month)
    ensures StrLe(Check(f).body.month, Check(g).body.month) <==> f.month <= g.month
    ensures Check(f).body.month == Check(g).body.month <==> f.month == g.month
  {
    ParseIntOfPadTwo(f.month);
    PadTwoOrder(f.month, g.month);
    PadTwoInjective(f.month, g.month);
  }

  /** `Array.from({ length: 5 }, (_, i) => currentYear + i - 2)`. */
  function YearOptions(currentYear: int): (ys: seq<int>)
    ensures |ys| == 5
    ensures forall i :: 0 <= i < 5 ==> ys[i] == currentYear + i - 2
  {
    seq(5, i requires 0 <= i < 5 => currentYear + i - 2)
  }

  /** The choices are exactly the two years either side of the current one,
      in increasing order, each once. */
  lemma {:induction false} YearOptionsExact(currentYear: int)
    ensures forall y :: y in YearOptions(currentYear) <==> currentYear - 2 <= y <= currentYear + 2
    ensures forall i, j :: 0 <= i < j < 5 ==> YearOptions(currentYear)[i] < YearOptions(currentYear)[j]
  {
    var ys := YearOptions(currentYear);
    forall y | currentYear - 2 <= y <= currentYear + 2 ensures y in ys {
      assert ys[y - currentYear + 2] == y;
    }
  }

  /** The dialog: whether it is open, whether a save is in flight, and the
      fields. */
  class State {
    var open: bool
    var loading: bool
    var fields: Fields

    constructor(today: Date)
      ensures !open && !loading && fields == BlankFields(today)
    {
      open := false;
      loading := false;
      fields := BlankFields(today);
    }

    /** The dialog's `onOpenChange`. */
    method SetOpen(value: bool)
      modifies this
      ensures open == value && loading == old(loading) && fields == old(fields)
    {
      open := value;
    }

    /** A field edit: the fields become `f`. */
    method Edit(f: Fields)
      modifies this
      ensures fields == f && open == old(open) && loading == old(loading)
    {
      fields := f;
    }

    /** Submitting: a refused form changes nothing and sends nothing;
        otherwise the body is sent, and only when the save succeeds is the
        dialog closed and the form reset to the current month and year.
        Either way the save is no longer in flight afterwards. */
    method Submit(saved: bool, today: Date) returns (sent: Option<BudgetsRoute.BudgetInput>)
      modifies this
      ensures sent.Some? <==> Check(old(fields)).Send?
      ensures sent.Some? ==> sent.value == Check(old(fields)).body && !loading
      ensures sent.None? ==> open == old(open) && loading == old(loading) && fields == old(fields)
      ensures sent.Some? && saved ==> !open && fields == BlankFields(today)
      ensures sent.Some? && !saved ==> open == old(open) && fields == old(fields)
    {
      var v := Check(fields);
      if v.Refuse? {
        return None;
      }
      loading := true;
      sent := Some(v.body);
      if saved {
        open := false;
        fields := BlankFields(today);
      }
      loading := false;
    }
  }
}
