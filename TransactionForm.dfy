/** The transaction form, used both to add a transaction and to edit one:
    its fields, the prefill from the transaction being edited, the two
    client-side checks, the record it hands to its caller, and the dialog
    state around a save. Whether the caller's save succeeded is a
    parameter. */
module TransactionForm {
  import opened Records
  import opened Text
  import TransactionsRoute

  /** The form's state. The date input holds a calendar date or nothing;
      the type select holds a transaction type. */
  datatype Fields = Fields(
    amount: NumberText,
    date: Option<Date>,
    description: string,
    category: string,
    kind: string)

  /** The fields of a new transaction: blank, category "Other", type expense. */
  const BlankFields: Fields := Fields(Blank, None, "", OtherCategory, Expense)

  /** The prefill for the transaction being edited. `amount.toString()` read
      back by `parseFloat` is the amount itself; a missing or empty category
      becomes "Other". */
  function Prefill(t: Transaction): (f: Fields)
    ensures f.amount == Typed(Some(t.amount)) && f.date == Some(t.date)
    ensures f.description == t.description && f.kind == t.kind
    ensures f.category != ""
    ensures t.category.Some? && t.category.value != "" ==> f.category == t.category.value
    ensures t.category.None? || t.category.value == "" ==> f.category == OtherCategory
  {
    Fields(Typed(Some(t.amount)), Some(t.date), t.description,
           TransactionsRoute.StoredCategory(if t.category.Some? then t.category.value else ""),
           t.kind)
  }

  const FillRequired: string := "Please fill in all required fields"
  const InvalidAmount: string := "Please enter a valid amount"

  /** What a submit does before calling the caller: refuse with a message, or
      hand over the record. */
  datatype Verdict = Refuse(message: string) | Send(record: TransactionsRoute.TransactionInput)

  /** The two checks, in order, and the record handed over. The category is
      not checked. */
  function Check(f: Fields): (v: Verdict)
    ensures v == Refuse(FillRequired) <==> f.amount.Blank? || f.date.None? || f.description == ""
    ensures v == Refuse(InvalidAmount) <==>
              f.amount.Typed? && f.date.Some? && f.description != "" && !ParsesPositive(f.amount)
    ensures v.Send? <==> ParsesPositive(f.amount) && f.date.Some? && f.description != ""
    ensures v.Send? ==> v.record == TransactionsRoute.TransactionInput(
                           f.amount.parsed.value, f.date, f.description, f.category, f.kind)
  {
    if f.amount.Blank? || f.date.None? || f.description == "" then Refuse(FillRequired)
    else if !ParsesPositive(f.amount) then Refuse(InvalidAmount)
    else Send(TransactionsRoute.TransactionInput(f.amount.parsed.value, f.date, f.description, f.category, f.kind))
  }

  /** A blank form is refused for missing fields, with "Other" preselected. */
  lemma BlankRefused()
    ensures Check(BlankFields) == Refuse(FillRequired)
    ensures BlankFields.category == OtherCategory && BlankFields.kind == Expense
  {
  }

  /** A record the form hands over, POSTed by the dashboard, is accepted by
      the transactions route: it is appended, with the form's category, or
      "Other" for an emptied one. */
  lemma {:induction false} SentRecordAccepted(f: Fields, ts: seq<Transaction>, now: int)
    requires Check(f).Send? && (f.kind == Expense || f.kind == Income)
    ensures TransactionsRoute.Complete(Check(f).record)
    ensures var t := TransactionsRoute.NewTransaction(Check(f).record, now);
            && TransactionsRoute.AfterPost(ts, Check(f).record, now) == ts + [t]
            && t.amount > 0.0 && t.date == f.date.value && t.kind == f.kind
            && t.category == Some(TransactionsRoute.StoredCategory(f.category))
  {
  }

  /** Editing a stored transaction with a positive amount and a description,
      and submitting the prefill unchanged, hands back that transaction's
      amount, date, description, type and category. */
  lemma {:induction false} PrefillRoundTrip(t: Transaction)
    requires t.amount > 0.0 && t.description != ""
    requires t.category.Some? && t.category.value != ""
    ensures Check(Prefill(t)).Send?
    ensures var r := Check(Prefill(t)).record;
            && r.amount == t.amount && r.date == Some(t.date) && r.description == t.description
            && r.kind == t.kind && Some(r.category) == t.category
  {
  }

  /** The dialog: whether it is open, whether a save is in flight, the
      fields, and the transaction being edited (None when adding). */
  class State {
    const editing: Option<Transaction>
    var open: bool
    var loading: bool
    var fields: Fields

    /** The form as shown for `editing`, after its prefill has run. */
    constructor(editing: Option<Transaction>)
      ensures this.editing == editing && !open && !loading
      ensures fields == (if editing.Some? then Prefill(editing.value) else BlankFields)
    {
      this.editing := editing;
      open := false;
      loading := false;
      fields := if editing.Some? then Prefill(editing.value) else BlankFields;
    }

    /** The dialog's `onOpenChange`. */
    method SetOpen(value: bool)
      modifies this
      ensures open == value && loading == old(loading) && fields == old(fields)
    {
      open := value;
    }

    /** A field edit: the fields become `f`. */
    method Edit(f: Fields)
      modifies this
      ensures fields == f && open == old(open) && loading == old(loading)
    {
      fields := f;
    }

    /** Submitting: a refused form changes nothing and hands over nothing;
        otherwise the record is handed over, and when the caller's save
        succeeds the dialog closes and, only when adding, the fields are
        reset. A failed save keeps the dialog and the fields as they were. */
    method Submit(saved: bool) returns (sent: Option<TransactionsRoute.TransactionInput>)
      modifies this
      ensures sent.Some? <==> Check(old(fields)).Send?
      ensures sent.Some? ==> sent.value == Check(old(fields)).record && !loading
      ensures sent.None? ==> open == old(open) && loading == old(loading) && fields == old(fields)
      ensures sent.Some? && saved ==> !open
      ensures sent.Some? && saved && editing.None? ==> fields == BlankFields
      ensures sent.Some? && saved && editing.Some? ==> fields == old(fields)
      ensures sent.Some? && !saved ==> open == old(open) && fields == old(fields)
    {
      var v := Check(fields);
      if v.Refuse? {
        return None;
      }
      loading := true;
      sent := Some(v.record);
      if saved {
        open := false;
        if editing.None? {
          fields := BlankFields;
        }
      }
      loading := false;
    }
  }
}
