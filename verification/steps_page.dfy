/** The steps page: a form of `date` and `steps`, written to the `steps`
    table. */
module StepsPage {
  import opened JsValue
  import opened Store
  import Lifecycle

  datatype Form = Form(date: Value, steps: Value)

  /** A fetched `steps` row, as far as the page reads it. */
  datatype Row = Row(id: Value, date: Value, steps: Value)

  type State = Lifecycle.PageState<Form>
  type Step = Lifecycle.Step<Form>

  const Table := "steps"
  const RequiredMessage := "Date and steps required"
  const InitialForm := Form(Blank, Blank)

  /** `!form.date || !form.steps` rejects the submission. */
  predicate Valid(f: Form) {
    Truthy(f.date) && Truthy(f.steps)
  }

  /** `handleSubmit`. */
  function Submit(s: State, user: Value, outcome: Outcome): (r: Step)
    ensures !Valid(s.form) ==> r == Lifecycle.Step(s.(error := RequiredMessage), None, false)
    ensures Valid(s.form) && Lifecycle.Editing(s) ==>
      r.write == Some(UpdateById("steps", map["date" := Val(s.form.date), "steps" := ParseInt(s.form.steps)], s.editingId))
    ensures Valid(s.form) && !Lifecycle.Editing(s) ==>
      r.write == Some(InsertRows("steps", [map["user_id" := Val(user), "date" := Val(s.form.date), "steps" := ParseInt(s.form.steps)]]))
    ensures Valid(s.form) && outcome.Failed? ==> r.next == s.(error := outcome.message) && !r.refetch
    ensures Valid(s.form) && outcome.Ok? ==>
      && r.refetch
      && r.next.form == InitialForm
      && r.next.error == ""
      && r.next.editingId == (if Lifecycle.Editing(s) then Null else s.editingId)
  {
    var f := s.form;
    Lifecycle.Submit(s, Valid(f), RequiredMessage, Table,
                     map["date" := Val(f.date), "steps" := ParseInt(f.steps)],
                     map["user_id" := Val(user), "date" := Val(f.date), "steps" := ParseInt(f.steps)],
                     InitialForm, outcome)
  }

  /** `handleEdit(row)`: the row's date and step count are copied verbatim,
      so a numeric count stays a number in the form. */
  function Edit(s: State, row: Row): (r: State)
    ensures r.editingId == row.id
    ensures r.form.date == row.date && r.form.steps == row.steps
    ensures r.error == s.error
  {
    Lifecycle.Edit(s, row.id, Form(row.date, row.steps))
  }

  /** `handleDelete(id)` with the user's answer to the confirmation dialog. */
  function Delete(s: State, id: Value, confirmed: bool): (r: Step)
    ensures !confirmed ==> r == Lifecycle.Step(s, None, false)
    ensures confirmed ==> r.write == Some(DeleteById("steps", id)) && r.refetch
    ensures confirmed && id == s.editingId ==> r.next == s.(editingId := Null, form := InitialForm)
    ensures id != s.editingId ==> r.next == s
  {
    Lifecycle.Delete(s, Table, id, confirmed, InitialForm)
  }

  /** `handleCancelEdit`. */
  function CancelEdit(s: State): (r: State)
    ensures r == s.(editingId := Null, form := InitialForm)
    ensures !Lifecycle.Editing(r)
  {
    Lifecycle.CancelEdit(s, InitialForm)
  }

  /** Editing a row and submitting it unchanged sends an update of the same
      row carrying the same date and step count; when the store accepts it
      the page is back in its freshly mounted state. */
  lemma EditSubmitRoundTrip(s: State, row: Row, user: Value, outcome: Outcome)
    requires Truthy(row.id) && Truthy(row.date) && Truthy(row.steps)
    ensures Submit(Edit(s, row), user, outcome).write
            == Some(UpdateById("steps", map["date" := Val(row.date), "steps" := ParseInt(row.steps)], row.id))
    ensures outcome.Ok? ==> Submit(Edit(s, row), user, outcome).next == Lifecycle.Mount(InitialForm)
  {
  }

  /** Validation tests truthiness, so a stored count of zero, loaded by Edit
      as the number 0, is rejected if resubmitted unchanged: no write is sent
      and the row stays in edit mode. */
  lemma ZeroStepsRejected(s: State, row: Row, user: Value, outcome: Outcome)
    requires row.steps == Num(0.0)
    ensures Submit(Edit(s, row), user, outcome).write == None
    ensures Submit(Edit(s, row), user, outcome).next.error == RequiredMessage
    ensures Submit(Edit(s, row), user, outcome).next.editingId == row.id
  {
  }
}
