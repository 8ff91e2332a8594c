/** The weights page: a form of `date`, `weight` and `measured_at`, written
    to the `weights` table, whose weight column is named `weight_lbs`. */
module WeightsPage {
  import opened JsValue
  import opened Store
  import Lifecycle

  datatype Form = Form(date: Value, weight: Value, measuredAt: Value)

  /** A fetched `weights` row, as far as the page reads it. */
  datatype Row = Row(id: Value, date: Value, weightLbs: Value, measuredAt: Value)

  type State = Lifecycle.PageState<Form>
  type Step = Lifecycle.Step<Form>

  const Table := "weights"
  const RequiredMessage := "Date and weight required"
  const InitialForm := Form(Blank, Blank, Blank)

  /** `!form.date || !form.weight` rejects the submission. */
  predicate Valid(f: Form) {
    Truthy(f.date) && Truthy(f.weight)
  }

  /** The columns both branches write: the form's `weight` goes to
      `weight_lbs` and a blank location becomes `null`. */
  function Values(f: Form): (p: Payload)
    ensures p.Keys == {"date", "weight_lbs", "measured_at"}
    ensures p["date"] == Val(f.date)
    ensures p["weight_lbs"] == ParseFloat(f.weight)
    ensures Truthy(f.measuredAt) ==> p["measured_at"] == Val(f.measuredAt)
    ensures !Truthy(f.measuredAt) ==> p["measured_at"] == Val(Null)
  {
    map["date" := Val(f.date), "weight_lbs" := ParseFloat(f.weight),
        "measured_at" := Val(Or(f.measuredAt, Null))]
  }

  /** `handleSubmit`: the update carries no `user_id`, the insert does. */
  function Submit(s: State, user: Value, outcome: Outcome): (r: Step)
    ensures !Valid(s.form) ==> r == Lifecycle.Step(s.(error := RequiredMessage), None, false)
    ensures Valid(s.form) && Lifecycle.Editing(s) ==>
      && r.write == Some(UpdateById("weights", Values(s.form), s.editingId))
      && "user_id" !in r.write.value.values
    ensures Valid(s.form) && !Lifecycle.Editing(s) ==>
      && r.write == Some(InsertRows("weights", [Values(s.form)["user_id" := Val(user)]]))
      && r.write.value.rows[0]["user_id"] == Val(user)
    ensures Valid(s.form) && outcome.Failed? ==> r.next == s.(error := outcome.message) && !r.refetch
    ensures Valid(s.form) && outcome.Ok? ==>
      && r.refetch
      && r.next.form == InitialForm
      && r.next.error == ""
      && r.next.editingId == (if Lifecycle.Editing(s) then Null else s.editingId)
  {
    var f := s.form;
    Lifecycle.Submit(s, Valid(f), RequiredMessage, Table,
                     Values(f), Values(f)["user_id" := Val(user)], InitialForm, outcome)
  }

  /** `handleEdit(row)`: `weight_lbs` is read back into `weight` and a
      missing location is loaded as the empty string. */
  function Edit(s: State, row: Row): (r: State)
    ensures r.editingId == row.id && r.error == s.error
    ensures r.form.date == row.date && r.form.weight == row.weightLbs
    ensures Truthy(row.measuredAt) ==> r.form.measuredAt == row.measuredAt
    ensures !Truthy(row.measuredAt) ==> r.form.measuredAt == Blank
  {
    Lifecycle.Edit(s, row.id, Form(row.date, row.weightLbs, Or(row.measuredAt, Blank)))
  }

  /** `handleDelete(id)` with the user's answer to the confirmation dialog. */
  function Delete(s: State, id: Value, confirmed: bool): (r: Step)
    ensures !confirmed ==> r == Lifecycle.Step(s, None, false)
    ensures confirmed ==> r.write == Some(DeleteById("weights", id)) && r.refetch
    ensures confirmed && id == s.editingId ==> r.next == s.(editingId := Null, form := InitialForm)
    ensures id != s.editingId ==> r.next == s
  {
    Lifecycle.Delete(s, Table, id, confirmed, InitialForm)
  }

  /** `handleCancelEdit`. */
  function CancelEdit(s: State): (r: State)
    ensures r == s.(editingId := Null, form := InitialForm)
    ensures !Lifecycle.Editing(r)
  {
    Lifecycle.CancelEdit(s, InitialForm)
  }

  /** Editing a row and submitting it unchanged writes the row back: the same
      id, date and weight, and a location that was `null` (or blank) is
      written as `null` again rather than as the empty string Edit loaded. */
  lemma EditSubmitRoundTrip(s: State, row: Row, user: Value, outcome: Outcome)
    requires Truthy(row.id) && Truthy(row.date) && Truthy(row.weightLbs)
    ensures Submit(Edit(s, row), user, outcome).write
            == Some(UpdateById("weights", map["date" := Val(row.date),
                                              "weight_lbs" := ParseFloat(row.weightLbs),
                                              "measured_at" := Val(Or(row.measuredAt, Null))], row.id))
    ensures outcome.Ok? ==> Submit(Edit(s, row), user, outcome).next == Lifecycle.Mount(InitialForm)
  {
    OrBlankThenNull(row.measuredAt);
  }
}
