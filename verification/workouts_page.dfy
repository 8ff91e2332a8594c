/** The workouts page: a form of eight text fields written to the `workouts`
    table. Blank numeric fields and blank notes are written as `null`; a
    blank `time` is written as `null` by an insert but, because the update
    spreads the form, as the empty string by an update. */
module WorkoutsPage {
  import opened JsValue
  import opened Store
  import Lifecycle

  datatype Form = Form(date: Value, workoutName: Value, reps: Value, weight: Value,
                       time: Value, distance: Value, calories: Value, notes: Value)

  /** A fetched `workouts` row, as far as the page reads it. */
  datatype Row = Row(id: Value, date: Value, workoutName: Value, reps: Value, weight: Value,
                     time: Value, distance: Value, calories: Value, notes: Value)

  type State = Lifecycle.PageState<Form>
  type Step = Lifecycle.Step<Form>

  const Table := "workouts"
  const RequiredMessage := "Date and workout name required"
  const InitialForm := Form(Blank, Blank, Blank, Blank, Blank, Blank, Blank, Blank)

  /** The form's field names, which are also the table's column names. */
  const FormColumns: set<string> :=
    {"date", "workout_name", "reps", "weight", "time", "distance", "calories", "notes"}

  /** The columns both branches normalise, blank to `null`. */
  const OptionalColumns: set<string> := {"reps", "weight", "distance", "calories", "notes"}

  /** The form as the JavaScript object `form`, keyed by field name. */
  function Fields(f: Form): (m: map<string, Value>)
    ensures m.Keys == FormColumns
  {
    map["date" := f.date, "workout_name" := f.workoutName, "reps" := f.reps,
        "weight" := f.weight, "time" := f.time, "distance" := f.distance,
        "calories" := f.calories, "notes" := f.notes]
  }

  /** `!form.date || !form.workout_name` rejects the submission. */
  predicate Valid(f: Form) {
    Truthy(f.date) && Truthy(f.workoutName)
  }

  /** The five columns both branches compute the same way: a truthy number
      field is parsed, a falsy one is `null`; notes are `form.notes || null`. */
  function Normalised(f: Form): (p: Payload)
    ensures p.Keys == OptionalColumns
    ensures forall k :: k in p && !Truthy(Fields(f)[k]) ==> p[k] == Val(Null)
    ensures Truthy(f.reps) ==> p["reps"] == ParseInt(f.reps)
    ensures Truthy(f.weight) ==> p["weight"] == ParseFloat(f.weight)
    ensures Truthy(f.distance) ==> p["distance"] == ParseFloat(f.distance)
    ensures Truthy(f.calories) ==> p["calories"] == ParseFloat(f.calories)
    ensures Truthy(f.notes) ==> p["notes"] == Val(f.notes)
  {
    map["reps" := if Truthy(f.reps) then ParseInt(f.reps) else Val(Null),
        "weight" := if Truthy(f.weight) then ParseFloat(f.weight) else Val(Null),
        "distance" := if Truthy(f.distance) then ParseFloat(f.distance) else Val(Null),
        "calories" := if Truthy(f.calories) then ParseFloat(f.calories) else Val(Null),
        "notes" := Val(Or(f.notes, Null))]
  }

  /** The update values `{...form, reps, weight, distance, calories, notes}`:
      every form column, no `user_id`, the normalised columns overriding the
      spread, and `time` left exactly as the form holds it. */
  function UpdateValues(f: Form): (p: Payload)
    ensures p.Keys == FormColumns && "user_id" !in p
    ensures p["date"] == Val(f.date) && p["workout_name"] == Val(f.workoutName)
    ensures p["time"] == Val(f.time)
    ensures forall k :: k in OptionalColumns ==> p[k] == Normalised(f)[k]
  {
    var n := Normalised(f);
    assert "date" !in n && "workout_name" !in n && "time" !in n && "user_id" !in n;
    Spread(Fields(f)) + n
  }

  /** The inserted row: `user_id`, every form column, and `time` written as
      `null` when blank. */
  function InsertRow(f: Form, user: Value): (p: Payload)
    ensures p.Keys == FormColumns + {"user_id"}
    ensures p["user_id"] == Val(user)
    ensures p["date"] == Val(f.date) && p["workout_name"] == Val(f.workoutName)
    ensures Truthy(f.time) ==> p["time"] == Val(f.time)
    ensures !Truthy(f.time) ==> p["time"] == Val(Null)
    ensures forall k :: k in OptionalColumns ==> p[k] == Normalised(f)[k]
  {
    var n := Normalised(f);
    assert "date" !in n && "workout_name" !in n && "time" !in n && "user_id" !in n;
    map["user_id" := Val(user), "date" := Val(f.date), "workout_name" := Val(f.workoutName),
        "time" := Val(if Truthy(f.time) then f.time else Null)] + n
  }

  /** `handleSubmit`. */
  function Submit(s: State, user: Value, outcome: Outcome): (r: Step)
    ensures !Valid(s.form) ==> r == Lifecycle.Step(s.(error := RequiredMessage), None, false)
    ensures Valid(s.form) && Lifecycle.Editing(s) ==>
      r.write == Some(UpdateById("workouts", UpdateValues(s.form), s.editingId))
    ensures Valid(s.form) && !Lifecycle.Editing(s) ==>
      r.write == Some(InsertRows("workouts", [InsertRow(s.form, user)]))
    ensures Valid(s.form) && outcome.Failed? ==> r.next == s.(error := outcome.message) && !r.refetch
    ensures Valid(s.form) && outcome.Ok? ==>
      && r.refetch
      && r.next.form == InitialForm
      && r.next.error == ""
      && r.next.editingId == (if Lifecycle.Editing(s) then Null else s.editingId)
  {
    Lifecycle.Submit(s, Valid(s.form), RequiredMessage, Table,
                     UpdateValues(s.form), InsertRow(s.form, user), InitialForm, outcome)
  }

  /** `handleEdit(row)`: date and name are loaded verbatim, every other field
      with `|| ''`, so a falsy value (`null`, `''` or the number 0) becomes
      the empty string. */
  function Edit(s: State, row: Row): (r: State)
    ensures r.editingId == row.id && r.error == s.error
    ensures r.form.date == row.date && r.form.workoutName == row.workoutName
    ensures forall k :: k in Fields(r.form) && k != "date" && k != "workout_name" ==>
      (Truthy(Fields(Stored(row))[k]) ==> Fields(r.form)[k] == Fields(Stored(row))[k]) &&
      (!Truthy(Fields(Stored(row))[k]) ==> Fields(r.form)[k] == Blank)
  {
    Lifecycle.Edit(s, row.id, Loaded(row))
  }

  /** The form `handleEdit` loads from a row. */
  function Loaded(row: Row): (f: Form) {
    Form(row.date, row.workoutName, Or(row.reps, Blank), Or(row.weight, Blank),
         Or(row.time, Blank), Or(row.distance, Blank), Or(row.calories, Blank),
         Or(row.notes, Blank))
  }

  /** The row's columns as they are stored, in the shape of the form. */
  function Stored(row: Row): (f: Form) {
    Form(row.date, row.workoutName, row.reps, row.weight, row.time, row.distance,
         row.calories, row.notes)
  }

  /** `handleDelete(id)` with the user's answer to the confirmation dialog. */
  function Delete(s: State, id: Value, confirmed: bool): (r: Step)
    ensures !confirmed ==> r == Lifecycle.Step(s, None, false)
    ensures confirmed ==> r.write == Some(DeleteById("workouts", id)) && r.refetch
    ensures confirmed && id == s.editingId ==> r.next == s.(editingId := Null, form := InitialForm)
    ensures id != s.editingId ==> r.next == s
  {
    Lifecycle.Delete(s, Table, id, confirmed, InitialForm)
  }

  /** `handleCancelEdit`. */
  function CancelEdit(s: State): (r: State)
    ensures r == s.(editingId := Null, form := InitialForm)
    ensures !Lifecycle.Editing(r)
  {
    Lifecycle.CancelEdit(s, InitialForm)
  }

  /** A blank `time` is `null` in an inserted row but stays the empty string
      in an update. */
  lemma BlankTimeDiffers(f: Form, user: Value)
    requires f.time == Blank
    ensures InsertRow(f, user)["time"] == Val(Null)
    ensures UpdateValues(f)["time"] == Val(Blank)
  {
  }

  /** Both payloads write `null` for every blank optional column. */
  lemma BlankOptionalsNull(f: Form, user: Value, k: string)
    requires k in OptionalColumns && !Truthy(Fields(f)[k])
    ensures UpdateValues(f)[k] == Val(Null)
    ensures InsertRow(f, user)[k] == Val(Null)
  {
  }

  /** The update values of a loaded row: date, name and the loaded `time`
      as they are, a truthy numeric column re-parsed from the stored value
      and a falsy one (including a stored 0) `null`, and notes normalised as
      if they had never been loaded. */
  lemma LoadedUpdateValues(row: Row)
    ensures var p := UpdateValues(Loaded(row));
      && p["date"] == Val(row.date)
      && p["workout_name"] == Val(row.workoutName)
      && p["time"] == Val(Or(row.time, Blank))
      && p["reps"] == (if Truthy(row.reps) then ParseInt(row.reps) else Val(Null))
      && p["weight"] == (if Truthy(row.weight) then ParseFloat(row.weight) else Val(Null))
      && p["distance"] == (if Truthy(row.distance) then ParseFloat(row.distance) else Val(Null))
      && p["calories"] == (if Truthy(row.calories) then ParseFloat(row.calories) else Val(Null))
      && p["notes"] == Val(Or(row.notes, Null))
  {
    var f := Loaded(row);
    var p := UpdateValues(f);
    var n := Normalised(f);
    assert p["reps"] == n["reps"] && p["weight"] == n["weight"] && p["notes"] == n["notes"];
    assert p["distance"] == n["distance"] && p["calories"] == n["calories"];
    OrBlankThenNull(row.notes);
    OrBlankKeepsTruthiness(row.reps);
    OrBlankKeepsTruthiness(row.weight);
    OrBlankKeepsTruthiness(row.distance);
    OrBlankKeepsTruthiness(row.calories);
  }

  /** Editing a row and submitting it unchanged updates the same row with the
      loaded form's update values, and on success returns the page to its
      initial state. */
  lemma EditSubmitRoundTrip(s: State, row: Row, user: Value, outcome: Outcome)
    requires Truthy(row.id) && Truthy(row.date) && Truthy(row.workoutName)
    ensures Submit(Edit(s, row), user, outcome).write
            == Some(UpdateById("workouts", UpdateValues(Loaded(row)), row.id))
    ensures outcome.Ok? ==> Submit(Edit(s, row), user, outcome).next == Lifecycle.Mount(InitialForm)
  {
    var e := Edit(s, row);
    assert e.form == Loaded(row) && Lifecycle.Editing(e) && Valid(e.form);
  }
}
