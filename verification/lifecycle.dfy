/** The form/edit lifecycle shared by the steps, weights and workouts pages.
    Each page keeps a draft form, the id of the row being edited (JavaScript
    `null` when none) and an inline error message; its handlers are
    transitions of that state which may emit one store write and may ask for
    the page's list to be re-fetched. The page modules supply the form type,
    the validation verdict and the payloads; everything else is here. */
module Lifecycle {
  import opened JsValue
  import opened Store

  /** `form`, `editingId` and `error`: the page state the handlers change. */
  datatype PageState<F> = PageState(form: F, editingId: Value, error: string)

  /** One handler run: the next state, the store write it sends (if any) and
      whether it calls the page's fetch function afterwards. */
  datatype Step<F> = Step(next: PageState<F>, write: Option<Request>, refetch: bool)

  /** The state right after the page mounts. */
  function Mount<F>(initial: F): (r: PageState<F>) {
    PageState(initial, Null, "")
  }

  /** The page is in edit mode: `if (editingId)` in the submit handler, and
      the `Update`/`Cancel` buttons, test the id's truthiness. */
  predicate Editing<F>(s: PageState<F>) {
    Truthy(s.editingId)
  }

  /** The edit indicator is exact: either no id is held at all, or the id held
      is one the submit handler recognises as an edit. Row ids are truthy in
      the store (non-empty identifiers), and under that assumption every
      handler keeps this invariant. */
  predicate IndicatorExact<F>(s: PageState<F>) {
    s.editingId == Null || Truthy(s.editingId)
  }

  /** `handleSubmit`: the error is cleared, a failed validation stores the
      page's message and sends nothing; otherwise an update by the edited id
      or an insert of one row is sent. A failed write keeps the form and the
      edited id and shows the store's message; a successful one resets the
      form, leaves edit mode and re-fetches. */
  function Submit<F>(s: PageState<F>, valid: bool, requiredMessage: string, table: string,
                     updateValues: Payload, insertRow: Payload, initial: F,
                     outcome: Outcome): (r: Step<F>)
    ensures r.write.None? <==> !valid
    ensures r.write.Some? ==> (r.write.value.UpdateById? <==> Editing(s))
    ensures r.write.Some? && Editing(s) ==> r.write.value.id == s.editingId
    ensures r.refetch <==> valid && outcome.Ok?
    ensures !r.refetch ==> r.next.form == s.form && r.next.editingId == s.editingId
    ensures !valid ==> r.next.error == requiredMessage
    ensures valid && outcome.Failed? ==> r.next.error == outcome.message
    ensures r.refetch ==> r.next.form == initial && !Editing(r.next) && r.next.error == ""
    ensures IndicatorExact(s) ==> IndicatorExact(r.next)
  {
    if !valid then
      Step(s.(error := requiredMessage), None, false)
    else
      var write := if Editing(s) then UpdateById(table, updateValues, s.editingId)
                   else InsertRows(table, [insertRow]);
      match outcome
      case Failed(message) => Step(s.(error := message), Some(write), false)
      case Ok =>
        // Only the update branch clears the id; the insert branch leaves
        // whatever falsy id it found.
        Step(PageState(initial, if Editing(s) then Null else s.editingId, ""), Some(write), true)
  }

  /** `handleEdit(row)`: remember the row's id and load the row into the form;
      the error message is left as it was. */
  function Edit<F>(s: PageState<F>, id: Value, loaded: F): (r: PageState<F>)
    ensures r.editingId == id && r.form == loaded && r.error == s.error
    ensures Truthy(id) ==> Editing(r) && IndicatorExact(r)
  {
    s.(editingId := id, form := loaded)
  }

  /** `handleCancelEdit`: leave edit mode and reset the form. */
  function CancelEdit<F>(s: PageState<F>, initial: F): (r: PageState<F>)
    ensures !Editing(r) && IndicatorExact(r)
    ensures r.form == initial && r.error == s.error
  {
    s.(editingId := Null, form := initial)
  }

  /** `handleDelete(id)`: without confirmation nothing happens; with it, a
      delete by id is sent (its outcome is ignored), the list is re-fetched,
      and edit mode is left exactly when the deleted row is the one being
      edited (strict equality `editingId === id`). */
  function Delete<F>(s: PageState<F>, table: string, id: Value, confirmed: bool,
                     initial: F): (r: Step<F>)
    ensures !confirmed ==> r.next == s && r.write == None && !r.refetch
    ensures confirmed ==> r.write == Some(DeleteById(table, id)) && r.refetch
    ensures confirmed && id == s.editingId ==> r.next == CancelEdit(s, initial)
    ensures id != s.editingId ==> r.next == s
    ensures r.next.error == s.error
    ensures IndicatorExact(s) ==> IndicatorExact(r.next)
  {
    if !confirmed then Step(s, None, false)
    else
      var next := if s.editingId == id then s.(editingId := Null, form := initial) else s;
      Step(next, Some(DeleteById(table, id)), true)
  }

  /** Edit mode is chosen by truthiness, not by the id being non-null: a row
      whose id is falsy (the number 0 or the empty string) is inserted anew
      when its edit is submitted, instead of being updated. */
  lemma FalsyIdInserts<F>(s: PageState<F>, id: Value, loaded: F, requiredMessage: string,
                          table: string, updateValues: Payload, insertRow: Payload,
                          initial: F, outcome: Outcome)
    requires !Truthy(id)
    ensures Submit(Edit(s, id, loaded), true, requiredMessage, table, updateValues,
                   insertRow, initial, outcome).write == Some(InsertRows(table, [insertRow]))
  {
  }

  /** Cancelling an edit returns the page to inserting: the next valid
      submission sends an insert, whatever row was being edited. */
  lemma CancelThenSubmitInserts<F>(s: PageState<F>, initial: F, requiredMessage: string,
                                   table: string, updateValues: Payload, insertRow: Payload,
                                   outcome: Outcome)
    ensures Submit(CancelEdit(s, initial), true, requiredMessage, table, updateValues,
                   insertRow, initial, outcome).write == Some(InsertRows(table, [insertRow]))
  {
  }
}
