/** The daily-tasks page: a checklist of fixed tasks for a selected date,
    and a summary table of the last seven days with one tri-state cell per
    date and task. Dates are integer day numbers; the store's queries and its
    upsert are emitted values and their answers are inputs. */
module DailyTasksPage {
  import opened JsValue
  import opened DateWindow
  import opened TaskTable
  import opened Store

  /** `TASKS`, in display order. */
  const Tasks: seq<string> := ["protein shake", "daily vitamin"]

  /** The conflict target of the checklist upsert. */
  const ConflictKey := "user_id,date,task_name"

  /** The summary cell texts: a heavy check mark with emoji presentation
      selector, and a cross mark. */
  const CheckMark: string := "\U{2714}\U{FE0F}"
  const CrossMark: string := "\U{274C}"

  /** The page state besides the session: the selected `date`, the
      checklist's `taskStates`, the inline `error`, the summary's
      `tableData` and its list of `dates`. */
  datatype State = State(date: int, taskStates: map<string, bool>, error: string,
                         tableData: Table, dates: seq<int>)

  /** The queries the page sends: the checklist's rows of one user and date,
      and the summary's rows of one user from a date on, newest first. */
  datatype Query = StatesOn(userId: Value, date: int) | TableFrom(userId: Value, fromDate: int)

  /** A query's answer: rows, or an error message. */
  datatype Fetched<T> = Rows(rows: seq<T>) | FetchFailed(message: string)

  /** One row of the checklist upsert. */
  datatype Entry = Entry(userId: Value, date: int, taskName: string, value: bool)

  /** `upsert(rows, { onConflict })`. */
  datatype Upsert = Upsert(rows: seq<Entry>, onConflict: string)

  /** A query together with the state its answer leads to. */
  datatype Fetch = Fetch(query: Query, next: State)

  /** A checkbox toggle: the next state, the upsert it sends and whether it
      re-fetches the summary table. */
  datatype Toggle = Toggle(next: State, write: Upsert, refetchTable: bool)

  /** The state right after mount, with the date input set to today. */
  function Mount(today: int): (r: State) {
    State(today, map[], "", map[], [])
  }

  /** The tri-state summary cell `tableData[date]?.[task]`: empty when the
      lookup is `undefined`, a check mark when true, a cross when false. */
  function RenderCell(cell: Option<bool>): (r: string)
    ensures r == "" <==> cell.None?
    ensures r == CheckMark <==> cell == Some(true)
    ensures r == CrossMark <==> cell == Some(false)
  {
    match cell
    case None => ""
    case Some(v) => if v then CheckMark else CrossMark
  }

  /** Reads a rendered cell back; the three cell texts are distinct. */
  function ParseCell(text: string): (r: Option<Option<bool>>) {
    if text == "" then Some(None)
    else if text == CheckMark then Some(Some(true))
    else if text == CrossMark then Some(Some(false))
    else None
  }

  /** Rendering loses nothing: the tri-state value is recovered from the
      cell's text. */
  lemma RenderCellRoundTrip(cell: Option<bool>)
    ensures ParseCell(RenderCell(cell)) == Some(cell)
  {
  }

  /** The summary table body: one row per date, one cell per task. */
  function Grid(dates: seq<int>, t: Table): (g: seq<seq<string>>)
    ensures |g| == |dates|
    ensures forall i :: 0 <= i < |g| ==> |g[i]| == |Tasks|
  {
    seq(|dates|, i requires 0 <= i < |dates| =>
      seq(|Tasks|, j requires 0 <= j < |Tasks| => RenderCell(Lookup(t, dates[i], Tasks[j]))))
  }

  /** Each summary cell renders only the lookup of its own date and task. */
  lemma GridAt(dates: seq<int>, t: Table, i: int, j: int)
    requires 0 <= i < |dates| && 0 <= j < |Tasks|
    ensures Grid(dates, t)[i][j] == RenderCell(Lookup(t, dates[i], Tasks[j]))
  {
  }

  /** `checked={!!taskStates[task]}`. */
  predicate Checked(states: map<string, bool>, task: string) {
    task in states && states[task]
  }

  /** A task's checkbox is ticked exactly when its state is present and true;
      an absent task reads as unticked, like a false one. */
  lemma CheckedIffPresentTrue(states: map<string, bool>, task: string)
    ensures Checked(states, task) <==> Get(states, task) == Some(true)
    ensures task !in states ==> !Checked(states, task)
  {
  }

  /** `taskStates[task]` as an option. */
  function Get(states: map<string, bool>, task: string): (r: Option<bool>) {
    if task in states then Some(states[task]) else None
  }

  /** `fetchTasks`: the error is cleared, the checklist rows of the selected
      date are queried, and on success the states become their last-wins
      bucketing; on failure only the message changes. */
  function FetchTasks(s: State, user: Value, answer: Fetched<StateRow>): (r: Fetch)
    ensures r.query == StatesOn(user, s.date)
    ensures answer.FetchFailed? ==> r.next == s.(error := answer.message)
    ensures answer.Rows? ==>
      && r.next == s.(error := "", taskStates := States(answer.rows))
      && forall k :: k in r.next.taskStates <==>
           exists i :: 0 <= i < |answer.rows| && answer.rows[i].taskName == k
  {
    var query := StatesOn(user, s.date);
    match answer
    case FetchFailed(message) => Fetch(query, s.(error := message))
    case Rows(rows) =>
      assert forall k :: k in States(rows) <==>
               exists i :: 0 <= i < |rows| && rows[i].taskName == k by {
        forall k { StatesDomain(rows, k); }
      }
      Fetch(query, s.(error := "", taskStates := States(rows)))
  }

  /** `fetchTable`: the rows from six days ago on are queried; on success the
      dates become the seven-day window ending today and the table the
      last-wins bucketing of the rows; on failure only the message changes.
      The error is not cleared first. */
  function FetchTable(s: State, user: Value, today: int, answer: Fetched<TaskRow>): (r: Fetch)
    ensures r.query == TableFrom(user, QueryLowerBound(today))
    ensures answer.FetchFailed? ==> r.next == s.(error := answer.message)
    ensures answer.Rows? ==>
      && r.next.date == s.date && r.next.taskStates == s.taskStates && r.next.error == s.error
      && r.next.tableData == Bucket(answer.rows)
      && |r.next.dates| == WindowSize
      && (forall i :: 0 <= i < WindowSize ==> r.next.dates[i] == today - i)
      && (forall d :: d in r.next.tableData <==>
            exists i :: 0 <= i < |answer.rows| && answer.rows[i].date == d)
  {
    var query := TableFrom(user, QueryLowerBound(today));
    match answer
    case FetchFailed(message) => Fetch(query, s.(error := message))
    case Rows(rows) =>
      assert forall d :: d in Bucket(rows) <==>
               exists i :: 0 <= i < |rows| && rows[i].date == d by {
        forall d { BucketDates(rows, d); }
      }
      Fetch(query, s.(tableData := Bucket(rows), dates := Window(today, WindowSize)))
  }

  /** `handleChange(task, checked)`: the error is cleared, the one task's
      state is set optimistically, exactly one upsert row is sent for the
      user, the selected date and the task, and the summary is re-fetched
      whatever the store answers; a failure only sets the message. */
  function HandleChange(s: State, user: Value, task: string, checked: bool,
                        outcome: Outcome): (r: Toggle)
    ensures r.write == Upsert([Entry(user, s.date, task, checked)], ConflictKey)
    ensures r.refetchTable
    ensures Checked(r.next.taskStates, task) == checked
    ensures forall k :: k != task ==> Get(r.next.taskStates, k) == Get(s.taskStates, k)
    ensures r.next.taskStates.Keys == s.taskStates.Keys + {task}
    ensures r.next.error == (if outcome.Failed? then outcome.message else "")
    ensures r.next.date == s.date && r.next.tableData == s.tableData && r.next.dates == s.dates
  {
    var states := s.taskStates[task := checked];
    var error := match outcome case Failed(message) => message case Ok => "";
    Toggle(s.(taskStates := states, error := error),
           Upsert([Entry(user, s.date, task, checked)], ConflictKey), true)
  }

  /** With no rows fetched every cell of the summary renders as unset. */
  lemma EmptyRowsAllUnset(today: int)
    ensures var g := Grid(Window(today, WindowSize), Bucket([]));
      forall i, j :: 0 <= i < |g| && 0 <= j < |g[i]| ==> g[i][j] == ""
  {
  }

  /** A summary cell is empty exactly when no fetched row has its date and
      task. */
  lemma GridCellUnset(today: int, rows: seq<TaskRow>, i: int, j: int)
    requires 0 <= i < WindowSize && 0 <= j < |Tasks|
    ensures Grid(Window(today, WindowSize), Bucket(rows))[i][j] == ""
            <==> forall n :: 0 <= n < |rows| ==> !(rows[n].date == today - i && rows[n].taskName == Tasks[j])
  {
    var w := Window(today, WindowSize);
    var t := Bucket(rows);
    var d, k := today - i, Tasks[j];
    assert w[i] == d;
    GridAt(w, t, i, j);
    var c := Lookup(t, d, k);
    assert Grid(w, t)[i][j] == RenderCell(c);
    BucketDefined(rows, d, k);
    assert c.Some? <==> exists n :: 0 <= n < |rows| && rows[n].date == d && rows[n].taskName == k;
    assert RenderCell(c) == "" <==> c.None?;
  }

  /** A summary cell shows the value of the last fetched row with its date
      and task. */
  lemma GridCellLastRow(today: int, rows: seq<TaskRow>, i: int, j: int, n: int)
    requires 0 <= i < WindowSize && 0 <= j < |Tasks| && 0 <= n < |rows|
    requires rows[n].date == today - i && rows[n].taskName == Tasks[j]
    requires forall m :: n < m < |rows| ==>
      (rows[m].date, rows[m].taskName) != (rows[n].date, rows[n].taskName)
    ensures Grid(Window(today, WindowSize), Bucket(rows))[i][j] == RenderCell(Some(rows[n].value))
  {
    var w := Window(today, WindowSize);
    assert w[i] == today - i;
    GridAt(w, Bucket(rows), i, j);
    BucketLastWins(rows, n);
  }

  /** Rows dated outside the window leave the rendered summary unchanged,
      wherever the store puts them: before the others (the future-dated rows
      of a date-descending answer), after them, or in between. The summary
      renders exactly as it would for the in-window rows alone. */
  lemma OutsideRowsIgnored(today: int, rows: seq<TaskRow>)
    ensures Grid(Window(today, WindowSize), Bucket(rows))
            == Grid(Window(today, WindowSize), Bucket(Within(rows, QueryLowerBound(today), today)))
  {
    var w := Window(today, WindowSize);
    var kept := Within(rows, QueryLowerBound(today), today);
    var g1 := Grid(w, Bucket(rows));
    var g2 := Grid(w, Bucket(kept));
    forall i | 0 <= i < WindowSize
      ensures g1[i] == g2[i]
    {
      forall j | 0 <= j < |Tasks|
        ensures g1[i][j] == g2[i][j]
      {
        assert w[i] == today - i;
        BucketWithin(rows, QueryLowerBound(today), today, w[i], Tasks[j]);
        GridAt(w, Bucket(rows), i, j);
        GridAt(w, Bucket(kept), i, j);
      }
    }
  }

  /** The worked example: with today's vitamin ticked and a protein shake
      two days ago marked false, today's row shows an empty cell and a check
      mark, the row of two days ago a cross and an empty cell, and every other
      row two empty cells. */
  lemma TwoEntryExample(today: int)
    ensures var rows := [TaskRow(today, "daily vitamin", true), TaskRow(today - 2, "protein shake", false)];
      Grid(Window(today, WindowSize), Bucket(rows))
      == [["", CheckMark], ["", ""], [CrossMark, ""], ["", ""], ["", ""], ["", ""], ["", ""]]
  {
    var rows := [TaskRow(today, "daily vitamin", true), TaskRow(today - 2, "protein shake", false)];
    assert rows[..1] == [rows[0]];
    BucketSnoc([], rows[0]);
    BucketSnoc([rows[0]], rows[1]);
    assert [] + [rows[0]] == [rows[0]] && [rows[0]] + [rows[1]] == rows;
    var t := Bucket(rows);
    var w := Window(today, WindowSize);
    var g := Grid(w, t);
    var expected := [["", CheckMark], ["", ""], [CrossMark, ""], ["", ""], ["", ""], ["", ""], ["", ""]];
    forall i | 0 <= i < WindowSize
      ensures g[i] == expected[i]
    {
      forall j | 0 <= j < |Tasks|
        ensures g[i][j] == expected[i][j]
      {
        GridAt(w, t, i, j);
      }
    }
  }
}
