/** The bucketing of fetched daily-task rows. Rows are folded in the order
    the store returned them, each one overwriting the entry for its key, so
    when a key occurs twice the later row wins. The checklist's per-task
    states use this fold directly; the summary table nests it by date. */
module TaskTable {
  import opened JsValue

  /** A fetched `daily_tasks` row with its date as a day number. */
  datatype TaskRow = TaskRow(date: int, taskName: string, value: bool)

  /** `tableData`: date to task name to the stored value. */
  type Table = map<int, map<string, bool>>

  /** Index `i` holds the last occurrence of its key in `kvs`. */
  ghost predicate IsLast<K, V>(kvs: seq<(K, V)>, i: int) {
    0 <= i < |kvs| && forall j :: i < j < |kvs| ==> kvs[j].0 != kvs[i].0
  }

  /** `obj = {}; pairs.forEach(([k, v]) => { obj[k] = v; })`, folded over
      the pairs in order. */
  function LastWins<K(!new), V>(kvs: seq<(K, V)>): (m: map<K, V>)
    ensures |kvs| > 0 ==> kvs[|kvs| - 1].0 in m && m[kvs[|kvs| - 1].0] == kvs[|kvs| - 1].1
    decreases |kvs|
  {
    if |kvs| == 0 then map[]
    else LastWins(kvs[..|kvs| - 1])[kvs[|kvs| - 1].0 := kvs[|kvs| - 1].1]
  }

  /** A key is present after the fold exactly when some pair carries it. */
  lemma {:induction false} LastWinsDomain<K(!new), V>(kvs: seq<(K, V)>, k: K)
    ensures k in LastWins(kvs) <==> exists i :: 0 <= i < |kvs| && kvs[i].0 == k
    decreases |kvs|
  {
    var n := |kvs|;
    if n > 0 {
      var prefix := kvs[..n - 1];
      LastWinsDomain(prefix, k);
      if k in LastWins(prefix) {
        var i :| 0 <= i < |prefix| && prefix[i].0 == k;
        assert kvs[i].0 == k;
      }
      if exists i :: 0 <= i < n && kvs[i].0 == k {
        var i :| 0 <= i < n && kvs[i].0 == k;
        if i < n - 1 {
          assert prefix[i].0 == k;
        }
      }
    }
  }

  /** The value kept for a key is that of its last occurrence. */
  lemma {:induction false} LastWinsValue<K(!new), V>(kvs: seq<(K, V)>, i: int)
    requires IsLast(kvs, i)
    ensures kvs[i].0 in LastWins(kvs) && LastWins(kvs)[kvs[i].0] == kvs[i].1
    decreases |kvs|
  {
    var n := |kvs|;
    if i < n - 1 {
      var prefix := kvs[..n - 1];
      assert IsLast(prefix, i);
      LastWinsValue(prefix, i);
    }
  }

  /** Conversely, every key kept has a last occurrence, whose value is kept. */
  lemma {:induction false} LastWinsFromLast<K(!new), V>(kvs: seq<(K, V)>, k: K)
    requires k in LastWins(kvs)
    ensures exists i :: IsLast(kvs, i) && kvs[i].0 == k && LastWins(kvs)[k] == kvs[i].1
    decreases |kvs|
  {
    var n := |kvs|;
    if kvs[n - 1].0 == k {
      assert IsLast(kvs, n - 1);
    } else {
      var prefix := kvs[..n - 1];
      LastWinsFromLast(prefix, k);
      var i :| IsLast(prefix, i) && prefix[i].0 == k && LastWins(prefix)[k] == prefix[i].1;
      assert IsLast(kvs, i);
    }
  }

  /** Folding one more pair is one more map update. */
  lemma LastWinsSnoc<K(!new), V>(kvs: seq<(K, V)>, kv: (K, V))
    ensures LastWins(kvs + [kv]) == LastWins(kvs)[kv.0 := kv.1]
  {
    assert (kvs + [kv])[..|kvs|] == kvs;
  }

  /** `tableData[date]?.[task]`: `None` where JavaScript reads `undefined`. */
  function Lookup(t: Table, date: int, task: string): (r: Option<bool>) {
    if date in t && task in t[date] then Some(t[date][task]) else None
  }

  /** One step of the `fetchTable` fold: create the date's bucket if it is
      missing, then set the task's value in it. */
  function Put(t: Table, row: TaskRow): (r: Table)
    ensures r.Keys == t.Keys + {row.date}
    ensures Lookup(r, row.date, row.taskName) == Some(row.value)
    ensures forall d, k :: (d, k) != (row.date, row.taskName) ==> Lookup(r, d, k) == Lookup(t, d, k)
  {
    var bucket := if row.date in t then t[row.date] else map[];
    t[row.date := bucket[row.taskName := row.value]]
  }

  /** The `fetchTable` fold over the rows in the order received. */
  function Bucket(rows: seq<TaskRow>): (t: Table)
    ensures |rows| > 0 ==>
      Lookup(t, rows[|rows| - 1].date, rows[|rows| - 1].taskName) == Some(rows[|rows| - 1].value)
    decreases |rows|
  {
    if |rows| == 0 then map[]
    else Put(Bucket(rows[..|rows| - 1]), rows[|rows| - 1])
  }

  /** `map[d]` exists exactly when some row has date `d`: no rows give an
      empty table. */
  lemma {:induction false} BucketDates(rows: seq<TaskRow>, d: int)
    ensures d in Bucket(rows) <==> exists i :: 0 <= i < |rows| && rows[i].date == d
    decreases |rows|
  {
    var n := |rows|;
    if n > 0 {
      var prefix := rows[..n - 1];
      BucketDates(prefix, d);
      if d in Bucket(prefix) {
        var i :| 0 <= i < |prefix| && prefix[i].date == d;
        assert rows[i].date == d;
      }
      if exists i :: 0 <= i < n && rows[i].date == d {
        var i :| 0 <= i < n && rows[i].date == d;
        if i < n - 1 {
          assert prefix[i].date == d;
        }
      }
    }
  }

  /** The rows as (date, task) keyed pairs, in the same order. */
  function Keyed(rows: seq<TaskRow>): (kvs: seq<((int, string), bool)>)
    ensures |kvs| == |rows|
    ensures forall i :: 0 <= i < |rows| ==>
      kvs[i] == ((rows[i].date, rows[i].taskName), rows[i].value)
  {
    seq(|rows|, i requires 0 <= i < |rows| => ((rows[i].date, rows[i].taskName), rows[i].value))
  }

  /** The nested table is the last-wins fold keyed by (date, task). */
  lemma {:induction false} BucketFlattens(rows: seq<TaskRow>, d: int, k: string)
    ensures Lookup(Bucket(rows), d, k)
            == (if (d, k) in LastWins(Keyed(rows)) then Some(LastWins(Keyed(rows))[(d, k)]) else None)
    decreases |rows|
  {
    var n := |rows|;
    if n > 0 {
      var prefix := rows[..n - 1];
      assert Keyed(rows)[..n - 1] == Keyed(prefix);
      BucketFlattens(prefix, d, k);
    }
  }

  /** `tableData[d][k]` is defined exactly when some row has date `d` and
      task `k`. */
  lemma BucketDefined(rows: seq<TaskRow>, d: int, k: string)
    ensures Lookup(Bucket(rows), d, k).Some?
            <==> exists i :: 0 <= i < |rows| && rows[i].date == d && rows[i].taskName == k
  {
    BucketFlattens(rows, d, k);
    var kvs := Keyed(rows);
    LastWinsDomain(kvs, (d, k));
    if (d, k) in LastWins(kvs) {
      var i :| 0 <= i < |kvs| && kvs[i].0 == (d, k);
      assert rows[i].date == d && rows[i].taskName == k;
    }
  }

  /** The row with the last occurrence of its (date, task) pair is the one
      whose value the table holds. */
  lemma BucketLastWins(rows: seq<TaskRow>, i: int)
    requires 0 <= i < |rows|
    requires forall j :: i < j < |rows| ==>
      (rows[j].date, rows[j].taskName) != (rows[i].date, rows[i].taskName)
    ensures Lookup(Bucket(rows), rows[i].date, rows[i].taskName) == Some(rows[i].value)
  {
    var kvs := Keyed(rows);
    assert IsLast(kvs, i);
    LastWinsValue(kvs, i);
    BucketFlattens(rows, rows[i].date, rows[i].taskName);
  }

  /** Folding one more row is one more `Put`. */
  lemma BucketSnoc(rows: seq<TaskRow>, row: TaskRow)
    ensures Bucket(rows + [row]) == Put(Bucket(rows), row)
  {
    assert (rows + [row])[..|rows|] == rows;
  }

  /** The rows whose date lies in `lo..hi`, in their original order. */
  function Within(rows: seq<TaskRow>, lo: int, hi: int): (r: seq<TaskRow>)
    ensures |r| <= |rows|
    decreases |rows|
  {
    if |rows| == 0 then []
    else
      var prefix := rows[..|rows| - 1];
      var last := rows[|rows| - 1];
      if lo <= last.date <= hi then Within(prefix, lo, hi) + [last] else Within(prefix, lo, hi)
  }

  /** For a date in `lo..hi`, the rows dated outside that range change no
      cell, wherever they stand among the others. */
  lemma {:induction false} BucketWithin(rows: seq<TaskRow>, lo: int, hi: int, d: int, k: string)
    requires lo <= d <= hi
    ensures Lookup(Bucket(rows), d, k) == Lookup(Bucket(Within(rows, lo, hi)), d, k)
    decreases |rows|
  {
    var n := |rows|;
    if n > 0 {
      var prefix := rows[..n - 1];
      var last := rows[n - 1];
      BucketWithin(prefix, lo, hi, d, k);
      assert Bucket(rows) == Put(Bucket(prefix), last);
      var kept := Within(prefix, lo, hi);
      if lo <= last.date <= hi {
        assert Within(rows, lo, hi) == kept + [last];
        BucketSnoc(kept, last);
        if (d, k) != (last.date, last.taskName) {
          assert Lookup(Bucket(rows), d, k) == Lookup(Bucket(prefix), d, k);
          assert Lookup(Bucket(kept + [last]), d, k) == Lookup(Bucket(kept), d, k);
        }
      } else {
        assert Within(rows, lo, hi) == kept;
        assert last.date != d;
        assert Lookup(Bucket(rows), d, k) == Lookup(Bucket(prefix), d, k);
      }
    }
  }

  /** A row is kept exactly when it is one of the rows and its date lies in
      the range. */
  lemma {:induction false} WithinMembers(rows: seq<TaskRow>, lo: int, hi: int, x: TaskRow)
    ensures x in Within(rows, lo, hi) <==> x in rows && lo <= x.date <= hi
    decreases |rows|
  {
    if |rows| > 0 {
      var prefix := rows[..|rows| - 1];
      var last := rows[|rows| - 1];
      WithinMembers(prefix, lo, hi, x);
      assert rows == prefix + [last];
      assert x in rows <==> x in prefix || x == last;
    }
  }

  /** Filtering one more row appends it exactly when its date is in range. */
  lemma WithinSnoc(rows: seq<TaskRow>, x: TaskRow, lo: int, hi: int)
    ensures Within(rows + [x], lo, hi)
            == if lo <= x.date <= hi then Within(rows, lo, hi) + [x] else Within(rows, lo, hi)
  {
    assert (rows + [x])[..|rows|] == rows;
  }

  /** Filtering distributes over concatenation, so the kept rows keep their
      relative order. */
  lemma {:induction false} WithinAppend(a: seq<TaskRow>, b: seq<TaskRow>, lo: int, hi: int)
    ensures Within(a + b, lo, hi) == Within(a, lo, hi) + Within(b, lo, hi)
    decreases |b|
  {
    if |b| == 0 {
      assert a + b == a;
      assert Within(a, lo, hi) + [] == Within(a, lo, hi);
    } else {
      var shorter := b[..|b| - 1];
      var last := b[|b| - 1];
      WithinAppend(a, shorter, lo, hi);
      assert a + b == (a + shorter) + [last];
      assert b == shorter + [last];
      WithinSnoc(a + shorter, last, lo, hi);
      WithinSnoc(shorter, last, lo, hi);
      var wa, ws := Within(a, lo, hi), Within(shorter, lo, hi);
      if lo <= last.date <= hi {
        assert (wa + ws) + [last] == wa + (ws + [last]);
      }
    }
  }

  /** Rows that all lie in the range are kept as they are. */
  lemma {:induction false} WithinAll(rows: seq<TaskRow>, lo: int, hi: int)
    requires forall i :: 0 <= i < |rows| ==> lo <= rows[i].date <= hi
    ensures Within(rows, lo, hi) == rows
    decreases |rows|
  {
    if |rows| > 0 {
      var prefix := rows[..|rows| - 1];
      var last := rows[|rows| - 1];
      assert rows == prefix + [last];
      WithinAll(prefix, lo, hi);
      WithinSnoc(prefix, last, lo, hi);
    }
  }

  /** Rows of other dates, placed before or after the others, change no cell
      of date `d`. */
  lemma BucketIgnoresOtherDates(rows: seq<TaskRow>, extra: seq<TaskRow>, d: int, k: string)
    requires forall j :: 0 <= j < |extra| ==> extra[j].date != d
    ensures Lookup(Bucket(rows + extra), d, k) == Lookup(Bucket(rows), d, k)
    ensures Lookup(Bucket(extra + rows), d, k) == Lookup(Bucket(rows), d, k)
  {
    var none := Within(extra, d, d);
    if |none| > 0 {
      var x := none[0];
      WithinMembers(extra, d, d, x);
      assert false;
    }
    var kept := Within(rows, d, d);
    WithinAppend(rows, extra, d, d);
    WithinAppend(extra, rows, d, d);
    assert kept + none == kept && none + kept == kept;
    BucketWithin(rows + extra, d, d, d, k);
    BucketWithin(extra + rows, d, d, d, k);
    BucketWithin(rows, d, d, d, k);
  }

  /** A row of the checklist query, which selects only `task_name, value`. */
  datatype StateRow = StateRow(taskName: string, value: bool)

  /** `fetchTasks`'s `states[row.task_name] = row.value` fold. */
  function States(rows: seq<StateRow>): (m: map<string, bool>)
    ensures |rows| > 0 ==>
      rows[|rows| - 1].taskName in m && m[rows[|rows| - 1].taskName] == rows[|rows| - 1].value
  {
    LastWins(Pairs(rows))
  }

  /** `states` has a task exactly when some fetched checklist row names it. */
  lemma StatesDomain(rows: seq<StateRow>, k: string)
    ensures k in States(rows) <==> exists i :: 0 <= i < |rows| && rows[i].taskName == k
  {
    var kvs := Pairs(rows);
    LastWinsDomain(kvs, k);
    if exists i :: 0 <= i < |rows| && rows[i].taskName == k {
      var i :| 0 <= i < |rows| && rows[i].taskName == k;
      assert kvs[i].0 == k;
    }
  }

  /** The checklist rows as (task, value) pairs, in the same order. */
  function Pairs(rows: seq<StateRow>): (kvs: seq<(string, bool)>)
    ensures |kvs| == |rows|
    ensures forall i :: 0 <= i < |rows| ==> kvs[i] == (rows[i].taskName, rows[i].value)
  {
    seq(|rows|, i requires 0 <= i < |rows| => (rows[i].taskName, rows[i].value))
  }

  /** The checklist query's rows, which are the table rows of one date. */
  function OnDate(rows: seq<TaskRow>): (r: seq<StateRow>)
    ensures |r| == |rows|
    ensures forall i :: 0 <= i < |rows| ==> r[i] == StateRow(rows[i].taskName, rows[i].value)
  {
    seq(|rows|, i requires 0 <= i < |rows| => StateRow(rows[i].taskName, rows[i].value))
  }

  /** The checklist and the summary table bucket the same way: fed the same
      rows of one date, the checklist's state for a task is the table's cell
      for that date and task. */
  lemma {:induction false} StatesMatchTable(rows: seq<TaskRow>, d: int, k: string)
    requires forall i :: 0 <= i < |rows| ==> rows[i].date == d
    ensures Lookup(Bucket(rows), d, k)
            == (if k in States(OnDate(rows)) then Some(States(OnDate(rows))[k]) else None)
    decreases |rows|
  {
    var n := |rows|;
    if n > 0 {
      var prefix := rows[..n - 1];
      var last := rows[n - 1];
      StatesMatchTable(prefix, d, k);
      var pairs := Pairs(OnDate(prefix));
      assert Pairs(OnDate(rows)) == pairs + [(last.taskName, last.value)];
      LastWinsSnoc(pairs, (last.taskName, last.value));
      assert rows == prefix + [last];
      BucketSnoc(prefix, last);
    }
  }
}
