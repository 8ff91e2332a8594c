/** The trailing window of dates the daily-tasks summary shows, with dates
    as integer day numbers (one more is the next calendar day). */
module DateWindow {

  /** The summary shows the last seven days. */
  const WindowSize: nat := 7

  /** `n` consecutive days counting back from `today`, today first. */
  function Window(today: int, n: nat): (r: seq<int>)
    ensures |r| == n
    ensures forall i :: 0 <= i < n ==> r[i] == today - i
    decreases n
  {
    if n == 0 then [] else [today] + Window(today - 1, n - 1)
  }

  /** The lower bound of the table query: today moved back six days, the
      `fromStr` passed to `.gte('date', ...)`. */
  function QueryLowerBound(today: int): (r: int) {
    today - 6
  }

  /** The loop of `fetchTable` that pushes today minus `i` days for `i` from
      0 to 6. */
  method BuildWindow(today: int) returns (dates: seq<int>)
    ensures dates == Window(today, WindowSize)
  {
    dates := [];
    var i := 0;
    while i < 7
      invariant 0 <= i <= 7
      invariant |dates| == i
      invariant forall k :: 0 <= k < i ==> dates[k] == today - k
    {
      dates := dates + [today - i];
      i := i + 1;
    }
  }

  /** The window starts at today, descends by exactly one day per step, holds
      no date twice, and ends at the query's lower bound. */
  lemma WindowShape(today: int)
    ensures Window(today, WindowSize)[0] == today
    ensures forall i :: 0 <= i < WindowSize - 1 ==>
      Window(today, WindowSize)[i + 1] == Window(today, WindowSize)[i] - 1
    ensures forall i, j :: 0 <= i < j < WindowSize ==>
      Window(today, WindowSize)[i] > Window(today, WindowSize)[j]
    ensures Window(today, WindowSize)[WindowSize - 1] == QueryLowerBound(today)
  {
  }

  /** A date is in the window exactly when the table query's lower bound
      admits it and it is not after today. */
  lemma {:induction false} WindowMembership(today: int, d: int)
    ensures d in Window(today, WindowSize) <==> QueryLowerBound(today) <= d <= today
  {
    var w := Window(today, WindowSize);
    if QueryLowerBound(today) <= d <= today {
      assert w[today - d] == d;
    }
  }
}
