/** The task table: an empty-state message, or the tasks ordered by start date. */
module TaskList {
  import opened Types
  import opened Seqs

  /**
   * The comparator's order: earlier start dates first. A blank start date has no time value
   * in the source, where the order it gets is left to the engine; here it sorts first.
   */
  predicate StartsNoLater(a: Task, b: Task)
  {
    a.startDate.None? || (b.startDate.Some? && a.startDate.value <= b.startDate.value)
  }

  predicate SortedByStart(s: seq<Task>)
  {
    forall i, j :: 0 <= i < j < |s| ==> StartsNoLater(s[i], s[j])
  }

  /** The tasks starting on a given date (or with a blank one), in their order. */
  function StartingOn(s: seq<Task>, date: Option<Day>): seq<Task>
  {
    Filter((t: Task) => t.startDate == date, s)
  }

  /** Puts `t` before the first task that does not start earlier than it. */
  function Insert(t: Task, s: seq<Task>): (r: seq<Task>)
    ensures multiset(r) == multiset(s) + multiset{t}
    ensures SortedByStart(s) ==> SortedByStart(r)
  {
    if |s| == 0 then [t]
    else if StartsNoLater(t, s[0]) then
      assert SortedByStart(s) ==> SortedByStart([t] + s) by {
        if SortedByStart(s) {
          forall j | 0 < j < |s| + 1 ensures StartsNoLater(t, ([t] + s)[j]) {
            assert StartsNoLater(s[0], s[j - 1]) || j == 1;
          }
        }
      }
      [t] + s
    else
      var rest := Insert(t, s[1..]);
      assert s == [s[0]] + s[1..];
      assert SortedByStart(s) ==> SortedByStart([s[0]] + rest) by {
        if SortedByStart(s) {
          assert SortedByStart(s[1..]);
          forall j | 0 <= j < |rest| ensures StartsNoLater(s[0], rest[j]) {
            assert rest[j] in multiset(rest);
            assert rest[j] == t || rest[j] in s[1..];
          }
        }
      }
      [s[0]] + rest
  }

  lemma StartingOnConcat(a: seq<Task>, b: seq<Task>, date: Option<Day>)
    ensures StartingOn(a + b, date) == StartingOn(a, date) + StartingOn(b, date)
  {
    FilterConcat((t: Task) => t.startDate == date, a, b);
  }

  lemma StartingOnSingle(x: Task, date: Option<Day>)
    ensures StartingOn([x], date) == if x.startDate == date then [x] else []
  {
    assert [x][1..] == [];
  }

  /** Inserting keeps `t` ahead of the tasks that start on its date: it does not reorder them. */
  lemma {:induction false} InsertIsStable(t: Task, s: seq<Task>, date: Option<Day>)
    ensures StartingOn(Insert(t, s), date) == StartingOn([t] + s, date)
  {
    if |s| > 0 && !StartsNoLater(t, s[0]) {
      var a, rest := s[0], s[1..];
      var inserted := Insert(t, rest);
      assert [t] + s == [t] + [a] + rest by { assert s == [a] + rest; }
      calc {
        StartingOn(Insert(t, s), date);
        { InsertPastEarlier(t, s); }
        StartingOn([a] + inserted, date);
        { StartingOnConcat([a], inserted, date); }
        StartingOn([a], date) + StartingOn(inserted, date);
        { InsertIsStable(t, rest, date); }
        StartingOn([a], date) + StartingOn([t] + rest, date);
        { StartingOnConcat([t], rest, date); }
        StartingOn([a], date) + (StartingOn([t], date) + StartingOn(rest, date));
        { SwapDifferentDates(t, a, rest, date); }
        StartingOn([t] + [a] + rest, date);
      }
    }
  }

  lemma InsertPastEarlier(t: Task, s: seq<Task>)
    requires |s| > 0 && !StartsNoLater(t, s[0])
    ensures Insert(t, s) == [s[0]] + Insert(t, s[1..])
  {
  }

  /** Two tasks with different start dates never both start on `date`. */
  lemma SwapDifferentDates(t: Task, a: Task, rest: seq<Task>, date: Option<Day>)
    requires a.startDate != t.startDate
    ensures StartingOn([a], date) + (StartingOn([t], date) + StartingOn(rest, date))
         == StartingOn([t] + [a] + rest, date)
  {
    StartingOnSingle(a, date);
    StartingOnSingle(t, date);
    StartingOnConcat([t] + [a], rest, date);
    StartingOnConcat([t], [a], date);
    var r := StartingOn(rest, date);
    if t.startDate == date {
      assert [] + ([t] + r) == [t] + r;
      assert ([t] + []) + r == [t] + r;
    } else if a.startDate == date {
      assert [a] + ([] + r) == [a] + r;
      assert ([] + [a]) + r == [a] + r;
    } else {
      assert [] + ([] + r) == r;
      assert ([] + []) + r == r;
    }
  }

  /** `[...tasks].sort(...)`: a stable insertion sort by start date. */
  function SortByStart(s: seq<Task>): (r: seq<Task>)
    ensures multiset(r) == multiset(s)
    ensures SortedByStart(r)
  {
    if |s| == 0 then []
    else
      assert s == [s[0]] + s[1..];
      Insert(s[0], SortByStart(s[1..]))
  }

  /** The sort is stable: tasks sharing a start date keep their relative order. */
  lemma {:induction false} SortIsStable(s: seq<Task>, date: Option<Day>)
    ensures StartingOn(SortByStart(s), date) == StartingOn(s, date)
  {
    if |s| > 0 {
      SortIsStable(s[1..], date);
      InsertIsStable(s[0], SortByStart(s[1..]), date);
      StartingOnConcat([s[0]], SortByStart(s[1..]), date);
      StartingOnConcat([s[0]], s[1..], date);
      assert s == [s[0]] + s[1..];
    }
  }

  /** What the table shows. */
  datatype ListView = EmptyState | Rows(rows: seq<Task>)

  /**
   * `TaskList`: the empty-state message for no tasks; otherwise one row per task, the rows
   * a permutation of the tasks in non-decreasing start-date order.
   */
  function Render(tasks: seq<Task>): (v: ListView)
    ensures v.EmptyState? <==> |tasks| == 0
    ensures v.Rows? ==> multiset(v.rows) == multiset(tasks) && SortedByStart(v.rows)
  {
    if |tasks| == 0 then EmptyState else Rows(SortByStart(tasks))
  }
}
