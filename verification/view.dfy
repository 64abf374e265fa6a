/**
  What `renderTasks` and `updateStats` put on the page, minus the markup: the
  rows (the visible tasks), the placeholder text shown when no row is
  visible, and the two counters, which always describe the whole store.
 */
module View {
  import opened Seqs
  import opened Store
  import opened Selector

  datatype Option<T> = None | Some(value: T)

  /** The two counters: all tasks, and high-priority tasks. */
  datatype Counters = Counters(total: nat, high: nat)

  /** One rendering of the list: rows, optional placeholder, counters. */
  datatype Page = Page(rows: seq<Task>, placeholder: Option<string>, counters: Counters)

  const NoTasksYet: string := "No tasks yet \U{2014} add one above!"
  const NoMatches: string := "No matching tasks."

  /** `updateStats`: counts over the whole store, whatever the filter and
      query. */
  function UpdateStats(st: State): (c: Counters)
    ensures c.total == |st.tasks|
    ensures c.high == |Positions(st.tasks, IsHigh)|
    ensures c.high <= c.total
    ensures |VisibleTasks(st)| <= c.total
    ensures st.filter == HighOnly ==> |VisibleTasks(st)| <= c.high
  {
    KeepCount(st.tasks, IsHigh);
    KeepCongruent(st.tasks, ByFilter(HighOnly), IsHigh);
    Counters(|st.tasks|, |Keep(st.tasks, IsHigh)|)
  }

  /** The placeholder of `renderTasks`: none while some task is visible;
      the invitation to add a task when neither filter nor search is active;
      otherwise the no-match notice. */
  function EmptyMessage(st: State): (m: Option<string>)
    ensures m.None? <==> VisibleTasks(st) != []
    ensures m == Some(NoTasksYet) <==> st.tasks == [] && st.filter == All && st.query == []
    ensures m == Some(NoMatches) <==> VisibleTasks(st) == [] && (st.filter != All || st.query != [])
  {
    if |VisibleTasks(st)| != 0 then None
    else if st.filter == All && st.query == [] then
      VisibleUnfiltered(st);
      Some(NoTasksYet)
    else Some(NoMatches)
  }

  /** `renderTasks`: one row per visible task, in store order, or else one of
      the two placeholder texts; then the counters. */
  function Render(st: State): (p: Page)
    ensures SelectedBy(p.rows, st.tasks, ShownIn(st))
    ensures p.rows == [] <==> p.placeholder.Some?
    ensures p.placeholder.Some? ==> p.placeholder.value == NoTasksYet || p.placeholder.value == NoMatches
    ensures p.placeholder == Some(NoTasksYet) <==> st.tasks == [] && st.filter == All && st.query == []
    ensures p.placeholder == Some(NoMatches) <==> p.rows == [] && (st.filter != All || st.query != [])
    ensures p.counters.total == |st.tasks|
    ensures p.counters.high == |Positions(st.tasks, IsHigh)|
  {
    VisibleSelects(st);
    Page(VisibleTasks(st), EmptyMessage(st), UpdateStats(st))
  }

  /** The counters ignore the filter and the query. */
  lemma StatsIgnoreView(st: State, f: Filter, q: string)
    ensures UpdateStats(SetSearch(SetFilter(st, f), q)) == UpdateStats(st)
  {
  }

  /** Toggling changes neither counter. */
  lemma ToggleKeepsStats(st: State, id: int)
    ensures UpdateStats(ToggleTask(st, id)) == UpdateStats(st)
  {
    KeepMapCommute(st.tasks, ToggleOf(id), IsHigh);
  }

  /** After clear-completed, the completed filter shows nothing, and the
      placeholder is the no-match notice. */
  lemma ClearThenCompletedView(st: State)
    ensures var st' := SetFilter(ClearCompleted(st), CompletedOnly);
            VisibleTasks(st') == [] && EmptyMessage(st') == Some(NoMatches)
  {
    KeepNonePass(ClearCompleted(st).tasks, ByFilter(CompletedOnly));
  }
}
