/**
  The task store of the to-do app: the ordered task list together with the
  session's filter and search query, and the four mutators that change the
  list (add, delete, toggle, clear completed) plus the two handlers that set
  the filter and the query. The page's module-level variables become one
  immutable `State`; every mutator is a function from state to state.
 */
module Store {
  import opened Text
  import opened Seqs

  datatype Priority = High | Medium | Low

  datatype Task = Task(id: int, text: string, priority: Priority, completed: bool)

  /** The three filter buttons: all tasks, high priority only, completed only. */
  datatype Filter = All | HighOnly | CompletedOnly

  datatype State = State(tasks: seq<Task>, filter: Filter, query: string)

  /** The tasks the page starts with, unfiltered and with an empty search. */
  function Initial(): State {
    State([Task(1, "Learn JavaScript Functions", High, true),
           Task(2, "Learn Array Methods", High, false),
           Task(3, "Learn DOM Manipulation", Medium, false)],
          All, "")
  }

  predicate UniqueIds(ts: seq<Task>) {
    forall i, j :: 0 <= i < j < |ts| ==> ts[i].id != ts[j].id
  }

  predicate IdFree(ts: seq<Task>, id: int) {
    forall i :: 0 <= i < |ts| ==> ts[i].id != id
  }

  /** Every task's text is non-empty and already trimmed. */
  predicate TextsTrimmed(ts: seq<Task>) {
    forall i :: 0 <= i < |ts| ==> ts[i].text != [] && Trim(ts[i].text) == ts[i].text
  }

  /** The store invariant: ids are unique and texts are trimmed and non-empty. */
  predicate WellFormed(st: State) {
    UniqueIds(st.tasks) && TextsTrimmed(st.tasks)
  }

  /** `addTask`: the input is trimmed; empty input is ignored, otherwise a new
      incomplete task with the next id is appended. The id source (a clock) is
      outside the model, so the id is a parameter. */
  function AddTask(st: State, input: string, priority: Priority, id: int): (r: State)
    ensures r.filter == st.filter && r.query == st.query
    ensures AllSpace(input) ==> r.tasks == st.tasks
    ensures !AllSpace(input) ==>
              && |r.tasks| == |st.tasks| + 1
              && r.tasks[..|st.tasks|] == st.tasks
              && r.tasks[|st.tasks|].id == id
              && r.tasks[|st.tasks|].priority == priority
              && !r.tasks[|st.tasks|].completed
              && IsTrimOf(r.tasks[|st.tasks|].text, input)
              && r.tasks[|st.tasks|].text != []
  {
    var text := Trim(input);
    if text == [] then st
    else st.(tasks := st.tasks + [Task(id, text, priority, false)])
  }

  function HasOtherId(id: int): Task -> bool {
    (t: Task) => t.id != id
  }

  /** `deleteTask`: keeps the tasks whose id differs from `id`. */
  function DeleteTask(st: State, id: int): (r: State)
    ensures r.filter == st.filter && r.query == st.query
    ensures IdFree(r.tasks, id)
    ensures IsSubsequence(r.tasks, st.tasks)
  {
    KeepIsSubsequence(st.tasks, HasOtherId(id));
    st.(tasks := Keep(st.tasks, HasOtherId(id)))
  }

  /** A copy of `t` with `completed` flipped when its id is `id`. */
  function Toggled(t: Task, id: int): Task {
    if t.id == id then t.(completed := !t.completed) else t
  }

  function ToggleOf(id: int): Task -> Task {
    (t: Task) => Toggled(t, id)
  }

  /** `toggleTask`: flips `completed` on every task carrying `id`. */
  function ToggleTask(st: State, id: int): (r: State)
    ensures r.filter == st.filter && r.query == st.query
    ensures |r.tasks| == |st.tasks|
    ensures forall i :: 0 <= i < |st.tasks| ==>
              && r.tasks[i].id == st.tasks[i].id
              && r.tasks[i].text == st.tasks[i].text
              && r.tasks[i].priority == st.tasks[i].priority
              && (r.tasks[i].completed <==> (st.tasks[i].completed != (st.tasks[i].id == id)))
  {
    st.(tasks := Map(st.tasks, ToggleOf(id)))
  }

  /** A completed task: what the completed filter shows and what
      clear-completed removes. */
  predicate IsDone(t: Task) {
    t.completed
  }

  /** A high-priority task: what the high filter shows and what the high
      counter counts. */
  predicate IsHigh(t: Task) {
    t.priority == High
  }

  /** `clearCompleted`: keeps the tasks that are not completed. */
  function ClearCompleted(st: State): (r: State)
    ensures r.filter == st.filter && r.query == st.query
    ensures forall i :: 0 <= i < |r.tasks| ==> !r.tasks[i].completed
    ensures IsSubsequence(r.tasks, st.tasks)
  {
    KeepIsSubsequence(st.tasks, Not(IsDone));
    st.(tasks := Keep(st.tasks, Not(IsDone)))
  }

  /** Clicking a filter button selects that filter. */
  function SetFilter(st: State, f: Filter): (r: State)
    ensures r.tasks == st.tasks && r.query == st.query && r.filter == f
  {
    st.(filter := f)
  }

  /** Typing in the search box replaces the query. */
  function SetSearch(st: State, q: string): (r: State)
    ensures r.tasks == st.tasks && r.filter == st.filter && r.query == q
  {
    st.(query := q)
  }

  // ---------------------------------------------------------------------
  // Add

  /** Add is rejected (the store is left as it was) exactly when the input is
      empty or white space only. */
  lemma AddRejectsIff(st: State, input: string, priority: Priority, id: int)
    ensures AddTask(st, input, priority, id) == st <==> AllSpace(input)
  {
    if !AllSpace(input) {
      assert |AddTask(st, input, priority, id).tasks| != |st.tasks|;
    }
  }

  /** Deleting the id of a freshly added task undoes the add. */
  lemma AddThenDelete(st: State, input: string, priority: Priority, id: int)
    requires IdFree(st.tasks, id)
    ensures DeleteTask(AddTask(st, input, priority, id), id) == st
  {
    KeepAllPass(st.tasks, HasOtherId(id));
    if !AllSpace(input) {
      var ts := AddTask(st, input, priority, id).tasks;
      assert ts[..|ts| - 1] == st.tasks;
    }
  }

  lemma AddPreservesWellFormed(st: State, input: string, priority: Priority, id: int)
    requires WellFormed(st) && IdFree(st.tasks, id)
    ensures WellFormed(AddTask(st, input, priority, id))
  {
    if !AllSpace(input) {
      var n := |st.tasks|;
      var ts := st.tasks + [Task(id, Trim(input), priority, false)];
      assert AddTask(st, input, priority, id).tasks == ts;
      forall i, j | 0 <= i < j < |ts|
        ensures ts[i].id != ts[j].id
      {
        assert ts[i] == st.tasks[i];
        if j < n {
          assert ts[j] == st.tasks[j];
        }
      }
      forall i | 0 <= i < |ts|
        ensures ts[i].text != [] && Trim(ts[i].text) == ts[i].text
      {
        if i < n {
          assert ts[i] == st.tasks[i];
        } else {
          TrimIdempotent(input);
        }
      }
    }
  }

  // ---------------------------------------------------------------------
  // Delete

  /** Delete keeps exactly the tasks with another id, in their order. */
  lemma DeleteSelects(st: State, id: int)
    ensures SelectedBy(DeleteTask(st, id).tasks, st.tasks, HasOtherId(id))
  {
    KeepSelects(st.tasks, HasOtherId(id));
  }

  /** Deleting an id no task carries is a no-op. */
  lemma DeleteAbsent(st: State, id: int)
    requires IdFree(st.tasks, id)
    ensures DeleteTask(st, id) == st
  {
    KeepAllPass(st.tasks, HasOtherId(id));
  }

  lemma DeleteIdempotent(st: State, id: int)
    ensures DeleteTask(DeleteTask(st, id), id) == DeleteTask(st, id)
  {
    KeepIdempotent(st.tasks, HasOtherId(id));
  }

  /** A subsequence of a list with unique ids has unique ids. */
  lemma KeepUniqueIds(ts: seq<Task>, p: Task -> bool)
    requires UniqueIds(ts)
    ensures UniqueIds(Keep(ts, p))
  {
    KeepEmbedding(ts, p);
  }

  /** A subsequence of a list with trimmed texts has trimmed texts. */
  lemma KeepTextsTrimmed(ts: seq<Task>, p: Task -> bool)
    requires TextsTrimmed(ts)
    ensures TextsTrimmed(Keep(ts, p))
  {
    KeepEmbedding(ts, p);
  }

  /** With unique ids, deleting a present id removes exactly one task. */
  lemma DeleteCount(st: State, id: int)
    requires UniqueIds(st.tasks)
    ensures |DeleteTask(st, id).tasks| == |st.tasks| - (if IdFree(st.tasks, id) then 0 else 1)
  {
    var ts := st.tasks;
    if IdFree(ts, id) {
      KeepAllPass(ts, HasOtherId(id));
    } else {
      var j :| 0 <= j < |ts| && ts[j].id == id;
      KeepPartition(ts, HasOtherId(id));
      KeepCount(ts, Not(HasOtherId(id)));
      assert Positions(ts, Not(HasOtherId(id))) == {j};
    }
  }

  lemma DeletePreservesWellFormed(st: State, id: int)
    requires WellFormed(st)
    ensures WellFormed(DeleteTask(st, id))
  {
    KeepUniqueIds(st.tasks, HasOtherId(id));
    KeepTextsTrimmed(st.tasks, HasOtherId(id));
  }

  // ---------------------------------------------------------------------
  // Toggle

  /** Toggling the same id twice restores the store. */
  lemma ToggleTwice(st: State, id: int)
    ensures ToggleTask(ToggleTask(st, id), id) == st
  {
    var ts := ToggleTask(ToggleTask(st, id), id).tasks;
    assert forall i :: 0 <= i < |st.tasks| ==> ts[i] == st.tasks[i];
  }

  /** Toggling an id no task carries is a no-op. */
  lemma ToggleAbsent(st: State, id: int)
    requires IdFree(st.tasks, id)
    ensures ToggleTask(st, id) == st
  {
    MapIdentity(st.tasks, ToggleOf(id));
  }

  /** Toggle touches only the tasks carrying `id`: once those are deleted,
      toggled and untoggled stores agree. */
  lemma ToggleOnlyMatches(st: State, id: int)
    ensures DeleteTask(ToggleTask(st, id), id) == DeleteTask(st, id)
  {
    KeepMapCommute(st.tasks, ToggleOf(id), HasOtherId(id));
    var kept := Keep(st.tasks, HasOtherId(id));
    MapIdentity(kept, ToggleOf(id));
  }

  lemma TogglePreservesWellFormed(st: State, id: int)
    requires WellFormed(st)
    ensures WellFormed(ToggleTask(st, id))
  {
  }

  // ---------------------------------------------------------------------
  // Clear completed

  /** Clear-completed keeps exactly the open tasks, in their order. */
  lemma ClearSelects(st: State)
    ensures SelectedBy(ClearCompleted(st).tasks, st.tasks, Not(IsDone))
  {
    KeepSelects(st.tasks, Not(IsDone));
  }

  lemma ClearIdempotent(st: State)
    ensures ClearCompleted(ClearCompleted(st)) == ClearCompleted(st)
  {
    KeepIdempotent(st.tasks, Not(IsDone));
  }

  /** Clearing removes as many tasks as were completed. */
  lemma ClearCount(st: State)
    ensures |ClearCompleted(st).tasks| == |st.tasks| - |Positions(st.tasks, IsDone)|
  {
    KeepPartition(st.tasks, IsDone);
    KeepCount(st.tasks, IsDone);
  }

  lemma ClearPreservesWellFormed(st: State)
    requires WellFormed(st)
    ensures WellFormed(ClearCompleted(st))
  {
    KeepUniqueIds(st.tasks, Not(IsDone));
    KeepTextsTrimmed(st.tasks, Not(IsDone));
  }

  /** Texts that are non-empty and neither start nor end with white space are
      trimmed. */
  lemma EdgesTrimmed(ts: seq<Task>)
    requires forall i :: 0 <= i < |ts| ==>
               ts[i].text != [] && !IsSpace(ts[i].text[0]) && !IsSpace(ts[i].text[|ts[i].text| - 1])
    ensures TextsTrimmed(ts)
  {
    forall i | 0 <= i < |ts|
      ensures Trim(ts[i].text) == ts[i].text
    {
      TrimKeepsTrimmed(ts[i].text);
    }
  }

  lemma InitialWellFormed()
    ensures WellFormed(Initial())
  {
    var ts := Initial().tasks;
    assert UniqueIds(ts);
    EdgesTrimmed(ts);
    assert TextsTrimmed(ts);
  }
}
