/**
  `getVisibleTasks`: the tasks shown for the current filter and search query.
  The store is filtered by the filter button's predicate, then by a
  case-insensitive substring search on the task text; order is kept.
 */
module Selector {
  import opened Text
  import opened Seqs
  import opened Store

  /** The filter button's predicate; `All` lets every task through. */
  predicate FilterPass(f: Filter, t: Task) {
    match f
    case HighOnly => IsHigh(t)
    case CompletedOnly => IsDone(t)
    case All => true
  }

  /** The search predicate: an empty query lets every task through; otherwise
      the lower-cased text must contain the lower-cased query. */
  predicate SearchPass(q: string, t: Task) {
    if q == [] then true else Contains(Lower(t.text), Lower(q))
  }

  function ByFilter(f: Filter): Task -> bool {
    (t: Task) => FilterPass(f, t)
  }

  function BySearch(q: string): Task -> bool {
    (t: Task) => SearchPass(q, t)
  }

  /** A task is shown when it passes both the filter and the search. */
  predicate Shown(st: State, t: Task) {
    FilterPass(st.filter, t) && SearchPass(st.query, t)
  }

  function ShownIn(st: State): Task -> bool {
    (t: Task) => Shown(st, t)
  }

  /** `getVisibleTasks`. */
  function VisibleTasks(st: State): (v: seq<Task>)
    ensures |v| <= |st.tasks|
    ensures forall k :: 0 <= k < |v| ==> FilterPass(st.filter, v[k]) && SearchPass(st.query, v[k])
  {
    var ks := Keep(st.tasks, ByFilter(st.filter));
    KeepFrom(ks, BySearch(st.query));
    Keep(ks, BySearch(st.query))
  }

  /** The two filter passes amount to one pass with the combined predicate. */
  lemma VisibleIsOneFilter(st: State)
    ensures VisibleTasks(st) == Keep(st.tasks, ShownIn(st))
  {
    KeepKeep(st.tasks, ByFilter(st.filter), BySearch(st.query));
    KeepCongruent(st.tasks, Both(ByFilter(st.filter), BySearch(st.query)), ShownIn(st));
  }

  /** The visible list is the subsequence of the store at exactly the
      positions of the tasks that pass filter and search, in store order. */
  lemma VisibleSelects(st: State)
    ensures SelectedBy(VisibleTasks(st), st.tasks, ShownIn(st))
    ensures IsSubsequence(VisibleTasks(st), st.tasks)
  {
    VisibleIsOneFilter(st);
    KeepSelects(st.tasks, ShownIn(st));
    KeepIsSubsequence(st.tasks, ShownIn(st));
  }

  /** A task is visible exactly when it is in the store and passes filter and
      search. */
  lemma VisibleMembers(st: State, t: Task)
    ensures t in VisibleTasks(st) <==> t in st.tasks && Shown(st, t)
  {
    VisibleIsOneFilter(st);
    KeepEmbedding(st.tasks, ShownIn(st));
    var v := VisibleTasks(st);
    var idx := KeepIndices(st.tasks, ShownIn(st));
    if t in st.tasks && Shown(st, t) {
      var i :| 0 <= i < |st.tasks| && st.tasks[i] == t;
      assert i in idx;
      var k :| 0 <= k < |idx| && idx[k] == i;
      assert v[k] == t;
    }
  }

  /** With no filter and no query the whole store is visible. */
  lemma VisibleUnfiltered(st: State)
    requires st.filter == All && st.query == []
    ensures VisibleTasks(st) == st.tasks
  {
    KeepAllPass(st.tasks, ByFilter(st.filter));
    KeepAllPass(st.tasks, BySearch(st.query));
  }

  /** The search predicate is the substring relation on lower-cased strings;
      the empty query needs no special case since it occurs everywhere. */
  lemma SearchPassMeans(q: string, t: Task)
    ensures SearchPass(q, t) <==> Occurs(Lower(q), Lower(t.text))
  {
    ContainsIffOccurs(Lower(t.text), Lower(q));
  }

  /** Search ignores the letter case of the query. */
  lemma SearchIgnoresCase(st: State)
    ensures VisibleTasks(st.(query := Lower(st.query))) == VisibleTasks(st)
  {
    LowerIdempotent(st.query);
    var ks := Keep(st.tasks, ByFilter(st.filter));
    KeepCongruent(ks, BySearch(Lower(st.query)), BySearch(st.query));
  }

  /** Narrowing the filter never shows more tasks than `All` with the same
      query. */
  lemma FilterNarrows(st: State, f: Filter)
    ensures IsSubsequence(VisibleTasks(st.(filter := f)), VisibleTasks(st.(filter := All)))
  {
    var v := VisibleTasks(st.(filter := All));
    KeepAllPass(st.tasks, ByFilter(All));
    KeepKeep(st.tasks, BySearch(st.query), ByFilter(f));
    KeepKeep(st.tasks, ByFilter(f), BySearch(st.query));
    KeepCongruent(st.tasks, Both(BySearch(st.query), ByFilter(f)), Both(ByFilter(f), BySearch(st.query)));
    KeepIsSubsequence(v, ByFilter(f));
  }

  /** A query whose first letter is absent from a text does not occur in it. */
  lemma FirstLetterAbsent(s: string, q: string)
    requires q != [] && q[0] !in s
    ensures !Contains(s, q)
  {
    ContainsIffOccurs(s, q);
    assert forall i :: 0 <= i <= |s| - |q| ==> s[i..i + |q|][0] == s[i];
  }

  /** Filtering the three starting tasks, one at a time. */
  lemma KeepInitial(p: Task -> bool)
    ensures var ts := Initial().tasks;
            Keep(ts, p) == (if p(ts[0]) then [ts[0]] else [])
                           + (if p(ts[1]) then [ts[1]] else [])
                           + (if p(ts[2]) then [ts[2]] else [])
  {
    var ts := Initial().tasks;
    KeepSnoc([], ts[0], p);
    KeepSnoc([ts[0]], ts[1], p);
    KeepSnoc([ts[0], ts[1]], ts[2], p);
    assert [ts[0]] == [] + [ts[0]];
    assert [ts[0], ts[1]] == [ts[0]] + [ts[1]];
    assert ts == [ts[0], ts[1]] + [ts[2]];
  }

  /** The starting store under the completed filter shows its one completed
      task. */
  lemma InitialCompletedView()
    ensures VisibleTasks(SetFilter(Initial(), CompletedOnly)) == [Initial().tasks[0]]
  {
    var ts := Initial().tasks;
    var p := ByFilter(CompletedOnly);
    assert p(ts[0]) && !p(ts[1]) && !p(ts[2]);
    KeepInitial(p);
    var ks := Keep(ts, p);
    assert ks == [ts[0]];
    KeepAllPass(ks, BySearch(""));
  }

  /** The starting store under the high filter shows its two high-priority
      tasks. */
  lemma InitialHighView()
    ensures VisibleTasks(SetFilter(Initial(), HighOnly)) == Initial().tasks[..2]
  {
    var ts := Initial().tasks;
    var p := ByFilter(HighOnly);
    assert p(ts[0]) && p(ts[1]) && !p(ts[2]);
    KeepInitial(p);
    var ks := Keep(ts, p);
    assert ks == [ts[0], ts[1]];
    KeepAllPass(ks, BySearch(""));
    assert ts[..2] == [ts[0], ts[1]];
  }

  /** A query passes on a task whose text has a middle part equal to the
      query up to letter case. */
  lemma SearchFindsInfix(q: string, t: Task, a: string, b: string, c: string)
    requires t.text == a + b + c && Lower(b) == Lower(q)
    ensures SearchPass(q, t)
  {
    LowerAppend(a + b, c);
    LowerAppend(a, b);
    var l := Lower(t.text);
    assert l[|a|..|a| + |b|] == Lower(q);
    assert OccursAt(Lower(q), l, |a|);
    ContainsIffOccurs(l, Lower(q));
  }

  /** The word "java" occurs in the first starting task's lower-cased text. */
  lemma JavaInFirst()
    ensures SearchPass("JAVA", Initial().tasks[0])
  {
    var a, b, c := "Learn ", "Java", "Script Functions";
    assert Lower(b) == Lower("JAVA") by {
      assert Lower(b)[0] == 'j' && Lower("JAVA")[0] == 'j';
    }
    assert a + b + c == "Learn JavaScript Functions";
    SearchFindsInfix("JAVA", Initial().tasks[0], a, b, c);
  }

  /** A non-empty query fails on a task whose text lacks the query's first
      letter in both cases. */
  lemma SearchMissesLetter(q: string, t: Task, c: char)
    requires q != [] && 'a' <= c <= 'z' && Lower(q)[0] == c
    requires c !in t.text && (c as int - 32) as char !in t.text
    ensures !SearchPass(q, t)
  {
    LowerAvoids(t.text, c);
    FirstLetterAbsent(Lower(t.text), Lower(q));
  }

  /** The second starting text contains no "j" at all. */
  lemma JavaNotInSecond()
    ensures !SearchPass("JAVA", Initial().tasks[1])
  {
    var s := "Learn Array Methods";
    assert 'j' !in s && 'J' !in s;
    SearchMissesLetter("JAVA", Task(2, s, High, false), 'j');
  }

  /** The third starting text contains no "j" at all. */
  lemma JavaNotInThird()
    ensures !SearchPass("JAVA", Initial().tasks[2])
  {
    var s := "Learn DOM Manipulation";
    assert 'j' !in s && 'J' !in s;
    SearchMissesLetter("JAVA", Task(3, s, Medium, false), 'j');
  }

  /** An upper-case search finds the one starting task whose text holds the
      word in mixed case. */
  lemma InitialSearchView()
    ensures VisibleTasks(SetSearch(Initial(), "JAVA")) == [Initial().tasks[0]]
  {
    var ts := Initial().tasks;
    var p := BySearch("JAVA");
    var st := SetSearch(Initial(), "JAVA");
    assert st.tasks == ts && st.filter == All && st.query == "JAVA";
    KeepAllPass(ts, ByFilter(All));
    assert VisibleTasks(st) == Keep(ts, p);
    JavaInFirst();
    JavaNotInSecond();
    JavaNotInThird();
    assert p(ts[0]) && !p(ts[1]) && !p(ts[2]);
    KeepInitial(p);
  }
}
