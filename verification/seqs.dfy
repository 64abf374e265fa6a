/**
  The two array operations the store is built from, `Array.prototype.filter`
  (here `Keep`) and `Array.prototype.map` (here `Map`), with the facts about
  them that the store relies on: a kept sequence is the subsequence of the
  input at exactly the positions that pass, in their original order.
 */
module Seqs {

  /** `s.filter(p)`: the elements of `s` that satisfy `p`, in order. */
  function Keep<T>(s: seq<T>, p: T -> bool): (r: seq<T>)
    ensures |r| <= |s|
    ensures forall k :: 0 <= k < |r| ==> p(r[k])
    decreases |s|
  {
    if |s| == 0 then []
    else Keep(s[..|s| - 1], p) + (if p(s[|s| - 1]) then [s[|s| - 1]] else [])
  }

  /** Filtering a sequence extended by one element. */
  lemma KeepSnoc<T>(s: seq<T>, x: T, p: T -> bool)
    ensures Keep(s + [x], p) == Keep(s, p) + (if p(x) then [x] else [])
  {
    assert (s + [x])[..|s|] == s;
  }

  /** `s.map(f)`. */
  function Map<T, U>(s: seq<T>, f: T -> U): (r: seq<U>)
    ensures |r| == |s|
    ensures forall i :: 0 <= i < |s| ==> r[i] == f(s[i])
  {
    seq(|s|, i requires 0 <= i < |s| => f(s[i]))
  }

  /** The conjunction of two element predicates. */
  function Both<T>(p: T -> bool, q: T -> bool): T -> bool {
    x => p(x) && q(x)
  }

  /** The negation of an element predicate. */
  function Not<T>(p: T -> bool): T -> bool {
    x => !p(x)
  }

  predicate Increasing(idx: seq<nat>) {
    forall k, l :: 0 <= k < l < |idx| ==> idx[k] < idx[l]
  }

  /** `idx` lists, in increasing order, positions of `b` whose elements
      spell out `a`. */
  ghost predicate Embedding<T>(idx: seq<nat>, a: seq<T>, b: seq<T>) {
    && |idx| == |a|
    && Increasing(idx)
    && forall k :: 0 <= k < |idx| ==> idx[k] < |b| && a[k] == b[idx[k]]
  }

  /** `a` can be obtained from `b` by deleting elements. */
  ghost predicate IsSubsequence<T>(a: seq<T>, b: seq<T>) {
    exists idx :: Embedding(idx, a, b)
  }

  /** Reference meaning of filtering: `v` is the subsequence of `s` taken at
      exactly the positions whose element satisfies `p`. */
  ghost predicate SelectedBy<T>(v: seq<T>, s: seq<T>, p: T -> bool) {
    exists idx :: Embedding(idx, v, s) && forall i :: 0 <= i < |s| ==> (i in idx <==> p(s[i]))
  }

  /** The positions of `s` that `Keep(s, p)` retains. */
  function KeepIndices<T>(s: seq<T>, p: T -> bool): (idx: seq<nat>)
    ensures |idx| == |Keep(s, p)|
    ensures Increasing(idx)
    ensures forall k :: 0 <= k < |idx| ==> idx[k] < |s|
    decreases |s|
  {
    if |s| == 0 then []
    else KeepIndices(s[..|s| - 1], p) + (if p(s[|s| - 1]) then [|s| - 1] else [])
  }

  lemma {:induction false} KeepEmbedding<T>(s: seq<T>, p: T -> bool)
    ensures Embedding(KeepIndices(s, p), Keep(s, p), s)
    ensures forall i :: 0 <= i < |s| ==> (i in KeepIndices(s, p) <==> p(s[i]))
    decreases |s|
  {
    if |s| > 0 {
      var s' := s[..|s| - 1];
      var x := s[|s| - 1];
      KeepEmbedding(s', p);
      var idx := KeepIndices(s, p);
      var idx' := KeepIndices(s', p);
      var tail: seq<nat> := if p(x) then [|s| - 1] else [];
      assert idx == idx' + tail;
      assert Keep(s, p) == Keep(s', p) + (if p(x) then [x] else []);
      assert forall i :: 0 <= i < |s'| ==> s[i] == s'[i];
      forall i | 0 <= i < |s|
        ensures i in idx <==> p(s[i])
      {
        if i < |s'| {
          assert i in idx <==> i in idx';
        }
      }
    }
  }

  /** Filtering selects exactly the passing positions, in order. */
  lemma KeepSelects<T>(s: seq<T>, p: T -> bool)
    ensures SelectedBy(Keep(s, p), s, p)
  {
    KeepEmbedding(s, p);
    assert Embedding(KeepIndices(s, p), Keep(s, p), s);
  }

  /** Every kept element comes from the input. */
  lemma KeepFrom<T>(s: seq<T>, p: T -> bool)
    ensures forall k :: 0 <= k < |Keep(s, p)| ==> Keep(s, p)[k] in s
  {
    KeepEmbedding(s, p);
  }

  lemma KeepIsSubsequence<T>(s: seq<T>, p: T -> bool)
    ensures IsSubsequence(Keep(s, p), s)
  {
    KeepEmbedding(s, p);
  }

  function Members(a: seq<nat>): set<nat> {
    set x | x in a
  }

  /** An increasing list has no repeated member. */
  lemma {:induction false} IncreasingCard(a: seq<nat>)
    requires Increasing(a)
    ensures |Members(a)| == |a|
    decreases |a|
  {
    if |a| > 0 {
      var a' := a[..|a| - 1];
      var last := a[|a| - 1];
      assert Increasing(a');
      IncreasingCard(a');
      assert forall k :: 0 <= k < |a'| ==> a'[k] < last;
      assert last !in Members(a');
      forall x | x in Members(a)
        ensures x in Members(a') + {last}
      {
        var k :| 0 <= k < |a| && a[k] == x;
        if k < |a'| {
          assert a'[k] == x;
        }
      }
      forall x | x in Members(a') + {last}
        ensures x in Members(a)
      {
        if x != last {
          var k :| 0 <= k < |a'| && a'[k] == x;
          assert a[k] == x;
        }
      }
      assert Members(a) == Members(a') + {last};
    }
  }

  /** Two increasing index lists with the same members are equal. */
  lemma {:induction false} IncreasingUnique(a: seq<nat>, b: seq<nat>)
    requires Increasing(a) && Increasing(b)
    requires forall x :: x in a <==> x in b
    ensures a == b
    decreases |a|
  {
    IncreasingCard(a);
    IncreasingCard(b);
    assert Members(a) == Members(b);
    if |a| > 0 {
      assert a[0] in b;
      assert |b| > 0;
      assert b[0] in a;
      assert a[0] == b[0];
      assert forall x :: x in a[1..] <==> x in a && x != a[0];
      assert forall x :: x in b[1..] <==> x in b && x != b[0];
      IncreasingUnique(a[1..], b[1..]);
      assert a == [a[0]] + a[1..];
      assert b == [b[0]] + b[1..];
    }
  }

  /** The reference meaning determines the filter's result: any sequence
      selected by `p` from `s` is `Keep(s, p)`. */
  lemma SelectedByUnique<T>(v: seq<T>, s: seq<T>, p: T -> bool)
    requires SelectedBy(v, s, p)
    ensures v == Keep(s, p)
  {
    var idx :| Embedding(idx, v, s) && forall i :: 0 <= i < |s| ==> (i in idx <==> p(s[i]));
    KeepEmbedding(s, p);
    var kdx := KeepIndices(s, p);
    IncreasingUnique(idx, kdx);
  }

  /** Filtering with a predicate every element passes changes nothing. */
  lemma {:induction false} KeepAllPass<T>(s: seq<T>, p: T -> bool)
    requires forall i :: 0 <= i < |s| ==> p(s[i])
    ensures Keep(s, p) == s
    decreases |s|
  {
    if |s| > 0 {
      KeepAllPass(s[..|s| - 1], p);
      assert s == s[..|s| - 1] + [s[|s| - 1]];
    }
  }

  /** Filtering with a predicate no element passes leaves nothing. */
  lemma {:induction false} KeepNonePass<T>(s: seq<T>, p: T -> bool)
    requires forall i :: 0 <= i < |s| ==> !p(s[i])
    ensures Keep(s, p) == []
    decreases |s|
  {
    if |s| > 0 {
      KeepNonePass(s[..|s| - 1], p);
    }
  }

  /** Filtering twice with the same predicate is filtering once. */
  lemma KeepIdempotent<T>(s: seq<T>, p: T -> bool)
    ensures Keep(Keep(s, p), p) == Keep(s, p)
  {
    KeepAllPass(Keep(s, p), p);
  }

  /** Predicates that agree on every element of `s` filter it alike. */
  lemma {:induction false} KeepCongruent<T>(s: seq<T>, p: T -> bool, q: T -> bool)
    requires forall i :: 0 <= i < |s| ==> p(s[i]) == q(s[i])
    ensures Keep(s, p) == Keep(s, q)
    decreases |s|
  {
    if |s| > 0 {
      KeepCongruent(s[..|s| - 1], p, q);
    }
  }

  /** Filtering by `p` and then by `q` is filtering by their conjunction. */
  lemma {:induction false} KeepKeep<T>(s: seq<T>, p: T -> bool, q: T -> bool)
    ensures Keep(Keep(s, p), q) == Keep(s, Both(p, q))
    decreases |s|
  {
    if |s| > 0 {
      var s' := s[..|s| - 1];
      var x := s[|s| - 1];
      KeepKeep(s', p, q);
      assert Both(p, q)(x) == (p(x) && q(x));
      var ks := Keep(s, p);
      if p(x) {
        assert ks[..|ks| - 1] == Keep(s', p);
        assert ks[|ks| - 1] == x;
      } else {
        assert ks == Keep(s', p);
      }
    }
  }

  /** The retained elements plus the discarded ones make up the whole. */
  lemma {:induction false} KeepPartition<T>(s: seq<T>, p: T -> bool)
    ensures |Keep(s, p)| + |Keep(s, Not(p))| == |s|
    decreases |s|
  {
    if |s| > 0 {
      KeepPartition(s[..|s| - 1], p);
    }
  }

  /** The positions of `s` whose element satisfies `p`. */
  function Positions<T>(s: seq<T>, p: T -> bool): set<nat> {
    set i: nat | i < |s| && p(s[i])
  }

  /** The length of a filtered sequence counts the passing positions. */
  lemma {:induction false} KeepCount<T>(s: seq<T>, p: T -> bool)
    ensures |Keep(s, p)| == |Positions(s, p)|
    decreases |s|
  {
    if |s| > 0 {
      var s' := s[..|s| - 1];
      KeepCount(s', p);
      var a := Positions(s', p);
      var b := Positions(s, p);
      var n := |s| - 1;
      forall i | i in a
        ensures i in b
      {
        assert s'[i] == s[i];
      }
      forall i | i in b && i != n
        ensures i in a
      {
        assert s'[i] == s[i];
      }
      if p(s[n]) {
        assert b == a + {n};
      } else {
        assert b == a;
      }
    }
  }

  /** Filtering commutes with a map that does not affect the predicate. */
  lemma {:induction false} KeepMapCommute<T>(s: seq<T>, f: T -> T, p: T -> bool)
    requires forall x :: p(f(x)) == p(x)
    ensures Keep(Map(s, f), p) == Map(Keep(s, p), f)
    decreases |s|
  {
    if |s| > 0 {
      var s' := s[..|s| - 1];
      KeepMapCommute(s', f, p);
      assert Map(s, f)[..|s| - 1] == Map(s', f);
      var ks := Keep(s, p);
      if p(s[|s| - 1]) {
        assert Map(ks, f) == Map(Keep(s', p), f) + [f(s[|s| - 1])];
      } else {
        assert ks == Keep(s', p);
      }
    }
  }

  /** A map that fixes every element changes nothing. */
  lemma MapIdentity<T>(s: seq<T>, f: T -> T)
    requires forall i :: 0 <= i < |s| ==> f(s[i]) == s[i]
    ensures Map(s, f) == s
  {
  }
}
