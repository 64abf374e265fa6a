/**
  String helpers the to-do app borrows from the JavaScript runtime:
  `String.prototype.trim`, `toLowerCase` (ASCII letters only) and
  `includes` (substring test).
 */
module Text {

  /** The code points `trim` removes at either end: ECMAScript's WhiteSpace
      (TAB, VT, FF, SP, NBSP, ZWNBSP and the other space separators) and
      LineTerminator (LF, CR, LS, PS). */
  predicate IsSpace(c: char) {
    || c == '\t' || c == '\n' || c == '\U{000B}' || c == '\U{000C}' || c == '\r'
    || c == ' ' || c == '\U{00A0}' || c == '\U{1680}'
    || ('\U{2000}' <= c <= '\U{200A}')
    || c == '\U{2028}' || c == '\U{2029}' || c == '\U{202F}' || c == '\U{205F}'
    || c == '\U{3000}' || c == '\U{FEFF}'
  }

  predicate AllSpace(s: string) {
    forall i :: 0 <= i < |s| ==> IsSpace(s[i])
  }

  /** Positions `lo` up to (not including) `hi` of `s` hold white space. */
  predicate SpaceBetween(s: string, lo: int, hi: int) {
    && 0 <= lo <= hi <= |s|
    && forall k :: lo <= k < hi ==> IsSpace(s[k])
  }

  /** The first position at or after `i` that is not white space, or `|s|`. */
  function SkipLeading(s: string, i: nat): (n: nat)
    requires i <= |s|
    ensures i <= n <= |s|
    ensures SpaceBetween(s, i, n)
    ensures n < |s| ==> !IsSpace(s[n])
    decreases |s| - i
  {
    if i == |s| || !IsSpace(s[i]) then i else SkipLeading(s, i + 1)
  }

  /** The end of `s[lo..j]` once the white space at its end is dropped. */
  function SkipTrailing(s: string, lo: nat, j: nat): (n: nat)
    requires lo <= j <= |s|
    ensures lo <= n <= j
    ensures SpaceBetween(s, n, j)
    ensures lo < n ==> !IsSpace(s[n - 1])
    decreases j
  {
    if j == lo || !IsSpace(s[j - 1]) then j else SkipTrailing(s, lo, j - 1)
  }

  /** `r` sits at offset `i` of `s` with nothing but white space around it. */
  ghost predicate Framed(s: string, r: string, i: int) {
    && 0 <= i && i + |r| <= |s|
    && s[i..i + |r|] == r
    && SpaceBetween(s, 0, i)
    && SpaceBetween(s, i + |r|, |s|)
  }

  /** Declarative meaning of trimming: `r` is `s` with white space removed at
      both ends, and `r` itself neither starts nor ends with white space. */
  ghost predicate IsTrimOf(r: string, s: string) {
    && (exists i :: Framed(s, r, i))
    && (r != [] ==> !IsSpace(r[0]) && !IsSpace(r[|r| - 1]))
  }

  /** `String.prototype.trim`. */
  function Trim(s: string): (r: string)
    ensures |r| <= |s|
    ensures r == [] <==> AllSpace(s)
    ensures IsTrimOf(r, s)
  {
    var a := SkipLeading(s, 0);
    var b := SkipTrailing(s, a, |s|);
    var r := s[a..b];
    assert Framed(s, r, a);
    r
  }

  /** Any white-space run ending at a non-space (or the end) is the one
      `SkipLeading` skips. */
  lemma SkipLeadingUnique(s: string, i: nat, n: nat)
    requires i <= n <= |s| && SpaceBetween(s, i, n)
    requires n < |s| ==> !IsSpace(s[n])
    ensures SkipLeading(s, i) == n
  {
  }

  /** Any white-space run starting after a non-space (or at `lo`) is the one
      `SkipTrailing` drops. */
  lemma SkipTrailingUnique(s: string, lo: nat, j: nat, n: nat)
    requires lo <= n <= j <= |s| && SpaceBetween(s, n, j)
    requires lo < n ==> !IsSpace(s[n - 1])
    ensures SkipTrailing(s, lo, j) == n
  {
  }

  /** Trimming has exactly one possible outcome: anything that meets the
      declarative description is `Trim(s)`. */
  lemma TrimUnique(s: string, r: string)
    requires IsTrimOf(r, s)
    ensures r == Trim(s)
  {
    var i :| Framed(s, r, i);
    if r == [] {
      assert AllSpace(s);
    } else {
      assert s[i] == r[0];
      assert s[i + |r| - 1] == r[|r| - 1];
      SkipLeadingUnique(s, 0, i);
      SkipTrailingUnique(s, i, |s|, i + |r|);
    }
  }

  /** A string with no white space at either end is its own trim. */
  lemma TrimKeepsTrimmed(s: string)
    requires s != [] && !IsSpace(s[0]) && !IsSpace(s[|s| - 1])
    ensures Trim(s) == s
  {
    assert Framed(s, s, 0);
    TrimUnique(s, s);
  }

  /** Trimming an already trimmed string changes nothing. */
  lemma TrimIdempotent(s: string)
    ensures Trim(Trim(s)) == Trim(s)
  {
    var r := Trim(s);
    assert Framed(r, r, 0);
    TrimUnique(r, r);
  }

  /** ASCII lower-casing of one character. */
  function LowerChar(c: char): char {
    if 'A' <= c <= 'Z' then (c as int + 32) as char else c
  }

  predicate IsUpper(c: char) {
    'A' <= c <= 'Z'
  }

  /** `toLowerCase`, restricted to the ASCII letters. */
  function Lower(s: string): (r: string)
    ensures |r| == |s|
    ensures forall i :: 0 <= i < |r| ==> !IsUpper(r[i])
    ensures forall i :: 0 <= i < |r| ==>
              r[i] == s[i] || (IsUpper(s[i]) && r[i] as int == s[i] as int + 32)
  {
    seq(|s|, i requires 0 <= i < |s| => LowerChar(s[i]))
  }

  /** Lower-casing twice is lower-casing once. */
  lemma LowerIdempotent(s: string)
    ensures Lower(Lower(s)) == Lower(s)
  {
    var r := Lower(s);
    assert forall i :: 0 <= i < |r| ==> Lower(r)[i] == r[i];
  }

  /** Lower-casing works character by character, so it distributes over
      concatenation. */
  lemma LowerAppend(a: string, b: string)
    ensures Lower(a + b) == Lower(a) + Lower(b)
  {
    assert forall i :: 0 <= i < |a| ==> (a + b)[i] == a[i];
    assert forall i :: |a| <= i < |a| + |b| ==> (a + b)[i] == b[i - |a|];
  }

  /** A lower-case letter whose upper-case form is also absent from `s` is
      absent from `Lower(s)`. */
  lemma LowerAvoids(s: string, c: char)
    requires 'a' <= c <= 'z'
    requires c !in s && (c as int - 32) as char !in s
    ensures c !in Lower(s)
  {
    var r := Lower(s);
    forall i | 0 <= i < |r|
      ensures r[i] != c
    {
      assert s[i] in s;
    }
  }

  predicate IsPrefix(p: string, s: string) {
    |p| <= |s| && s[..|p|] == p
  }

  /** `s.includes(q)`: `q` starts at some position of `s`. */
  predicate Contains(s: string, q: string)
    decreases |s|
  {
    IsPrefix(q, s) || (|s| > 0 && Contains(s[1..], q))
  }

  /** `q` occurs in `s` starting at position `i`. */
  ghost predicate OccursAt(q: string, s: string, i: int) {
    0 <= i <= |s| - |q| && s[i..i + |q|] == q
  }

  /** Reference meaning of a substring occurrence. */
  ghost predicate Occurs(q: string, s: string) {
    exists i :: OccursAt(q, s, i)
  }

  lemma {:induction false} ContainsIffOccurs(s: string, q: string)
    ensures Contains(s, q) <==> Occurs(q, s)
    decreases |s|
  {
    if Contains(s, q) {
      if IsPrefix(q, s) {
        assert OccursAt(q, s, 0);
      } else {
        ContainsIffOccurs(s[1..], q);
        var i :| OccursAt(q, s[1..], i);
        assert s[1..][i..i + |q|] == s[i + 1..i + 1 + |q|];
        assert OccursAt(q, s, i + 1);
      }
    }
    if Occurs(q, s) {
      var i :| OccursAt(q, s, i);
      if i == 0 {
        assert IsPrefix(q, s);
      } else {
        assert s[1..][i - 1..i - 1 + |q|] == s[i..i + |q|];
        assert OccursAt(q, s[1..], i - 1);
        ContainsIffOccurs(s[1..], q);
      }
    }
  }
}
