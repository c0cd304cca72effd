/** Shared value types and the few collection facts several modules need. */
module Common {
  datatype Option<+T> = None | Some(value: T)

  function Max(a: int, b: int): int { if a < b then b else a }

  function Min(a: int, b: int): int { if a < b then a else b }

  predicate IsMax(s: set<nat>, m: nat) {
    m in s && forall x :: x in s ==> x <= m
  }

  /** COALESCE(MAX(..), 0) over the values of a column. */
  function Highest(s: set<nat>): (m: nat)
    ensures if s == {} then m == 0 else IsMax(s, m)
  {
    if s == {} then 0 else
      HasMax(s);
      var m: nat :| IsMax(s, m);
      m
  }

  lemma {:induction false} HasMax(s: set<nat>)
    requires s != {}
    ensures exists m :: IsMax(s, m)
    decreases |s|
  {
    var x :| x in s;
    var rest := s - {x};
    if rest != {} {
      HasMax(rest);
      var m :| IsMax(rest, m);
      MaxWith(s, x, m);
    } else {
      forall y | y in s ensures y <= x {
        assert y == x || y in rest;
      }
      assert IsMax(s, x);
    }
  }

  lemma MaxWith(s: set<nat>, x: nat, m: nat)
    requires x in s && IsMax(s - {x}, m)
    ensures IsMax(s, Max(m, x))
  {
    forall y | y in s ensures y <= Max(m, x) {
      assert y == x || y in s - {x};
    }
  }

  ghost predicate StrictlyAscending(s: seq<nat>) {
    forall i, j :: 0 <= i < j < |s| ==> s[i] < s[j]
  }

  ghost predicate Repeats<T>(s: seq<T>, i: int, j: int) {
    0 <= i < j < |s| && s[i] == s[j]
  }

  ghost predicate Distinct<T>(s: seq<T>) {
    forall i, j :: !Repeats(s, i, j)
  }

  lemma NotBefore<T>(s: seq<T>, i: nat)
    requires Distinct(s) && i < |s|
    ensures s[i] !in s[..i]
  {
    forall j | 0 <= j < i ensures s[j] != s[i] {
      assert !Repeats(s, j, i);
    }
  }

  lemma NotAfter<T>(s: seq<T>)
    requires Distinct(s) && s != []
    ensures s[0] !in s[1..]
  {
    forall j | 1 <= j < |s| ensures s[j] != s[0] {
      assert !Repeats(s, 0, j);
    }
  }

  lemma DistinctTail<T>(s: seq<T>)
    requires Distinct(s) && s != []
    ensures Distinct(s[1..])
  {
    forall i, j ensures !Repeats(s[1..], i, j) {
      assert !Repeats(s, i + 1, j + 1);
    }
  }

  lemma DistinctJoin<T>(a: seq<T>, b: seq<T>)
    requires Distinct(a) && Distinct(b) && forall x :: x in a ==> x !in b
    ensures Distinct(a + b)
  {
    forall i, j ensures !Repeats(a + b, i, j) {
      assert !Repeats(a, i, j) && !Repeats(b, i - |a|, j - |a|);
      if 0 <= i < |a| <= j < |a + b| {
        assert (a + b)[i] in a && (a + b)[j] in b;
      }
    }
  }

  lemma DistinctSnoc<T>(s: seq<T>, x: T)
    requires Distinct(s) && x !in s
    ensures Distinct(s + [x])
  {
    forall i, j ensures !Repeats(s + [x], i, j) {
      if 0 <= i < j < |s| { assert !Repeats(s, i, j); }
    }
  }

  ghost predicate Any<T(!new)>(s: seq<T>, p: T -> bool) {
    exists i :: 0 <= i < |s| && p(s[i])
  }

  lemma AnySnoc<T(!new)>(s: seq<T>, x: T, p: T -> bool)
    ensures Any(s + [x], p) <==> Any(s, p) || p(x)
  {
    var t := s + [x];
    assert t[|s|] == x;
    if i :| 0 <= i < |s| && p(s[i]) { assert p(t[i]); }
    if i :| 0 <= i < |t| && p(t[i]) { assert i == |s| || t[i] == s[i]; }
  }

  function Either<T(!new)>(p: T -> bool, q: T -> bool): T -> bool {
    (x: T) => p(x) || q(x)
  }

  /** p holds at position i, and q nowhere after it. */
  ghost predicate Last<T(!new)>(s: seq<T>, i: int, p: T -> bool, q: T -> bool) {
    0 <= i < |s| && p(s[i]) && forall j :: i < j < |s| ==> !q(s[j])
  }

  lemma LastSnocAt<T(!new)>(s: seq<T>, x: T, p: T -> bool, q: T -> bool, i: int)
    ensures Last(s + [x], i, p, q) <==> if i == |s| then p(x) else Last(s, i, p, q) && !q(x)
  {
    var t := s + [x];
    assert t[|s|] == x && forall j :: 0 <= j < |s| ==> t[j] == s[j];
    if Last(s, i, p, q) && !q(x) {
      forall j | i < j < |t| ensures !q(t[j]) {}
    }
    if Last(t, i, p, q) && i < |s| {
      forall j | i < j < |s| ensures !q(s[j]) { assert !q(t[j]); }
    }
  }

  lemma LastSnoc<T(!new)>(s: seq<T>, x: T, p: T -> bool, q: T -> bool)
    ensures forall i :: Last(s + [x], i, p, q) <==> if i == |s| then p(x) else Last(s, i, p, q) && !q(x)
    ensures (exists i :: Last(s + [x], i, p, q)) <==> p(x) || ((exists i :: Last(s, i, p, q)) && !q(x))
  {
    forall i ensures Last(s + [x], i, p, q) <==> if i == |s| then p(x) else Last(s, i, p, q) && !q(x) {
      LastSnocAt(s, x, p, q, i);
    }
    if p(x) { assert Last(s + [x], |s|, p, q); }
    if i :| Last(s, i, p, q) && !q(x) { assert Last(s + [x], i, p, q); }
  }

  lemma Regroup<T>(a: seq<T>, b: seq<T>, c: seq<T>)
    ensures a + (b + c) == a + b + c
  {}

  lemma SuffixOf<T>(a: seq<T>, b: seq<T>)
    ensures a <= a + b && (a + b)[|a|..] == b
  {}

  lemma HeadAndTail<T>(s: seq<T>)
    requires s != []
    ensures s == [s[0]] + s[1..]
  {}
}
