/** Sequence numbers: each collected row takes the next number of a counter kept in seq_info and
    is inserted with "do nothing on conflict". The table maps a row's primary key to its number. */
module Numbering {
  import opened Common

  /** Inserting rows with these keys, numbered from n+1 on; a conflicting row is not stored. */
  function InsertNumbered<K>(t: map<K, nat>, n: nat, keys: seq<K>): map<K, nat>
    decreases |keys|
  {
    if keys == [] then t
    else InsertNumbered(if keys[0] in t then t else t[keys[0] := n + 1], n + 1, keys[1..])
  }

  lemma {:induction false} InsertKeys<K(!new)>(t: map<K, nat>, n: nat, keys: seq<K>)
    ensures forall k :: k in InsertNumbered(t, n, keys) <==> k in t || k in keys
    ensures forall k :: k in t ==> InsertNumbered(t, n, keys)[k] == t[k]
    decreases |keys|
  {
    if keys != [] {
      InsertKeys(if keys[0] in t then t else t[keys[0] := n + 1], n + 1, keys[1..]);
      assert forall k :: k in keys <==> k == keys[0] || k in keys[1..];
    }
  }

  ghost predicate Taken<K(!new)>(t: map<K, nat>, i: nat) {
    exists k :: k in t && t[k] == i
  }

  predicate SameNumber<K>(t: map<K, nat>, k: K, l: K) {
    k in t && l in t && t[k] == t[l]
  }

  /** The stored numbers are exactly 1..n, each used once. */
  ghost predicate Exact<K(!new)>(t: map<K, nat>, n: nat) {
    && (forall k :: k in t ==> 1 <= t[k] <= n)
    && (forall k, l :: SameNumber(t, k, l) ==> k == l)
    && (forall i: nat :: 1 <= i <= n ==> Taken(t, i))
    && |t| == n
  }

  ghost predicate Fresh<K(!new)>(t: map<K, nat>, keys: seq<K>) {
    Distinct(keys) && forall i :: 0 <= i < |keys| ==> keys[i] !in t
  }

  lemma EmptyExact<K(!new)>(t: map<K, nat>)
    requires t == map[]
    ensures Exact(t, 0)
  {}

  lemma AddOne<K(!new)>(t: map<K, nat>, n: nat, key: K)
    requires Exact(t, n) && key !in t
    ensures Exact(t[key := n + 1], n + 1)
  {
    var t' := t[key := n + 1];
    forall k, l | SameNumber(t', k, l) ensures k == l {
      if k in t && l in t { assert SameNumber(t, k, l); }
    }
    forall i: nat | 1 <= i <= n + 1 ensures Taken(t', i) {
      if i <= n {
        assert Taken(t, i);
        var k :| k in t && t[k] == i;
        assert k in t' && t'[k] == i;
      } else {
        assert t'[key] == i;
      }
    }
  }

  lemma FreshTail<K(!new)>(t: map<K, nat>, v: nat, keys: seq<K>)
    requires keys != [] && keys[0] !in t
    ensures Fresh(t, keys) <==> Fresh(t[keys[0] := v], keys[1..])
  {
    var t', rest := t[keys[0] := v], keys[1..];
    assert forall i :: 0 < i < |keys| ==> keys[i] == rest[i - 1];
    assert forall i :: 0 <= i < |rest| ==> rest[i] == keys[i + 1];
    if Fresh(t', rest) {
      forall i, j ensures !Repeats(keys, i, j) {
        if 0 < i < j < |keys| { assert !Repeats(rest, i - 1, j - 1); }
        if 0 < j < |keys| { assert keys[j] !in t'; }
      }
    }
    if Fresh(t, keys) {
      forall i, j ensures !Repeats(rest, i, j) {
        assert !Repeats(keys, i + 1, j + 1);
      }
      forall i | 0 <= i < |rest| ensures rest[i] !in t' {
        assert !Repeats(keys, 0, i + 1);
      }
    }
  }

  lemma {:induction false} InsertBound<K(!new)>(t: map<K, nat>, n: nat, keys: seq<K>)
    ensures |InsertNumbered(t, n, keys)| <= |t| + |keys|
    ensures |InsertNumbered(t, n, keys)| == |t| + |keys| ==> Fresh(t, keys)
    decreases |keys|
  {
    if keys != [] {
      InsertBound(if keys[0] in t then t else t[keys[0] := n + 1], n + 1, keys[1..]);
      if keys[0] !in t { FreshTail(t, n + 1, keys); }
    }
  }

  lemma {:induction false} InsertExact<K(!new)>(t: map<K, nat>, n: nat, keys: seq<K>)
    requires Exact(t, n) && Fresh(t, keys)
    ensures Exact(InsertNumbered(t, n, keys), n + |keys|)
    decreases |keys|
  {
    if keys != [] {
      var t' := t[keys[0] := n + 1];
      FreshTail(t, n + 1, keys);
      assert InsertNumbered(t, n, keys) == InsertNumbered(t', n + 1, keys[1..]);
      AddOne(t, n, keys[0]);
      InsertExact(t', n + 1, keys[1..]);
    }
  }

  /** Numbering stays exact across a batch exactly when no row of it conflicts: a skipped row
      still consumes its number. */
  lemma ExactIff<K(!new)>(t: map<K, nat>, n: nat, keys: seq<K>)
    requires Exact(t, n)
    ensures Exact(InsertNumbered(t, n, keys), n + |keys|) <==> Fresh(t, keys)
  {
    InsertBound(t, n, keys);
    if Fresh(t, keys) { InsertExact(t, n, keys); }
  }

  /** The j-th row of a conflict-free batch is stored under the j-th next number. */
  lemma {:induction false} NumberAt<K(!new)>(t: map<K, nat>, n: nat, keys: seq<K>, j: nat)
    requires Fresh(t, keys) && j < |keys|
    ensures keys[j] in InsertNumbered(t, n, keys) && InsertNumbered(t, n, keys)[keys[j]] == n + 1 + j
    decreases |keys|
  {
    var t' := t[keys[0] := n + 1];
    if j > 0 {
      FreshTail(t, n + 1, keys);
      NumberAt(t', n + 1, keys[1..], j - 1);
    } else {
      InsertKeys(t', n + 1, keys[1..]);
    }
  }

  // ---- whole runs ------------------------------------------------------------------

  /** A row of a block at some height: unique within the block when its id is. */
  datatype Key<+I> = Key(height: nat, id: I)

  datatype Block<+I> = Block(height: nat, ids: seq<I>)

  function Keys<I(!new)>(b: Block<I>): (ks: seq<Key<I>>)
    ensures |ks| == |b.ids| && forall i :: 0 <= i < |ks| ==> ks[i] == Key(b.height, b.ids[i])
  {
    seq(|b.ids|, i requires 0 <= i < |b.ids| => Key(b.height, b.ids[i]))
  }

  function Total<I(!new)>(bs: seq<Block<I>>): nat {
    if bs == [] then 0 else |bs[0].ids| + Total(bs[1..])
  }

  function Collected<I(==,!new)>(t: map<Key<I>, nat>, n: nat, bs: seq<Block<I>>): map<Key<I>, nat>
    decreases |bs|
  {
    if bs == [] then t else Collected(InsertNumbered(t, n, Keys(bs[0])), n + |bs[0].ids|, bs[1..])
  }

  ghost predicate HeightsAscend<I(!new)>(bs: seq<Block<I>>) {
    forall i, j :: 0 <= i < j < |bs| ==> bs[i].height < bs[j].height
  }

  ghost predicate Below<I(!new)>(t: map<Key<I>, nat>, height: nat) {
    forall k :: k in t ==> k.height < height
  }

  lemma FreshIff<I(!new)>(t: map<Key<I>, nat>, b: Block<I>)
    requires Below(t, b.height)
    ensures Fresh(t, Keys(b)) <==> Distinct(b.ids)
  {
    forall i, j ensures Repeats(Keys(b), i, j) <==> Repeats(b.ids, i, j) {}
  }

  ghost predicate NoRepeats<I(!new)>(bs: seq<Block<I>>) {
    forall i :: 0 <= i < |bs| ==> Distinct(bs[i].ids)
  }

  lemma NoRepeatsTail<I(!new)>(bs: seq<Block<I>>)
    requires bs != []
    ensures NoRepeats(bs) <==> Distinct(bs[0].ids) && NoRepeats(bs[1..])
    ensures HeightsAscend(bs) ==> HeightsAscend(bs[1..])
  {
    assert forall i :: 0 < i < |bs| ==> bs[i] == bs[1..][i - 1];
  }

  /** The keys of all blocks, in order. */
  function AllKeys<I(!new)>(bs: seq<Block<I>>): (ks: seq<Key<I>>)
    ensures |ks| == Total(bs)
  {
    if bs == [] then [] else Keys(bs[0]) + AllKeys(bs[1..])
  }

  lemma {:induction false} InsertConcat<K(!new)>(t: map<K, nat>, n: nat, a: seq<K>, b: seq<K>)
    ensures InsertNumbered(t, n, a + b) == InsertNumbered(InsertNumbered(t, n, a), n + |a|, b)
    decreases |a|
  {
    if a == [] {
      assert a + b == b;
    } else {
      assert (a + b)[1..] == a[1..] + b;
      InsertConcat(if a[0] in t then t else t[a[0] := n + 1], n + 1, a[1..], b);
    }
  }

  /** Collecting block by block numbers all keys in one sequence. */
  lemma {:induction false} CollectedFlat<I(!new)>(t: map<Key<I>, nat>, n: nat, bs: seq<Block<I>>)
    ensures Collected(t, n, bs) == InsertNumbered(t, n, AllKeys(bs))
    decreases |bs|
  {
    if bs != [] {
      InsertConcat(t, n, Keys(bs[0]), AllKeys(bs[1..]));
      CollectedFlat(InsertNumbered(t, n, Keys(bs[0])), n + |bs[0].ids|, bs[1..]);
    }
  }

  lemma FreshConcat<K(!new)>(t: map<K, nat>, a: seq<K>, b: seq<K>)
    requires forall i, j :: 0 <= i < |a| && 0 <= j < |b| ==> a[i] != b[j]
    ensures Fresh(t, a + b) <==> Fresh(t, a) && Fresh(t, b)
  {
    assert forall i :: 0 <= i < |a| ==> (a + b)[i] == a[i];
    assert forall j :: 0 <= j < |b| ==> (a + b)[|a| + j] == b[j];
    if Fresh(t, a + b) {
      forall i, j ensures !Repeats(a, i, j) && !Repeats(b, i, j) {
        assert !Repeats(a + b, i, j) && !Repeats(a + b, |a| + i, |a| + j);
      }
    }
    if Fresh(t, a) && Fresh(t, b) {
      forall i, j ensures !Repeats(a + b, i, j) {
        assert !Repeats(a, i, j) && !Repeats(b, i - |a|, j - |a|);
      }
    }
  }

  lemma {:induction false} KeysAbove<I(!new)>(height: nat, bs: seq<Block<I>>, j: nat)
    requires j < |AllKeys(bs)| && forall i :: 0 <= i < |bs| ==> bs[i].height > height
    ensures AllKeys(bs)[j].height > height
    decreases |bs|
  {
    if j >= |bs[0].ids| { KeysAbove(height, bs[1..], j - |bs[0].ids|); }
  }

  lemma {:induction false} FreshAllIff<I(!new)>(t: map<Key<I>, nat>, bs: seq<Block<I>>)
    requires HeightsAscend(bs) && (bs != [] ==> Below(t, bs[0].height))
    ensures Fresh(t, AllKeys(bs)) <==> NoRepeats(bs)
    decreases |bs|
  {
    if bs != [] {
      var rest := AllKeys(bs[1..]);
      FreshIff(t, bs[0]);
      NoRepeatsTail(bs);
      FreshAllIff(t, bs[1..]);
      forall j | 0 <= j < |rest| ensures rest[j].height > bs[0].height {
        KeysAbove(bs[0].height, bs[1..], j);
      }
      FreshConcat(t, Keys(bs[0]), rest);
    }
  }

  /** Over any run of blocks of growing height, the stored numbers end up exactly 1..N, N being
      the counter, if and only if no block repeats an id. */
  lemma CollectedExactIff<I(!new)>(t: map<Key<I>, nat>, n: nat, bs: seq<Block<I>>)
    requires Exact(t, n) && HeightsAscend(bs)
    requires bs != [] ==> Below(t, bs[0].height)
    ensures Exact(Collected(t, n, bs), n + Total(bs)) <==> NoRepeats(bs)
  {
    CollectedFlat(t, n, bs);
    ExactIff(t, n, AllKeys(bs));
    FreshAllIff(t, bs);
  }

  /** From an empty table, over any run of blocks of growing height: the stored sequences are exactly
      1..N, with N the counter, if and only if no block repeats an id; and then MAX(sequence) is the
      number of rows. */
  lemma RunNumbersExactly<I(!new)>(empty: map<Key<I>, nat>, bs: seq<Block<I>>)
    requires empty == map[] && HeightsAscend(bs)
    ensures Exact(Collected(empty, 0, bs), Total(bs)) <==> NoRepeats(bs)
    ensures NoRepeats(bs) ==> MaxNumber(Collected(empty, 0, bs)) == |Collected(empty, 0, bs)| == Total(bs)
  {
    EmptyExact(empty);
    CollectedExactIff(empty, 0, bs);
    if NoRepeats(bs) { FastCountIsCount(Collected(empty, 0, bs), Total(bs)); }
  }

  /** Over such a run the rows carry 1, 2, ... in the order of their heights, and of their positions
      within a height: the j-th key of all blocks is stored under the j-th number. */
  lemma RunNumberAt<I(!new)>(t: map<Key<I>, nat>, n: nat, bs: seq<Block<I>>, j: nat)
    requires HeightsAscend(bs) && NoRepeats(bs) && (bs != [] ==> Below(t, bs[0].height))
    requires j < Total(bs)
    ensures AllKeys(bs)[j] in Collected(t, n, bs) && Collected(t, n, bs)[AllKeys(bs)[j]] == n + 1 + j
  {
    CollectedFlat(t, n, bs);
    FreshAllIff(t, bs);
    NumberAt(t, n, AllKeys(bs), j);
  }

  // ---- the fast count ------------------------------------------------------------------

  /** COALESCE(MAX(sequence), 0). */
  function MaxNumber<K(!new)>(t: map<K, nat>): (m: nat)
    ensures t == map[] ==> m == 0
    ensures t != map[] ==> Taken(t, m) && forall k :: k in t ==> t[k] <= m
  {
    assert forall k :: k in t ==> t[k] in t.Values;
    Highest(t.Values)
  }

  /** The MAX(sequence) fast count is the row count of an exactly numbered table. */
  lemma FastCountIsCount<K(!new)>(t: map<K, nat>, n: nat)
    requires Exact(t, n)
    ensures MaxNumber(t) == |t| == n
  {
    if n > 0 {
      assert Taken(t, n);
      var k :| k in t && t[k] == n;
    }
  }

  /** For a block table holding one interval, MAX(height) is the row count exactly when
      indexing began at height 1. */
  lemma BlockFastCountIff(t: set<nat>, lo: nat, hi: nat)
    requires 1 <= lo <= hi && forall h :: h in t <==> lo <= h <= hi
    ensures |t| == hi <==> lo == 1
  {
    IntervalSize(t, lo, hi);
  }

  lemma {:induction false} IntervalSize(t: set<nat>, lo: nat, hi: nat)
    requires lo <= hi + 1 && forall h :: h in t <==> lo <= h <= hi
    ensures |t| == hi + 1 - lo
    decreases hi + 1 - lo
  {
    if lo <= hi {
      IntervalSize(t - {lo}, lo + 1, hi);
    } else {
      assert t == {};
    }
  }

  /** MAX over a set of positive numbers is its size exactly when no number below it is missing. */
  lemma MaxIsSizeIff(s: set<nat>)
    requires 0 !in s
    ensures Highest(s) == |s| <==> forall i :: 1 <= i <= Highest(s) ==> i in s
  {
    var m := Highest(s);
    var all := UpTo(m);
    assert s <= all;
    if |s| == m { SubsetOfSameSize(s, all); }
    if forall i :: 1 <= i <= m ==> i in s { assert s == all; }
  }

  function UpTo(m: nat): (r: set<nat>)
    ensures |r| == m && forall i :: i in r <==> 1 <= i <= m
  {
    if m == 0 then {} else UpTo(m - 1) + {m}
  }

  lemma SubsetOfSameSize(s: set<nat>, all: set<nat>)
    requires s <= all && |s| == |all|
    ensures s == all
  {
    assert |all - s| == |all| - |s|;
    assert all == s + (all - s);
  }

  /** Sequences with a row in tx_msg_types when the i-th transaction, numbered i + 1, has these
      message types. */
  function Listed(types: seq<set<nat>>): set<nat> {
    set i | 0 <= i < |types| && types[i] != {} :: i + 1
  }

  /** MAX(sequence) over tx_msg_types is the number of transactions it lists, the count without
      a filter, exactly when none without a message type comes before one with. */
  lemma EdgeFastCountIff(types: seq<set<nat>>)
    ensures Highest(Listed(types)) == |Listed(types)| <==>
            forall i, j :: 0 <= i < j < |types| && types[j] != {} ==> types[i] != {}
  {
    var s := Listed(types);
    MaxIsSizeIff(s);
    if Highest(s) == |s| {
      forall i, j | 0 <= i < j < |types| && types[j] != {} ensures types[i] != {} {
        assert j + 1 in s && i + 1 in s;
      }
    } else {
      var x :| 1 <= x <= Highest(s) && x !in s;
      var y := Highest(s);
      assert types[y - 1] != {} && types[x - 1] == {};
    }
  }
}
