/** Internal transactions: a call tree is flattened in preorder into rows that carry Index,
    ParentIndex and a global sequence number, with one account edge per distinct account. */
module CallTree {
  import opened Common

  /** The decoded columns of one call; account ids are resolved, 0 stands for no address. */
  datatype Body = Body(kind: string, from: nat, to: nat, args: seq<nat>, input: string, output: string)

  /** wellFormed is false when an address or hex column of the call does not parse. */
  datatype Call = Call(body: Body, wellFormed: bool, calls: seq<Call>)

  datatype Row = Row(height: nat, hashId: nat, index: nat, parent: int, sequence: nat, body: Body)

  datatype Edge = Edge(account: nat, sequence: nat)

  function Size(c: Call): (n: nat)
    ensures n >= 1
    decreases c, 0
  {
    1 + SizeAll(c.calls)
  }

  function SizeAll(cs: seq<Call>): nat
    decreases cs
  {
    if cs == [] then 0 else Size(cs[0]) + SizeAll(cs[1..])
  }

  predicate AllWellFormed(c: Call)
    decreases c, 0
  {
    c.wellFormed && AllWellFormedIn(c.calls)
  }

  predicate AllWellFormedIn(cs: seq<Call>)
    decreases cs
  {
    cs == [] || (AllWellFormed(cs[0]) && AllWellFormedIn(cs[1..]))
  }

  // ---- the specification of the flattening -----------------------------------------

  function Flatten(height: nat, hashId: nat, c: Call, index: nat, parent: int, sequence: nat): (rows: seq<Row>)
    ensures |rows| == Size(c)
    decreases c, 0
  {
    [Row(height, hashId, index, parent, sequence + 1, c.body)] +
    FlattenAll(height, hashId, c.calls, index + 1, index, sequence + 1)
  }

  function FlattenAll(height: nat, hashId: nat, cs: seq<Call>, index: nat, parent: int, sequence: nat): (rows: seq<Row>)
    ensures |rows| == SizeAll(cs)
    decreases cs
  {
    if cs == [] then []
    else Flatten(height, hashId, cs[0], index, parent, sequence) +
         FlattenAll(height, hashId, cs[1..], index + Size(cs[0]), parent, sequence + Size(cs[0]))
  }

  /** The ids of From, To and the address-like words of Input that exist. */
  function Accounts(b: Body): seq<nat> {
    (if b.from != 0 then [b.from] else []) + (if b.to != 0 then [b.to] else []) + b.args
  }

  /** The first occurrences of ids, none of them in seen. */
  function FirstSeen(ids: seq<nat>, seen: set<nat>): seq<nat> {
    if ids == [] then []
    else if ids[0] in seen then FirstSeen(ids[1..], seen)
    else [ids[0]] + FirstSeen(ids[1..], seen + {ids[0]})
  }

  function EdgesFor(ids: seq<nat>, sequence: nat): seq<Edge> {
    if ids == [] then [] else [Edge(ids[0], sequence)] + EdgesFor(ids[1..], sequence)
  }

  function FlatEdges(c: Call, sequence: nat): seq<Edge>
    decreases c, 0
  {
    EdgesFor(FirstSeen(Accounts(c.body), {}), sequence + 1) + FlatEdgesAll(c.calls, sequence + 1)
  }

  function FlatEdgesAll(cs: seq<Call>, sequence: nat): seq<Edge>
    decreases cs
  {
    if cs == [] then []
    else FlatEdges(cs[0], sequence) + FlatEdgesAll(cs[1..], sequence + Size(cs[0]))
  }

  /** What is collected after i nested calls, followed by the calls to come, is the whole. */
  ghost predicate CallsDone(height: nat, hashId: nat, cs: seq<Call>, i: nat, parent: int,
                          rows: seq<Row>, index: nat, sequence: nat, edges: seq<Edge>, all: seq<Row>,
                            allEdges: seq<Edge>)
    requires i <= |cs|
  {
    && rows + FlattenAll(height, hashId, cs[i..], index, parent, sequence) == all
    && edges + FlatEdgesAll(cs[i..], sequence) == allEdges
  }

  lemma CallsStep(height: nat, hashId: nat, cs: seq<Call>, i: nat, parent: int,
                    rows: seq<Row>, index: nat, sequence: nat, edges: seq<Edge>, all: seq<Row>, allEdges: seq<Edge>)
    requires i < |cs| && CallsDone(height, hashId, cs, i, parent, rows, index, sequence, edges, all, allEdges)
    ensures CallsDone(height, hashId, cs, i + 1, parent,
                    rows + Flatten(height, hashId, cs[i], index, parent, sequence), index + Size(cs[i]),
                    sequence + Size(cs[i]), edges + FlatEdges(cs[i], sequence), all, allEdges)
  {
    assert cs[i..][0] == cs[i] && cs[i..][1..] == cs[i + 1..];
    Regroup(rows, Flatten(height, hashId, cs[i], index, parent, sequence),
            FlattenAll(height, hashId, cs[i + 1..], index + Size(cs[i]), parent, sequence + Size(cs[i])));
    Regroup(edges, FlatEdges(cs[i], sequence), FlatEdgesAll(cs[i + 1..], sequence + Size(cs[i])));
  }

  lemma WellFormedSuffix(cs: seq<Call>, i: nat)
    requires i < |cs|
    ensures AllWellFormedIn(cs[i..]) <==> AllWellFormed(cs[i]) && AllWellFormedIn(cs[i + 1..])
    ensures SizeAll(cs[i..]) == Size(cs[i]) + SizeAll(cs[i + 1..])
  {
    assert cs[i..][0] == cs[i] && cs[i..][1..] == cs[i + 1..];
  }

  // ---- processInternalCall -----------------------------------------------------------

  /** The state one database transaction threads through the recursion. */
  class Accumulator {
    var sequence: nat      // seqInfo.Sequence
    var edges: seq<Edge>   // *edges

    constructor (sequence: nat)
      ensures this.sequence == sequence && edges == []
    {
      this.sequence, edges := sequence, [];
    }

    method AddEdges(ids: seq<nat>)
      modifies this`edges
      ensures edges == old(edges) + EdgesFor(FirstSeen(ids, {}), sequence)
    {
      var seen: set<nat> := {};
      for i := 0 to |ids|
        invariant edges + EdgesFor(FirstSeen(ids[i..], seen), sequence)
               == old(edges) + EdgesFor(FirstSeen(ids, {}), sequence)
      {
        if ids[i] !in seen {
          seen := seen + {ids[i]};
          edges := edges + [Edge(ids[i], sequence)];
        }
      }
    }

    method ProcessInternalCall(height: nat, hashId: nat, index: nat, parent: int, call: Call)
      returns (ok: bool, results: seq<Row>)
      modifies this
      ensures ok <==> AllWellFormed(call)
      ensures ok ==> results == Flatten(height, hashId, call, index, parent, old(sequence))
      ensures ok ==> sequence == old(sequence) + Size(call)
      ensures ok ==> edges == old(edges) + FlatEdges(call, old(sequence))
      ensures ok ==> old(edges) <= edges && EdgesMatch(results, edges[|old(edges)|..])
      decreases call, 1
    {
      ghost var all := Flatten(height, hashId, call, index, parent, sequence);
      ghost var allEdges := edges + FlatEdges(call, sequence);
      sequence := sequence + 1;
      if !call.wellFormed { return false, []; }
      results := [Row(height, hashId, index, parent, sequence, call.body)];
      AddEdges(Accounts(call.body));
      assert call.calls[0..] == call.calls;
      ok, results := ProcessNested(height, hashId, index, call, results, all, allEdges);
      assert call.calls[|call.calls|..] == [];
      EdgesOfRows(height, hashId, call, index, parent, old(sequence));
      SuffixOf(old(edges), FlatEdges(call, old(sequence)));
    }

    /** The loop over call.Calls, from the row of the call itself on. */
    method ProcessNested(height: nat, hashId: nat, index: nat, call: Call, own: seq<Row>,
                         ghost all: seq<Row>, ghost allEdges: seq<Edge>) returns (ok: bool, results: seq<Row>)
      requires |own| == 1
      requires CallsDone(height, hashId, call.calls, 0, index, own, index + 1, sequence, edges, all, allEdges)
      modifies this
      ensures ok <==> AllWellFormedIn(call.calls)
      ensures ok ==> results == all && edges == allEdges && sequence == old(sequence) + SizeAll(call.calls)
      decreases call, 0
    {
      results := own;
      var nextIndex := index + 1;
      assert call.calls[0..] == call.calls;
      for i := 0 to |call.calls|
        invariant AllWellFormedIn(call.calls[i..]) <==> AllWellFormedIn(call.calls)
        invariant nextIndex == index + |results|
        invariant sequence + SizeAll(call.calls[i..]) == old(sequence) + SizeAll(call.calls)
        invariant CallsDone(height, hashId, call.calls, i, index, results, nextIndex, sequence, edges, all, allEdges)
      {
        CallsStep(height, hashId, call.calls, i, index, results, nextIndex, sequence, edges, all, allEdges);
        WellFormedSuffix(call.calls, i);
        var nestedOk, nested := ProcessInternalCall(height, hashId, nextIndex, index, call.calls[i]);
        if !nestedOk { return false, []; }
        results := results + nested;
        nextIndex := nextIndex + |nested|;
      }
      assert call.calls[|call.calls|..] == [];
      ok := true;
    }
  }

  // ---- what the rows look like ---------------------------------------------------------

  /** Row k carries the k-th index and sequence number. */
  ghost predicate Numbered(rows: seq<Row>, height: nat, hashId: nat, index: nat, sequence: nat) {
    forall k :: 0 <= k < |rows| ==>
      rows[k].index == index + k && rows[k].sequence == sequence + 1 + k &&
      rows[k].height == height && rows[k].hashId == hashId
  }

  /** Every row from position lo on names parent, or an earlier row of the list. */
  ghost predicate Nested(rows: seq<Row>, lo: nat, index: nat, parent: int) {
    forall k :: lo <= k < |rows| ==> rows[k].parent == parent || index <= rows[k].parent < index + k
  }

  /** Row k is numbered start+k in both counters, and a parent is an earlier row of the call. */
  lemma {:induction false} FlattenNumbers(height: nat, hashId: nat, c: Call, index: nat, parent: int, sequence: nat)
    ensures var rows := Flatten(height, hashId, c, index, parent, sequence);
            rows[0].parent == parent && Numbered(rows, height, hashId, index, sequence) &&
            Nested(rows, 1, index, index)
    decreases c, 0
  {
    FlattenAllNumbers(height, hashId, c.calls, index + 1, index, sequence + 1);
    var rows := Flatten(height, hashId, c, index, parent, sequence);
    var kids := FlattenAll(height, hashId, c.calls, index + 1, index, sequence + 1);
    assert forall k :: 1 <= k < |rows| ==> rows[k] == kids[k - 1];
  }

  lemma {:induction false} FlattenAllNumbers(height: nat, hashId: nat, cs: seq<Call>, index: nat, parent: int,
                                             sequence: nat)
    ensures var rows := FlattenAll(height, hashId, cs, index, parent, sequence);
            Numbered(rows, height, hashId, index, sequence) && Nested(rows, 0, index, parent)
    decreases cs
  {
    if cs != [] {
      var n := Size(cs[0]);
      FlattenNumbers(height, hashId, cs[0], index, parent, sequence);
      FlattenAllNumbers(height, hashId, cs[1..], index + n, parent, sequence + n);
      var rows := FlattenAll(height, hashId, cs, index, parent, sequence);
      var first := Flatten(height, hashId, cs[0], index, parent, sequence);
      var rest := FlattenAll(height, hashId, cs[1..], index + n, parent, sequence + n);
      forall k | 0 <= k < |rows|
        ensures rows[k] == if k < n then first[k] else rest[k - n]
      {}
    }
  }

  // ---- the account edges belong to the rows ------------------------------------------------

  /** The call is from a, to a, or has a among the address-like words of its input. */
  predicate Involves(b: Body, a: nat) {
    (a != 0 && (a == b.from || a == b.to)) || a in b.args
  }

  /** e links an account of row k to that row. */
  ghost predicate EdgeOf(rows: seq<Row>, k: int, e: Edge) {
    0 <= k < |rows| && rows[k].sequence == e.sequence && Involves(rows[k].body, e.account)
  }

  /** The edges are exactly those of the rows, each once. */
  ghost predicate EdgesMatch(rows: seq<Row>, edges: seq<Edge>) {
    Distinct(edges) && forall e :: e in edges <==> exists k :: EdgeOf(rows, k, e)
  }

  lemma {:induction false} FirstSeenMembers(ids: seq<nat>, seen: set<nat>)
    ensures forall a :: a in FirstSeen(ids, seen) <==> a in ids && a !in seen
    ensures Distinct(FirstSeen(ids, seen))
    decreases |ids|
  {
    if ids != [] {
      HeadAndTail(ids);
      if ids[0] in seen {
        FirstSeenMembers(ids[1..], seen);
      } else {
        FirstSeenMembers(ids[1..], seen + {ids[0]});
        DistinctJoin([ids[0]], FirstSeen(ids[1..], seen + {ids[0]}));
      }
    }
  }

  lemma {:induction false} EdgesForMembers(ids: seq<nat>, sequence: nat)
    requires Distinct(ids)
    ensures forall e :: e in EdgesFor(ids, sequence) <==> e.sequence == sequence && e.account in ids
    ensures Distinct(EdgesFor(ids, sequence))
    decreases |ids|
  {
    if ids != [] {
      HeadAndTail(ids);
      DistinctTail(ids);
      NotAfter(ids);
      EdgesForMembers(ids[1..], sequence);
      DistinctJoin([Edge(ids[0], sequence)], EdgesFor(ids[1..], sequence));
    }
  }

  lemma OwnEdges(row: Row)
    ensures Matched([row], EdgesFor(FirstSeen(Accounts(row.body), {}), row.sequence), row.sequence - 1, row.sequence)
  {
    FirstSeenMembers(Accounts(row.body), {});
    EdgesForMembers(FirstSeen(Accounts(row.body), {}), row.sequence);
    forall e ensures (exists k :: EdgeOf([row], k, e)) <==>
      e.sequence == row.sequence && Involves(row.body, e.account) {
      if e.sequence == row.sequence && Involves(row.body, e.account) { assert EdgeOf([row], 0, e); }
    }
  }

  ghost predicate SequencesIn(rows: seq<Row>, lo: int, hi: int) {
    forall k :: 0 <= k < |rows| ==> lo < rows[k].sequence <= hi
  }

  ghost predicate Matched(rows: seq<Row>, edges: seq<Edge>, lo: int, hi: int) {
    EdgesMatch(rows, edges) && SequencesIn(rows, lo, hi)
  }

  /** Two stretches of rows, one after the other. */
  lemma MatchedJoin(r1: seq<Row>, e1: seq<Edge>, r2: seq<Row>, e2: seq<Edge>, rows: seq<Row>, edges: seq<Edge>,
                    lo: int, mid: int, hi: int)
    requires lo <= mid <= hi && Matched(r1, e1, lo, mid) && Matched(r2, e2, mid, hi)
    requires rows == r1 + r2 && edges == e1 + e2
    ensures Matched(rows, edges, lo, hi)
  {
    forall e | e in e1 ensures e.sequence <= mid {
      var k :| EdgeOf(r1, k, e);
    }
    forall e | e in e2 ensures e.sequence > mid {
      var k :| EdgeOf(r2, k, e);
    }
    DistinctJoin(e1, e2);
    MatchMembers(r1, e1, r2, e2);
  }

  lemma MatchMembers(r1: seq<Row>, e1: seq<Edge>, r2: seq<Row>, e2: seq<Edge>)
    requires EdgesMatch(r1, e1) && EdgesMatch(r2, e2)
    ensures forall e :: e in e1 + e2 <==> exists k :: EdgeOf(r1 + r2, k, e)
  {
    forall e ensures e in e1 + e2 <==> exists k :: EdgeOf(r1 + r2, k, e) {
      if k :| EdgeOf(r1 + r2, k, e) {
        if k < |r1| { assert EdgeOf(r1, k, e); } else { assert EdgeOf(r2, k - |r1|, e); }
      }
      if k :| EdgeOf(r1, k, e) { assert EdgeOf(r1 + r2, k, e); }
      if k :| EdgeOf(r2, k, e) { assert EdgeOf(r1 + r2, |r1| + k, e); }
    }
  }

  /** An edge (a, s) is among the edges of a call tree exactly if some row has sequence s and its
      call involves a; and it is there once. */
  lemma {:induction false} EdgesOfRows(height: nat, hashId: nat, c: Call, index: nat, parent: int, sequence: nat)
    ensures EdgesMatch(Flatten(height, hashId, c, index, parent, sequence), FlatEdges(c, sequence))
    ensures SequencesIn(Flatten(height, hashId, c, index, parent, sequence), sequence, sequence + Size(c))
    decreases c, 0
  {
    var row := Row(height, hashId, index, parent, sequence + 1, c.body);
    OwnEdges(row);
    EdgesOfAllRows(height, hashId, c.calls, index + 1, index, sequence + 1);
    MatchedJoin([row], EdgesFor(FirstSeen(Accounts(c.body), {}), sequence + 1),
                FlattenAll(height, hashId, c.calls, index + 1, index, sequence + 1),
                  FlatEdgesAll(c.calls, sequence + 1),
                Flatten(height, hashId, c, index, parent, sequence), FlatEdges(c, sequence),
                sequence, sequence + 1, sequence + Size(c));
  }

  lemma {:induction false} EdgesOfAllRows(height: nat, hashId: nat, cs: seq<Call>, index: nat, parent: int,
                                          sequence: nat)
    ensures Matched(FlattenAll(height, hashId, cs, index, parent, sequence), FlatEdgesAll(cs, sequence),
                    sequence, sequence + SizeAll(cs))
    decreases cs
  {
    if cs == [] {
      NoEdges();
    } else {
      var n := Size(cs[0]);
      EdgesOfRows(height, hashId, cs[0], index, parent, sequence);
      EdgesOfAllRows(height, hashId, cs[1..], index + n, parent, sequence + n);
      AllCons(height, hashId, cs, index, parent, sequence);
      MatchedJoin(Flatten(height, hashId, cs[0], index, parent, sequence), FlatEdges(cs[0], sequence),
                  FlattenAll(height, hashId, cs[1..], index + n, parent, sequence + n),
                  FlatEdgesAll(cs[1..], sequence + n),
                  FlattenAll(height, hashId, cs, index, parent, sequence), FlatEdgesAll(cs, sequence),
                  sequence, sequence + n, sequence + SizeAll(cs));
    }
  }

  lemma NoEdges()
    ensures EdgesMatch([], [])
  {}

  lemma AllCons(height: nat, hashId: nat, cs: seq<Call>, index: nat, parent: int, sequence: nat)
    requires cs != []
    ensures FlattenAll(height, hashId, cs, index, parent, sequence) ==
              Flatten(height, hashId, cs[0], index, parent, sequence) +
              FlattenAll(height, hashId, cs[1..], index + Size(cs[0]), parent, sequence + Size(cs[0]))
    ensures FlatEdgesAll(cs, sequence) == FlatEdges(cs[0], sequence) + FlatEdgesAll(cs[1..], sequence + Size(cs[0]))
  {}

  // ---- rebuilding the tree from Index and ParentIndex -----------------------------------

  /** The tree below row i: its children are the rows naming i as parent, in index order. */
  function Rebuild(rows: seq<Row>, i: nat): Call
    requires i < |rows|
    decreases |rows| - i, 1, 0
  {
    Call(rows[i].body, true, ChildrenFrom(rows, i, i + 1))
  }

  function ChildrenFrom(rows: seq<Row>, p: nat, j: nat): seq<Call>
    requires p < j <= |rows|
    decreases |rows| - p, 0, |rows| - j
  {
    if j == |rows| then []
    else if rows[j].parent == p then [Rebuild(rows, j)] + ChildrenFrom(rows, p, j + 1)
    else ChildrenFrom(rows, p, j + 1)
  }

  /** No row outside [lo, hi) names a row inside as its parent. */
  ghost predicate ClosedRange(rows: seq<Row>, lo: nat, hi: nat) {
    forall k :: 0 <= k < |rows| && !(lo <= k < hi) ==> !(lo <= rows[k].parent < hi)
  }

  lemma {:induction false} SkipForeign(rows: seq<Row>, p: nat, j: nat, end: nat)
    requires p < j <= end <= |rows|
    requires forall k :: j <= k < end ==> rows[k].parent != p
    ensures ChildrenFrom(rows, p, j) == ChildrenFrom(rows, p, end)
    decreases end - j
  {
    if j < end { SkipForeign(rows, p, j + 1, end); }
  }

  lemma {:induction false} RebuildOne(rows: seq<Row>, c: Call, i: nat, height: nat, hashId: nat, parent: int,
                                      sequence: nat)
    requires AllWellFormed(c) && parent < i && i + Size(c) <= |rows|
    requires rows[i..i + Size(c)] == Flatten(height, hashId, c, i, parent, sequence)
    requires ClosedRange(rows, i, i + Size(c))
    ensures Rebuild(rows, i) == c
    decreases c, 0
  {
    var flat := rows[i..i + Size(c)];
    assert rows[i] == flat[0];
    assert rows[i + 1..i + 1 + SizeAll(c.calls)] == flat[1..];
    RebuildKids(rows, c.calls, i, i + 1, height, hashId, sequence + 1);
  }

  lemma FirstChildSlices(rows: seq<Row>, cs: seq<Call>, p: nat, j: nat, height: nat, hashId: nat, sequence: nat)
    requires cs != [] && j + SizeAll(cs) <= |rows|
    requires rows[j..j + SizeAll(cs)] == FlattenAll(height, hashId, cs, j, p, sequence)
    ensures var mid := j + Size(cs[0]);
            mid <= j + SizeAll(cs) &&
            rows[j..mid] == Flatten(height, hashId, cs[0], j, p, sequence) &&
            rows[mid..j + SizeAll(cs)] == FlattenAll(height, hashId, cs[1..], mid, p, sequence + Size(cs[0]))
  {
    var flat := rows[j..j + SizeAll(cs)];
    var mid := j + Size(cs[0]);
    assert rows[j..mid] == flat[..Size(cs[0])];
    assert rows[mid..j + SizeAll(cs)] == flat[Size(cs[0])..];
  }

  /** A slice holding rows numbered from its own start: parents in terms of positions in rows. */
  lemma SliceParents(rows: seq<Row>, lo: nat, hi: nat, from: nat, parent: int)
    requires lo <= hi <= |rows| && Nested(rows[lo..hi], from, lo, parent)
    ensures forall k :: lo + from <= k < hi ==> rows[k].parent == parent || lo <= rows[k].parent < k
  {
    forall k | lo + from <= k < hi ensures rows[k].parent == parent || lo <= rows[k].parent < k {
      assert rows[k] == rows[lo..hi][k - lo];
    }
  }

  /** One child subtree inside a run of siblings: where it lies and that it is closed. */
  lemma FirstChild(rows: seq<Row>, cs: seq<Call>, p: nat, j: nat, height: nat, hashId: nat, sequence: nat)
    requires cs != [] && p < j && j + SizeAll(cs) <= |rows|
    requires rows[j..j + SizeAll(cs)] == FlattenAll(height, hashId, cs, j, p, sequence)
    requires ClosedRange(rows, j, j + SizeAll(cs))
    ensures var mid := j + Size(cs[0]);
            mid <= j + SizeAll(cs) &&
            rows[j..mid] == Flatten(height, hashId, cs[0], j, p, sequence) &&
            rows[mid..j + SizeAll(cs)] == FlattenAll(height, hashId, cs[1..], mid, p, sequence + Size(cs[0])) &&
            rows[j].parent == p &&
            (forall k :: j < k < mid ==> j <= rows[k].parent < k) &&
            ClosedRange(rows, j, mid) && ClosedRange(rows, mid, j + SizeAll(cs))
  {
    var end, mid := j + SizeAll(cs), j + Size(cs[0]);
    FirstChildSlices(rows, cs, p, j, height, hashId, sequence);
    FlattenNumbers(height, hashId, cs[0], j, p, sequence);
    FlattenAllNumbers(height, hashId, cs[1..], mid, p, sequence + Size(cs[0]));
    assert rows[j] == rows[j..mid][0];
    SliceParents(rows, j, mid, 1, j);
    SliceParents(rows, mid, end, 0, p);
  }

  /** A child at j, none until mid, and the other children from mid on. */
  lemma KidsJoin(rows: seq<Row>, cs: seq<Call>, p: nat, j: nat, mid: nat)
    requires p < j < mid <= |rows| && cs != []
    requires rows[j].parent == p && Rebuild(rows, j) == cs[0]
    requires forall k :: j < k < mid ==> rows[k].parent != p
    requires ChildrenFrom(rows, p, mid) == cs[1..]
    ensures ChildrenFrom(rows, p, j) == cs
  {
    SkipForeign(rows, p, j + 1, mid);
  }

  lemma {:induction false} RebuildKids(rows: seq<Row>, cs: seq<Call>, p: nat, j: nat, height: nat, hashId: nat,
                                       sequence: nat)
    requires AllWellFormedIn(cs) && p < j && j + SizeAll(cs) <= |rows|
    requires rows[j..j + SizeAll(cs)] == FlattenAll(height, hashId, cs, j, p, sequence)
    requires forall k :: j + SizeAll(cs) <= k < |rows| ==> rows[k].parent != p
    requires ClosedRange(rows, j, j + SizeAll(cs))
    ensures ChildrenFrom(rows, p, j) == cs
    decreases cs
  {
    if cs == [] {
      SkipForeign(rows, p, j, |rows|);
    } else {
      var mid := j + Size(cs[0]);
      FirstChild(rows, cs, p, j, height, hashId, sequence);
      RebuildOne(rows, cs[0], j, height, hashId, p, sequence);
      RebuildKids(rows, cs[1..], p, mid, height, hashId, sequence + Size(cs[0]));
      KidsJoin(rows, cs, p, j, mid);
    }
  }

  /** Index and ParentIndex determine the call tree: rebuilding from the rows of one
      transaction gives back the tree they were made from. */
  lemma RebuildInverts(height: nat, hashId: nat, c: Call, sequence: nat)
    requires AllWellFormed(c)
    ensures Rebuild(Flatten(height, hashId, c, 0, -1, sequence), 0) == c
  {
    var rows := Flatten(height, hashId, c, 0, -1, sequence);
    assert rows[0..Size(c)] == rows;
    RebuildOne(rows, c, 0, height, hashId, -1, sequence);
  }

  /** Row j is p or reaches p by following parent links. */
  predicate Under(rows: seq<Row>, p: nat, j: nat)
    requires j < |rows|
    decreases j
  {
    j == p || (0 <= rows[j].parent < j && Under(rows, p, rows[j].parent))
  }

  lemma {:induction false} UnderIsRange(rows: seq<Row>, p: nat, hi: nat, j: nat)
    requires p < hi <= |rows| && j < |rows|
    requires ClosedRange(rows, p, hi)
    requires forall k :: p < k < hi ==> p <= rows[k].parent < k
    requires rows[p].parent < p
    ensures Under(rows, p, j) <==> p <= j < hi
    decreases j
  {
    if 0 <= rows[j].parent < j {
      UnderIsRange(rows, p, hi, rows[j].parent);
    }
  }

  /** The rows from p to hi are p and its descendants, nothing else points in. */
  ghost predicate IsSubtree(rows: seq<Row>, p: nat, hi: nat) {
    && p < hi <= |rows| && rows[p].parent < p && ClosedRange(rows, p, hi)
    && (forall k :: p < k < hi ==> p <= rows[k].parent < k)
  }

  lemma {:induction false} SubtreeOf(rows: seq<Row>, c: Call, i: nat, height: nat, hashId: nat, parent: int,
                                     sequence: nat, p: nat)
    requires AllWellFormed(c) && parent < i && i <= p < i + Size(c) <= |rows|
    requires rows[i..i + Size(c)] == Flatten(height, hashId, c, i, parent, sequence)
    requires ClosedRange(rows, i, i + Size(c))
    ensures IsSubtree(rows, p, p + Size(Rebuild(rows, p)))
    decreases c, 0
  {
    var flat := rows[i..i + Size(c)];
    FlattenNumbers(height, hashId, c, i, parent, sequence);
    forall k | i <= k < i + Size(c) ensures rows[k] == flat[k - i] {}
    if p == i {
      RebuildOne(rows, c, i, height, hashId, parent, sequence);
    } else {
      assert rows[i + 1..i + 1 + SizeAll(c.calls)] == flat[1..];
      SubtreeIn(rows, c.calls, i, i + 1, height, hashId, sequence + 1, p);
    }
  }

  lemma {:induction false} SubtreeIn(rows: seq<Row>, cs: seq<Call>, q: nat, j: nat, height: nat, hashId: nat,
                                     sequence: nat, p: nat)
    requires AllWellFormedIn(cs) && q < j <= p < j + SizeAll(cs) <= |rows|
    requires rows[j..j + SizeAll(cs)] == FlattenAll(height, hashId, cs, j, q, sequence)
    requires ClosedRange(rows, j, j + SizeAll(cs))
    ensures IsSubtree(rows, p, p + Size(Rebuild(rows, p)))
    decreases cs
  {
    FirstChild(rows, cs, q, j, height, hashId, sequence);
    var mid := j + Size(cs[0]);
    if p < mid {
      SubtreeOf(rows, cs[0], j, height, hashId, q, sequence, p);
    } else {
      SubtreeIn(rows, cs[1..], q, mid, height, hashId, sequence + Size(cs[0]), p);
    }
  }

  /** The rows below a row, found by following ParentIndex, are one contiguous index range,
      exactly as long as the size of the subtree. */
  lemma SubtreeIsRange(height: nat, hashId: nat, c: Call, sequence: nat, p: nat, j: nat)
    requires AllWellFormed(c) && p < Size(c) && j < Size(c)
    ensures var rows := Flatten(height, hashId, c, 0, -1, sequence);
            Under(rows, p, j) <==> p <= j < p + Size(Rebuild(rows, p))
  {
    var rows := Flatten(height, hashId, c, 0, -1, sequence);
    assert rows[0..Size(c)] == rows;
    SubtreeOf(rows, c, 0, height, hashId, -1, sequence, p);
    UnderIsRange(rows, p, p + Size(Rebuild(rows, p)), j);
  }
}
