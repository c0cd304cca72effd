/** One transaction of the internal-tx extension: all call traces of a block are flattened,
    numbered by one counter and inserted, or nothing changes. */
module InternalTx {
  import opened Common
  import opened CallTree
  import Numbering

  /** hashOk is false when the transaction hash is not hexadecimal; failed traces are skipped. */
  datatype Trace = Trace(hashId: nat, hashOk: bool, failed: bool, call: Call)

  /** Primary key of evm_internal_tx: height, then hash id and index. */
  type RowKey = Numbering.Key<(nat, nat)>

  function TopLevel(t: Trace): Call {
    t.call.(body := t.call.body.(output := ""))
  }

  function KeyOf(r: Row): RowKey {
    Numbering.Key(r.height, (r.hashId, r.index))
  }

  predicate Collectable(ts: seq<Trace>) {
    forall i :: 0 <= i < |ts| ==> ts[i].hashOk && (!ts[i].failed ==> AllWellFormed(ts[i].call))
  }

  // ---- specification -----------------------------------------------------------------

  function BlockSize(ts: seq<Trace>): nat {
    if ts == [] then 0 else (if ts[0].failed then 0 else Size(ts[0].call)) + BlockSize(ts[1..])
  }

  function BlockRows(height: nat, ts: seq<Trace>, sequence: nat): (rows: seq<Row>)
    ensures |rows| == BlockSize(ts)
    decreases |ts|
  {
    if ts == [] then []
    else if ts[0].failed then BlockRows(height, ts[1..], sequence)
    else Flatten(height, ts[0].hashId, TopLevel(ts[0]), 0, -1, sequence) +
         BlockRows(height, ts[1..], sequence + Size(ts[0].call))
  }

  function BlockEdges(ts: seq<Trace>, sequence: nat): seq<Edge>
    decreases |ts|
  {
    if ts == [] then []
    else if ts[0].failed then BlockEdges(ts[1..], sequence)
    else FlatEdges(TopLevel(ts[0]), sequence) + BlockEdges(ts[1..], sequence + Size(ts[0].call))
  }

  /** CreateInBatches with "do nothing on conflict". */
  function InsertRows(table: map<RowKey, Row>, rows: seq<Row>): map<RowKey, Row>
    decreases |rows|
  {
    if rows == [] then table
    else InsertRows(if KeyOf(rows[0]) in table then table else table[KeyOf(rows[0]) := rows[0]], rows[1..])
  }

  function EdgeSet(es: seq<Edge>): set<Edge> {
    set e | e in es
  }

  /** The calls of the first n traces are well formed as far as they are indexed. */
  ghost predicate WellFormedUpTo(ts: seq<Trace>, n: nat) {
    forall k :: 0 <= k < n && k < |ts| && !ts[k].failed ==> AllWellFormed(ts[k].call)
  }

  lemma TopLevelWellFormed(t: Trace)
    ensures AllWellFormed(TopLevel(t)) <==> AllWellFormed(t.call)
  {}

  /** What is collected before trace i, followed by the traces to come, is the whole block. */
  ghost predicate TracesDone(height: nat, ts: seq<Trace>, i: nat, rows: seq<Row>, edges: seq<Edge>, sequence: nat,
                          all: seq<Row>, allEdges: seq<Edge>, end: nat)
    requires i <= |ts|
  {
    && rows + BlockRows(height, ts[i..], sequence) == all
    && edges + BlockEdges(ts[i..], sequence) == allEdges
    && sequence + BlockSize(ts[i..]) == end
  }

  lemma TracesStep(height: nat, ts: seq<Trace>, i: nat, rows: seq<Row>, edges: seq<Edge>, sequence: nat,
                    all: seq<Row>, allEdges: seq<Edge>, end: nat)
    requires i < |ts| && TracesDone(height, ts, i, rows, edges, sequence, all, allEdges, end)
    ensures ts[i].failed ==> TracesDone(height, ts, i + 1, rows, edges, sequence, all, allEdges, end)
    ensures !ts[i].failed ==>
      TracesDone(height, ts, i + 1, rows + Flatten(height, ts[i].hashId, TopLevel(ts[i]), 0, -1, sequence),
              edges + FlatEdges(TopLevel(ts[i]), sequence), sequence + Size(ts[i].call), all, allEdges, end)
  {
    assert ts[i..][0] == ts[i] && ts[i..][1..] == ts[i + 1..];
  }

  // ---- CollectInternalTxs ---------------------------------------------------------------

  class Store {
    var rows: map<RowKey, Row>
    var edges: set<Edge>
    var seqInfo: nat

    constructor ()
      ensures rows == map[] && edges == {} && seqInfo == 0
    {
      rows, edges, seqInfo := map[], {}, 0;
    }

    method CollectInternalTxs(height: nat, traces: seq<Trace>) returns (ok: bool)
      modifies this
      ensures ok <==> Collectable(traces)
      ensures !ok ==> rows == old(rows) && edges == old(edges) && seqInfo == old(seqInfo)
      ensures ok ==> rows == InsertRows(old(rows), BlockRows(height, traces, old(seqInfo)))
      ensures ok ==> edges == old(edges) + EdgeSet(BlockEdges(traces, old(seqInfo)))
      ensures ok ==> forall e :: e in edges <==>
                e in old(edges) || exists k :: EdgeOf(BlockRows(height, traces, old(seqInfo)), k, e)
      ensures ok ==> seqInfo == old(seqInfo) + BlockSize(traces)
    {
      BlockEdgesOfRows(height, traces, seqInfo);
      for i := 0 to |traces|
        invariant forall k :: 0 <= k < i ==> traces[k].hashOk
      {
        if !traces[i].hashOk { return false; }
      }
      var acc := new Accumulator(seqInfo);
      var all;
      ok, all := FlattenTraces(acc, height, traces);
      if !ok { return; }
      rows := InsertRows(rows, all);
      edges := edges + EdgeSet(acc.edges);
      seqInfo := acc.sequence;
    }
  }

  /** The loop over the block's traces; all of it is discarded when one call is malformed. */
  method FlattenTraces(acc: Accumulator, height: nat, traces: seq<Trace>) returns (ok: bool, all: seq<Row>)
    modifies acc
    ensures ok <==> WellFormedUpTo(traces, |traces|)
    ensures ok ==> all == BlockRows(height, traces, old(acc.sequence))
    ensures ok ==> acc.edges == old(acc.edges) + BlockEdges(traces, old(acc.sequence))
    ensures ok ==> acc.sequence == old(acc.sequence) + BlockSize(traces)
  {
    all := [];
    ghost var end := acc.sequence + BlockSize(traces);
    ghost var blockRows := BlockRows(height, traces, acc.sequence);
    ghost var blockEdges := acc.edges + BlockEdges(traces, acc.sequence);
    assert traces[0..] == traces;
    for i := 0 to |traces|
      invariant WellFormedUpTo(traces, i)
      invariant TracesDone(height, traces, i, all, acc.edges, acc.sequence, blockRows, blockEdges, end)
    {
      TracesStep(height, traces, i, all, acc.edges, acc.sequence, blockRows, blockEdges, end);
      TopLevelWellFormed(traces[i]);
      if !traces[i].failed {
        var good, txResults := acc.ProcessInternalCall(height, traces[i].hashId, 0, -1, TopLevel(traces[i]));
        if !good { return false, []; }
        all := all + txResults;
      }
    }
    assert traces[|traces|..] == [];
    ok := true;
  }

  // ---- numbering over blocks --------------------------------------------------------------

  function Seqs(table: map<RowKey, Row>): map<RowKey, nat> {
    map k | k in table :: table[k].sequence
  }

  function IdsOf(rows: seq<Row>): seq<(nat, nat)> {
    seq(|rows|, i requires 0 <= i < |rows| => (rows[i].hashId, rows[i].index))
  }

  /** The hash ids of the traces that are indexed. */
  function Indexed(ts: seq<Trace>): seq<nat> {
    if ts == [] then [] else (if ts[0].failed then [] else [ts[0].hashId]) + Indexed(ts[1..])
  }

  ghost predicate Sequential(rows: seq<Row>, height: nat, sequence: nat) {
    forall k :: 0 <= k < |rows| ==> rows[k].height == height && rows[k].sequence == sequence + 1 + k
  }

  /** Across all traces of a block, row k carries the k-th next number. */
  lemma {:induction false} BlockRowsNumbered(height: nat, ts: seq<Trace>, sequence: nat)
    ensures Sequential(BlockRows(height, ts, sequence), height, sequence)
    decreases |ts|
  {
    if ts != [] {
      if ts[0].failed {
        BlockRowsNumbered(height, ts[1..], sequence);
      } else {
        FlattenNumbers(height, ts[0].hashId, TopLevel(ts[0]), 0, -1, sequence);
        BlockRowsNumbered(height, ts[1..], sequence + Size(ts[0].call));
        SequentialConcat(Flatten(height, ts[0].hashId, TopLevel(ts[0]), 0, -1, sequence),
                         BlockRows(height, ts[1..], sequence + Size(ts[0].call)), height, sequence);
      }
    }
  }

  lemma SequentialConcat(a: seq<Row>, b: seq<Row>, height: nat, sequence: nat)
    requires Sequential(a, height, sequence) && Sequential(b, height, sequence + |a|)
    ensures Sequential(a + b, height, sequence)
  {
    forall k | 0 <= k < |a + b| ensures (a + b)[k] == if k < |a| then a[k] else b[k - |a|] {}
  }

  /** Inserting the rows of a block is the numbered insertion of their keys. */
  lemma {:induction false} InsertIsNumbered(table: map<RowKey, Row>, rows: seq<Row>, height: nat, n: nat)
    requires Sequential(rows, height, n)
    ensures Seqs(InsertRows(table, rows))
         == Numbering.InsertNumbered(Seqs(table), n, Numbering.Keys(Numbering.Block(height, IdsOf(rows))))
    decreases |rows|
  {
    var keys := Numbering.Keys(Numbering.Block(height, IdsOf(rows)));
    if rows != [] {
      assert keys[0] == KeyOf(rows[0]);
      var table' := if KeyOf(rows[0]) in table then table else table[KeyOf(rows[0]) := rows[0]];
      assert Seqs(table') == if keys[0] in Seqs(table) then Seqs(table) else Seqs(table)[keys[0] := n + 1];
      InsertIsNumbered(table', rows[1..], height, n + 1);
      assert keys[1..] == Numbering.Keys(Numbering.Block(height, IdsOf(rows[1..])));
    }
  }

  lemma {:induction false} IdsDistinctIff(height: nat, ts: seq<Trace>, sequence: nat)
    ensures Distinct(IdsOf(BlockRows(height, ts, sequence))) <==> Distinct(Indexed(ts))
    decreases |ts|
  {
    if ts != [] {
      if ts[0].failed {
        IdsDistinctIff(height, ts[1..], sequence);
        assert Indexed(ts) == Indexed(ts[1..]);
      } else {
        IdsDistinctStep(height, ts, sequence);
      }
    }
  }

  /** Rows of one trace: (hash, 0), (hash, 1), ... followed by the ids of the rest. */
  ghost predicate HeadedBy(ids: seq<(nat, nat)>, hash: nat, n: nat, rest: seq<(nat, nat)>) {
    && |ids| == n + |rest| && n >= 1
    && (forall k :: 0 <= k < n ==> ids[k] == (hash, k))
    && (forall k :: 0 <= k < |rest| ==> ids[n + k] == rest[k])
  }

  lemma HeadedDistinct(ids: seq<(nat, nat)>, hash: nat, n: nat, rest: seq<(nat, nat)>)
    requires HeadedBy(ids, hash, n, rest) && WithoutHash(rest, hash)
    ensures Distinct(ids) <==> Distinct(rest)
  {
    if Distinct(ids) {
      forall i, j ensures !Repeats(rest, i, j) {
        assert !Repeats(ids, n + i, n + j);
      }
    }
    if Distinct(rest) {
      forall i, j ensures !Repeats(ids, i, j) {
        assert !Repeats(rest, i - n, j - n);
        if n <= j < |ids| { assert ids[j] == ids[n + (j - n)] == rest[j - n]; }
        if n <= i < |ids| { assert ids[i] == ids[n + (i - n)] == rest[i - n]; }
      }
    }
  }

  lemma ConcatHeaded(first: seq<Row>, rest: seq<Row>, height: nat, hash: nat, sequence: nat)
    requires Numbered(first, height, hash, 0, sequence) && first != []
    ensures HeadedBy(IdsOf(first + rest), hash, |first|, IdsOf(rest))
  {
    assert forall k :: 0 <= k < |first| ==> (first + rest)[k] == first[k];
    assert forall k :: 0 <= k < |rest| ==> (first + rest)[|first| + k] == rest[k];
  }

  lemma IdsHeaded(height: nat, ts: seq<Trace>, sequence: nat)
    requires ts != [] && !ts[0].failed
    ensures HeadedBy(IdsOf(BlockRows(height, ts, sequence)), ts[0].hashId, Size(ts[0].call),
                     IdsOf(BlockRows(height, ts[1..], sequence + Size(ts[0].call))))
  {
    FlattenNumbers(height, ts[0].hashId, TopLevel(ts[0]), 0, -1, sequence);
    ConcatHeaded(Flatten(height, ts[0].hashId, TopLevel(ts[0]), 0, -1, sequence),
                 BlockRows(height, ts[1..], sequence + Size(ts[0].call)), height, ts[0].hashId, sequence);
  }

  lemma IndexedCons(ts: seq<Trace>)
    requires ts != [] && !ts[0].failed
    ensures Indexed(ts) == [ts[0].hashId] + Indexed(ts[1..])
  {}

  lemma {:induction false} IdsMember(height: nat, ts: seq<Trace>, sequence: nat, k: nat)
    requires k < BlockSize(ts)
    ensures IdsOf(BlockRows(height, ts, sequence))[k].0 in Indexed(ts)
    decreases |ts|
  {
    if ts[0].failed {
      IdsMember(height, ts[1..], sequence, k);
    } else {
      IdsHeaded(height, ts, sequence);
      IndexedCons(ts);
      if k >= Size(ts[0].call) {
        var n := Size(ts[0].call);
        IdsMember(height, ts[1..], sequence + n, k - n);
        assert IdsOf(BlockRows(height, ts, sequence))[n + (k - n)] ==
          IdsOf(BlockRows(height, ts[1..], sequence + n))[k - n];
      }
    }
  }

  /** A trace's own rows have distinct indexes from 0; they clash exactly with an equal hash. */
  lemma {:induction false} IdsDistinctStep(height: nat, ts: seq<Trace>, sequence: nat)
    requires ts != [] && !ts[0].failed
    ensures Distinct(IdsOf(BlockRows(height, ts, sequence))) <==> Distinct(Indexed(ts))
    decreases |ts|, 1
  {
    IndexedCons(ts);
    if ts[0].hashId in Indexed(ts[1..]) {
      IdsClash(height, ts, sequence);
      ConsClash(ts[0].hashId, Indexed(ts[1..]));
    } else {
      IdsFresh(height, ts, sequence);
    }
  }

  lemma IdsClash(height: nat, ts: seq<Trace>, sequence: nat)
    requires ts != [] && !ts[0].failed && ts[0].hashId in Indexed(ts[1..])
    ensures !Distinct(IdsOf(BlockRows(height, ts, sequence)))
  {
    var n, hash := Size(ts[0].call), ts[0].hashId;
    IdsHeaded(height, ts, sequence);
    var k := HasFirstRow(height, ts[1..], sequence + n, hash);
    HeadedClash(IdsOf(BlockRows(height, ts, sequence)), hash, n, IdsOf(BlockRows(height, ts[1..], sequence + n)), k);
  }

  lemma {:induction false} IdsFresh(height: nat, ts: seq<Trace>, sequence: nat)
    requires ts != [] && !ts[0].failed && ts[0].hashId !in Indexed(ts[1..])
    ensures Distinct(IdsOf(BlockRows(height, ts, sequence))) <==> Distinct([ts[0].hashId] + Indexed(ts[1..]))
    decreases |ts|, 0
  {
    IdsApart(height, ts, sequence);
    IdsDistinctIff(height, ts[1..], sequence + Size(ts[0].call));
    DistinctCons(ts[0].hashId, Indexed(ts[1..]));
  }

  lemma IdsApart(height: nat, ts: seq<Trace>, sequence: nat)
    requires ts != [] && !ts[0].failed && ts[0].hashId !in Indexed(ts[1..])
    ensures Distinct(IdsOf(BlockRows(height, ts, sequence))) <==>
            Distinct(IdsOf(BlockRows(height, ts[1..], sequence + Size(ts[0].call))))
  {
    var first := Flatten(height, ts[0].hashId, TopLevel(ts[0]), 0, -1, sequence);
    var rest := BlockRows(height, ts[1..], sequence + Size(ts[0].call));
    FlattenNumbers(height, ts[0].hashId, TopLevel(ts[0]), 0, -1, sequence);
    NoneHashed(height, ts[1..], sequence + Size(ts[0].call), ts[0].hashId);
    ApartDistinct(first, rest, height, ts[0].hashId, sequence);
    assert BlockRows(height, ts, sequence) == first + rest;
  }

  lemma ApartDistinct(first: seq<Row>, rest: seq<Row>, height: nat, hash: nat, sequence: nat)
    requires Numbered(first, height, hash, 0, sequence) && first != [] && WithoutHash(IdsOf(rest), hash)
    ensures Distinct(IdsOf(first + rest)) <==> Distinct(IdsOf(rest))
  {
    ConcatHeaded(first, rest, height, hash, sequence);
    HeadedDistinct(IdsOf(first + rest), hash, |first|, IdsOf(rest));
  }

  ghost predicate WithoutHash(ids: seq<(nat, nat)>, hash: nat) {
    forall k :: 0 <= k < |ids| ==> ids[k].0 != hash
  }

  lemma NoneHashed(height: nat, ts: seq<Trace>, sequence: nat, hash: nat)
    requires hash !in Indexed(ts)
    ensures WithoutHash(IdsOf(BlockRows(height, ts, sequence)), hash)
  {
    forall k | 0 <= k < BlockSize(ts) ensures IdsOf(BlockRows(height, ts, sequence))[k].0 != hash {
      IdsMember(height, ts, sequence, k);
    }
  }

  lemma HeadedClash(ids: seq<(nat, nat)>, hash: nat, n: nat, rest: seq<(nat, nat)>, k: nat)
    requires HeadedBy(ids, hash, n, rest) && k < |rest| && rest[k] == (hash, 0)
    ensures !Distinct(ids)
  {
    assert ids[n + k] == rest[k] == ids[0];
    assert Repeats(ids, 0, n + k);
  }

  lemma ConsClash(x: nat, s: seq<nat>)
    requires x in s
    ensures !Distinct([x] + s)
  {
    var i :| 0 <= i < |s| && s[i] == x;
    assert Repeats([x] + s, 0, i + 1);
  }

  lemma DistinctCons(x: nat, s: seq<nat>)
    requires x !in s
    ensures Distinct([x] + s) <==> Distinct(s)
  {
    var t := [x] + s;
    assert forall i :: 0 <= i < |s| ==> t[i + 1] == s[i];
    if Distinct(t) {
      forall i, j ensures !Repeats(s, i, j) { assert !Repeats(t, i + 1, j + 1); }
    }
    if Distinct(s) {
      forall i, j ensures !Repeats(t, i, j) {
        assert !Repeats(s, i - 1, j - 1);
        assert 0 < j < |t| ==> t[j] in s;
      }
    }
  }

  lemma {:induction false} HasFirstRow(height: nat, ts: seq<Trace>, sequence: nat, hash: nat) returns (k: nat)
    requires hash in Indexed(ts)
    ensures k < BlockSize(ts) && IdsOf(BlockRows(height, ts, sequence))[k] == (hash, 0)
    decreases |ts|
  {
    if ts[0].failed {
      k := HasFirstRow(height, ts[1..], sequence, hash);
    } else {
      IdsHeaded(height, ts, sequence);
      IndexedCons(ts);
      if ts[0].hashId == hash {
        k := 0;
      } else {
        var j := HasFirstRow(height, ts[1..], sequence + Size(ts[0].call), hash);
        k := Size(ts[0].call) + j;
      }
    }
  }

  function IdBlock(height: nat, ts: seq<Trace>, n: nat): Numbering.Block<(nat, nat)> {
    Numbering.Block(height, IdsOf(BlockRows(height, ts, n)))
  }

  lemma BlockInserted(table: map<RowKey, Row>, n: nat, height: nat, ts: seq<Trace>)
    ensures Seqs(InsertRows(table, BlockRows(height, ts, n)))
         == Numbering.InsertNumbered(Seqs(table), n, Numbering.Keys(IdBlock(height, ts, n)))
    ensures |IdBlock(height, ts, n).ids| == BlockSize(ts)
  {
    BlockRowsNumbered(height, ts, n);
    InsertIsNumbered(table, BlockRows(height, ts, n), height, n);
  }

  /** One block of internal transactions at a new height keeps the stored sequence numbers
      exactly 1..N, so MAX(sequence) stays the row count, if and only if no two of its indexed
      traces share a hash. */
  lemma BlockKeepsNumbersIff(table: map<RowKey, Row>, n: nat, height: nat, ts: seq<Trace>)
    requires Numbering.Exact(Seqs(table), n) && Numbering.Below(Seqs(table), height)
    ensures Numbering.Exact(Seqs(InsertRows(table, BlockRows(height, ts, n))), n + BlockSize(ts))
       <==> Distinct(Indexed(ts))
  {
    BlockInserted(table, n, height, ts);
    IdsDistinctIff(height, ts, n);
    NumberedIff(Seqs(table), n, IdBlock(height, ts, n), Seqs(InsertRows(table, BlockRows(height, ts, n))),
                BlockSize(ts));
  }

  lemma NumberedIff(seqs: map<RowKey, nat>, n: nat, block: Numbering.Block<(nat, nat)>, seqs': map<RowKey, nat>,
                    size: nat)
    requires Numbering.Exact(seqs, n) && Numbering.Below(seqs, block.height) && size == |block.ids|
    requires seqs' == Numbering.InsertNumbered(seqs, n, Numbering.Keys(block))
    ensures Numbering.Exact(seqs', n + size) <==> Distinct(block.ids)
  {
    Numbering.FreshIff(seqs, block);
    Numbering.ExactIff(seqs, n, Numbering.Keys(block));
  }

  // ---- numbering over a run of blocks -----------------------------------------------------

  datatype TracedBlock = TracedBlock(height: nat, traces: seq<Trace>)

  /** The table after a run of blocks, n being the counter before it. */
  function InsertBlocks(table: map<RowKey, Row>, n: nat, bs: seq<TracedBlock>): map<RowKey, Row>
    decreases |bs|
  {
    if bs == [] then table
    else InsertBlocks(InsertRows(table, BlockRows(bs[0].height, bs[0].traces, n)), n + BlockSize(bs[0].traces), bs[1..])
  }

  function RunSize(bs: seq<TracedBlock>): nat {
    if bs == [] then 0 else BlockSize(bs[0].traces) + RunSize(bs[1..])
  }

  ghost predicate Ascend(bs: seq<TracedBlock>) {
    forall i, j :: 0 <= i < j < |bs| ==> bs[i].height < bs[j].height
  }

  /** No two indexed traces of a block share a hash. */
  ghost predicate NoSharedHash(bs: seq<TracedBlock>) {
    forall i :: 0 <= i < |bs| ==> Distinct(Indexed(bs[i].traces))
  }

  /** The run as blocks of row ids. */
  function IdBlocks(n: nat, bs: seq<TracedBlock>): (ids: seq<Numbering.Block<(nat, nat)>>)
    ensures |ids| == |bs| && forall i :: 0 <= i < |bs| ==> ids[i].height == bs[i].height
    decreases |bs|
  {
    if bs == [] then []
    else [IdBlock(bs[0].height, bs[0].traces, n)] + IdBlocks(n + BlockSize(bs[0].traces), bs[1..])
  }

  lemma BlocksStep(table: map<RowKey, Row>, n: nat, bs: seq<TracedBlock>, table': map<RowKey, Row>, n': nat)
    requires bs != [] && table' == InsertRows(table, BlockRows(bs[0].height, bs[0].traces, n)) &&
             n' == n + BlockSize(bs[0].traces)
    ensures Numbering.Collected(Seqs(table), n, IdBlocks(n, bs)) ==
            Numbering.Collected(Seqs(table'), n', IdBlocks(n', bs[1..]))
  {
    IdBlocksCons(n, bs);
    BlockInserted(table, n, bs[0].height, bs[0].traces);
    CollectedCons(Seqs(table), n, IdBlocks(n, bs), Seqs(table'));
  }

  lemma {:induction false} TotalIsSize(n: nat, bs: seq<TracedBlock>)
    ensures Numbering.Total(IdBlocks(n, bs)) == RunSize(bs)
    decreases |bs|
  {
    if bs != [] {
      IdBlocksCons(n, bs);
      TotalIsSize(n + BlockSize(bs[0].traces), bs[1..]);
    }
  }

  lemma {:induction false} BlocksInserted(table: map<RowKey, Row>, n: nat, bs: seq<TracedBlock>)
    ensures Seqs(InsertBlocks(table, n, bs)) == Numbering.Collected(Seqs(table), n, IdBlocks(n, bs))
    decreases |bs|
  {
    if bs != [] {
      var table', n' := InsertRows(table, BlockRows(bs[0].height, bs[0].traces, n)), n + BlockSize(bs[0].traces);
      BlocksInserted(table', n', bs[1..]);
      BlocksStep(table, n, bs, table', n');
      assert InsertBlocks(table, n, bs) == InsertBlocks(table', n', bs[1..]);
    }
  }

  lemma IdBlocksCons(n: nat, bs: seq<TracedBlock>)
    requires bs != []
    ensures IdBlocks(n, bs)[0] == IdBlock(bs[0].height, bs[0].traces, n)
    ensures IdBlocks(n, bs)[1..] == IdBlocks(n + BlockSize(bs[0].traces), bs[1..])
  {}

  lemma CollectedCons(t: map<RowKey, nat>, n: nat, ids: seq<Numbering.Block<(nat, nat)>>, t': map<RowKey, nat>)
    requires ids != [] && t' == Numbering.InsertNumbered(t, n, Numbering.Keys(ids[0]))
    ensures Numbering.Collected(t, n, ids) == Numbering.Collected(t', n + |ids[0].ids|, ids[1..])
  {}

  lemma {:induction false} NoRepeatsIff(n: nat, bs: seq<TracedBlock>)
    ensures Numbering.NoRepeats(IdBlocks(n, bs)) <==> NoSharedHash(bs)
    decreases |bs|
  {
    if bs != [] {
      var n' := n + BlockSize(bs[0].traces);
      IdsDistinctIff(bs[0].height, bs[0].traces, n);
      NoRepeatsIff(n', bs[1..]);
      assert IdBlocks(n, bs)[1..] == IdBlocks(n', bs[1..]);
      Numbering.NoRepeatsTail(IdBlocks(n, bs));
      assert NoSharedHash(bs) <==> Distinct(Indexed(bs[0].traces)) && NoSharedHash(bs[1..]) by {
        assert forall i :: 0 < i < |bs| ==> bs[i] == bs[1..][i - 1];
      }
    }
  }

  /** Over any run of blocks of growing height above the stored ones, the sequence numbers of the
      internal transactions end up exactly 1..N, N being the counter, if and only if no block holds
      two indexed traces with one hash. */
  lemma RunKeepsNumbersIff(table: map<RowKey, Row>, n: nat, bs: seq<TracedBlock>)
    requires Numbering.Exact(Seqs(table), n) && Ascend(bs)
    requires bs != [] ==> Numbering.Below(Seqs(table), bs[0].height)
    ensures Numbering.Exact(Seqs(InsertBlocks(table, n, bs)), n + RunSize(bs)) <==> NoSharedHash(bs)
  {
    BlocksInserted(table, n, bs);
    TotalIsSize(n, bs);
    NoRepeatsIff(n, bs);
    Numbering.CollectedExactIff(Seqs(table), n, IdBlocks(n, bs));
  }

  /** Indexing from an empty table, MAX(sequence) is then the number of internal transactions. */
  lemma RunFastCount(empty: map<RowKey, Row>, bs: seq<TracedBlock>)
    requires empty == map[] && Ascend(bs) && NoSharedHash(bs)
    ensures var table := InsertBlocks(empty, 0, bs);
            Numbering.MaxNumber(Seqs(table)) == |table| == RunSize(bs)
  {
    assert Seqs(empty) == map[];
    Numbering.EmptyExact(Seqs(empty));
    RunKeepsNumbersIff(empty, 0, bs);
    var table := InsertBlocks(empty, 0, bs);
    Numbering.FastCountIsCount(Seqs(table), RunSize(bs));
    assert Seqs(table).Keys == table.Keys;
  }

  // ---- the account edges of a block -----------------------------------------------------------

  /** The edges collected for a block are exactly those of its rows, each once. */
  lemma {:induction false} BlockEdgesOfRows(height: nat, ts: seq<Trace>, sequence: nat)
    ensures EdgesMatch(BlockRows(height, ts, sequence), BlockEdges(ts, sequence))
    ensures SequencesIn(BlockRows(height, ts, sequence), sequence, sequence + BlockSize(ts))
    decreases |ts|
  {
    if ts == [] {
      NoEdges();
    } else if ts[0].failed {
      BlockEdgesOfRows(height, ts[1..], sequence);
    } else {
      var n := Size(ts[0].call);
      EdgesOfRows(height, ts[0].hashId, TopLevel(ts[0]), 0, -1, sequence);
      BlockEdgesOfRows(height, ts[1..], sequence + n);
      BlockCons(height, ts, sequence);
      MatchedJoin(Flatten(height, ts[0].hashId, TopLevel(ts[0]), 0, -1, sequence), FlatEdges(TopLevel(ts[0]), sequence),
                  BlockRows(height, ts[1..], sequence + n), BlockEdges(ts[1..], sequence + n),
                  BlockRows(height, ts, sequence), BlockEdges(ts, sequence),
                  sequence, sequence + n, sequence + BlockSize(ts));
    }
  }

  lemma BlockCons(height: nat, ts: seq<Trace>, sequence: nat)
    requires ts != [] && !ts[0].failed
    ensures BlockRows(height, ts, sequence) ==
              Flatten(height, ts[0].hashId, TopLevel(ts[0]), 0, -1, sequence) +
              BlockRows(height, ts[1..], sequence + Size(ts[0].call))
    ensures BlockEdges(ts, sequence) ==
              FlatEdges(TopLevel(ts[0]), sequence) + BlockEdges(ts[1..], sequence + Size(ts[0].call))
  {}

  /** Row j is inserted: its key is new, and no earlier row has it. */
  ghost predicate Kept(table: map<RowKey, Row>, rows: seq<Row>, j: int) {
    0 <= j < |rows| && KeyOf(rows[j]) !in table && forall i :: 0 <= i < j ==> KeyOf(rows[i]) != KeyOf(rows[j])
  }

  lemma {:induction false} NewRowsKept(table: map<RowKey, Row>, rows: seq<Row>, k: RowKey)
    requires k in InsertRows(table, rows) && k !in table
    ensures exists j :: Kept(table, rows, j) && KeyOf(rows[j]) == k && rows[j] == InsertRows(table, rows)[k]
    decreases |rows|
  {
    if KeyOf(rows[0]) == k {
      InsertStores(table, rows, 0);
      assert Kept(table, rows, 0);
    } else {
      var table' := if KeyOf(rows[0]) in table then table else table[KeyOf(rows[0]) := rows[0]];
      NewRowsKept(table', rows[1..], k);
      var j :| Kept(table', rows[1..], j) && KeyOf(rows[1..][j]) == k && rows[1..][j] == InsertRows(table, rows)[k];
      assert rows[j + 1] == rows[1..][j];
      assert forall i :: 0 < i < j + 1 ==> rows[i] == rows[1..][i - 1];
      assert Kept(table, rows, j + 1);
    }
  }

  /** e links an account of a row that this block added to it. */
  ghost predicate EdgeOfStored(table: map<RowKey, Row>, stored: map<RowKey, Row>, k: RowKey, e: Edge) {
    k in stored && k !in table && stored[k].sequence == e.sequence && Involves(stored[k].body, e.account)
  }

  ghost predicate HasAccounts(b: Body) {
    b.from != 0 || b.to != 0 || b.args != []
  }

  lemma KeptEdge(table: map<RowKey, Row>, rows: seq<Row>, j: nat, e: Edge)
    requires Kept(table, rows, j) && EdgeOf(rows, j, e)
    ensures EdgeOfStored(table, InsertRows(table, rows), KeyOf(rows[j]), e)
  {
    InsertStores(table, rows, j);
  }

  lemma StoredEdge(table: map<RowKey, Row>, rows: seq<Row>, k: RowKey, e: Edge) returns (j: int)
    requires EdgeOfStored(table, InsertRows(table, rows), k, e)
    ensures Kept(table, rows, j) && EdgeOf(rows, j, e)
  {
    NewRowsKept(table, rows, k);
    j :| Kept(table, rows, j) && KeyOf(rows[j]) == k && rows[j] == InsertRows(table, rows)[k];
  }

  lemma SomeEdge(rows: seq<Row>, j: nat) returns (e: Edge)
    requires j < |rows| && HasAccounts(rows[j].body)
    ensures EdgeOf(rows, j, e)
  {
    var b := rows[j].body;
    e := Edge(if b.from != 0 then b.from else if b.to != 0 then b.to else b.args[0], rows[j].sequence);
  }

  ghost predicate AgreesOn(table: map<RowKey, Row>, stored: map<RowKey, Row>, edges: seq<Edge>, e: Edge) {
    e in edges <==> exists k :: EdgeOfStored(table, stored, k, e)
  }

  /** The edges of a block are exactly those of the rows it added to the table if and only if every
      row that names an account was inserted. */
  lemma StoredEdgesIff(table: map<RowKey, Row>, n: nat, height: nat, ts: seq<Trace>)
    ensures var rows := BlockRows(height, ts, n);
            (forall e :: AgreesOn(table, InsertRows(table, rows), BlockEdges(ts, n), e)) <==>
            (forall j :: 0 <= j < |rows| && HasAccounts(rows[j].body) ==> Kept(table, rows, j))
  {
    var rows := BlockRows(height, ts, n);
    var stored := InsertRows(table, rows);
    BlockEdgesOfRows(height, ts, n);
    BlockRowsNumbered(height, ts, n);
    if forall j :: 0 <= j < |rows| && HasAccounts(rows[j].body) ==> Kept(table, rows, j) {
      forall e ensures AgreesOn(table, stored, BlockEdges(ts, n), e) {
        if j :| EdgeOf(rows, j, e) { KeptEdge(table, rows, j, e); }
        if k :| EdgeOfStored(table, stored, k, e) { var j := StoredEdge(table, rows, k, e); }
      }
    } else {
      var j :| 0 <= j < |rows| && HasAccounts(rows[j].body) && !Kept(table, rows, j);
      LostEdge(table, rows, BlockEdges(ts, n), height, n, j);
    }
  }

  /** The edges of a row that is not inserted have none. */
  lemma LostEdge(table: map<RowKey, Row>, rows: seq<Row>, edges: seq<Edge>, height: nat, n: nat, j: nat)
    requires EdgesMatch(rows, edges) && Sequential(rows, height, n)
    requires j < |rows| && HasAccounts(rows[j].body) && !Kept(table, rows, j)
    ensures exists e :: !AgreesOn(table, InsertRows(table, rows), edges, e)
  {
    var e := SomeEdge(rows, j);
    if k :| EdgeOfStored(table, InsertRows(table, rows), k, e) {
      var i := StoredEdge(table, rows, k, e);
    }
    assert !AgreesOn(table, InsertRows(table, rows), edges, e);
  }

  /** When the block is new and no two of its indexed traces share a hash, all rows are inserted. */
  lemma EachKept(table: map<RowKey, Row>, n: nat, height: nat, ts: seq<Trace>, j: nat)
    requires Numbering.Below(Seqs(table), height) && Distinct(Indexed(ts)) && j < BlockSize(ts)
    ensures Kept(table, BlockRows(height, ts, n), j)
  {
    var rows := BlockRows(height, ts, n);
    BlockRowsNumbered(height, ts, n);
    IdsDistinctIff(height, ts, n);
    forall i | 0 <= i < j ensures KeyOf(rows[i]) != KeyOf(rows[j]) {
      assert !Repeats(IdsOf(rows), i, j);
    }
    assert KeyOf(rows[j]) !in Seqs(table);
  }

  // ---- reading a transaction's tree back from the table ---------------------------------

  /** The rows of one transaction in index order. */
  function Fetch(table: map<RowKey, Row>, height: nat, hashId: nat, n: nat): seq<Row>
    requires forall i :: 0 <= i < n ==> Numbering.Key(height, (hashId, i)) in table
  {
    seq(n, i requires 0 <= i < n => table[Numbering.Key(height, (hashId, i))])
  }

  lemma {:induction false} InsertKeeps(table: map<RowKey, Row>, rows: seq<Row>, k: RowKey)
    requires k in table
    ensures k in InsertRows(table, rows) && InsertRows(table, rows)[k] == table[k]
    decreases |rows|
  {
    if rows != [] {
      InsertKeeps(if KeyOf(rows[0]) in table then table else table[KeyOf(rows[0]) := rows[0]], rows[1..], k);
    }
  }

  lemma {:induction false} InsertStores(table: map<RowKey, Row>, rows: seq<Row>, j: nat)
    requires j < |rows| && KeyOf(rows[j]) !in table
    requires forall i :: 0 <= i < j ==> KeyOf(rows[i]) != KeyOf(rows[j])
    ensures KeyOf(rows[j]) in InsertRows(table, rows) && InsertRows(table, rows)[KeyOf(rows[j])] == rows[j]
    decreases |rows|
  {
    var table' := if KeyOf(rows[0]) in table then table else table[KeyOf(rows[0]) := rows[0]];
    if j == 0 {
      InsertKeeps(table', rows[1..], KeyOf(rows[0]));
    } else {
      assert KeyOf(rows[0]) != KeyOf(rows[j]);
      InsertStores(table', rows[1..], j - 1);
    }
  }

  ghost predicate Holds(rows: seq<Row>, lo: nat, part: seq<Row>) {
    lo + |part| <= |rows| && rows[lo..lo + |part|] == part
  }

  lemma HoldsInConcat(a: seq<Row>, b: seq<Row>, lo: nat, part: seq<Row>)
    ensures Holds(a + b, 0, a)
    ensures Holds(b, lo, part) ==> Holds(a + b, |a| + lo, part)
  {
    assert (a + b)[0..|a|] == a;
    if Holds(b, lo, part) {
      assert (a + b)[|a| + lo..|a| + lo + |part|] == b[lo..lo + |part|];
    }
  }

  ghost predicate RowOfTrace(row: Row, height: nat, ts: seq<Trace>, i: nat) {
    i < |ts| && !ts[i].failed && row.height == height && row.hashId == ts[i].hashId && row.index < Size(ts[i].call)
  }

  lemma FirstTraceRow(height: nat, ts: seq<Trace>, sequence: nat, k: nat)
    requires ts != [] && !ts[0].failed && k < Size(ts[0].call)
    ensures RowOfTrace(Flatten(height, ts[0].hashId, TopLevel(ts[0]), 0, -1, sequence)[k], height, ts, 0)
  {
    FlattenNumbers(height, ts[0].hashId, TopLevel(ts[0]), 0, -1, sequence);
  }

  lemma LaterTraceRow(row: Row, height: nat, ts: seq<Trace>, i: nat)
    requires ts != [] && RowOfTrace(row, height, ts[1..], i)
    ensures RowOfTrace(row, height, ts, i + 1)
  {}

  /** Every row of a block belongs to a trace that did not fail. */
  lemma {:induction false} TraceOfRow(height: nat, ts: seq<Trace>, sequence: nat, k: nat) returns (i: nat)
    requires k < BlockSize(ts)
    ensures RowOfTrace(BlockRows(height, ts, sequence)[k], height, ts, i)
    decreases |ts|
  {
    if ts[0].failed {
      var j := TraceOfRow(height, ts[1..], sequence, k);
      LaterTraceRow(BlockRows(height, ts[1..], sequence)[k], height, ts, j);
      i := j + 1;
    } else {
      var n := Size(ts[0].call);
      BlockCons(height, ts, sequence);
      if k < n {
        FirstTraceRow(height, ts, sequence, k);
        i := 0;
      } else {
        var j := TraceOfRow(height, ts[1..], sequence + n, k - n);
        LaterTraceRow(BlockRows(height, ts[1..], sequence + n)[k - n], height, ts, j);
        i := j + 1;
      }
    }
  }

  lemma {:induction false} RowsOfTrace(height: nat, ts: seq<Trace>, sequence: nat, i: nat) returns (lo: nat, start: nat)
    requires i < |ts| && !ts[i].failed
    ensures Holds(BlockRows(height, ts, sequence), lo, Flatten(height, ts[i].hashId, TopLevel(ts[i]), 0, -1, start))
    decreases |ts|
  {
    if ts[0].failed {
      lo, start := RowsOfTrace(height, ts[1..], sequence, i - 1);
    } else {
      var first := Flatten(height, ts[0].hashId, TopLevel(ts[0]), 0, -1, sequence);
      var rest := BlockRows(height, ts[1..], sequence + Size(ts[0].call));
      if i == 0 {
        lo, start := 0, sequence;
        HoldsInConcat(first, rest, 0, first);
      } else {
        var lo';
        lo', start := RowsOfTrace(height, ts[1..], sequence + Size(ts[0].call), i - 1);
        HoldsInConcat(first, rest, lo', Flatten(height, ts[i].hashId, TopLevel(ts[i]), 0, -1, start));
        lo := |first| + lo';
      }
    }
  }

  /** After a block with distinct hashes is stored at a new height, selecting the rows of one of
      its transactions in index order and rebuilding gives back the traced call tree, apart from
      the output of the top-level call. */
  lemma StoredTree(table: map<RowKey, Row>, n: nat, height: nat, ts: seq<Trace>, i: nat)
    requires Numbering.Below(Seqs(table), height) && Collectable(ts) && Distinct(Indexed(ts))
    requires i < |ts| && !ts[i].failed
    ensures var stored := InsertRows(table, BlockRows(height, ts, n));
            var size := Size(ts[i].call);
            (forall k :: 0 <= k < size ==> Numbering.Key(height, (ts[i].hashId, k)) in stored) &&
            Rebuild(Fetch(stored, height, ts[i].hashId, size), 0) ==
              ts[i].call.(body := ts[i].call.body.(output := ""))
  {
    var stored := InsertRows(table, BlockRows(height, ts, n));
    var size := Size(ts[i].call);
    var lo, start := RowsOfTrace(height, ts, n, i);
    var flat := Flatten(height, ts[i].hashId, TopLevel(ts[i]), 0, -1, start);
    FlattenNumbers(height, ts[i].hashId, TopLevel(ts[i]), 0, -1, start);
    forall k | 0 <= k < size
      ensures Numbering.Key(height, (ts[i].hashId, k)) in stored &&
              stored[Numbering.Key(height, (ts[i].hashId, k))] == flat[k]
    {
      StoredSlice(table, n, height, ts, lo, flat, k);
    }
    assert Fetch(stored, height, ts[i].hashId, size) == flat;
    TopLevelWellFormed(ts[i]);
    RebuildInverts(height, ts[i].hashId, TopLevel(ts[i]), start);
  }

  lemma StoredSlice(table: map<RowKey, Row>, n: nat, height: nat, ts: seq<Trace>, lo: nat, part: seq<Row>, k: nat)
    requires Numbering.Below(Seqs(table), height) && Distinct(Indexed(ts))
    requires Holds(BlockRows(height, ts, n), lo, part) && k < |part|
    ensures var stored := InsertRows(table, BlockRows(height, ts, n));
            KeyOf(part[k]) in stored && stored[KeyOf(part[k])] == part[k]
  {
    assert BlockRows(height, ts, n)[lo..lo + |part|][k] == BlockRows(height, ts, n)[lo + k];
    StoredRow(table, n, height, ts, lo + k);
  }

  lemma StoredRow(table: map<RowKey, Row>, n: nat, height: nat, ts: seq<Trace>, j: nat)
    requires Numbering.Below(Seqs(table), height) && Distinct(Indexed(ts)) && j < BlockSize(ts)
    ensures var rows := BlockRows(height, ts, n);
            KeyOf(rows[j]) in InsertRows(table, rows) && InsertRows(table, rows)[KeyOf(rows[j])] == rows[j]
  {
    var rows := BlockRows(height, ts, n);
    EachKept(table, n, height, ts, j);
    InsertStores(table, rows, j);
  }
}
