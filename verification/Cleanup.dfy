/** The tx-account cleanup as the extension runs it when nothing else writes: reconcileTx,
    ProcessBatch and Run over a mutable tx_accounts table. */
module Cleanup {
  import opened Common
  import opened Address
  import opened Edges
  import Sweep

  class TxAccountCleanup {
    const bech: Bech32
    const dict: Dict
    const txs: map<nat, Tx>
    var rows: Rows
    var saved: int         // last_cleaned_sequence, -1 before the first run

    constructor (bech: Bech32, dict: Dict, txs: map<nat, Tx>, rows: Rows, saved: int)
      ensures this.bech == bech && this.dict == dict && this.txs == txs && this.rows == rows && this.saved == saved
    {
      this.bech, this.dict, this.txs, this.rows, this.saved := bech, dict, txs, rows, saved;
    }

    method ExpectedSet(tx: Tx) returns (expected: set<nat>)
      ensures expected == Expected(bech, dict, tx)
    {
      var addrs := Grep(bech, tx.attrs);
      var todo := addrs;
      expected := {};
      while todo != {}
        invariant todo <= addrs && expected == IdsOf(dict, addrs - todo) - {0}
        decreases todo
      {
        var a :| a in todo;
        assert addrs - (todo - {a}) == (addrs - todo) + {a};
        if a in dict && dict[a] != 0 { expected := expected + {dict[a]}; }
        todo := todo - {a};
      }
      assert addrs - {} == addrs;
      if tx.signer != 0 { expected := expected + {tx.signer}; }
    }

    /** One transaction: diff the entries read earlier against the expected ids, then delete,
        insert where absent, and repair signer flags. */
    method ReconcileTx(actual: map<nat, bool>, s: nat, tx: Tx)
      modifies this`rows
      ensures rows == Reconcile(bech, dict, old(rows), actual, s, tx)
    {
      var expected := ExpectedSet(tx);
      var extra: set<nat>, stale: set<nat> := {}, {};
      var todo := actual.Keys;
      while todo != {}
        invariant todo <= actual.Keys
        invariant extra == set id | id in actual && id !in todo && id !in expected
        invariant stale == set id | id in actual && id !in todo && id in expected && actual[id] != (id == tx.signer)
        decreases todo
      {
        var id :| id in todo;
        if id !in expected {
          extra := extra + {id};
        } else if actual[id] != (id == tx.signer) {
          stale := stale + {id};
        }
        todo := todo - {id};
      }
      var missing := expected - actual.Keys;
      ghost var before := rows;
      DeleteAll(extra, s);
      InsertAll(missing, s, tx.signer);
      FlagAll(stale, s, tx.signer);
      ReconcileWrites(before, actual, s, tx, extra, missing, stale);
    }

    /** The three writes, one after the other, make up the specified reconciliation. */
    lemma ReconcileWrites(before: Rows, actual: map<nat, bool>, s: nat, tx: Tx, extra: set<nat>, missing: set<nat>,
                          stale: set<nat>)
      requires extra == set id | id in actual && id !in Expected(bech, dict, tx)
      requires missing == Expected(bech, dict, tx) - actual.Keys
      requires stale == set id | id in actual && id in Expected(bech, dict, tx) && actual[id] != (id == tx.signer)
      ensures Flagged(WithIds(Without(before, extra, s), missing, s, tx.signer), stale, s, tx.signer)
           == Reconcile(bech, dict, before, actual, s, tx)
    {
      var done := Flagged(WithIds(Without(before, extra, s), missing, s, tx.signer), stale, s, tx.signer);
      var spec := Reconcile(bech, dict, before, actual, s, tx);
      forall e: Edge ensures (e in done <==> e in spec) && (e in done ==> done[e] == spec[e]) {
        WritesAt(before, e, s, tx.signer, extra, missing, stale);
        if e.sequence == s {
          assert e == Edge(e.account, s);
          SpecAt(before, actual, s, tx, e.account);
        } else {
          SpecElsewhere(before, actual, s, tx, e);
        }
      }
    }

    /** What the three writes leave of one row. */
    lemma WritesAt(before: Rows, e: Edge, s: nat, signer: nat, extra: set<nat>, missing: set<nat>, stale: set<nat>)
      ensures var done := Flagged(WithIds(Without(before, extra, s), missing, s, signer), stale, s, signer);
              var here := e.sequence == s;
              var kept := e in before && !(here && e.account in extra);
              (e in done <==> kept || (here && e.account in missing)) &&
              (e in done ==>
                done[e] == if (here && e.account in stale) || !kept then e.account == signer else before[e])
    {
      if e.sequence == s { assert e == Edge(e.account, s); }
    }

    lemma SpecElsewhere(before: Rows, actual: map<nat, bool>, s: nat, tx: Tx, e: Edge)
      requires e.sequence != s
      ensures var spec := Reconcile(bech, dict, before, actual, s, tx);
              (e in spec <==> e in before) && (e in spec ==> spec[e] == before[e])
    {}

    lemma SpecAt(before: Rows, actual: map<nat, bool>, s: nat, tx: Tx, id: nat)
      ensures var want, spec := Expected(bech, dict, tx), Reconcile(bech, dict, before, actual, s, tx);
              var e := Edge(id, s);
              (e in spec <==> (e in before && !(id in actual && id !in want)) || (id in want && id !in actual)) &&
              (e in spec ==>
                spec[e] == if e in before && !(id in actual && id in want && actual[id] != (id == tx.signer))
                           then before[e] else id == tx.signer)
    {}

    static function Without(rows: Rows, ids: set<nat>, s: nat): Rows {
      map e | e in rows && !(e.sequence == s && e.account in ids) :: rows[e]
    }

    static function Flagged(rows: Rows, ids: set<nat>, s: nat, signer: nat): Rows {
      map e | e in rows :: if e.sequence == s && e.account in ids then e.account == signer else rows[e]
    }

    method DeleteAll(ids: set<nat>, s: nat)
      modifies this`rows
      ensures rows == Without(old(rows), ids, s)
    {
      rows := Without(rows, ids, s);
    }

    method InsertAll(ids: set<nat>, s: nat, signer: nat)
      modifies this`rows
      ensures rows == WithIds(old(rows), ids, s, signer)
    {
      var todo := ids;
      while todo != {}
        invariant todo <= ids
        invariant rows == WithIds(old(rows), ids - todo, s, signer)
        decreases todo
      {
        var id :| id in todo;
        if Edge(id, s) !in rows { rows := rows[Edge(id, s) := id == signer]; }
        assert ids - (todo - {id}) == (ids - todo) + {id};
        todo := todo - {id};
      }
      assert ids - {} == ids;
    }

    /** UPDATE signer=false for all, then signer=true for the signer if it is among them. */
    method FlagAll(ids: set<nat>, s: nat, signer: nat)
      modifies this`rows
      ensures rows == Flagged(old(rows), ids, s, signer)
    {
      rows := map e | e in rows :: if e.sequence == s && e.account in ids then false else rows[e];
      if signer in ids && Edge(signer, s) in rows {
        rows := rows[Edge(signer, s) := true];
      }
    }

    ghost predicate CleanRange(rows: Rows, lo: int, hi: int) {
      forall s: nat :: lo <= s <= hi && s in txs ==> Clean(bech, dict, rows, s, txs[s])
    }

    /** The tables agree but for the transactions of the range. */
    ghost predicate OnlyRange(before: Rows, rows: Rows, lo: int, hi: int) {
      forall e: Edge :: !(lo <= e.sequence <= hi && e.sequence in txs) ==>
        (e in before <==> e in rows) && (e in rows ==> rows[e] == before[e])
    }

    ghost predicate CleanBetween(lo: int, hi: int)
      reads this
    {
      CleanRange(rows, lo, hi)
    }

    twostate predicate OnlyBetween(lo: int, hi: int)
      reads this
    {
      OnlyRange(old(rows), rows, lo, hi)
    }

    lemma OneFixed(before: Rows, last: Rows, now: Rows, lo: nat, s: nat)
      requires lo <= s && s in txs && CleanRange(last, lo, s - 1) && OnlyRange(before, last, lo, s - 1)
      requires now == Reconcile(bech, dict, last, ActualAt(before, s), s, txs[s])
      ensures CleanRange(now, lo, s) && OnlyRange(before, now, lo, s)
    {
      assert ActualAt(before, s) == ActualAt(last, s);
      ActualFits(bech, dict, last, s, txs[s]);
      ReconcileExact(bech, dict, last, ActualAt(before, s), s, txs[s]);
      forall x: nat | lo <= x < s && x in txs ensures Clean(bech, dict, now, x, txs[x]) {
        Sweep.ElsewhereKeeps(bech, dict, last, now, s, x, txs[x], map[]);
      }
    }

    /** A lower batch leaves a clean one above it clean. */
    lemma BatchBelow(last: Rows, now: Rows, lo: nat, mid: nat, top: nat)
      requires CleanRange(last, mid + 1, top) && CleanRange(now, lo, mid) && OnlyRange(last, now, lo, mid)
      ensures CleanRange(now, lo, top)
    {
      forall x: nat | mid < x <= top && x in txs ensures Clean(bech, dict, now, x, txs[x]) {
        forall id: nat ensures (Edge(id, x) in last <==> Edge(id, x) in now) &&
                               (Edge(id, x) in now ==> now[Edge(id, x)] == last[Edge(id, x)]) {
          assert Edge(id, x).sequence == x;
        }
      }
    }

    lemma OnlyJoin(before: Rows, last: Rows, now: Rows, lo: nat, mid: nat, top: nat)
      requires lo <= mid <= top && OnlyRange(before, last, mid + 1, top) && OnlyRange(last, now, lo, mid)
      ensures OnlyRange(before, now, lo, top)
    {}

    /** The transactions of the range in ascending order, each against one snapshot of the rows. */
    method ProcessBatch(startSeq: nat, endSeq: nat)
      requires startSeq <= endSeq
      modifies this`rows
      ensures CleanBetween(startSeq, endSeq)
      ensures OnlyBetween(startSeq, endSeq)
    {
      ghost var before := rows;
      var snap := rows;
      for s := startSeq to endSeq + 1
        invariant CleanRange(rows, startSeq, s - 1) && OnlyRange(before, rows, startSeq, s - 1)
        invariant snap == before
      {
        if s in txs {
          ghost var last := rows;
          ReconcileTx(ActualAt(snap, s), s, txs[s]);
          OneFixed(before, last, rows, startSeq, s);
        }
      }
    }

    /** The whole sweep. With a fresh status it starts at the highest sequence; otherwise it goes on
        below the saved one. It always ends, having cleaned everything from there down to 1. */
    method Run()
      requires saved >= -1
      modifies this`rows, this`saved
      ensures saved == 0
      ensures CleanBetween(1, if old(saved) >= 0 then old(saved) else Sweep.MaxSeq(txs))
      ensures OnlyBetween(1, if old(saved) >= 0 then old(saved) else Sweep.MaxSeq(txs))
    {
      var currentSeq := saved;
      if currentSeq < 0 {
        currentSeq := Sweep.MaxSeq(txs);
        saved := currentSeq;
      }
      ghost var top := currentSeq;
      ghost var before := rows;
      while currentSeq > 0
        invariant 0 <= currentSeq <= top && saved == currentSeq
        invariant CleanRange(rows, currentSeq + 1, top) && OnlyRange(before, rows, currentSeq + 1, top)
        decreases currentSeq
      {
        var startSeq := Max(currentSeq - Sweep.BATCH_SIZE + 1, 1);
        ghost var last := rows;
        ProcessBatch(startSeq, currentSeq);
        BatchBelow(last, rows, startSeq, currentSeq, top);
        OnlyJoin(before, last, rows, startSeq, currentSeq, top);
        saved := startSeq - 1;
        currentSeq := startSeq - 1;
      }
    }
  }
}
