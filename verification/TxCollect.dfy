/** The tx submodule's collect: one sequence number per transaction of the block, and one
    tx_accounts row per distinct account, inserted with "do nothing on conflict". */
module TxCollect {
  import opened Common
  import opened Address
  import Edges
  import Numbering

  type TxKey = Numbering.Key<string>

  /** A transaction of a scraped block; signer is the address of its first signer. */
  datatype ScrapedTx = ScrapedTx(hash: string, attrs: seq<Edges.Attr>, signer: string)

  /** The stored transaction, once the dictionary gives the signer an id. */
  function Stored(dict: Edges.Dict, t: ScrapedTx): Edges.Tx
    requires t.signer in dict
  {
    Edges.Tx(dict[t.signer], t.attrs)
  }

  function Hashes(ts: seq<ScrapedTx>): (hs: seq<string>)
    ensures |hs| == |ts| && forall i :: 0 <= i < |ts| ==> hs[i] == ts[i].hash
  {
    seq(|ts|, i requires 0 <= i < |ts| => ts[i].hash)
  }

  /** The block's transactions as rows to be numbered. */
  function BlockKeys(height: nat, ts: seq<ScrapedTx>): seq<TxKey> {
    Numbering.Keys(Numbering.Block(height, Hashes(ts)))
  }

  function CollectEdges(bech: Bech32, dict: Edges.Dict, rows: Edges.Rows, n: nat, ts: seq<ScrapedTx>): Edges.Rows
    requires forall i :: 0 <= i < |ts| ==> ts[i].signer in dict
    decreases |ts|
  {
    if ts == [] then rows
    else CollectEdges(bech, dict, Edges.CollectRows(bech, dict, rows, n + 1, Stored(dict, ts[0]), ts[0].signer), n + 1,
                      ts[1..])
  }

  function WithTx(t: map<TxKey, nat>, key: TxKey, n: nat): map<TxKey, nat> {
    if key in t then t else t[key := n]
  }

  lemma InsertFrom(t: map<TxKey, nat>, n: nat, keys: seq<TxKey>, i: nat, t': map<TxKey, nat>)
    requires i < |keys| && t' == WithTx(t, keys[i], n + 1)
    ensures Numbering.InsertNumbered(t, n, keys[i..]) == Numbering.InsertNumbered(t', n + 1, keys[i + 1..])
  {
    assert keys[i..][0] == keys[i] && keys[i..][1..] == keys[i + 1..];
  }

  lemma EdgesFrom(bech: Bech32, dict: Edges.Dict, rows: Edges.Rows, n: nat, ts: seq<ScrapedTx>, i: nat,
                  rows': Edges.Rows)
    requires i < |ts| && forall j :: 0 <= j < |ts| ==> ts[j].signer in dict
    requires rows' == Edges.CollectRows(bech, dict, rows, n + 1, Stored(dict, ts[i]), ts[i].signer)
    ensures CollectEdges(bech, dict, rows, n, ts[i..]) == CollectEdges(bech, dict, rows', n + 1, ts[i + 1..])
  {
    assert ts[i..][0] == ts[i] && ts[i..][1..] == ts[i + 1..];
  }

  class TxStore {
    const bech: Bech32
    var txs: map<TxKey, nat>   // sequence of the tx table by primary key
    var edges: Edges.Rows
    var seqInfo: nat

    constructor (bech: Bech32)
      ensures this.bech == bech && txs == map[] && edges == map[] && seqInfo == 0
    {
      this.bech, txs, edges, seqInfo := bech, map[], map[], 0;
    }

    /** GrepAddressesFromTx: every candidate of every attribute but `ret`, if it parses. */
    method GrepAddressesFromTx(attrs: seq<Edges.Attr>) returns (grepped: set<string>)
      ensures grepped == Edges.Grep(bech, attrs)
      ensures forall p :: p in grepped <==> exists i :: 0 <= i < |attrs| && Edges.Counts(bech, attrs[i], p)
    {
      grepped := {};
      for i := 0 to |attrs|
        invariant grepped + Edges.Grep(bech, attrs[i..]) == Edges.Grep(bech, attrs)
      {
        assert attrs[i..][0] == attrs[i] && attrs[i..][1..] == attrs[i + 1..];
        if attrs[i].Ret? { continue; }
        var addrs := Candidates(attrs[i]);
        var parsed := ParseAll(addrs);
        assert parsed == Edges.GrepOne(bech, attrs[i]) by { ExtractCandidates(attrs[i], addrs); }
        grepped := grepped + parsed;
      }
      assert attrs[|attrs|..] == [];
      forall p ensures p in grepped <==> exists i :: 0 <= i < |attrs| && Edges.Counts(bech, attrs[i], p) {
        Edges.GrepIff(bech, attrs, p);
      }
    }

    lemma ExtractCandidates(a: Edges.Attr, addrs: seq<string>)
      requires !a.Ret? && forall w :: w in addrs <==>
               if a.Log? then w in Edges.Words(a) else w in Split(a.value) && IsAddress(w)
      ensures (set w | w in addrs && Parse(bech, w).Some? :: Parse(bech, w).value) == Edges.GrepOne(bech, a)
    {}

    method Candidates(a: Edges.Attr) returns (addrs: seq<string>)
      requires !a.Ret?
      ensures forall w :: w in addrs <==> if a.Log? then w in Edges.Words(a) else w in Split(a.value) && IsAddress(w)
    {
      if a.Log? {
        addrs := [a.address];
        for i := 0 to |a.topics|
          invariant forall w :: w in addrs <==> w == a.address || (w in a.topics[..i] && Edges.IsPadded(w))
        {
          assert a.topics[..i + 1] == a.topics[..i] + [a.topics[i]];
          if Edges.IsPadded(a.topics[i]) { addrs := addrs + [a.topics[i]]; }
        }
        assert a.topics[..|a.topics|] == a.topics;
      } else {
        var parts := Split(a.value);
        addrs := [];
        for i := 0 to |parts|
          invariant forall w :: w in addrs <==> w in parts[..i] && IsAddress(w)
        {
          assert parts[..i + 1] == parts[..i] + [parts[i]];
          if IsAddress(parts[i]) { addrs := addrs + [parts[i]]; }
        }
        assert parts[..|parts|] == parts;
      }
    }

    method ParseAll(addrs: seq<string>) returns (parsed: set<string>)
      ensures parsed == set w | w in addrs && Parse(bech, w).Some? :: Parse(bech, w).value
    {
      parsed := {};
      for i := 0 to |addrs|
        invariant parsed == set w | w in addrs[..i] && Parse(bech, w).Some? :: Parse(bech, w).value
      {
        assert addrs[..i + 1] == addrs[..i] + [addrs[i]];
        var acc := Parse(bech, addrs[i]);
        if acc.Some? { parsed := parsed + {acc.value}; }
      }
      assert addrs[..|addrs|] == addrs;
    }

    /** The account rows of one transaction, ids in an arbitrary order and each used once. */
    method AddEdges(dict: Edges.Dict, t: ScrapedTx, sequence: nat)
      requires t.signer in dict
      modifies this`edges
      ensures edges == Edges.CollectRows(bech, dict, old(edges), sequence, Stored(dict, t), t.signer)
    {
      var signerId := dict[t.signer];
      var grepped := GrepAddressesFromTx(t.attrs);
      var accounts := grepped + {t.signer};
      var todo := accounts;
      var seen: set<nat> := {};
      while todo != {}
        invariant todo <= accounts
        invariant seen == Edges.IdsOf(dict, accounts - todo)
        invariant edges == Edges.WithIds(old(edges), seen, sequence, signerId)
        decreases todo
      {
        var a :| a in todo;
        assert accounts - (todo - {a}) == (accounts - todo) + {a};
        if a in dict && dict[a] !in seen {
          var row := Edges.Edge(dict[a], sequence);
          Edges.WithOneMore(old(edges), seen, dict[a], sequence, signerId);
          seen := seen + {dict[a]};
          if row !in edges { edges := edges[row := dict[a] == signerId]; }
        }
        todo := todo - {a};
      }
      assert accounts - {} == accounts;
    }

    /** One block. dict is the dictionary after its accounts have been created. */
    method Collect(height: nat, ts: seq<ScrapedTx>, dict: Edges.Dict)
      requires forall i :: 0 <= i < |ts| ==> ts[i].signer in dict
      modifies this
      ensures txs == Numbering.InsertNumbered(old(txs), old(seqInfo), BlockKeys(height, ts))
      ensures edges == CollectEdges(bech, dict, old(edges), old(seqInfo), ts)
      ensures seqInfo == old(seqInfo) + |ts|
    {
      ghost var keys := BlockKeys(height, ts);
      ghost var allTxs := Numbering.InsertNumbered(txs, seqInfo, keys);
      ghost var allEdges := CollectEdges(bech, dict, edges, seqInfo, ts);
      assert ts[0..] == ts && keys[0..] == keys;
      for i := 0 to |ts|
        invariant seqInfo == old(seqInfo) + i
        invariant Numbering.InsertNumbered(txs, seqInfo, keys[i..]) == allTxs
        invariant CollectEdges(bech, dict, edges, seqInfo, ts[i..]) == allEdges
      {
        CollectAt(height, ts, dict, i);
      }
      assert ts[|ts|..] == [] && keys[|ts|..] == [];
    }

    /** What is left to do after the i-th transaction is what was left to do before it. */
    method CollectAt(height: nat, ts: seq<ScrapedTx>, dict: Edges.Dict, i: nat)
      requires i < |ts| && forall j :: 0 <= j < |ts| ==> ts[j].signer in dict
      modifies this
      ensures seqInfo == old(seqInfo) + 1
      ensures Numbering.InsertNumbered(txs, seqInfo, BlockKeys(height, ts)[i + 1..])
           == Numbering.InsertNumbered(old(txs), old(seqInfo), BlockKeys(height, ts)[i..])
      ensures CollectEdges(bech, dict, edges, seqInfo, ts[i + 1..])
           == CollectEdges(bech, dict, old(edges), old(seqInfo), ts[i..])
    {
      ghost var txs0, edges0 := txs, edges;
      CollectTx(height, ts[i], dict);
      InsertFrom(txs0, seqInfo - 1, BlockKeys(height, ts), i, txs);
      EdgesFrom(bech, dict, edges0, seqInfo - 1, ts, i, edges);
    }

    /** One transaction: the next sequence number, its row and its account rows. */
    method CollectTx(height: nat, t: ScrapedTx, dict: Edges.Dict)
      requires t.signer in dict
      modifies this
      ensures seqInfo == old(seqInfo) + 1
      ensures txs == WithTx(old(txs), Numbering.Key(height, t.hash), seqInfo)
      ensures edges == Edges.CollectRows(bech, dict, old(edges), seqInfo, Stored(dict, t), t.signer)
    {
      seqInfo := seqInfo + 1;
      var key := Numbering.Key(height, t.hash);
      if key !in txs { txs := txs[key := seqInfo]; }
      AddEdges(dict, t, seqInfo);
    }
  }

  lemma {:induction false} EarlierKept(bech: Bech32, dict: Edges.Dict, rows: Edges.Rows, n: nat, ts: seq<ScrapedTx>)
    requires forall i :: 0 <= i < |ts| ==> ts[i].signer in dict
    ensures EarlierSame(rows, CollectEdges(bech, dict, rows, n, ts), n)
    decreases |ts|
  {
    if ts != [] {
      var rows1 := Edges.CollectRows(bech, dict, rows, n + 1, Stored(dict, ts[0]), ts[0].signer);
      assert EarlierSame(rows, rows1, n);
      EarlierKept(bech, dict, rows1, n + 1, ts[1..]);
    }
  }

  ghost predicate EarlierSame(a: Edges.Rows, b: Edges.Rows, n: nat) {
    forall e: Edges.Edge :: e.sequence <= n ==> (e in a <==> e in b) && (e in a ==> a[e] == b[e])
  }

  lemma CleanIfSame(bech: Bech32, dict: Edges.Dict, a: Edges.Rows, b: Edges.Rows, s: nat, tx: Edges.Tx)
    requires Edges.Clean(bech, dict, a, s, tx) && EarlierSame(a, b, s)
    ensures Edges.Clean(bech, dict, b, s, tx)
  {}

  /** The dictionary knows every signer and every address of the block. */
  ghost predicate BlockOk(bech: Bech32, dict: Edges.Dict, ts: seq<ScrapedTx>) {
    forall i :: 0 <= i < |ts| ==> ts[i].signer in dict && Edges.Covers(bech, dict, Stored(dict, ts[i]))
  }

  lemma BlockOkTail(bech: Bech32, dict: Edges.Dict, ts: seq<ScrapedTx>)
    requires ts != [] && BlockOk(bech, dict, ts)
    ensures BlockOk(bech, dict, ts[1..])
  {
    assert forall i :: 0 <= i < |ts[1..]| ==> ts[1..][i] == ts[i + 1];
  }

  ghost predicate UpTo(rows: Edges.Rows, n: nat) {
    forall e :: e in rows ==> e.sequence <= n
  }

  lemma FirstIsClean(bech: Bech32, dict: Edges.Dict, rows: Edges.Rows, n: nat, ts: seq<ScrapedTx>)
    requires Edges.DictGood(dict) && ts != [] && BlockOk(bech, dict, ts)
    requires UpTo(rows, n)
    ensures var rows1 := Edges.CollectRows(bech, dict, rows, n + 1, Stored(dict, ts[0]), ts[0].signer);
            Edges.Clean(bech, dict, rows1, n + 1, Stored(dict, ts[0])) && UpTo(rows1, n + 1)
  {
    assert ts[0].signer in dict && Edges.Covers(bech, dict, Stored(dict, ts[0]));
    Edges.CollectedIsClean(bech, dict, dict, rows, n + 1, Stored(dict, ts[0]), ts[0].signer);
  }

  lemma StaysClean(bech: Bech32, dict: Edges.Dict, rows: Edges.Rows, n: nat, ts: seq<ScrapedTx>, tx: Edges.Tx)
    requires forall i :: 0 <= i < |ts| ==> ts[i].signer in dict
    requires Edges.Clean(bech, dict, rows, n, tx)
    ensures Edges.Clean(bech, dict, CollectEdges(bech, dict, rows, n, ts), n, tx)
  {
    EarlierKept(bech, dict, rows, n, ts);
    CleanIfSame(bech, dict, rows, CollectEdges(bech, dict, rows, n, ts), n, tx);
  }

  /** Every transaction of a collected block has exactly its expected account rows, with the right
      signer flags. */
  lemma {:induction false} BlockIsClean(bech: Bech32, dict: Edges.Dict, rows: Edges.Rows, n: nat, ts: seq<ScrapedTx>,
                                        j: nat)
    requires Edges.DictGood(dict) && BlockOk(bech, dict, ts) && j < |ts| && UpTo(rows, n)
    ensures Edges.Clean(bech, dict, CollectEdges(bech, dict, rows, n, ts), n + 1 + j, Stored(dict, ts[j]))
    decreases |ts|
  {
    var rows1 := Edges.CollectRows(bech, dict, rows, n + 1, Stored(dict, ts[0]), ts[0].signer);
    FirstIsClean(bech, dict, rows, n, ts);
    BlockOkTail(bech, dict, ts);
    if j == 0 {
      StaysClean(bech, dict, rows1, n + 1, ts[1..], Stored(dict, ts[0]));
    } else {
      assert ts[1..][j - 1] == ts[j];
      BlockIsClean(bech, dict, rows1, n + 1, ts[1..], j - 1);
    }
  }

  /** So the accounts of the j-th transaction are its signer and every account that one of its
      attributes counts for, and only the signer's row is flagged. */
  lemma BlockAccounts(bech: Bech32, dict: Edges.Dict, rows: Edges.Rows, n: nat, ts: seq<ScrapedTx>, j: nat, id: nat)
    requires Edges.DictGood(dict) && BlockOk(bech, dict, ts) && j < |ts| && UpTo(rows, n)
    ensures var rows', row, t := CollectEdges(bech, dict, rows, n, ts), Edges.Edge(id, n + 1 + j), ts[j];
            (row in rows' <==>
               id == dict[t.signer] ||
               exists a, i :: 0 <= i < |t.attrs| && Edges.Counts(bech, t.attrs[i], a) && a in dict && dict[a] == id) &&
            (row in rows' ==> (rows'[row] <==> id == dict[t.signer]))
  {
    BlockIsClean(bech, dict, rows, n, ts, j);
    Edges.ExpectedIff(bech, dict, Stored(dict, ts[j]), id);
  }
}
