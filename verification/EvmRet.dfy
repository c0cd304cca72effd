/** The evm-ret cleanup: an upward sweep over heights that deletes the tx_accounts rows of
    addresses found only in `ret` attributes, saving its progress after each batch. */
module EvmRet {
  import opened Common
  import opened Address
  import opened Edges

  const BATCH_SIZE: nat := 1000

  /** A row of the tx table; the table is kept in order of height. */
  datatype StoredTx = StoredTx(height: nat, sequence: nat, tx: Tx)

  ghost predicate ByHeight(txs: seq<StoredTx>) {
    forall i, j :: 0 <= i <= j < |txs| ==> txs[i].height <= txs[j].height
  }

  function MaxHeight(txs: seq<StoredTx>): nat {
    if txs == [] then 0 else txs[|txs| - 1].height
  }

  /** The ret-only rows of one transaction. */
  function TxRetRows(bech: Bech32, dict: Dict, t: StoredTx): set<Edge> {
    set id | id in RetIds(bech, dict, t.tx) :: Edge(id, t.sequence)
  }

  /** The ret-only rows of the transactions at heights lo to hi. */
  function RetRows(bech: Bech32, dict: Dict, txs: seq<StoredTx>, lo: nat, hi: nat): set<Edge> {
    if txs == [] then {}
    else
      var t := txs[|txs| - 1];
      RetRows(bech, dict, txs[..|txs| - 1], lo, hi) + if lo <= t.height <= hi then TxRetRows(bech, dict, t) else {}
  }

  lemma RetRowsNext(bech: Bech32, dict: Dict, txs: seq<StoredTx>, lo: nat, hi: nat, i: nat)
    requires i < |txs|
    ensures RetRows(bech, dict, txs[..i + 1], lo, hi) == RetRows(bech, dict, txs[..i], lo, hi) +
              if lo <= txs[i].height <= hi then TxRetRows(bech, dict, txs[i]) else {}
  {
    assert txs[..i + 1][..i] == txs[..i];
  }

  /** Adjacent height ranges make up the whole range. */
  lemma {:induction false} RetRowsSplit(bech: Bech32, dict: Dict, txs: seq<StoredTx>, lo: nat, mid: nat, hi: nat)
    requires lo <= mid + 1 && mid <= hi
    ensures RetRows(bech, dict, txs, lo, hi) ==
            RetRows(bech, dict, txs, lo, mid) + RetRows(bech, dict, txs, mid + 1, hi)
  {
    if txs != [] { RetRowsSplit(bech, dict, txs[..|txs| - 1], lo, mid, hi); }
  }

  lemma {:induction false} NothingBetween(bech: Bech32, dict: Dict, txs: seq<StoredTx>, h: nat)
    ensures RetRows(bech, dict, txs, h + 1, h) == {}
  {
    if txs != [] { NothingBetween(bech, dict, txs[..|txs| - 1], h); }
  }

  /** Transactions above hi do not matter. */
  lemma {:induction false} RetRowsBelow(bech: Bech32, dict: Dict, txs: seq<StoredTx>, ts: seq<StoredTx>, lo: nat,
                                        hi: nat)
    requires forall i :: 0 <= i < |ts| ==> ts[i].height > hi
    ensures RetRows(bech, dict, txs + ts, lo, hi) == RetRows(bech, dict, txs, lo, hi)
    decreases |ts|
  {
    if ts == [] {
      assert txs + ts == txs;
    } else {
      assert (txs + ts)[..|txs + ts| - 1] == txs + ts[..|ts| - 1];
      RetRowsBelow(bech, dict, txs, ts[..|ts| - 1], lo, hi);
    }
  }

  /** e is a ret-only row of the i-th transaction. */
  ghost predicate RetRowOf(bech: Bech32, dict: Dict, txs: seq<StoredTx>, i: int, e: Edge) {
    0 <= i < |txs| && txs[i].sequence == e.sequence && e.account in RetIds(bech, dict, txs[i].tx)
  }

  lemma {:induction false} RetRowSequence(bech: Bech32, dict: Dict, txs: seq<StoredTx>, lo: nat, hi: nat, e: Edge)
    requires e in RetRows(bech, dict, txs, lo, hi)
    ensures exists i :: RetRowOf(bech, dict, txs, i, e)
  {
    var n := |txs| - 1;
    if e in RetRows(bech, dict, txs[..n], lo, hi) {
      RetRowSequence(bech, dict, txs[..n], lo, hi, e);
      var i :| RetRowOf(bech, dict, txs[..n], i, e);
      assert RetRowOf(bech, dict, txs, i, e);
    } else {
      assert RetRowOf(bech, dict, txs, n, e);
    }
  }

  /** A row is ret-only in a height range exactly if it links a transaction of the range to an account
      other than the signer's that only its `ret` attributes name, by way of hex. */
  lemma {:induction false} RetRowsIff(bech: Bech32, dict: Dict, txs: seq<StoredTx>, lo: nat, hi: nat, e: Edge)
    ensures e in RetRows(bech, dict, txs, lo, hi) <==> exists i :: IsRetRowAt(bech, dict, txs, i, lo, hi, e)
  {
    if txs != [] {
      var n := |txs| - 1;
      var rest, t := txs[..n], txs[n];
      RetRowsIff(bech, dict, rest, lo, hi, e);
      RetRowIff(bech, dict, t, e);
      forall i ensures IsRetRowAt(bech, dict, txs, i, lo, hi, e) <==>
                         if i == n then lo <= t.height <= hi && e in TxRetRows(bech, dict, t)
                         else IsRetRowAt(bech, dict, rest, i, lo, hi, e) {
        assert 0 <= i < n ==> rest[i] == txs[i];
      }
      if lo <= t.height <= hi && e in TxRetRows(bech, dict, t) { assert IsRetRowAt(bech, dict, txs, n, lo, hi, e); }
    }
  }

  ghost predicate IsRetRowAt(bech: Bech32, dict: Dict, txs: seq<StoredTx>, i: int, lo: nat, hi: nat, e: Edge) {
    0 <= i < |txs| && lo <= txs[i].height <= hi && IsRetRow(bech, dict, txs[i], e)
  }

  ghost predicate IsRetRow(bech: Bech32, dict: Dict, t: StoredTx, e: Edge) {
    e.sequence == t.sequence && e.account != t.tx.signer &&
    exists a, b :: OnlyInRet(bech, t.tx, a) && Parse(bech, "0x" + a) == Some(b) && b in dict && dict[b] == e.account
  }

  ghost predicate OnlyInRet(bech: Bech32, tx: Tx, a: string) {
    (exists i :: 0 <= i < |tx.attrs| && ShowsInRet(bech, tx.attrs[i], a)) &&
    (forall i :: 0 <= i < |tx.attrs| ==> !ShowsOutside(bech, tx.attrs[i], a))
  }

  lemma RetRowIff(bech: Bech32, dict: Dict, t: StoredTx, e: Edge)
    ensures e in TxRetRows(bech, dict, t) <==> IsRetRow(bech, dict, t, e)
  {
    if e in TxRetRows(bech, dict, t) {
      var a :| a in RetOnly(bech, t.tx.attrs) && Parse(bech, "0x" + a).Some? &&
               Parse(bech, "0x" + a).value in dict && dict[Parse(bech, "0x" + a).value] == e.account;
      RetOnlyIff(bech, t.tx.attrs, a);
      assert OnlyInRet(bech, t.tx, a) && Parse(bech, "0x" + a) == Some(Parse(bech, "0x" + a).value);
    }
    if IsRetRow(bech, dict, t, e) {
      var a, b :| OnlyInRet(bech, t.tx, a) && Parse(bech, "0x" + a) == Some(b) && b in dict && dict[b] == e.account;
      RetOnlyIff(bech, t.tx.attrs, a);
      assert e.account in RetIds(bech, dict, t.tx);
    }
  }

  /** A reconciliation brings no ret-only row back. */
  lemma ReconcileKeeps(bech: Bech32, dict: Dict, txs: seq<StoredTx>, lo: nat, hi: nat, rows: Rows, rows': Rows, i: nat)
    requires i < |txs| && forall j :: 0 <= j < |txs| && txs[j].sequence == txs[i].sequence ==> j == i
    requires GoodBech32(bech) && DictGood(dict) && Harmless(bech, dict, txs[i].tx)
    requires SameElsewhere(rows, rows', txs[i].sequence) && Clean(bech, dict, rows', txs[i].sequence, txs[i].tx)
    requires rows.Keys !! RetRows(bech, dict, txs, lo, hi)
    ensures rows'.Keys !! RetRows(bech, dict, txs, lo, hi)
  {
    RetIdsUnexpectedIff(bech, dict, txs[i].tx);
    forall e | e in RetRows(bech, dict, txs, lo, hi) ensures e !in rows' {
      if e.sequence == txs[i].sequence {
        RetRowSequence(bech, dict, txs, lo, hi, e);
        var j :| RetRowOf(bech, dict, txs, j, e);
        assert j == i && e == Edge(e.account, txs[i].sequence);
      }
    }
  }

  /** A larger dictionary adds only rows of the accounts that are new in it. */
  lemma {:induction false} RetRowsGrow(bech: Bech32, dict: Dict, dict': Dict, txs: seq<StoredTx>, lo: nat, hi: nat,
                                       e: Edge)
    requires Extends(dict, dict') && e in RetRows(bech, dict', txs, lo, hi)
    ensures e in RetRows(bech, dict, txs, lo, hi) || exists a :: a in dict' && a !in dict && dict'[a] == e.account
  {
    var t, rest := txs[|txs| - 1], txs[..|txs| - 1];
    if e in RetRows(bech, dict', rest, lo, hi) {
      RetRowsGrow(bech, dict, dict', rest, lo, hi, e);
    } else {
      RetIdsGrow(bech, dict, dict', t.tx, e.account);
    }
  }

  lemma RetIdsGrow(bech: Bech32, dict: Dict, dict': Dict, tx: Tx, id: nat)
    requires Extends(dict, dict') && id in RetIds(bech, dict', tx)
    ensures id in RetIds(bech, dict, tx) || exists a :: a in dict' && a !in dict && dict'[a] == id
  {
    var a :| a in RetOnly(bech, tx.attrs) && Parse(bech, "0x" + a).Some? &&
             Parse(bech, "0x" + a).value in dict' && dict'[Parse(bech, "0x" + a).value] == id;
    var b := Parse(bech, "0x" + a).value;
    assert b in dict ==> dict[b] == id;
  }

  /** after is before without the ret-only rows of the heights above lo up to hi. */
  ghost predicate Swept(bech: Bech32, dict: Dict, txs: seq<StoredTx>, lo: nat, hi: nat, before: Rows, after: Rows) {
    after == before - RetRows(bech, dict, txs, lo + 1, hi)
  }

  lemma SweptNone(bech: Bech32, dict: Dict, txs: seq<StoredTx>, h: nat, rows: Rows)
    ensures Swept(bech, dict, txs, h, h, rows, rows)
  {
    NothingBetween(bech, dict, txs, h);
  }

  lemma SweptOn(bech: Bech32, dict: Dict, txs: seq<StoredTx>, lo: nat, mid: nat, hi: nat, before: Rows, last: Rows,
                after: Rows)
    requires lo <= mid <= hi && Swept(bech, dict, txs, lo, mid, before, last) &&
             Swept(bech, dict, txs, mid, hi, last, after)
    ensures Swept(bech, dict, txs, lo, hi, before, after)
  {
    RetRowsSplit(bech, dict, txs, lo + 1, mid, hi);
  }

  /** Rows below the start had been cleaned before. */
  lemma SweptAll(bech: Bech32, dict: Dict, txs: seq<StoredTx>, lo: nat, hi: nat, before: Rows, after: Rows)
    requires lo <= hi && Swept(bech, dict, txs, lo, hi, before, after)
    requires before.Keys !! RetRows(bech, dict, txs, 0, lo)
    ensures after == before - RetRows(bech, dict, txs, 0, hi) && after.Keys !! RetRows(bech, dict, txs, 0, hi)
  {
    RetRowsSplit(bech, dict, txs, 0, lo, hi);
  }

  lemma MinusTwice(rows: Rows, a: set<Edge>, b: set<Edge>, c: set<Edge>)
    requires c == a + b
    ensures rows - a - b == rows - c
  {}

  lemma FewerStaysClean(rows: Rows, gone: set<Edge>, forbidden: set<Edge>)
    requires rows.Keys !! forbidden
    ensures (rows - gone).Keys !! forbidden
  {}

  class EvmRetCleanup {
    const bech: Bech32
    var dict: Dict
    var txs: seq<StoredTx>
    var rows: Rows
    var lastCleanedHeight: nat

    /** Nothing ret-only is left up to the saved height. */
    ghost predicate Valid()
      reads this
    {
      ByHeight(txs) && lastCleanedHeight <= MaxHeight(txs) &&
        rows.Keys !! RetRows(bech, dict, txs, 0, lastCleanedHeight)
    }

    constructor (bech: Bech32, dict: Dict, txs: seq<StoredTx>, rows: Rows)
      requires ByHeight(txs) && forall i :: 0 <= i < |txs| ==> txs[i].height >= 1
      ensures Valid() && this.bech == bech && this.dict == dict && this.txs == txs && this.rows == rows
      ensures lastCleanedHeight == 0
    {
      this.bech, this.dict, this.txs, this.rows := bech, dict, txs, rows;
      lastCleanedHeight := 0;
      new;
      assert [] + txs == txs;
      RetRowsBelow(bech, dict, [], txs, 0, 0);
    }

    /** The addresses one attribute contributes, log words being taken only when they look like one. */
    method AddressesOf(a: Attr) returns (addrs: set<string>)
      ensures addrs == if a.Ret? then Extract(bech, a.value) else NonRetOne(bech, a)
    {
      match a
      case Ret(v) => addrs := Extract(bech, v);
      case Plain(v) => addrs := Extract(bech, v);
      case Log(address, topics) =>
        addrs := Extract(bech, address);
        for i := 0 to |topics|
          invariant addrs == set w, p | w in {address} + (set t | t in topics[..i] && IsPadded(t)) &&
                    p in Extract(bech, w) :: p
        {
          assert topics[..i + 1] == topics[..i] + [topics[i]];
          if IsPadded(topics[i]) { addrs := addrs + Extract(bech, topics[i]); }
        }
        assert topics[..|topics|] == topics;
    }

    method FindRetOnlyAddresses(attrs: seq<Attr>) returns (retOnly: set<string>)
      ensures retOnly == RetOnly(bech, attrs)
      ensures forall p :: p in retOnly <==>
                (exists i :: 0 <= i < |attrs| && ShowsInRet(bech, attrs[i], p)) &&
                (forall i :: 0 <= i < |attrs| ==> !ShowsOutside(bech, attrs[i], p))
    {
      var retAddresses, nonRetAddresses: set<string> := {}, {};
      for i := 0 to |attrs|
        invariant retAddresses + InRet(bech, attrs[i..]) == InRet(bech, attrs)
        invariant nonRetAddresses + NonRet(bech, attrs[i..]) == NonRet(bech, attrs)
      {
        assert attrs[i..][0] == attrs[i] && attrs[i..][1..] == attrs[i + 1..];
        var addrs := AddressesOf(attrs[i]);
        if attrs[i].Ret? {
          retAddresses := retAddresses + addrs;
        } else {
          nonRetAddresses := nonRetAddresses + addrs;
        }
      }
      assert attrs[|attrs|..] == [];
      retOnly := retAddresses - nonRetAddresses;
      forall p ensures p in retOnly <==>
                         (exists i :: 0 <= i < |attrs| && ShowsInRet(bech, attrs[i], p)) &&
                         (forall i :: 0 <= i < |attrs| ==> !ShowsOutside(bech, attrs[i], p)) {
        RetOnlyIff(bech, attrs, p);
      }
    }

    /** The ids of the ret-only addresses that have one, without the signer's. */
    method NonSignerIds(retOnly: set<string>, signer: nat) returns (ids: set<nat>)
      ensures ids == (set a | a in retOnly && Parse(bech, "0x" + a).Some? && Parse(bech, "0x" + a).value in dict
                        :: dict[Parse(bech, "0x" + a).value]) - {signer}
    {
      ids := {};
      var todo := retOnly;
      while todo != {}
        invariant todo <= retOnly
        invariant ids == (set a | a in retOnly - todo && Parse(bech, "0x" + a).Some? &&
                          Parse(bech, "0x" + a).value in dict :: dict[Parse(bech, "0x" + a).value]) - {signer}
        decreases todo
      {
        var a :| a in todo;
        var addr := Parse(bech, "0x" + a);
        assert retOnly - (todo - {a}) == (retOnly - todo) + {a};
        if addr.Some? && addr.value in dict && dict[addr.value] != signer {
          ids := ids + {dict[addr.value]};
        }
        todo := todo - {a};
      }
      assert retOnly - {} == retOnly;
    }

    /** One transaction: exactly its ret-only rows go. */
    method CleanTx(t: StoredTx)
      modifies this`rows
      ensures rows == RetClean(bech, dict, old(rows), t.sequence, t.tx)
    {
      var retOnly := FindRetOnlyAddresses(t.tx.attrs);
      var ids := NonSignerIds(retOnly, t.tx.signer);
      var gone := set id | id in ids :: Edge(id, t.sequence);
      rows := rows - gone;
    }

    /** The transactions at heights startHeight to endHeight. */
    method ProcessBatch(startHeight: nat, endHeight: nat)
      modifies this`rows
      ensures rows == old(rows) - RetRows(bech, dict, txs, startHeight, endHeight)
      ensures old(Valid()) ==> Valid()
    {
      ghost var before, done := rows, {};
      for i := 0 to |txs|
        invariant done == RetRows(bech, dict, txs[..i], startHeight, endHeight)
        invariant rows == before - done
      {
        RetRowsNext(bech, dict, txs, startHeight, endHeight, i);
        if startHeight <= txs[i].height <= endHeight {
          ghost var gone := TxRetRows(bech, dict, txs[i]);
          MinusTwice(before, done, gone, done + gone);
          CleanTx(txs[i]);
          done := done + gone;
        }
      }
      assert txs[..|txs|] == txs;
      if old(Valid()) { FewerStaysClean(before, done, RetRows(bech, dict, txs, 0, lastCleanedHeight)); }
    }

    /** The collector commits a block on top: its rows belong to new sequences, and the accounts it
        creates have ids that no stored row carries. */
    method AppendBlock(ts: seq<StoredTx>, added: Rows, dict': Dict)
      requires Valid() && ByHeight(ts) && forall i :: 0 <= i < |ts| ==> ts[i].height > MaxHeight(txs)
      requires forall e, i :: e in added && 0 <= i < |txs| ==> e.sequence != txs[i].sequence
      requires Extends(dict, dict') && forall a, e :: a in dict' && a !in dict && e in rows ==> e.account != dict'[a]
      modifies this`txs, this`rows, this`dict
      ensures Valid() && txs == old(txs) + ts && rows == old(rows) + added && dict == dict'
    {
      RetRowsBelow(bech, dict', txs, ts, 0, lastCleanedHeight);
      forall e | e in RetRows(bech, dict', txs, 0, lastCleanedHeight) ensures e !in added && e !in rows {
        RetRowSequence(bech, dict', txs, 0, lastCleanedHeight, e);
        var i :| RetRowOf(bech, dict', txs, i, e);
        RetRowsGrow(bech, dict, dict', txs, 0, lastCleanedHeight, e);
      }
      txs, rows, dict := txs + ts, rows + added, dict';
    }

    /** The other repair fixes a transaction meanwhile. */
    method Reconciled(i: nat, actual: map<nat, bool>)
      requires Valid() && i < |txs| && forall j :: 0 <= j < |txs| && txs[j].sequence == txs[i].sequence ==> j == i
      requires GoodBech32(bech) && DictGood(dict) && Harmless(bech, dict, txs[i].tx)
      requires Fits(bech, dict, rows, actual, txs[i].sequence, txs[i].tx)
      modifies this`rows
      ensures Valid() && rows == Reconcile(bech, dict, old(rows), actual, txs[i].sequence, txs[i].tx)
    {
      ghost var before := rows;
      rows := Reconcile(bech, dict, rows, actual, txs[i].sequence, txs[i].tx);
      ReconcileExact(bech, dict, before, actual, txs[i].sequence, txs[i].tx);
      ReconcileKeeps(bech, dict, txs, 0, lastCleanedHeight, before, rows, i);
    }

    /** One pass of the loop when it has something to do. A crash after ProcessBatch, before the
        status is saved, leaves a valid state as well. */
    method Advance()
      requires Valid() && lastCleanedHeight < MaxHeight(txs)
      modifies this`rows, this`lastCleanedHeight
      ensures Valid()
      ensures lastCleanedHeight == Min(old(lastCleanedHeight) + BATCH_SIZE, MaxHeight(txs))
      ensures Swept(bech, dict, txs, old(lastCleanedHeight), lastCleanedHeight, old(rows), rows)
    {
      ghost var before := rows;
      var currentHeight := lastCleanedHeight + 1;
      var endHeight := Min(currentHeight + BATCH_SIZE - 1, MaxHeight(txs));
      ProcessBatch(currentHeight, endHeight);
      SweptAll(bech, dict, txs, lastCleanedHeight, endHeight, before, rows);
      lastCleanedHeight := endHeight;
    }

    /** Until it has caught up: every ret-only row of every stored transaction is gone and no
        other row is. */
    method CatchUp()
      requires Valid()
      modifies this`rows, this`lastCleanedHeight
      ensures Valid() && lastCleanedHeight == MaxHeight(txs)
      ensures rows == old(rows) - RetRows(bech, dict, txs, 0, MaxHeight(txs))
    {
      ghost var start, before := lastCleanedHeight, rows;
      SweptNone(bech, dict, txs, start, rows);
      while lastCleanedHeight < MaxHeight(txs)
        invariant Valid() && start <= lastCleanedHeight
        invariant Swept(bech, dict, txs, start, lastCleanedHeight, before, rows)
        decreases MaxHeight(txs) - lastCleanedHeight
      {
        ghost var from, last := lastCleanedHeight, rows;
        Advance();
        SweptOn(bech, dict, txs, start, from, lastCleanedHeight, before, last, rows);
      }
      SweptAll(bech, dict, txs, start, lastCleanedHeight, before, rows);
    }
  }
}
