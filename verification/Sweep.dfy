/** The tx-account cleanup: a sweep from the highest sequence at first start down to 1, in batches
    of 1000 with the progress saved after each, while the ret cleanup and the collector go on. */
module Sweep {
  import opened Common
  import opened Address
  import opened Edges

  const BATCH_SIZE: nat := 1000

  /** dict, txs, rows, last and saved are database state; at and top are history: the dictionary when
      the rows of a sequence were last fixed or collected, and the saved first start. */
  datatype State = State(
    dict: Dict,
    txs: map<nat, Tx>,
    rows: Rows,
    last: nat,         // seq_info, the last sequence given out
    at: map<nat, Dict>,
    saved: int,        // last_cleaned_sequence, -1 before the first start has been saved
    top: nat,
    up: bool,
    cur: nat,          // currentSeq
    inBatch: bool,
    lo: nat,
    pos: nat,          // next sequence of the batch to reconcile
    snap: Rows)        // the tx_accounts entries read at the start of the batch

  datatype Event =
    | Boot
    | Begin
    | Fix                     // reconcile the transaction at pos
    | Finish                  // save progress
    | Crash
    | RetCleanup(s: nat)      // the other repair, on any transaction at any time
    | Collect(s: nat, tx: Tx, dict: Dict, signer: string, stored: bool) // not stored when its hash is there already

  function MaxSeq(txs: map<nat, Tx>): (m: nat)
    ensures txs == map[] ==> m == 0
    ensures txs != map[] ==> m in txs && forall s :: s in txs ==> s <= m
  {
    Highest(txs.Keys)
  }

  function Next(bech: Bech32, t: State, e: Event): State {
    match e
    case Boot =>
      if t.up then t
      else if t.saved >= 0 then t.(up := true, cur := t.saved)
      else t.(up := true, cur := MaxSeq(t.txs), saved := MaxSeq(t.txs), top := MaxSeq(t.txs))
    case Begin =>
      if t.up && !t.inBatch && t.cur > 0 then
        var lo := if t.cur >= BATCH_SIZE then t.cur - BATCH_SIZE + 1 else 1;
        t.(inBatch := true, lo := lo, pos := lo, snap := map r | r in t.rows && lo <= r.sequence <= t.cur :: t.rows[r])
      else t
    case Fix =>
      if t.inBatch && t.pos <= t.cur then
        if t.pos in t.txs then
          t.(rows := Reconcile(bech, t.dict, t.rows, ActualAt(t.snap, t.pos), t.pos, t.txs[t.pos]),
             at := t.at[t.pos := t.dict], pos := t.pos + 1)
        else t.(pos := t.pos + 1)
      else t
    case Finish =>
      if t.inBatch && t.pos > t.cur && t.lo > 0 then t.(inBatch := false, cur := t.lo - 1, saved := t.lo - 1) else t
    case Crash => t.(up := false, inBatch := false, cur := 0, lo := 0, pos := 0, snap := map[])
    case RetCleanup(s) =>
      if s in t.txs then t.(rows := RetClean(bech, t.dict, t.rows, s, t.txs[s])) else t
    case Collect(s, tx, dict, signer, stored) =>
      if s > t.last then
        t.(dict := dict, txs := WithTx(t.txs, s, tx, stored), rows := CollectRows(bech, dict, t.rows, s, tx, signer),
           last := s, at := t.at[s := dict])
      else t
  }

  function WithTx(txs: map<nat, Tx>, s: nat, tx: Tx, stored: bool): map<nat, Tx> {
    if stored then txs[s := tx] else txs
  }

  function Run(bech: Bech32, t: State, es: seq<Event>): State
    decreases |es|
  {
    if es == [] then t else Run(bech, Next(bech, t, es[0]), es[1..])
  }

  // ---- what the environment is expected to do --------------------------------------------------------

  // watch holds the sequences the statements are about; the others may be anything.

  /** The ret cleanup deletes no row of a watched transaction that is wanted under this dictionary. */
  ghost predicate AllHarmless(bech: Bech32, watch: iset<nat>, dict: Dict, txs: map<nat, Tx>) {
    forall s :: s in watch && s in txs ==> Harmless(bech, dict, txs[s])
  }

  /** Along the run the collector only extends the dictionary, and harmlessly so. */
  ghost predicate CollectOk(bech: Bech32, watch: iset<nat>, t: State, s: nat, tx: Tx, dict: Dict, signer: string,
                            stored: bool) {
    && Extends(t.dict, dict) && DictGood(dict) && AllHarmless(bech, watch, dict, WithTx(t.txs, s, tx, stored))
    && signer in dict && tx.signer == dict[signer]
  }

  ghost predicate CollectorOk(bech: Bech32, watch: iset<nat>, t: State, es: seq<Event>)
    decreases |es|
  {
    es == [] ||
    ((es[0].Collect? ==> CollectOk(bech, watch, t, es[0].s, es[0].tx, es[0].dict, es[0].signer, es[0].stored)) &&
     CollectorOk(bech, watch, Next(bech, t, es[0]), es[1..]))
  }

  // ---- the invariant ------------------------------------------------------------------------------------

  /** The rows of s are the expected ones under the dictionary early, from which dict has grown. */
  ghost predicate CleanSince(bech: Bech32, early: Dict, dict: Dict, rows: Rows, s: nat, tx: Tx) {
    Extends(early, dict) && Clean(bech, early, rows, s, tx)
  }

  ghost predicate Done(bech: Bech32, dict: Dict, at: map<nat, Dict>, txs: map<nat, Tx>, rows: Rows, s: nat) {
    s in txs ==> s in at && CleanSince(bech, at[s], dict, rows, s, txs[s])
  }

  /** What is left to do from s: the snapshot still describes the rows of s well enough. */
  ghost predicate Ready(bech: Bech32, dict: Dict, txs: map<nat, Tx>, rows: Rows, snap: Rows, s: nat) {
    s in txs ==> Fits(bech, dict, rows, ActualAt(snap, s), s, txs[s])
  }

  ghost predicate AllDone(bech: Bech32, watch: iset<nat>, dict: Dict, at: map<nat, Dict>, txs: map<nat, Tx>,
                          rows: Rows, a: int, b: int) {
    forall s: nat :: s in watch && a <= s < b ==> Done(bech, dict, at, txs, rows, s)
  }

  ghost predicate AllReady(bech: Bech32, watch: iset<nat>, dict: Dict, txs: map<nat, Tx>, rows: Rows, snap: Rows,
                           a: int, b: int) {
    forall s: nat :: s in watch && a <= s < b ==> Ready(bech, dict, txs, rows, snap, s)
  }

  /** No sequence beyond the counter is in use; those of skipped transactions may have rows. */
  ghost predicate UpTo(txs: map<nat, Tx>, rows: Rows, last: nat) {
    (forall s :: s in txs ==> s <= last) && (forall e :: e in rows ==> e.sequence <= last)
  }

  ghost predicate DataOk(bech: Bech32, watch: iset<nat>, t: State) {
    GoodBech32(bech) && DictGood(t.dict) && AllHarmless(bech, watch, t.dict, t.txs) && UpTo(t.txs, t.rows, t.last)
  }

  /** Where the sweep stands. */
  ghost predicate Position(t: State) {
    && (t.saved >= 0 ==> t.saved <= t.top <= t.last)
    && (t.up ==> t.saved >= 0 && t.cur == t.saved)
    && (t.inBatch ==> t.up && 1 <= t.lo <= t.pos <= t.cur + 1 && t.lo <= t.cur)
  }

  /** What it has done, above the saved cursor and in the batch, and what it is ready to do. */
  ghost predicate Progress(bech: Bech32, watch: iset<nat>, t: State) {
    && (t.saved >= 0 ==> AllDone(bech, watch, t.dict, t.at, t.txs, t.rows, t.saved + 1, t.top + 1))
    && (t.inBatch ==> AllDone(bech, watch, t.dict, t.at, t.txs, t.rows, t.lo, t.pos))
    && (t.inBatch ==> AllReady(bech, watch, t.dict, t.txs, t.rows, t.snap, t.pos, t.cur + 1))
  }

  ghost predicate SweepInv(bech: Bech32, watch: iset<nat>, t: State) {
    DataOk(bech, watch, t) && Position(t) && Progress(bech, watch, t)
  }

  lemma ElsewhereKeeps(bech: Bech32, dict: Dict, a: Rows, b: Rows, x: nat, s: nat, tx: Tx, actual: map<nat, bool>)
    requires SameElsewhere(a, b, x) && s != x
    ensures Clean(bech, dict, a, s, tx) ==> Clean(bech, dict, b, s, tx)
    ensures Fits(bech, dict, a, actual, s, tx) ==> Fits(bech, dict, b, actual, s, tx)
  {
    forall id: nat ensures (Edge(id, s) in a <==> Edge(id, s) in b) &&
                           (Edge(id, s) in a ==> a[Edge(id, s)] == b[Edge(id, s)]) {
      assert Edge(id, s).sequence == s;
    }
  }

  /** A step that only touches rows of sequence x: elsewhere nothing is undone. */
  lemma DoneElsewhere(bech: Bech32, dict: Dict, at: map<nat, Dict>, at': map<nat, Dict>, txs: map<nat, Tx>,
                      a: Rows, b: Rows, x: nat, s: nat)
    requires SameElsewhere(a, b, x) && s != x && (s in at ==> s in at' && at'[s] == at[s])
    requires Done(bech, dict, at, txs, a, s)
    ensures Done(bech, dict, at', txs, b, s)
  {
    if s in txs { ElsewhereKeeps(bech, at[s], a, b, x, s, txs[s], map[]); }
  }

  lemma ReadyElsewhere(bech: Bech32, dict: Dict, txs: map<nat, Tx>, a: Rows, b: Rows, snap: Rows, x: nat, s: nat)
    requires SameElsewhere(a, b, x) && s != x && Ready(bech, dict, txs, a, snap, s)
    ensures Ready(bech, dict, txs, b, snap, s)
  {
    if s in txs { ElsewhereKeeps(bech, dict, a, b, x, s, txs[s], ActualAt(snap, s)); }
  }

  lemma AllDoneKept(bech: Bech32, watch: iset<nat>, dict: Dict, at: map<nat, Dict>, at': map<nat, Dict>,
                    txs: map<nat, Tx>, a: Rows, b: Rows, x: nat, from: int, to: int)
    requires SameElsewhere(a, b, x) && forall s :: s in at && s != x ==> s in at' && at'[s] == at[s]
    requires AllDone(bech, watch, dict, at, txs, a, from, to)
    requires x in watch && from <= x < to ==> Done(bech, dict, at', txs, b, x)
    ensures AllDone(bech, watch, dict, at', txs, b, from, to)
  {
    forall s: nat | s in watch && from <= s < to ensures Done(bech, dict, at', txs, b, s) {
      if s != x { DoneElsewhere(bech, dict, at, at', txs, a, b, x, s); }
    }
  }

  lemma AllReadyKept(bech: Bech32, watch: iset<nat>, dict: Dict, txs: map<nat, Tx>, a: Rows, b: Rows, snap: Rows,
                     x: nat, from: int, to: int)
    requires SameElsewhere(a, b, x) && AllReady(bech, watch, dict, txs, a, snap, from, to)
    requires x in watch && from <= x < to ==> Ready(bech, dict, txs, b, snap, x)
    ensures AllReady(bech, watch, dict, txs, b, snap, from, to)
  {
    forall s: nat | s in watch && from <= s < to ensures Ready(bech, dict, txs, b, snap, s) {
      if s != x { ReadyElsewhere(bech, dict, txs, a, b, snap, x, s); }
    }
  }

  lemma UpToKept(txs: map<nat, Tx>, a: Rows, b: Rows, last: nat, x: nat)
    requires UpTo(txs, a, last) && SameElsewhere(a, b, x) && x <= last
    ensures UpTo(txs, b, last)
  {}

  lemma ExtendsTrans(a: Dict, b: Dict, c: Dict)
    requires Extends(a, b) && Extends(b, c)
    ensures Extends(a, c)
  {}

  // ---- the sweep's own steps --------------------------------------------------------------------------

  lemma FixElsewhere(bech: Bech32, t: State)
    requires t.inBatch && t.pos <= t.cur && t.pos in t.txs
    ensures SameElsewhere(t.rows, Next(bech, t, Fix).rows, t.pos)
  {
    ReconcileElsewhere(bech, t.dict, t.rows, ActualAt(t.snap, t.pos), t.pos, t.txs[t.pos]);
  }

  lemma FixEffect(bech: Bech32, watch: iset<nat>, t: State)
    requires SweepInv(bech, watch, t) && t.inBatch && t.pos <= t.cur && t.pos in t.txs && t.pos in watch
    ensures var t' := Next(bech, t, Fix); Done(bech, t.dict, t'.at, t.txs, t'.rows, t.pos)
  {
    assert Ready(bech, t.dict, t.txs, t.rows, t.snap, t.pos);
    ReconcileExact(bech, t.dict, t.rows, ActualAt(t.snap, t.pos), t.pos, t.txs[t.pos]);
  }

  lemma OneMoreDone(bech: Bech32, watch: iset<nat>, dict: Dict, at: map<nat, Dict>, txs: map<nat, Tx>, rows: Rows,
                    a: nat, b: nat)
    requires AllDone(bech, watch, dict, at, txs, rows, a, b) && (b in watch ==> Done(bech, dict, at, txs, rows, b))
    ensures AllDone(bech, watch, dict, at, txs, rows, a, b + 1)
  {}

  lemma SkipStep(bech: Bech32, watch: iset<nat>, t: State)
    requires SweepInv(bech, watch, t) && t.inBatch && t.pos <= t.cur && t.pos !in t.txs
    ensures SweepInv(bech, watch, t.(pos := t.pos + 1))
  {
    var t' := t.(pos := t.pos + 1);
    OneMoreDone(bech, watch, t.dict, t.at, t.txs, t.rows, t.lo, t.pos);
    assert AllReady(bech, watch, t.dict, t.txs, t.rows, t.snap, t.pos + 1, t.cur + 1);
    assert DataOk(bech, watch, t') && Position(t') && Progress(bech, watch, t');
  }

  lemma FixProgress(bech: Bech32, watch: iset<nat>, t: State)
    requires SweepInv(bech, watch, t) && t.inBatch && t.pos <= t.cur && t.pos in t.txs
    ensures Progress(bech, watch, Next(bech, t, Fix))
  {
    var t', x := Next(bech, t, Fix), t.pos;
    FixElsewhere(bech, t);
    if x in watch { FixEffect(bech, watch, t); }
    AllDoneKept(bech, watch, t.dict, t.at, t'.at, t.txs, t.rows, t'.rows, x, t.saved + 1, t.top + 1);
    AllDoneKept(bech, watch, t.dict, t.at, t'.at, t.txs, t.rows, t'.rows, x, t.lo, x);
    OneMoreDone(bech, watch, t.dict, t'.at, t.txs, t'.rows, t.lo, x);
    AllReadyKept(bech, watch, t.dict, t.txs, t.rows, t'.rows, t.snap, x, x + 1, t.cur + 1);
  }

  lemma FixStep(bech: Bech32, watch: iset<nat>, t: State)
    requires SweepInv(bech, watch, t) && t.inBatch && t.pos <= t.cur
    ensures SweepInv(bech, watch, Next(bech, t, Fix))
  {
    if t.pos in t.txs {
      FixElsewhere(bech, t);
      UpToKept(t.txs, t.rows, Next(bech, t, Fix).rows, t.last, t.pos);
      FixProgress(bech, watch, t);
    } else {
      SkipStep(bech, watch, t);
    }
  }

  lemma BeginStep(bech: Bech32, watch: iset<nat>, t: State)
    requires SweepInv(bech, watch, t) && t.up && !t.inBatch && t.cur > 0
    ensures SweepInv(bech, watch, Next(bech, t, Begin))
  {
    var t' := Next(bech, t, Begin);
    forall s: nat | s in watch && t'.pos <= s <= t.cur ensures Ready(bech, t.dict, t.txs, t.rows, t'.snap, s) {
      assert ActualAt(t'.snap, s) == ActualAt(t.rows, s);
      if s in t.txs { ActualFits(bech, t.dict, t.rows, s, t.txs[s]); }
    }
  }

  // ---- the ret cleanup in between ---------------------------------------------------------------------

  lemma RetKeepsDone(bech: Bech32, watch: iset<nat>, t: State, s: nat)
    requires DataOk(bech, watch, t) && s in watch && s in t.txs && Done(bech, t.dict, t.at, t.txs, t.rows, s)
    ensures Done(bech, t.dict, t.at, t.txs, RetClean(bech, t.dict, t.rows, s, t.txs[s]), s)
  {
    RetIdsUnexpectedIff(bech, t.dict, t.txs[s]);
    RetCleanKeeps(bech, t.dict, t.rows, s, t.txs[s], t.at[s], map[]);
  }

  lemma RetKeepsReady(bech: Bech32, watch: iset<nat>, t: State, s: nat)
    requires DataOk(bech, watch, t) && s in watch && s in t.txs && Ready(bech, t.dict, t.txs, t.rows, t.snap, s)
    ensures Ready(bech, t.dict, t.txs, RetClean(bech, t.dict, t.rows, s, t.txs[s]), t.snap, s)
  {
    RetIdsUnexpectedIff(bech, t.dict, t.txs[s]);
    RetCleanKeeps(bech, t.dict, t.rows, s, t.txs[s], t.dict, ActualAt(t.snap, s));
  }

  lemma RetDoneKept(bech: Bech32, watch: iset<nat>, t: State, s: nat, from: int, to: int)
    requires DataOk(bech, watch, t) && s in t.txs && AllDone(bech, watch, t.dict, t.at, t.txs, t.rows, from, to)
    ensures AllDone(bech, watch, t.dict, t.at, t.txs, RetClean(bech, t.dict, t.rows, s, t.txs[s]), from, to)
  {
    RetCleanRows(bech, t.dict, t.rows, s, t.txs[s]);
    if s in watch && from <= s < to { RetKeepsDone(bech, watch, t, s); }
    AllDoneKept(bech, watch, t.dict, t.at, t.at, t.txs, t.rows, RetClean(bech, t.dict, t.rows, s, t.txs[s]), s, from,
                to);
  }

  lemma RetReadyKept(bech: Bech32, watch: iset<nat>, t: State, s: nat, from: int, to: int)
    requires DataOk(bech, watch, t) && s in t.txs && AllReady(bech, watch, t.dict, t.txs, t.rows, t.snap, from, to)
    ensures AllReady(bech, watch, t.dict, t.txs, RetClean(bech, t.dict, t.rows, s, t.txs[s]), t.snap, from, to)
  {
    RetCleanRows(bech, t.dict, t.rows, s, t.txs[s]);
    if s in watch && from <= s < to { RetKeepsReady(bech, watch, t, s); }
    AllReadyKept(bech, watch, t.dict, t.txs, t.rows, RetClean(bech, t.dict, t.rows, s, t.txs[s]), t.snap, s, from, to);
  }

  lemma RetStep(bech: Bech32, watch: iset<nat>, t: State, s: nat)
    requires SweepInv(bech, watch, t) && s in t.txs
    ensures SweepInv(bech, watch, Next(bech, t, RetCleanup(s)))
  {
    var t' := Next(bech, t, RetCleanup(s));
    RetCleanRows(bech, t.dict, t.rows, s, t.txs[s]);
    UpToKept(t.txs, t.rows, t'.rows, t.last, s);
    if t.saved >= 0 { RetDoneKept(bech, watch, t, s, t.saved + 1, t.top + 1); }
    if t.inBatch {
      RetDoneKept(bech, watch, t, s, t.lo, t.pos);
      RetReadyKept(bech, watch, t, s, t.pos, t.cur + 1);
    }
    assert DataOk(bech, watch, t') && Position(t') && Progress(bech, watch, t');
  }

  // ---- the collector in between -----------------------------------------------------------------------

  ghost predicate SameTx(txs: map<nat, Tx>, txs': map<nat, Tx>, x: nat) {
    (x in txs <==> x in txs') && (x in txs ==> txs'[x] == txs[x])
  }

  /** Rows of older sequences stay, and so does what was established about them. */
  lemma GrowDone(bech: Bech32, dict: Dict, dict': Dict, at: map<nat, Dict>, at': map<nat, Dict>,
                 txs: map<nat, Tx>, txs': map<nat, Tx>, s: nat, a: Rows, b: Rows, x: nat)
    requires Done(bech, dict, at, txs, a, x) && Extends(dict, dict') && SameElsewhere(a, b, s) && x != s
    requires SameTx(txs, txs', x) && (x in at ==> x in at' && at'[x] == at[x])
    ensures Done(bech, dict', at', txs', b, x)
  {
    if x in txs {
      ElsewhereKeeps(bech, at[x], a, b, s, x, txs[x], map[]);
      ExtendsTrans(at[x], dict, dict');
    }
  }

  lemma GrowReady(bech: Bech32, dict: Dict, dict': Dict, txs: map<nat, Tx>, txs': map<nat, Tx>, s: nat,
                  a: Rows, b: Rows, snap: Rows, x: nat)
    requires Ready(bech, dict, txs, a, snap, x) && Extends(dict, dict') && DictGood(dict')
    requires SameElsewhere(a, b, s) && x != s && SameTx(txs, txs', x)
    ensures Ready(bech, dict', txs', b, snap, x)
  {
    if x in txs {
      ElsewhereKeeps(bech, dict, a, b, s, x, txs[x], ActualAt(snap, x));
      FitsGrows(bech, dict, dict', b, ActualAt(snap, x), x, txs[x]);
    }
  }

  lemma GrowAllDone(bech: Bech32, watch: iset<nat>, dict: Dict, dict': Dict, at: map<nat, Dict>, at': map<nat, Dict>,
                    txs: map<nat, Tx>, txs': map<nat, Tx>, s: nat, a: Rows, b: Rows, from: int, to: int)
    requires AllDone(bech, watch, dict, at, txs, a, from, to) && Extends(dict, dict') && SameElsewhere(a, b, s) &&
             to <= s
    requires at' == at[s := dict'] && forall x :: x != s ==> SameTx(txs, txs', x)
    ensures AllDone(bech, watch, dict', at', txs', b, from, to)
  {
    forall x: nat | x in watch && from <= x < to ensures Done(bech, dict', at', txs', b, x) {
      GrowDone(bech, dict, dict', at, at', txs, txs', s, a, b, x);
    }
  }

  lemma GrowAllReady(bech: Bech32, watch: iset<nat>, dict: Dict, dict': Dict, txs: map<nat, Tx>, txs': map<nat, Tx>,
                     s: nat, a: Rows, b: Rows, snap: Rows, from: int, to: int)
    requires AllReady(bech, watch, dict, txs, a, snap, from, to) && Extends(dict, dict') && DictGood(dict')
    requires SameElsewhere(a, b, s) && to <= s && forall x :: x != s ==> SameTx(txs, txs', x)
    ensures AllReady(bech, watch, dict', txs', b, snap, from, to)
  {
    forall x: nat | x in watch && from <= x < to ensures Ready(bech, dict', txs', b, snap, x) {
      GrowReady(bech, dict, dict', txs, txs', s, a, b, snap, x);
    }
  }

  lemma CollectElsewhere(bech: Bech32, dict: Dict, rows: Rows, s: nat, tx: Tx, signer: string)
    ensures SameElsewhere(rows, CollectRows(bech, dict, rows, s, tx, signer), s)
  {}

  lemma CollectUpTo(bech: Bech32, t: State, s: nat, tx: Tx, dict: Dict, signer: string, stored: bool)
    requires UpTo(t.txs, t.rows, t.last) && s > t.last
    ensures UpTo(WithTx(t.txs, s, tx, stored), CollectRows(bech, dict, t.rows, s, tx, signer), s)
  {
    CollectElsewhere(bech, dict, t.rows, s, tx, signer);
  }

  lemma CollectProgress(bech: Bech32, watch: iset<nat>, t: State, s: nat, tx: Tx, dict: Dict, signer: string,
                        stored: bool)
    requires SweepInv(bech, watch, t) && s > t.last && Extends(t.dict, dict) && DictGood(dict)
    ensures Progress(bech, watch, Next(bech, t, Collect(s, tx, dict, signer, stored)))
  {
    var rows, at, txs := CollectRows(bech, dict, t.rows, s, tx, signer), t.at[s := dict], WithTx(t.txs, s, tx, stored);
    CollectElsewhere(bech, dict, t.rows, s, tx, signer);
    if t.saved >= 0 {
      GrowAllDone(bech, watch, t.dict, dict, t.at, at, t.txs, txs, s, t.rows, rows, t.saved + 1, t.top + 1);
    }
    if t.inBatch {
      GrowAllDone(bech, watch, t.dict, dict, t.at, at, t.txs, txs, s, t.rows, rows, t.lo, t.pos);
      GrowAllReady(bech, watch, t.dict, dict, t.txs, txs, s, t.rows, rows, t.snap, t.pos, t.cur + 1);
    }
  }

  lemma CollectStep(bech: Bech32, watch: iset<nat>, t: State, s: nat, tx: Tx, dict: Dict, signer: string, stored: bool)
    requires SweepInv(bech, watch, t) && s > t.last && CollectOk(bech, watch, t, s, tx, dict, signer, stored)
    ensures SweepInv(bech, watch, Next(bech, t, Collect(s, tx, dict, signer, stored)))
  {
    CollectUpTo(bech, t, s, tx, dict, signer, stored);
    CollectProgress(bech, watch, t, s, tx, dict, signer, stored);
  }

  lemma SweepStep(bech: Bech32, watch: iset<nat>, t: State, e: Event)
    requires SweepInv(bech, watch, t) && CollectorOk(bech, watch, t, [e])
    ensures SweepInv(bech, watch, Next(bech, t, e))
  {
    match e
    case Fix => if t.inBatch && t.pos <= t.cur { FixStep(bech, watch, t); }
    case Begin => if t.up && !t.inBatch && t.cur > 0 { BeginStep(bech, watch, t); }
    case RetCleanup(s) => if s in t.txs { RetStep(bech, watch, t, s); }
    case Collect(s, tx, dict, signer, stored) =>
      if s > t.last { CollectStep(bech, watch, t, s, tx, dict, signer, stored); }
    case Boot =>
    case Finish =>
    case Crash =>
  }

  lemma {:induction false} SweepRun(bech: Bech32, watch: iset<nat>, t: State, es: seq<Event>)
    requires SweepInv(bech, watch, t) && CollectorOk(bech, watch, t, es)
    ensures SweepInv(bech, watch, Run(bech, t, es))
    decreases |es|
  {
    if es != [] {
      assert CollectorOk(bech, watch, t, [es[0]]);
      SweepStep(bech, watch, t, es[0]);
      SweepRun(bech, watch, Next(bech, t, es[0]), es[1..]);
    }
  }

  /** A database before the cleanup's first start. */
  ghost predicate Untouched(bech: Bech32, watch: iset<nat>, t: State) {
    DataOk(bech, watch, t) && t.saved == -1 && !t.up && !t.inBatch
  }

  lemma CoveredStep(bech: Bech32, t: State, e: Event, s: nat)
    requires Position(t) && s in t.txs && (t.saved >= 0 ==> s <= t.top)
    ensures var t' := Next(bech, t, e); s in t'.txs && (t'.saved >= 0 ==> s <= t'.top)
  {}

  /** The sweep starts no lower than any transaction stored before it. */
  lemma {:induction false} StoredIsCovered(bech: Bech32, watch: iset<nat>, t: State, es: seq<Event>, s: nat)
    requires SweepInv(bech, watch, t) && CollectorOk(bech, watch, t, es)
    requires s in t.txs && (t.saved >= 0 ==> s <= t.top)
    ensures var t' := Run(bech, t, es); s in t'.txs && (t'.saved >= 0 ==> s <= t'.top)
    decreases |es|
  {
    if es != [] {
      assert CollectorOk(bech, watch, t, [es[0]]);
      SweepStep(bech, watch, t, es[0]);
      CoveredStep(bech, t, es[0], s);
      StoredIsCovered(bech, watch, Next(bech, t, es[0]), es[1..], s);
    }
  }

  /** For every crash schedule, with the ret cleanup and the collector running alongside: once the
      cursor is down at 0, every transaction up to the maximum of the first start, so each one that
      was stored before it, whose wanted rows the ret cleanup spares has exactly the accounts,
        with the right signer flags, that are expected
      under the dictionary of its last fix; and under the present one exactly if none of its
      addresses has got an account since. Nothing is asked of the other transactions. */
  lemma SweepRepairsAll(bech: Bech32, watch: iset<nat>, t: State, es: seq<Event>, s: nat)
    requires Untouched(bech, watch, t) && CollectorOk(bech, watch, t, es) && s in watch
    ensures var t' := Run(bech, t, es);
            t'.up && t'.cur == 0 && 1 <= s && s in t'.txs && (s in t.txs || s <= t'.top) ==>
              s in t'.at && CleanSince(bech, t'.at[s], t'.dict, t'.rows, s, t'.txs[s]) &&
              (Clean(bech, t'.dict, t'.rows, s, t'.txs[s]) <==> NoneNew(bech, t'.at[s], t'.dict, t'.txs[s]))
  {
    SweepRun(bech, watch, t, es);
    var t' := Run(bech, t, es);
    if s in t.txs { StoredIsCovered(bech, watch, t, es, s); }
    if t'.up && t'.cur == 0 && 1 <= s <= t'.top && s in t'.txs {
      assert Done(bech, t'.dict, t'.at, t'.txs, t'.rows, s);
      CleanGrowsIff(bech, t'.at[s], t'.dict, t'.rows, s, t'.txs[s]);
    }
  }

  predicate OwnStep(e: Event) {
    e.Boot? || e.Begin? || e.Fix? || e.Finish? || e.Crash?
  }

  /** The sweep itself leaves every other row alone: those above its first maximum and those of
      sequences without a transaction. */
  lemma SweepFrame(bech: Bech32, t: State, e: Event, r: Edge)
    requires Position(t) && OwnStep(e)
    requires r.sequence !in t.txs || (t.saved >= 0 && r.sequence > t.top)
    ensures var t' := Next(bech, t, e);
            t'.txs == t.txs && t'.dict == t.dict &&
            (r in t'.rows <==> r in t.rows) && (r in t.rows ==> t'.rows[r] == t.rows[r])
  {
    if e.Fix? && t.inBatch && t.pos <= t.cur && t.pos in t.txs { FixElsewhere(bech, t); }
  }

  /** The saved cursor only moves down, and every finished batch moves it by at least one. */
  lemma CursorDescends(bech: Bech32, t: State, e: Event)
    requires Position(t)
    ensures var t' := Next(bech, t, e);
            (t.saved >= 0 ==> 0 <= t'.saved <= t.saved && t'.top == t.top) &&
            (e == Finish && t.inBatch && t.pos > t.cur ==> t'.cur < t.cur && t'.saved < t.saved)
  {}
}
