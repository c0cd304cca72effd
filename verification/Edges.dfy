/** The tx_accounts edge table: the rows the collector writes for a transaction, the deletion of
    ret-only rows, and the diff-and-fix reconciliation. */
module Edges {
  import opened Common
  import opened Address

  /** An event attribute of an EVM transaction. Log topics are those after the first. */
  datatype Attr =
    | Ret(value: string)                             // `ret` of a call event
    | Log(address: string, topics: seq<string>)
    | Plain(value: string)

  datatype Tx = Tx(signer: nat, attrs: seq<Attr>)

  /** Primary key of tx_accounts. */
  datatype Edge = Edge(account: nat, sequence: nat)

  type Rows = map<Edge, bool>    // the signer flag
  type Dict = map<string, nat>   // account_dict: address to id

  // ---- addresses of a transaction ---------------------------------------------------------------

  const PADDED_PREFIX: string := "0x000000000000000000000000"

  predicate IsPadded(w: string) {
    |w| >= |PADDED_PREFIX| && w[..|PADDED_PREFIX|] == PADDED_PREFIX
  }

  /** The parts of a log that count as addresses: its contract and its zero-padded topics. */
  function Words(a: Attr): set<string> {
    if a.Log? then {a.address} + (set w | w in a.topics && IsPadded(w)) else {}
  }

  /** GrepAddressesFromTx: log words are parsed as they are, ret attributes are skipped. */
  function GrepOne(bech: Bech32, a: Attr): set<string> {
    match a
    case Ret(_) => {}
    case Log(_, _) => set w | w in Words(a) && Parse(bech, w).Some? :: Parse(bech, w).value
    case Plain(v) => Extract(bech, v)
  }

  function Grep(bech: Bech32, attrs: seq<Attr>): set<string> {
    if attrs == [] then {} else GrepOne(bech, attrs[0]) + Grep(bech, attrs[1..])
  }

  /** FindRetOnlyAddresses: here log words must look like an address to count. */
  function NonRetOne(bech: Bech32, a: Attr): set<string> {
    match a
    case Ret(_) => {}
    case Log(_, _) => set w, p | w in Words(a) && p in Extract(bech, w) :: p
    case Plain(v) => Extract(bech, v)
  }

  function NonRet(bech: Bech32, attrs: seq<Attr>): set<string> {
    if attrs == [] then {} else NonRetOne(bech, attrs[0]) + NonRet(bech, attrs[1..])
  }

  function InRet(bech: Bech32, attrs: seq<Attr>): set<string> {
    if attrs == [] then {}
    else (if attrs[0].Ret? then Extract(bech, attrs[0].value) else {}) + InRet(bech, attrs[1..])
  }

  function RetOnly(bech: Bech32, attrs: seq<Attr>): set<string> {
    InRet(bech, attrs) - NonRet(bech, attrs)
  }

  /** Log words that parse as an address without looking like one. */
  function OddWords(bech: Bech32, attrs: seq<Attr>): set<string> {
    if attrs == [] then {}
    else (set w | w in Words(attrs[0]) && !IsAddress(w) && Parse(bech, w).Some? :: Parse(bech, w).value)
         + OddWords(bech, attrs[1..])
  }

  // ---- what counts, attribute by attribute ------------------------------------------------------

  /** 0x and 24 zeros. */
  predicate BeginsWithZeros(t: string) {
    |t| >= 26 && t[0] == '0' && t[1] == 'x' && forall k :: 2 <= k < 26 ==> t[k] == '0'
  }

  lemma PaddedIff(t: string)
    ensures IsPadded(t) <==> BeginsWithZeros(t)
  {
    if BeginsWithZeros(t) { assert t[..26] == PADDED_PREFIX; }
    if IsPadded(t) { assert forall k :: 0 <= k < 26 ==> t[k] == PADDED_PREFIX[k]; }
  }

  /** A part of the value, between commas, is an address that parses to p. */
  ghost predicate ShowsAddress(bech: Bech32, value: string, p: string) {
    exists w :: w in Split(value) && IsAddress(w) && Parse(bech, w) == Some(p)
  }

  /** The collector counts p because of a: the contract of a log or one of its zero-padded topics is
      p, whatever it looks like, or a part of an ordinary value is. */
  ghost predicate Counts(bech: Bech32, a: Attr, p: string) {
    match a
    case Ret(_) => false
    case Log(address, topics) =>
      Parse(bech, address) == Some(p) ||
      exists j :: 0 <= j < |topics| && BeginsWithZeros(topics[j]) && Parse(bech, topics[j]) == Some(p)
    case Plain(v) => ShowsAddress(bech, v, p)
  }

  /** The ret cleanup takes a as evidence that p occurs outside `ret`. */
  ghost predicate ShowsOutside(bech: Bech32, a: Attr, p: string) {
    match a
    case Ret(_) => false
    case Log(address, topics) =>
      ShowsAddress(bech, address, p) ||
      exists j :: 0 <= j < |topics| && BeginsWithZeros(topics[j]) && ShowsAddress(bech, topics[j], p)
    case Plain(v) => ShowsAddress(bech, v, p)
  }

  lemma WordsIff(a: Attr, w: string)
    requires a.Log?
    ensures w in Words(a) <==>
              w == a.address || exists j :: 0 <= j < |a.topics| && BeginsWithZeros(a.topics[j]) && a.topics[j] == w
  {
    PaddedIff(w);
  }

  lemma GrepOneIff(bech: Bech32, a: Attr, p: string)
    ensures p in GrepOne(bech, a) <==> Counts(bech, a, p)
  {
    if a.Log? {
      if p in GrepOne(bech, a) {
        var w :| w in Words(a) && Parse(bech, w) == Some(p);
        WordsIff(a, w);
      }
      if Counts(bech, a, p) {
        WordsIff(a, a.address);
        if j :| 0 <= j < |a.topics| && BeginsWithZeros(a.topics[j]) && Parse(bech, a.topics[j]) == Some(p) {
          WordsIff(a, a.topics[j]);
        }
      }
    }
  }

  lemma NonRetOneIff(bech: Bech32, a: Attr, p: string)
    ensures p in NonRetOne(bech, a) <==> ShowsOutside(bech, a, p)
  {
    if a.Log? {
      if p in NonRetOne(bech, a) {
        var w :| w in Words(a) && p in Extract(bech, w);
        WordsIff(a, w);
      }
      if ShowsOutside(bech, a, p) {
        WordsIff(a, a.address);
        if ShowsAddress(bech, a.address, p) { assert p in Extract(bech, a.address); }
        if j :| 0 <= j < |a.topics| && BeginsWithZeros(a.topics[j]) && ShowsAddress(bech, a.topics[j], p) {
          WordsIff(a, a.topics[j]);
          assert p in Extract(bech, a.topics[j]);
        }
      }
    }
  }

  /** The collector finds p exactly if some attribute counts for it. */
  lemma {:induction false} GrepIff(bech: Bech32, attrs: seq<Attr>, p: string)
    ensures p in Grep(bech, attrs) <==> exists i :: 0 <= i < |attrs| && Counts(bech, attrs[i], p)
  {
    if attrs != [] {
      GrepOneIff(bech, attrs[0], p);
      GrepIff(bech, attrs[1..], p);
      if i :| 0 <= i < |attrs| && Counts(bech, attrs[i], p) {
        assert i > 0 ==> attrs[1..][i - 1] == attrs[i];
      }
      if i :| 0 <= i < |attrs[1..]| && Counts(bech, attrs[1..][i], p) {
        assert attrs[i + 1] == attrs[1..][i];
      }
    }
  }

  lemma {:induction false} NonRetIff(bech: Bech32, attrs: seq<Attr>, p: string)
    ensures p in NonRet(bech, attrs) <==> exists i :: 0 <= i < |attrs| && ShowsOutside(bech, attrs[i], p)
  {
    if attrs != [] {
      NonRetOneIff(bech, attrs[0], p);
      NonRetIff(bech, attrs[1..], p);
      if i :| 0 <= i < |attrs| && ShowsOutside(bech, attrs[i], p) {
        assert i > 0 ==> attrs[1..][i - 1] == attrs[i];
      }
      if i :| 0 <= i < |attrs[1..]| && ShowsOutside(bech, attrs[1..][i], p) {
        assert attrs[i + 1] == attrs[1..][i];
      }
    }
  }

  ghost predicate ShowsInRet(bech: Bech32, a: Attr, p: string) {
    a.Ret? && ShowsAddress(bech, a.value, p)
  }

  lemma {:induction false} InRetIff(bech: Bech32, attrs: seq<Attr>, p: string)
    ensures p in InRet(bech, attrs) <==> exists i :: 0 <= i < |attrs| && ShowsInRet(bech, attrs[i], p)
  {
    if attrs != [] {
      InRetIff(bech, attrs[1..], p);
      if i :| 0 <= i < |attrs| && ShowsInRet(bech, attrs[i], p) {
        assert i > 0 ==> attrs[1..][i - 1] == attrs[i];
      }
      if i :| 0 <= i < |attrs[1..]| && ShowsInRet(bech, attrs[1..][i], p) {
        assert attrs[i + 1] == attrs[1..][i];
      }
    }
  }

  /** p is ret-only exactly if some `ret` shows it and no other attribute does. */
  lemma RetOnlyIff(bech: Bech32, attrs: seq<Attr>, p: string)
    ensures p in RetOnly(bech, attrs) <==>
              (exists i :: 0 <= i < |attrs| && ShowsInRet(bech, attrs[i], p)) &&
              (forall i :: 0 <= i < |attrs| ==> !ShowsOutside(bech, attrs[i], p))
  {
    InRetIff(bech, attrs, p);
    NonRetIff(bech, attrs, p);
  }

  lemma {:induction false} GrepSplits(bech: Bech32, attrs: seq<Attr>)
    ensures Grep(bech, attrs) <= NonRet(bech, attrs) + OddWords(bech, attrs)
    ensures OddWords(bech, attrs) <= Grep(bech, attrs)
  {
    if attrs != [] {
      GrepSplits(bech, attrs[1..]);
      var a := attrs[0];
      if a.Log? {
        forall p | p in GrepOne(bech, a) ensures p in NonRetOne(bech, a) || p in OddWords(bech, attrs) {
          var w :| w in Words(a) && Parse(bech, w).Some? && Parse(bech, w).value == p;
          if IsAddress(w) { ExtractAddress(bech, w); assert p in Extract(bech, w); }
        }
      }
    }
  }

  /** The ret cleanup never touches an address the collector counts, if and only if no ret-only
      address comes from a log word that does not look like an address. */
  lemma RetOnlyDisjointIff(bech: Bech32, attrs: seq<Attr>)
    ensures RetOnly(bech, attrs) !! Grep(bech, attrs) <==> RetOnly(bech, attrs) !! OddWords(bech, attrs)
  {
    GrepSplits(bech, attrs);
    if RetOnly(bech, attrs) !! OddWords(bech, attrs) {
      forall p | p in RetOnly(bech, attrs) ensures p !in Grep(bech, attrs) {
        assert p !in NonRet(bech, attrs);
      }
    }
  }

  /** It can happen: a log with an empty contract address parses as the zero address. */
  lemma EmptyLogAddress(bech: Bech32)
    requires bech("").None?
    ensures var attrs := [Log("", []), Ret("0x0")];
            RetOnly(bech, attrs) * Grep(bech, attrs) == {Zeros(40)}
  {
    var attrs := [Log("", []), Ret("0x0")];
    var zero := Zeros(40);
    assert attrs[1..] == [Ret("0x0")] && attrs[1..][1..] == [];
    assert Significant("") == "" && Zeros(40) + "" == zero;
    assert Parse(bech, "") == Some(zero);
    assert "0x0"[2..] == "0" && TrimZeros("0") == "" by { assert "0"[1..] == ""; }
    assert Significant("0x0") == "";
    assert Parse(bech, "0x0") == Some(zero);
    ExtractAddress(bech, "0x0");
    assert Words(attrs[0]) == {""};
    assert Split("") == [""];
    assert Extract(bech, "") == {};
    assert NonRetOne(bech, attrs[0]) == {};
    assert NonRet(bech, attrs[1..]) == {} && NonRet(bech, attrs) == {};
    assert InRet(bech, attrs[1..]) == {zero} && InRet(bech, attrs) == {zero};
    assert GrepOne(bech, attrs[0]) == {zero};
    assert Grep(bech, attrs[1..]) == {} && Grep(bech, attrs) == {zero};
  }

  // ---- the rows a transaction should have ----------------------------------------------------------

  /** Ids of known addresses; 0 is never a valid id. */
  function IdsOf(dict: Dict, addrs: set<string>): set<nat> {
    set a | a in addrs && a in dict :: dict[a]
  }

  function Expected(bech: Bech32, dict: Dict, tx: Tx): set<nat> {
    IdsOf(dict, Grep(bech, tx.attrs)) + {tx.signer} - {0}
  }

  /** An account belongs to the transaction exactly if it is the signer's, or that of an address some
      attribute counts for. */
  lemma ExpectedIff(bech: Bech32, dict: Dict, tx: Tx, id: nat)
    ensures id in Expected(bech, dict, tx) <==>
              id != 0 && (id == tx.signer ||
                exists a, i :: 0 <= i < |tx.attrs| && Counts(bech, tx.attrs[i], a) && a in dict && dict[a] == id)
  {
    if id in IdsOf(dict, Grep(bech, tx.attrs)) {
      var a :| a in Grep(bech, tx.attrs) && a in dict && dict[a] == id;
      GrepIff(bech, tx.attrs, a);
    }
    if a, i :| 0 <= i < |tx.attrs| && Counts(bech, tx.attrs[i], a) && a in dict && dict[a] == id {
      GrepIff(bech, tx.attrs, a);
    }
  }

  ghost predicate Clean(bech: Bech32, dict: Dict, rows: Rows, s: nat, tx: Tx) {
    forall id: nat :: (Edge(id, s) in rows <==> id in Expected(bech, dict, tx)) &&
                      (Edge(id, s) in rows ==> rows[Edge(id, s)] == (id == tx.signer))
  }

  /** Rows of other sequences are the same in both tables. */
  ghost predicate SameElsewhere(a: Rows, b: Rows, s: nat) {
    forall e: Edge :: e.sequence != s ==> (e in a <==> e in b) && (e in a ==> a[e] == b[e])
  }

  /** Every account of the events is in the dictionary, ids are unique and not 0. */
  ghost predicate DictGood(dict: Dict) {
    (forall a :: a in dict ==> dict[a] != 0) &&
    (forall a, b :: a in dict && b in dict && dict[a] == dict[b] ==> a == b)
  }

  // ---- evmret: DeleteRetOnlyRecords ----------------------------------------------------------------

  /** Ret-only addresses travel in hex and are looked up by what that parses to. */
  function RetIds(bech: Bech32, dict: Dict, tx: Tx): set<nat> {
    (set a | a in RetOnly(bech, tx.attrs) && Parse(bech, "0x" + a).Some? && Parse(bech, "0x" + a).value in dict
       :: dict[Parse(bech, "0x" + a).value]) - {tx.signer}
  }

  function RetClean(bech: Bech32, dict: Dict, rows: Rows, s: nat, tx: Tx): Rows {
    rows - (set id | id in RetIds(bech, dict, tx) :: Edge(id, s))
  }

  lemma {:induction false} InRetAccount(bech: Bech32, attrs: seq<Attr>, a: string)
    requires GoodBech32(bech) && a in InRet(bech, attrs)
    ensures Parse(bech, "0x" + a) == Some(a) <==> Canonical(a)
  {
    if attrs[0].Ret? && a in Extract(bech, attrs[0].value) {
      var p :| p in Split(attrs[0].value) && IsAddress(p) && Parse(bech, p).Some? && Parse(bech, p).value == a;
      ParseAccount(bech, p);
    } else {
      InRetAccount(bech, attrs[1..], a);
    }
  }

  /** The ret-only address a is looked up as b. This spares what the collector counts: b is not
      stored, or is the signer's, or comes from no log word that does not look like an address, or,
      when the trip in hex has changed it, from no counted place at all. */
  ghost predicate Spared(bech: Bech32, dict: Dict, tx: Tx, a: string, b: string) {
    b in dict && b in (if Canonical(a) then OddWords(bech, tx.attrs) else Grep(bech, tx.attrs)) ==> dict[b] == tx.signer
  }

  ghost predicate Harmless(bech: Bech32, dict: Dict, tx: Tx) {
    forall a :: a in RetOnly(bech, tx.attrs) && Parse(bech, "0x" + a).Some? ==>
      Spared(bech, dict, tx, a, Parse(bech, "0x" + a).value)
  }

  lemma SparedIff(bech: Bech32, dict: Dict, tx: Tx, a: string)
    requires GoodBech32(bech) && DictGood(dict) && a in RetOnly(bech, tx.attrs) && Parse(bech, "0x" + a).Some?
    ensures var b := Parse(bech, "0x" + a).value;
            b in dict && dict[b] != tx.signer ==>
              (Spared(bech, dict, tx, a, b) <==> dict[b] !in Expected(bech, dict, tx))
  {
    InRetAccount(bech, tx.attrs, a);
    GrepSplits(bech, tx.attrs);
    var b := Parse(bech, "0x" + a).value;
    if b in dict && b in Grep(bech, tx.attrs) {
      assert dict[b] in IdsOf(dict, Grep(bech, tx.attrs));
    }
  }

  /** Every row the ret cleanup deletes is one the reconciliation also treats as extra, if and only
      if every such address is spared. */
  lemma RetIdsUnexpectedIff(bech: Bech32, dict: Dict, tx: Tx)
    requires GoodBech32(bech) && DictGood(dict)
    ensures RetIds(bech, dict, tx) !! Expected(bech, dict, tx) <==> Harmless(bech, dict, tx)
  {
    if Harmless(bech, dict, tx) {
      forall id | id in RetIds(bech, dict, tx) ensures id !in Expected(bech, dict, tx) {
        var a :| a in RetOnly(bech, tx.attrs) && Parse(bech, "0x" + a).Some? &&
                 Parse(bech, "0x" + a).value in dict && dict[Parse(bech, "0x" + a).value] == id;
        SparedIff(bech, dict, tx, a);
      }
    } else {
      var a :| a in RetOnly(bech, tx.attrs) && Parse(bech, "0x" + a).Some? &&
               !Spared(bech, dict, tx, a, Parse(bech, "0x" + a).value);
      SparedIff(bech, dict, tx, a);
      assert dict[Parse(bech, "0x" + a).value] in RetIds(bech, dict, tx);
    }
  }

  // ---- txaccountcleanup: reconcileTx ------------------------------------------------------------------

  /** The table after reconcileTx; actual is what ProcessBatch read for this sequence earlier. */
  function Reconcile(bech: Bech32, dict: Dict, rows: Rows, actual: map<nat, bool>, s: nat, tx: Tx): Rows {
    var want := Expected(bech, dict, tx);
    var extra := set id | id in actual && id !in want :: Edge(id, s);
    var stale := set id | id in actual && id in want && actual[id] != (id == tx.signer) :: Edge(id, s);
    var missing := set id | id in want && id !in actual :: Edge(id, s);
    var kept := rows - extra;
    map e | e in kept.Keys + missing ::
      if e in kept then (if e in stale then e.account == tx.signer else kept[e]) else e.account == tx.signer
  }

  /** The snapshot is still good: since it was read, rows of this sequence have only been lost,
      and only rows of known accounts that are not expected. */
  ghost predicate Fits(bech: Bech32, dict: Dict, rows: Rows, actual: map<nat, bool>, s: nat, tx: Tx) {
    && (forall id: nat :: Edge(id, s) in rows ==> id in actual && actual[id] == rows[Edge(id, s)])
    && (forall id :: id in actual && Edge(id, s) !in rows ==> id in dict.Values && id !in Expected(bech, dict, tx))
  }

  /** Reconciling from such a snapshot leaves exactly the expected rows and nothing else changed. */
  lemma ReconcileExact(bech: Bech32, dict: Dict, rows: Rows, actual: map<nat, bool>, s: nat, tx: Tx)
    requires Fits(bech, dict, rows, actual, s, tx)
    ensures var rows' := Reconcile(bech, dict, rows, actual, s, tx);
            Clean(bech, dict, rows', s, tx) && SameElsewhere(rows, rows', s)
  {}

  /** Whatever the snapshot, rows of other sequences are left alone. */
  lemma ReconcileElsewhere(bech: Bech32, dict: Dict, rows: Rows, actual: map<nat, bool>, s: nat, tx: Tx)
    ensures SameElsewhere(rows, Reconcile(bech, dict, rows, actual, s, tx), s)
  {}

  lemma RetCleanRows(bech: Bech32, dict: Dict, rows: Rows, s: nat, tx: Tx)
    ensures var rows' := RetClean(bech, dict, rows, s, tx);
            SameElsewhere(rows, rows', s) && rows'.Keys <= rows.Keys &&
            forall id: nat :: Edge(id, s) in rows' <==> Edge(id, s) in rows && id !in RetIds(bech, dict, tx)
  {
    var rows' := RetClean(bech, dict, rows, s, tx);
    forall id: nat ensures Edge(id, s) in rows' <==> Edge(id, s) in rows && id !in RetIds(bech, dict, tx) {
      assert Edge(id, s).account == id;
    }
  }

  /** A ret cleanup in between disturbs neither a transaction that was finished under the present or
      an earlier dictionary nor a pending snapshot. */
  lemma RetCleanKeeps(bech: Bech32, dict: Dict, rows: Rows, s: nat, tx: Tx, early: Dict, actual: map<nat, bool>)
    requires RetIds(bech, dict, tx) !! Expected(bech, dict, tx) && Extends(early, dict)
    ensures var rows' := RetClean(bech, dict, rows, s, tx);
            (Clean(bech, early, rows, s, tx) ==> Clean(bech, early, rows', s, tx)) &&
            (Fits(bech, dict, rows, actual, s, tx) ==> Fits(bech, dict, rows', actual, s, tx))
  {
    RetCleanRows(bech, dict, rows, s, tx);
    ExpectedGrows(bech, early, dict, tx);
    forall id | id in RetIds(bech, dict, tx) ensures id in dict.Values {}
  }

  function ActualAt(rows: Rows, s: nat): map<nat, bool> {
    map e | e in rows && e.sequence == s :: e.account := rows[e]
  }

  lemma ActualFits(bech: Bech32, dict: Dict, rows: Rows, s: nat, tx: Tx)
    ensures Fits(bech, dict, rows, ActualAt(rows, s), s, tx)
  {
    forall id: nat | Edge(id, s) in rows ensures id in ActualAt(rows, s) && ActualAt(rows, s)[id] == rows[Edge(id, s)] {
      assert Edge(id, s).account == id;
    }
  }

  lemma CleanUnique(bech: Bech32, dict: Dict, a: Rows, b: Rows, s: nat, tx: Tx)
    requires Clean(bech, dict, a, s, tx) && Clean(bech, dict, b, s, tx) && SameElsewhere(a, b, s)
    ensures a == b
  {
    forall e: Edge ensures (e in a <==> e in b) && (e in a ==> a[e] == b[e]) {
      if e.sequence == s { assert e == Edge(e.account, s); }
    }
  }

  /** The ret cleanup leaves a clean transaction alone exactly when it deletes no expected row. */
  lemma RetCleanFixesIff(bech: Bech32, dict: Dict, rows: Rows, s: nat, tx: Tx)
    requires Clean(bech, dict, rows, s, tx)
    ensures RetClean(bech, dict, rows, s, tx) == rows <==> RetIds(bech, dict, tx) !! Expected(bech, dict, tx)
  {
    var gone := RetClean(bech, dict, rows, s, tx);
    if RetIds(bech, dict, tx) !! Expected(bech, dict, tx) {
      RetCleanRows(bech, dict, rows, s, tx);
      RetCleanKeeps(bech, dict, rows, s, tx, dict, map[]);
      CleanUnique(bech, dict, rows, gone, s, tx);
    } else {
      var id :| id in RetIds(bech, dict, tx) && id in Expected(bech, dict, tx);
      assert Edge(id, s) in rows && Edge(id, s) !in gone;
    }
  }

  /** Reconciliation makes up for whatever the ret cleanup did before. */
  lemma ReconcileLast(bech: Bech32, dict: Dict, rows: Rows, s: nat, tx: Tx)
    ensures var fixed := Reconcile(bech, dict, rows, ActualAt(rows, s), s, tx);
            var cleaned := RetClean(bech, dict, rows, s, tx);
            Clean(bech, dict, fixed, s, tx) && Reconcile(bech, dict, cleaned, ActualAt(cleaned, s), s, tx) == fixed
  {
    var fixed := Reconcile(bech, dict, rows, ActualAt(rows, s), s, tx);
    var cleaned := RetClean(bech, dict, rows, s, tx);
    ActualFits(bech, dict, rows, s, tx);
    ReconcileExact(bech, dict, rows, ActualAt(rows, s), s, tx);
    ActualFits(bech, dict, cleaned, s, tx);
    ReconcileExact(bech, dict, cleaned, ActualAt(cleaned, s), s, tx);
    CleanUnique(bech, dict, fixed, Reconcile(bech, dict, cleaned, ActualAt(cleaned, s), s, tx), s, tx);
  }

  /** The two background repairs, for every table: reconciling last always ends in the same table,
      and cleaning last ends in it too if and only if every ret-only address is spared. */
  lemma RepairsCommuteIff(bech: Bech32, dict: Dict, rows: Rows, s: nat, tx: Tx)
    requires GoodBech32(bech) && DictGood(dict)
    ensures var fixed := Reconcile(bech, dict, rows, ActualAt(rows, s), s, tx);
            var cleaned := RetClean(bech, dict, rows, s, tx);
            Reconcile(bech, dict, cleaned, ActualAt(cleaned, s), s, tx) == fixed &&
            (RetClean(bech, dict, fixed, s, tx) == fixed <==> Harmless(bech, dict, tx))
  {
    ReconcileLast(bech, dict, rows, s, tx);
    RetCleanFixesIff(bech, dict, Reconcile(bech, dict, rows, ActualAt(rows, s), s, tx), s, tx);
    RetIdsUnexpectedIff(bech, dict, tx);
  }

  lemma RowGoes(bech: Bech32, dict: Dict, tx: Tx, a: string, b: string, s: nat)
    requires a in RetOnly(bech, tx.attrs) && Parse(bech, "0x" + a) == Some(b) && b in Grep(bech, tx.attrs)
    requires b in dict && dict[b] != 0 && dict[b] != tx.signer
    ensures var fixed, row := Reconcile(bech, dict, map[], map[], s, tx), Edge(dict[b], s);
            Clean(bech, dict, fixed, s, tx) && row in fixed && row !in RetClean(bech, dict, fixed, s, tx)
  {
    ReconcileExact(bech, dict, map[], map[], s, tx);
    assert dict[b] in RetIds(bech, dict, tx) && dict[b] in Expected(bech, dict, tx);
  }

  /** A wanted row that is deleted: the zero address has an account other than the signer's, a log
      with an empty contract address makes its row expected, and a zero `ret` makes it go. */
  lemma WantedRowGoes(bech: Bech32, id: nat, signer: nat, s: nat)
    requires bech("").None? && id != 0 && id != signer
    ensures var tx, dict := Tx(signer, [Log("", []), Ret("0x0")]), map[Zeros(40) := id];
            var fixed := Reconcile(bech, dict, map[], map[], s, tx);
            Clean(bech, dict, fixed, s, tx) && Edge(id, s) in fixed &&
              Edge(id, s) !in RetClean(bech, dict, fixed, s, tx)
  {
    var tx, dict := Tx(signer, [Log("", []), Ret("0x0")]), map[Zeros(40) := id];
    EmptyLogAddress(bech);
    assert Zeros(40) in RetOnly(bech, tx.attrs) * Grep(bech, tx.attrs);
    HexDetourIff(bech, Zeros(40));
    RowGoes(bech, dict, tx, Zeros(40), Zeros(40), s);
  }

  lemma ShortenedRet(bech: Bech32, a: string, w: string)
    requires AllLowerHex(a) && |a| == 40 && IsBech32Address(w) && bech(w) == Some(Zeros(24) + a)
    ensures var attrs := [Plain("0x" + a), Ret(w)];
            Grep(bech, attrs) == {a} && OddWords(bech, attrs) == {} && RetOnly(bech, attrs) == {Zeros(24) + a}
  {
    var attrs := [Plain("0x" + a), Ret(w)];
    assert attrs[1..] == [Ret(w)] && attrs[1..][1..] == [];
    assert w[0] == w[..5][0] == 'i';
    HexDetourIff(bech, a);
    ExtractAddress(bech, "0x" + a);
    ExtractAddress(bech, w);
    assert Grep(bech, attrs[1..]) == {} && NonRet(bech, attrs[1..]) == {} && OddWords(bech, attrs[1..]) == {};
    assert InRet(bech, attrs[1..]) == {Zeros(24) + a};
    assert a != Zeros(24) + a;
  }

  /** Another one, without odd log words: a `ret` names the 32 bytes that are 12 zero bytes and a
      counted address, and the trip in hex turns them into that address. */
  lemma ShortenedRowGoes(bech: Bech32, a: string, w: string, id: nat, signer: nat, s: nat)
    requires AllLowerHex(a) && |a| == 40 && IsBech32Address(w) && bech(w) == Some(Zeros(24) + a)
    requires id != 0 && id != signer
    ensures var tx, dict := Tx(signer, [Plain("0x" + a), Ret(w)]), map[a := id];
            var fixed := Reconcile(bech, dict, map[], map[], s, tx);
            OddWords(bech, tx.attrs) == {} && Clean(bech, dict, fixed, s, tx) &&
            Edge(id, s) in fixed && Edge(id, s) !in RetClean(bech, dict, fixed, s, tx)
  {
    var tx, dict := Tx(signer, [Plain("0x" + a), Ret(w)]), map[a := id];
    var long := Zeros(24) + a;
    ShortenedRet(bech, a, w);
    TrimLeading(24, a);
    TrimTail(a);
    HexDetourShortens(bech, long);
    assert long[24..] == a;
    RowGoes(bech, dict, tx, long, a, s);
  }

  /** Reconciling a clean transaction changes nothing: the repair is idempotent. */
  lemma CleanIsFixed(bech: Bech32, dict: Dict, rows: Rows, s: nat, tx: Tx)
    requires Clean(bech, dict, rows, s, tx)
    ensures Reconcile(bech, dict, rows, ActualAt(rows, s), s, tx) == rows
  {
    ActualFits(bech, dict, rows, s, tx);
    ReconcileExact(bech, dict, rows, ActualAt(rows, s), s, tx);
    CleanUnique(bech, dict, rows, Reconcile(bech, dict, rows, ActualAt(rows, s), s, tx), s, tx);
  }

  // ---- the collector's own rows --------------------------------------------------------------------------

  /** collect() of the tx submodule: one row for each distinct id, inserted where none exists. */
  function CollectRows(bech: Bech32, dict: Dict, rows: Rows, s: nat, tx: Tx, signer: string): Rows {
    WithIds(rows, IdsOf(dict, Grep(bech, tx.attrs) + {signer}), s, tx.signer)
  }

  function WithIds(rows: Rows, ids: set<nat>, s: nat, signer: nat): Rows {
    map e | e in rows.Keys + (set id | id in ids :: Edge(id, s)) ::
      if e in rows then rows[e] else e.account == signer
  }

  lemma WithOneMore(rows: Rows, ids: set<nat>, id: nat, s: nat, signer: nat)
    ensures var rows', row := WithIds(rows, ids, s, signer), Edge(id, s);
            WithIds(rows, ids + {id}, s, signer) == if row in rows' then rows' else rows'[row := id == signer]
  {}

  ghost predicate Extends(dict: Dict, dict': Dict) {
    forall a :: a in dict ==> a in dict' && dict'[a] == dict[a]
  }

  /** The dictionary knows every address of the transaction, so Expected is settled. */
  ghost predicate Covers(bech: Bech32, dict: Dict, tx: Tx) {
    forall a :: a in Grep(bech, tx.attrs) ==> a in dict
  }

  lemma ExpectedGrows(bech: Bech32, dict: Dict, dict': Dict, tx: Tx)
    requires Extends(dict, dict')
    ensures Expected(bech, dict, tx) <= Expected(bech, dict', tx)
    ensures Covers(bech, dict, tx) ==> Expected(bech, dict', tx) == Expected(bech, dict, tx)
  {}

  /** No address of the transaction is new in the larger dictionary, except as its signer. */
  ghost predicate NoneNew(bech: Bech32, dict: Dict, dict': Dict, tx: Tx) {
    forall a :: a in Grep(bech, tx.attrs) && a in dict' && a !in dict ==> dict'[a] == tx.signer
  }

  /** Rows that are the expected ones remain so under a larger dictionary exactly in that case. */
  lemma CleanGrowsIff(bech: Bech32, dict: Dict, dict': Dict, rows: Rows, s: nat, tx: Tx)
    requires Clean(bech, dict, rows, s, tx) && Extends(dict, dict') && DictGood(dict')
    ensures Clean(bech, dict', rows, s, tx) <==> NoneNew(bech, dict, dict', tx)
  {
    ExpectedGrows(bech, dict, dict', tx);
    if Clean(bech, dict', rows, s, tx) {
      forall a | a in Grep(bech, tx.attrs) && a in dict' && a !in dict ensures dict'[a] == tx.signer {
        assert dict'[a] in Expected(bech, dict', tx);
        assert Edge(dict'[a], s) in rows;
      }
    }
  }

  /** A pending snapshot stays good under a larger dictionary. */
  lemma FitsGrows(bech: Bech32, dict: Dict, dict': Dict, rows: Rows, actual: map<nat, bool>, s: nat, tx: Tx)
    requires Fits(bech, dict, rows, actual, s, tx) && Extends(dict, dict') && DictGood(dict')
    ensures Fits(bech, dict', rows, actual, s, tx)
  {
    forall id | id in actual && Edge(id, s) !in rows ensures id in dict'.Values && id !in Expected(bech, dict', tx) {
      var b :| b in dict && dict[b] == id;
      assert dict'[b] == id;
    }
  }

  /** The rows the collector writes at a new sequence are the expected ones. */
  lemma CollectClean(bech: Bech32, dict: Dict, rows: Rows, s: nat, tx: Tx, signer: string)
    requires DictGood(dict) && signer in dict && tx.signer == dict[signer]
    requires forall e :: e in rows ==> e.sequence != s
    ensures var rows' := CollectRows(bech, dict, rows, s, tx, signer);
            Clean(bech, dict, rows', s, tx) && SameElsewhere(rows, rows', s)
  {}

  /** They are a fixed point of the reconciliation, and stay so however the dictionary grows, since
      the collector creates an account for each of its addresses. */
  lemma CollectedIsClean(bech: Bech32, dict: Dict, dict': Dict, rows: Rows, s: nat, tx: Tx, signer: string)
    requires DictGood(dict) && Covers(bech, dict, tx) && signer in dict && tx.signer == dict[signer]
    requires Extends(dict, dict') && forall e :: e in rows ==> e.sequence != s
    ensures var rows' := CollectRows(bech, dict, rows, s, tx, signer);
            Clean(bech, dict', rows', s, tx) && SameElsewhere(rows, rows', s) &&
            Reconcile(bech, dict', rows', ActualAt(rows', s), s, tx) == rows'
  {
    var rows' := CollectRows(bech, dict, rows, s, tx, signer);
    CollectClean(bech, dict, rows, s, tx, signer);
    ExpectedGrows(bech, dict, dict', tx);
    CleanIsFixed(bech, dict', rows', s, tx);
  }
}
