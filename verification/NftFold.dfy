/** The NFT submodules (wasm and evm): a block's mint, transfer and burn events are folded into
    three maps that cancel each other, which are then written as insert, upsert, delete. */
module NftFold {
  import opened Common
  import opened Address

  datatype NftKey = NftKey(col: string, token: string)

  datatype Event =
    | Mint(key: NftKey, owner: string, uri: string)
    | Transfer(key: NftKey, to: string)
    | Burn(key: NftKey)

  /** A row of the nft table; the timestamp goes with the height. */
  datatype Row = Row(owner: string, height: nat, uri: string)

  datatype MintData = MintData(owner: string, uri: string)

  type Table = map<NftKey, Row>

  // ---- decoding ----------------------------------------------------------------------------

  type Attrs = map<string, string>

  /** One wasm event by its attributes; events without the needed attributes are skipped. */
  function DecodeWasm(attrs: Attrs): Option<Event> {
    if "_contract_address" !in attrs || "action" !in attrs || "token_id" !in attrs then None
    else
      var key := NftKey(attrs["_contract_address"], attrs["token_id"]);
      var action := attrs["action"];
      if action == "mint" then
        if "owner" in attrs
        then Some(Mint(key, attrs["owner"], if "token_uri" in attrs then attrs["token_uri"] else ""))
        else None
      else if action == "transfer_nft" || action == "send_nft" then
        if "recipient" in attrs then Some(Transfer(key, attrs["recipient"])) else None
      else if action == "burn" then Some(Burn(key))
      else None
  }

  function DecodeWasmAll(raw: seq<Attrs>): seq<Event> {
    if raw == [] then []
    else (match DecodeWasm(raw[0]) case Some(e) => [e] case None => []) + DecodeWasmAll(raw[1..])
  }

  /** An ERC-721 Transfer log: collection, the two address topics and the token id. */
  datatype Log = Log(col: string, from: string, to: string, token: string)

  const ZERO_TOPIC: string := "0x" + Zeros(64)

  /** uris holds what the prefetch found; a token without one gets the empty string. */
  function DecodeEvm(l: Log, uris: map<NftKey, string>): Option<Event> {
    var key := NftKey(l.col, l.token);
    if l.from == ZERO_TOPIC && l.to != ZERO_TOPIC then Some(Mint(key, l.to, if key in uris then uris[key] else ""))
    else if l.from != ZERO_TOPIC && l.to != ZERO_TOPIC then Some(Transfer(key, l.to))
    else if l.from != ZERO_TOPIC then Some(Burn(key))
    else None
  }

  function DecodeEvmAll(ls: seq<Log>, uris: map<NftKey, string>): seq<Event> {
    if ls == [] then []
    else (match DecodeEvm(ls[0], uris) case Some(e) => [e] case None => []) + DecodeEvmAll(ls[1..], uris)
  }

  // ---- the fold ------------------------------------------------------------------------------

  datatype Folded = Folded(
    mint: map<NftKey, MintData>,
    transfer: map<NftKey, string>,
    burn: set<NftKey>,
    update: set<string>)

  function Nothing(): Folded { Folded(map[], map[], {}, {}) }

  function FoldOne(f: Folded, e: Event): Folded {
    match e
    case Mint(k, owner, uri) =>
      f.(mint := f.mint[k := MintData(owner, uri)], burn := f.burn - {k}, update := f.update + {k.col})
    case Transfer(k, to) => f.(transfer := f.transfer[k := to])
    case Burn(k) =>
      Folded(f.mint - {k}, f.transfer - {k}, f.burn + {k}, f.update + {k.col})
  }

  function Fold(f: Folded, es: seq<Event>): Folded
    decreases |es|
  {
    if es == [] then f else Fold(FoldOne(f, es[0]), es[1..])
  }

  // ---- the batch written from the maps -------------------------------------------------------

  function Inserted(t: Table, mint: map<NftKey, MintData>, height: nat, skip: set<string>): Table {
    map k | k in t.Keys + mint.Keys && (k in t || k.col !in skip) ::
      if k in t then t[k] else Row(mint[k].owner, height, mint[k].uri)
  }

  function Upserted(t: Table, transfer: map<NftKey, string>, height: nat): Table {
    map k | k in t.Keys + transfer.Keys ::
      if k !in transfer then t[k]
      else if k in t then Row(transfer[k], height, t[k].uri)
      else Row(transfer[k], height, "")
  }

  /** Collections in skip are blacklisted: their mints are not inserted. */
  function Written(t: Table, f: Folded, height: nat, skip: set<string>): Table {
    Upserted(Inserted(t, f.mint, height, skip), f.transfer, height) - f.burn
  }

  // ---- the events one at a time --------------------------------------------------------------

  /** What one event means: a mint creates the token, a transfer moves it (recording a token the
      indexer has not seen), a burn removes it. */
  function Apply(t: Table, e: Event, height: nat): Table {
    match e
    case Mint(k, owner, uri) => t[k := Row(owner, height, uri)]
    case Transfer(k, to) => t[k := Row(to, height, if k in t then t[k].uri else "")]
    case Burn(k) => t - {k}
  }

  function ApplyAll(t: Table, es: seq<Event>, height: nat): Table
    decreases |es|
  {
    if es == [] then t else ApplyAll(Apply(t, es[0], height), es[1..], height)
  }

  /** What a chain can emit: no token is minted while it exists or moved after it was burned;
      dead are the tokens burned so far in the block. */
  ghost predicate Legal(t: Table, dead: set<NftKey>, es: seq<Event>, height: nat)
    decreases |es|
  {
    es == [] ||
    (match es[0]
     case Mint(k, _, _) => k !in t && Legal(Apply(t, es[0], height), dead - {k}, es[1..], height)
     case Transfer(k, _) => k !in dead && Legal(Apply(t, es[0], height), dead, es[1..], height)
     case Burn(k) => Legal(Apply(t, es[0], height), dead + {k}, es[1..], height))
  }

  // ---- batch versus one at a time --------------------------------------------------------------

  function Lookup(t: Table, k: NftKey): Option<Row> {
    if k in t then Some(t[k]) else None
  }

  /** The row the batch leaves for k when it finds r. */
  function Cell(r: Option<Row>, f: Folded, k: NftKey, height: nat, skip: set<string>): Option<Row> {
    if k in f.burn then None
    else
      var r1 := if r.None? && k in f.mint && k.col !in skip then Some(Row(f.mint[k].owner, height, f.mint[k].uri))
                else r;
      if k in f.transfer then Some(Row(f.transfer[k], height, if r1.Some? then r1.value.uri else "")) else r1
  }

  lemma WrittenCell(t: Table, f: Folded, height: nat, skip: set<string>, k: NftKey)
    ensures Lookup(Written(t, f, height, skip), k) == Cell(Lookup(t, k), f, k, height, skip)
  {}

  /** The row of a token after a block, column by column: a burned one is gone, a moved one has its new
      owner, and a stored one keeps what no transfer changes. */
  lemma WrittenRow(t: Table, f: Folded, height: nat, skip: set<string>, k: NftKey)
    ensures var w, minted := Written(t, f, height, skip), k in f.mint && k.col !in skip;
            (k in w <==> k !in f.burn && (k in t || k in f.transfer || minted)) &&
            (k in w ==>
              w[k].owner == (if k in f.transfer then f.transfer[k] else if k in t then t[k].owner
                             else f.mint[k].owner) &&
              w[k].height == (if k in t && k !in f.transfer then t[k].height else height) &&
              w[k].uri == (if k in t then t[k].uri else if minted then f.mint[k].uri else ""))
  {}

  /** The row key k has in the one-by-one table: a token of mint is as if it had not been there. */
  function Tracked(t0: Table, f: Folded, k: NftKey, height: nat): Option<Row> {
    Cell(if k in f.mint then None else Lookup(t0, k), f, k, height, {})
  }

  ghost predicate Tracks(t0: Table, t: Table, f: Folded, height: nat) {
    && (forall k :: k in f.burn ==> k !in f.mint && k !in f.transfer)
    && (forall k :: Lookup(t, k) == Tracked(t0, f, k, height))
  }

  lemma OtherKey(t0: Table, t: Table, f: Folded, height: nat, e: Event, k: NftKey)
    requires k != e.key
    ensures Lookup(Apply(t, e, height), k) == Lookup(t, k)
    ensures Tracked(t0, FoldOne(f, e), k, height) == Tracked(t0, f, k, height)
  {}

  lemma SameKey(t0: Table, t: Table, f: Folded, height: nat, e: Event)
    requires Lookup(t, e.key) == Tracked(t0, f, e.key, height)
    requires e.key in f.burn ==> e.key !in f.mint && e.key !in f.transfer
    requires e.Mint? ==> e.key !in t
    requires e.Transfer? ==> e.key !in f.burn
    ensures Lookup(Apply(t, e, height), e.key) == Tracked(t0, FoldOne(f, e), e.key, height)
  {}

  lemma TracksStep(t0: Table, t: Table, f: Folded, height: nat, e: Event)
    requires Tracks(t0, t, f, height)
    requires e.Mint? ==> e.key !in t
    requires e.Transfer? ==> e.key !in f.burn
    ensures Tracks(t0, Apply(t, e, height), FoldOne(f, e), height)
  {
    assert Lookup(t, e.key) == Tracked(t0, f, e.key, height);
    SameKey(t0, t, f, height, e);
    forall k ensures Lookup(Apply(t, e, height), k) == Tracked(t0, FoldOne(f, e), k, height) {
      if k != e.key {
        assert Lookup(t, k) == Tracked(t0, f, k, height);
        OtherKey(t0, t, f, height, e, k);
      }
    }
  }

  lemma {:induction false} TracksAll(t0: Table, t: Table, f: Folded, height: nat, es: seq<Event>)
    requires Tracks(t0, t, f, height) && Legal(t, f.burn, es, height)
    ensures Tracks(t0, ApplyAll(t, es, height), Fold(f, es), height)
    decreases |es|
  {
    if es != [] {
      TracksStep(t0, t, f, height, es[0]);
      TracksAll(t0, Apply(t, es[0], height), FoldOne(f, es[0]), height, es[1..]);
    }
  }

  /** A minted token whose insert is skipped: it is in the table already, or blacklisted. Nobody
      can tell if it is transferred afterwards and the uri left in its row is the minted one. */
  predicate NoClash(t: Table, f: Folded, skip: set<string>) {
    forall k :: k in f.mint && (k in t || k.col in skip) ==>
      k in f.transfer && f.mint[k].uri == (if k in t then t[k].uri else "")
  }

  /** For every legal event list of a block, the batch leaves the table the events leave one by
      one if and only if no insert is lost. */
  lemma BatchIsSequentialIff(t: Table, es: seq<Event>, height: nat, skip: set<string>)
    requires Legal(t, {}, es, height)
    requires forall k :: k in t ==> t[k].height < height
    ensures Written(t, Fold(Nothing(), es), height, skip) == ApplyAll(t, es, height)
       <==> NoClash(t, Fold(Nothing(), es), skip)
  {
    assert Tracks(t, t, Nothing(), height);
    TracksAll(t, t, Nothing(), height, es);
    var f := Fold(Nothing(), es);
    var batch, single := Written(t, f, height, skip), ApplyAll(t, es, height);
    forall k ensures Lookup(batch, k) == Cell(Lookup(t, k), f, k, height, skip) {
      WrittenCell(t, f, height, skip, k);
    }
    if NoClash(t, f, skip) {
      forall k ensures Lookup(batch, k) == Lookup(single, k) {
        assert Lookup(single, k) == Tracked(t, f, k, height);
      }
      SameTable(batch, single);
    }
    if batch == single {
      forall k | k in f.mint && (k in t || k.col in skip)
        ensures k in f.transfer && f.mint[k].uri == (if k in t then t[k].uri else "")
      {
        assert Lookup(single, k) == Tracked(t, f, k, height);
        assert Lookup(batch, k) == Lookup(single, k);
      }
    }
  }

  lemma SameTable(a: Table, b: Table)
    requires forall k :: Lookup(a, k) == Lookup(b, k)
    ensures a == b
  {
    forall k ensures k in a <==> k in b {
      assert Lookup(a, k) == Lookup(b, k);
    }
    forall k | k in a ensures a[k] == b[k] {
      assert Lookup(a, k) == Lookup(b, k);
    }
  }

  /** The insert that is lost: a stored token burned and minted again in one block keeps its old row. */
  lemma RemintIsLost(k: NftKey, stored: Row, owner: string, uri: string, height: nat)
    requires stored.height < height
    ensures var t: Table, es := map[k := stored], [Burn(k), Mint(k, owner, uri)];
            Legal(t, {}, es, height) && k in Written(t, Fold(Nothing(), es), height, {}) &&
            Written(t, Fold(Nothing(), es), height, {})[k] == stored &&
            Written(t, Fold(Nothing(), es), height, {}) != ApplyAll(t, es, height)
  {
    var t: Table, es := map[k := stored], [Burn(k), Mint(k, owner, uri)];
    assert es[1..] == [Mint(k, owner, uri)] && es[1..][1..] == [];
    var f1 := FoldOne(Nothing(), es[0]);
    var f2 := FoldOne(f1, es[1]);
    assert Fold(Nothing(), es) == Fold(f1, es[1..]) == Fold(f2, []) == f2;
    var t1 := Apply(t, es[0], height);
    assert Legal(t1, {k}, es[1..], height);
    assert ApplyAll(t, es, height) == ApplyAll(t1, es[1..], height) == ApplyAll(Apply(t1, es[1], height), []  , height);
    WrittenCell(t, f2, height, {}, k);
  }

  // ---- collection counts -----------------------------------------------------------------------

  function TokensOf(t: Table, c: string): set<NftKey> {
    set k | k in t && k.col == c
  }

  /** The refresh after a block: the count query groups rows, so a collection without any row is
      not among its results and keeps its old nft_count. */
  function Refreshed(cols: map<string, nat>, t: Table, update: set<string>): map<string, nat> {
    map c | c in cols :: if c in update && TokensOf(t, c) != {} then |TokensOf(t, c)| else cols[c]
  }

  function WithCollections(cols: map<string, nat>, created: set<string>): map<string, nat> {
    map c | c in cols.Keys + created :: if c in cols then cols[c] else 0
  }

  /** Tokens of c that are transferred in the block but were not in the table. */
  function Unknown(t: Table, f: Folded, c: string): set<NftKey> {
    set k | k in f.transfer && k.col == c && k !in t
  }

  lemma {:induction false} UpdateCovers(f: Folded, es: seq<Event>)
    requires forall k :: k in f.mint || k in f.burn ==> k.col in f.update
    ensures var g := Fold(f, es); forall k :: k in g.mint || k in g.burn ==> k.col in g.update
    decreases |es|
  {
    if es != [] { UpdateCovers(FoldOne(f, es[0]), es[1..]); }
  }

  /** nft_count after a block: right for a collection with a mint or burn that still has a token,
      unchanged when the last token was burned or nothing was minted or burned, in which case the
      number of tokens grows by exactly the unknown tokens transferred in. */
  lemma CountLaw(t: Table, cols: map<string, nat>, es: seq<Event>, height: nat, skip: set<string>, c: string)
    requires c in cols
    ensures var f := Fold(Nothing(), es);
            var t' := Written(t, f, height, skip);
            var n' := Refreshed(cols, t', f.update)[c];
            (TokensOf(t', c) == {} ==> n' == cols[c]) &&
            (TokensOf(t', c) != {} && c in f.update ==> n' == |TokensOf(t', c)|) &&
            (c !in f.update ==> n' == cols[c] && |TokensOf(t', c)| == |TokensOf(t, c)| + |Unknown(t, f, c)|)
  {
    var f := Fold(Nothing(), es);
    UpdateCovers(Nothing(), es);
    if c !in f.update { TokensAfter(t, f, height, skip, c); }
  }

  lemma TokensAfter(t: Table, f: Folded, height: nat, skip: set<string>, c: string)
    requires forall k :: k in f.mint || k in f.burn ==> k.col != c
    ensures |TokensOf(Written(t, f, height, skip), c)| == |TokensOf(t, c)| + |Unknown(t, f, c)|
  {
    var t' := Written(t, f, height, skip);
    forall k ensures k in TokensOf(t', c) <==> k in TokensOf(t, c) + Unknown(t, f, c) {
      WrittenCell(t, f, height, skip, k);
    }
    assert TokensOf(t', c) == TokensOf(t, c) + Unknown(t, f, c);
    assert TokensOf(t, c) !! Unknown(t, f, c);
  }

  /** nft_count of a collection that has a token after the block is right if and only if the
      block minted or burned in the collection or transferred only known tokens of it. */
  lemma CountRightIff(t: Table, cols: map<string, nat>, es: seq<Event>, height: nat, skip: set<string>, c: string)
    requires c in cols && TokensOf(Written(t, Fold(Nothing(), es), height, skip), c) != {}
    requires c !in Fold(Nothing(), es).update ==> cols[c] == |TokensOf(t, c)|
    ensures var f := Fold(Nothing(), es);
            var t' := Written(t, f, height, skip);
            Refreshed(cols, t', f.update)[c] == |TokensOf(t', c)| <==> c in f.update || Unknown(t, f, c) == {}
  {
    CountLaw(t, cols, es, height, skip, c);
  }

  ghost predicate CountsRight(t: Table, cols: map<string, nat>) {
    forall c :: c in cols && TokensOf(t, c) != {} ==> cols[c] == |TokensOf(t, c)|
  }

  datatype Block = Block(events: seq<Event>, height: nat, created: set<string>, skip: set<string>)

  /** The table and the counts after a series of blocks. */
  function Collected(t: Table, cols: map<string, nat>, bs: seq<Block>): (Table, map<string, nat>)
    decreases |bs|
  {
    if bs == [] then (t, cols)
    else
      var f := Fold(Nothing(), bs[0].events);
      var t' := Written(t, f, bs[0].height, bs[0].skip);
      Collected(t', Refreshed(WithCollections(cols, bs[0].created), t', f.update), bs[1..])
  }

  /** Transfers touch only known tokens, or tokens of a collection the block mints or burns in, and
      a collection gets its row before it has tokens or together with such an event. */
  ghost predicate KnownOnly(t: Table, cols: map<string, nat>, bs: seq<Block>)
    decreases |bs|
  {
    bs == [] ||
    (var f := Fold(Nothing(), bs[0].events);
     var t' := Written(t, f, bs[0].height, bs[0].skip);
     (forall c :: c in bs[0].created && c !in cols ==> c in f.update || TokensOf(t', c) == {}) &&
     (forall k :: k in f.transfer && k.col !in f.update ==> k in t) &&
     KnownOnly(t', Refreshed(WithCollections(cols, bs[0].created), t', f.update), bs[1..]))
  }

  /** Over any run of such blocks nft_count equals the number of stored tokens for every
      collection that has a row and at least one token. */
  lemma {:induction false} CountsStayRight(t: Table, cols: map<string, nat>, bs: seq<Block>)
    requires CountsRight(t, cols) && KnownOnly(t, cols, bs)
    ensures CountsRight(Collected(t, cols, bs).0, Collected(t, cols, bs).1)
    decreases |bs|
  {
    if bs != [] {
      var b := bs[0];
      var f := Fold(Nothing(), b.events);
      var t' := Written(t, f, b.height, b.skip);
      var cols1 := WithCollections(cols, b.created);
      var cols' := Refreshed(cols1, t', f.update);
      forall c | c in cols' && TokensOf(t', c) != {} ensures cols'[c] == |TokensOf(t', c)| {
        CountLaw(t, cols1, b.events, b.height, b.skip, c);
        if c !in f.update {
          assert Unknown(t, f, c) == {};
          assert c in cols && TokensOf(t, c) != {};
        }
      }
      CountsStayRight(t', cols', bs[1..]);
    }
  }

  // ---- the prefetch pass and the collect pass ----------------------------------------------------

  ghost predicate MintSurvives(es: seq<Event>, k: NftKey) {
    exists i :: 0 <= i < |es| && es[i].Mint? && es[i].key == k &&
                forall j :: i < j < |es| ==> es[j] != Burn(k)
  }

  /** The keys of mintMap are the tokens with a mint that no later burn of the block cancels. */
  lemma {:induction false} MintMapIff(f: Folded, es: seq<Event>, k: NftKey)
    ensures k in Fold(f, es).mint <==> MintSurvives(es, k) || (k in f.mint && Burn(k) !in es)
    decreases |es|
  {
    if es != [] {
      var rest := es[1..];
      MintMapIff(FoldOne(f, es[0]), rest, k);
      assert forall i :: 0 < i < |es| ==> es[i] == rest[i - 1];
      assert Burn(k) in es <==> es[0] == Burn(k) || Burn(k) in rest;
      if MintSurvives(rest, k) {
        var i :| 0 <= i < |rest| && rest[i].Mint? && rest[i].key == k &&
                 forall j :: i < j < |rest| ==> rest[j] != Burn(k);
        assert es[i + 1].Mint? && es[i + 1].key == k;
        assert MintSurvives(es, k);
      }
      if MintSurvives(es, k) {
        var i :| 0 <= i < |es| && es[i].Mint? && es[i].key == k && forall j :: i < j < |es| ==> es[j] != Burn(k);
        if i > 0 {
          assert rest[i - 1].Mint? && rest[i - 1].key == k;
          assert forall j :: i - 1 < j < |rest| ==> rest[j] == es[j + 1];
          assert MintSurvives(rest, k);
        } else {
          assert Burn(k) !in rest;
        }
      }
      if es[0].Mint? && es[0].key == k && Burn(k) !in rest {
        assert MintSurvives(es, k);
      }
    }
  }

  type Targets = map<string, set<string>>

  predicate Targeted(m: Targets, k: NftKey) {
    k.col in m && k.token in m[k.col]
  }

  function FilterOne(m: Targets, l: Log): Targets {
    if l.from == ZERO_TOPIC && l.to != ZERO_TOPIC then m[l.col := (if l.col in m then m[l.col] else {}) + {l.token}]
    else if l.from != ZERO_TOPIC && l.to == ZERO_TOPIC && l.col in m then m[l.col := m[l.col] - {l.token}]
    else m
  }

  function Filter(m: Targets, ls: seq<Log>): Targets
    decreases |ls|
  {
    if ls == [] then m else Filter(FilterOne(m, ls[0]), ls[1..])
  }

  lemma {:induction false} FilterTracksFold(m: Targets, f: Folded, ls: seq<Log>, uris: map<NftKey, string>)
    requires forall k :: Targeted(m, k) <==> k in f.mint
    ensures forall k :: Targeted(Filter(m, ls), k) <==> k in Fold(f, DecodeEvmAll(ls, uris)).mint
    decreases |ls|
  {
    if ls != [] {
      var m' := FilterOne(m, ls[0]);
      match DecodeEvm(ls[0], uris) {
        case Some(e) =>
          var f' := FoldOne(f, e);
          forall k ensures Targeted(m', k) <==> k in f'.mint {
            assert Targeted(m, k) <==> k in f.mint;
          }
          FilterTracksFold(m', f', ls[1..], uris);
          assert ([e] + DecodeEvmAll(ls[1..], uris))[1..] == DecodeEvmAll(ls[1..], uris);
        case None =>
          FilterTracksFold(m', f, ls[1..], uris);
          assert DecodeEvmAll(ls, uris) == DecodeEvmAll(ls[1..], uris);
      }
    }
  }

  /** For every list of logs the tokens prefetched are exactly the keys of mintMap, whatever uris
      come back, and so every collection with a mint is looked up by name. */
  lemma PrefetchAgrees(ls: seq<Log>, uris: map<NftKey, string>, k: NftKey)
    ensures Targeted(Filter(map[], ls), k) <==> k in Fold(Nothing(), DecodeEvmAll(ls, uris)).mint
    ensures Targeted(Filter(map[], ls), k) <==> MintSurvives(DecodeEvmAll(ls, uris), k)
    ensures k in Fold(Nothing(), DecodeEvmAll(ls, uris)).mint ==> k.col in Filter(map[], ls)
  {
    FilterTracksFold(map[], Nothing(), ls, uris);
    MintMapIff(Nothing(), DecodeEvmAll(ls, uris), k);
  }

  // ---- what the maps hold, by positions in the block ------------------------------------------------

  function FoldMaybe(f: Folded, e: Option<Event>): Folded {
    if e.Some? then FoldOne(f, e.value) else f
  }

  lemma {:induction false} FoldConcat(f: Folded, es: seq<Event>, e: Option<Event>)
    ensures Fold(f, es + (match e case Some(x) => [x] case None => [])) == FoldMaybe(Fold(f, es), e)
    decreases |es|
  {
    var more: seq<Event> := match e case Some(x) => [x] case None => [];
    if es == [] {
      assert es + more == more;
      assert e.Some? ==> [e.value][1..] == [];
    } else {
      assert (es + more)[1..] == es[1..] + more;
      FoldConcat(FoldOne(f, es[0]), es[1..], e);
    }
  }

  /** 0x and 64 zeros. */
  predicate IsZeroTopic(t: string) {
    |t| == 66 && t[0] == '0' && t[1] == 'x' && forall i :: 2 <= i < 66 ==> t[i] == '0'
  }

  lemma ZeroTopicIff(t: string)
    ensures IsZeroTopic(t) <==> t == ZERO_TOPIC
  {
    var zeros := Zeros(64);
    assert ZERO_TOPIC == "0x" + zeros;
    if IsZeroTopic(t) { assert t == "0x" + zeros; }
    if t == "0x" + zeros { assert forall i :: 2 <= i < 66 ==> t[i] == zeros[i - 2]; }
  }

  ghost function EvmMints(k: NftKey): Log -> bool {
    (l: Log) => l.col == k.col && l.token == k.token && IsZeroTopic(l.from) && !IsZeroTopic(l.to)
  }

  ghost function EvmMoves(k: NftKey): Log -> bool {
    (l: Log) => l.col == k.col && l.token == k.token && !IsZeroTopic(l.from) && !IsZeroTopic(l.to)
  }

  ghost function EvmBurns(k: NftKey): Log -> bool {
    (l: Log) => l.col == k.col && l.token == k.token && !IsZeroTopic(l.from) && IsZeroTopic(l.to)
  }

  /** mintMap by the logs: a token is in it exactly if some mint log of it is followed by no mint or
      burn of it, and carries the recipient of that log and the prefetched uri. */
  ghost predicate EvmMinted(ls: seq<Log>, uris: map<NftKey, string>, f: Folded, k: NftKey) {
    var after := Either(EvmMints(k), EvmBurns(k));
    && (k in f.mint <==> exists i :: Last(ls, i, EvmMints(k), after))
    && (forall i :: Last(ls, i, EvmMints(k), after) ==>
          k in f.mint && f.mint[k] == MintData(ls[i].to, if k in uris then uris[k] else ""))
  }

  /** transferMap: a transfer log followed by no transfer or burn, with its recipient. */
  ghost predicate EvmMoved(ls: seq<Log>, f: Folded, k: NftKey) {
    var after := Either(EvmMoves(k), EvmBurns(k));
    && (k in f.transfer <==> exists i :: Last(ls, i, EvmMoves(k), after))
    && (forall i :: Last(ls, i, EvmMoves(k), after) ==> k in f.transfer && f.transfer[k] == ls[i].to)
  }

  /** burnMap: a burn log followed by no mint. */
  ghost predicate EvmBurned(ls: seq<Log>, f: Folded, k: NftKey) {
    k in f.burn <==> exists i :: Last(ls, i, EvmBurns(k), EvmMints(k))
  }

  ghost function EvmCounts(c: string): Log -> bool {
    (l: Log) => l.col == c && IsZeroTopic(l.from) != IsZeroTopic(l.to)
  }

  /** updateCountMap: the collections with a mint or burn log. */
  ghost predicate EvmUpdated(ls: seq<Log>, f: Folded, c: string) {
    c in f.update <==> Any(ls, EvmCounts(c))
  }

  ghost predicate EvmFolded(ls: seq<Log>, uris: map<NftKey, string>, f: Folded) {
    (forall k :: EvmHolds(ls, uris, f, k)) && (forall c :: EvmUpdated(ls, f, c))
  }

  lemma EvmMintedSnoc(ls: seq<Log>, l: Log, uris: map<NftKey, string>, f: Folded, k: NftKey)
    requires EvmMinted(ls, uris, f, k)
    ensures EvmMinted(ls + [l], uris, FoldMaybe(f, DecodeEvm(l, uris)), k)
  {
    ZeroTopicIff(l.from);
    ZeroTopicIff(l.to);
    LastSnoc(ls, l, EvmMints(k), Either(EvmMints(k), EvmBurns(k)));
  }

  lemma EvmMovedSnoc(ls: seq<Log>, l: Log, uris: map<NftKey, string>, f: Folded, k: NftKey)
    requires EvmMoved(ls, f, k)
    ensures EvmMoved(ls + [l], FoldMaybe(f, DecodeEvm(l, uris)), k)
  {
    ZeroTopicIff(l.from);
    ZeroTopicIff(l.to);
    LastSnoc(ls, l, EvmMoves(k), Either(EvmMoves(k), EvmBurns(k)));
  }

  lemma EvmBurnedSnoc(ls: seq<Log>, l: Log, uris: map<NftKey, string>, f: Folded, k: NftKey)
    requires EvmBurned(ls, f, k)
    ensures EvmBurned(ls + [l], FoldMaybe(f, DecodeEvm(l, uris)), k)
  {
    ZeroTopicIff(l.from);
    ZeroTopicIff(l.to);
    LastSnoc(ls, l, EvmBurns(k), EvmMints(k));
  }

  lemma {:induction false} DecodeEvmSnoc(ls: seq<Log>, l: Log, uris: map<NftKey, string>)
    ensures DecodeEvmAll(ls + [l], uris) ==
              DecodeEvmAll(ls, uris) + (match DecodeEvm(l, uris) case Some(e) => [e] case None => [])
  {
    if ls == [] {
      assert ls + [l] == [l] && [l][1..] == [];
    } else {
      assert (ls + [l])[1..] == ls[1..] + [l];
      DecodeEvmSnoc(ls[1..], l, uris);
    }
  }

  ghost predicate EvmHolds(ls: seq<Log>, uris: map<NftKey, string>, f: Folded, k: NftKey) {
    EvmMinted(ls, uris, f, k) && EvmMoved(ls, f, k) && EvmBurned(ls, f, k)
  }

  lemma EvmSnoc(ls: seq<Log>, l: Log, uris: map<NftKey, string>, f: Folded, k: NftKey, all: seq<Log>, f': Folded)
    requires EvmHolds(ls, uris, f, k) && all == ls + [l] && f' == FoldMaybe(f, DecodeEvm(l, uris))
    ensures EvmHolds(all, uris, f', k)
  {
    EvmMintedSnoc(ls, l, uris, f, k);
    EvmMovedSnoc(ls, l, uris, f, k);
    EvmBurnedSnoc(ls, l, uris, f, k);
  }

  lemma {:induction false} EvmFoldSnoc(ls: seq<Log>, l: Log, uris: map<NftKey, string>)
    ensures Fold(Nothing(), DecodeEvmAll(ls + [l], uris)) ==
              FoldMaybe(Fold(Nothing(), DecodeEvmAll(ls, uris)), DecodeEvm(l, uris))
  {
    DecodeEvmSnoc(ls, l, uris);
    FoldConcat(Nothing(), DecodeEvmAll(ls, uris), DecodeEvm(l, uris));
  }

  lemma {:induction false} EvmMapsHold(ls: seq<Log>, uris: map<NftKey, string>, k: NftKey)
    ensures EvmHolds(ls, uris, Fold(Nothing(), DecodeEvmAll(ls, uris)), k)
  {
    if ls == [] {
      NoLogs(uris, k);
    } else {
      var rest, l := ls[..|ls| - 1], ls[|ls| - 1];
      assert ls == rest + [l];
      EvmMapsHold(rest, uris, k);
      EvmFoldSnoc(rest, l, uris);
      EvmSnoc(rest, l, uris, Fold(Nothing(), DecodeEvmAll(rest, uris)), k, ls, Fold(Nothing(), DecodeEvmAll(ls, uris)));
    }
  }

  lemma {:induction false} EvmUpdateHolds(ls: seq<Log>, uris: map<NftKey, string>, c: string)
    ensures EvmUpdated(ls, Fold(Nothing(), DecodeEvmAll(ls, uris)), c)
  {
    if ls != [] {
      var rest, l := ls[..|ls| - 1], ls[|ls| - 1];
      assert ls == rest + [l];
      EvmUpdateHolds(rest, uris, c);
      EvmFoldSnoc(rest, l, uris);
      AnySnoc(rest, l, EvmCounts(c));
      ZeroTopicIff(l.from);
      ZeroTopicIff(l.to);
    }
  }

  lemma NoLogs(uris: map<NftKey, string>, k: NftKey)
    ensures EvmHolds([], uris, Nothing(), k)
  {}

  ghost predicate IsAction(a: Attrs, k: NftKey, action: string) {
    && "_contract_address" in a && a["_contract_address"] == k.col
    && "token_id" in a && a["token_id"] == k.token
    && "action" in a && a["action"] == action
  }

  ghost function WasmMints(k: NftKey): Attrs -> bool {
    (a: Attrs) => IsAction(a, k, "mint") && "owner" in a
  }

  ghost function WasmMoves(k: NftKey): Attrs -> bool {
    (a: Attrs) => (IsAction(a, k, "transfer_nft") || IsAction(a, k, "send_nft")) && "recipient" in a
  }

  ghost function WasmBurns(k: NftKey): Attrs -> bool {
    (a: Attrs) => IsAction(a, k, "burn")
  }

  /** The same for wasm events, by their attributes. */
  ghost predicate WasmMinted(raw: seq<Attrs>, f: Folded, k: NftKey) {
    var after := Either(WasmMints(k), WasmBurns(k));
    && (k in f.mint <==> exists i :: Last(raw, i, WasmMints(k), after))
    && (forall i :: Last(raw, i, WasmMints(k), after) ==>
          k in f.mint && "owner" in raw[i] &&
          f.mint[k] == MintData(raw[i]["owner"], if "token_uri" in raw[i] then raw[i]["token_uri"] else ""))
  }

  ghost predicate WasmMoved(raw: seq<Attrs>, f: Folded, k: NftKey) {
    var after := Either(WasmMoves(k), WasmBurns(k));
    && (k in f.transfer <==> exists i :: Last(raw, i, WasmMoves(k), after))
    && (forall i :: Last(raw, i, WasmMoves(k), after) ==>
          k in f.transfer && "recipient" in raw[i] && f.transfer[k] == raw[i]["recipient"])
  }

  ghost predicate WasmBurned(raw: seq<Attrs>, f: Folded, k: NftKey) {
    k in f.burn <==> exists i :: Last(raw, i, WasmBurns(k), WasmMints(k))
  }

  ghost function WasmCounts(c: string): Attrs -> bool {
    (a: Attrs) => "token_id" in a && (IsAction(a, NftKey(c, a["token_id"]), "burn") ||
                                      (IsAction(a, NftKey(c, a["token_id"]), "mint") && "owner" in a))
  }

  ghost predicate WasmUpdated(raw: seq<Attrs>, f: Folded, c: string) {
    c in f.update <==> Any(raw, WasmCounts(c))
  }

  ghost predicate WasmFolded(raw: seq<Attrs>, f: Folded) {
    (forall k :: WasmHolds(raw, f, k)) && (forall c :: WasmUpdated(raw, f, c))
  }

  lemma WasmMintedSnoc(raw: seq<Attrs>, a: Attrs, f: Folded, k: NftKey)
    requires WasmMinted(raw, f, k)
    ensures WasmMinted(raw + [a], FoldMaybe(f, DecodeWasm(a)), k)
  {
    LastSnoc(raw, a, WasmMints(k), Either(WasmMints(k), WasmBurns(k)));
  }

  lemma WasmMovedSnoc(raw: seq<Attrs>, a: Attrs, f: Folded, k: NftKey)
    requires WasmMoved(raw, f, k)
    ensures WasmMoved(raw + [a], FoldMaybe(f, DecodeWasm(a)), k)
  {
    LastSnoc(raw, a, WasmMoves(k), Either(WasmMoves(k), WasmBurns(k)));
  }

  lemma WasmBurnedSnoc(raw: seq<Attrs>, a: Attrs, f: Folded, k: NftKey)
    requires WasmBurned(raw, f, k)
    ensures WasmBurned(raw + [a], FoldMaybe(f, DecodeWasm(a)), k)
  {
    LastSnoc(raw, a, WasmBurns(k), WasmMints(k));
  }

  lemma {:induction false} DecodeWasmSnoc(raw: seq<Attrs>, a: Attrs)
    ensures DecodeWasmAll(raw + [a]) == DecodeWasmAll(raw) + (match DecodeWasm(a) case Some(e) => [e] case None => [])
  {
    if raw == [] {
      assert raw + [a] == [a] && [a][1..] == [];
    } else {
      assert (raw + [a])[1..] == raw[1..] + [a];
      DecodeWasmSnoc(raw[1..], a);
    }
  }

  ghost predicate WasmHolds(raw: seq<Attrs>, f: Folded, k: NftKey) {
    WasmMinted(raw, f, k) && WasmMoved(raw, f, k) && WasmBurned(raw, f, k)
  }

  lemma WasmSnoc(raw: seq<Attrs>, a: Attrs, f: Folded, k: NftKey, all: seq<Attrs>, f': Folded)
    requires WasmHolds(raw, f, k) && all == raw + [a] && f' == FoldMaybe(f, DecodeWasm(a))
    ensures WasmHolds(all, f', k)
  {
    WasmMintedSnoc(raw, a, f, k);
    WasmMovedSnoc(raw, a, f, k);
    WasmBurnedSnoc(raw, a, f, k);
  }

  lemma {:induction false} WasmFoldSnoc(raw: seq<Attrs>, a: Attrs)
    ensures Fold(Nothing(), DecodeWasmAll(raw + [a])) ==
              FoldMaybe(Fold(Nothing(), DecodeWasmAll(raw)), DecodeWasm(a))
  {
    DecodeWasmSnoc(raw, a);
    FoldConcat(Nothing(), DecodeWasmAll(raw), DecodeWasm(a));
  }

  lemma {:induction false} WasmMapsHold(raw: seq<Attrs>, k: NftKey)
    ensures WasmHolds(raw, Fold(Nothing(), DecodeWasmAll(raw)), k)
  {
    if raw == [] {
      NoAttrs(k);
    } else {
      var rest, a := raw[..|raw| - 1], raw[|raw| - 1];
      assert raw == rest + [a];
      WasmMapsHold(rest, k);
      WasmFoldSnoc(rest, a);
      WasmSnoc(rest, a, Fold(Nothing(), DecodeWasmAll(rest)), k, raw, Fold(Nothing(), DecodeWasmAll(raw)));
    }
  }

  lemma {:induction false} WasmUpdateHolds(raw: seq<Attrs>, c: string)
    ensures WasmUpdated(raw, Fold(Nothing(), DecodeWasmAll(raw)), c)
  {
    if raw != [] {
      var rest, a := raw[..|raw| - 1], raw[|raw| - 1];
      assert raw == rest + [a];
      WasmUpdateHolds(rest, c);
      WasmFoldSnoc(rest, a);
      AnySnoc(rest, a, WasmCounts(c));
    }
  }

  lemma NoAttrs(k: NftKey)
    ensures WasmHolds([], Nothing(), k)
  {}

  // ---- the submodule ---------------------------------------------------------------------------

  method FilterEvmData(logs: seq<Log>) returns (targetMap: Targets)
    ensures targetMap == Filter(map[], logs)
  {
    targetMap := map[];
    assert logs[0..] == logs;
    for i := 0 to |logs|
      invariant Filter(targetMap, logs[i..]) == Filter(map[], logs)
    {
      assert logs[i..][0] == logs[i] && logs[i..][1..] == logs[i + 1..];
      var l := logs[i];
      ghost var before := targetMap;
      if l.from == ZERO_TOPIC && l.to != ZERO_TOPIC {
        if l.col !in targetMap { targetMap := targetMap[l.col := {}]; }
        targetMap := targetMap[l.col := targetMap[l.col] + {l.token}];
      } else if l.from != ZERO_TOPIC && l.to == ZERO_TOPIC && l.col in targetMap {
        targetMap := targetMap[l.col := targetMap[l.col] - {l.token}];
      }
      assert targetMap == FilterOne(before, l);
    }
    assert logs[|logs|..] == [];
  }

  class NftSubmodule {
    var nft: Table
    var collections: map<string, nat>  // nft_count by collection address

    constructor ()
      ensures nft == map[] && collections == map[]
    {
      nft, collections := map[], map[];
    }

    /** The loop over a block's wasm events. */
    static method FoldWasm(raw: seq<Attrs>) returns (f: Folded)
      ensures f == Fold(Nothing(), DecodeWasmAll(raw))
      ensures WasmFolded(raw, f)
    {
      var mintMap: map<NftKey, MintData>, transferMap: map<NftKey, string> := map[], map[];
      var burnMap: set<NftKey>, updateCountMap: set<string> := {}, {};
      assert raw[0..] == raw;
      for i := 0 to |raw|
        invariant Fold(Folded(mintMap, transferMap, burnMap, updateCountMap), DecodeWasmAll(raw[i..]))
               == Fold(Nothing(), DecodeWasmAll(raw))
      {
        ghost var before := Folded(mintMap, transferMap, burnMap, updateCountMap);
        WasmFrom(before, raw, i);
        var attrs := raw[i];
        if "_contract_address" in attrs && "action" in attrs && "token_id" in attrs {
          var k := NftKey(attrs["_contract_address"], attrs["token_id"]);
          if attrs["action"] == "mint" {
            if "owner" in attrs {
              mintMap := mintMap[k := MintData(attrs["owner"], if "token_uri" in attrs then attrs["token_uri"]
                                               else "")];
              burnMap := burnMap - {k};
              updateCountMap := updateCountMap + {k.col};
            }
          } else if attrs["action"] == "transfer_nft" || attrs["action"] == "send_nft" {
            if "recipient" in attrs { transferMap := transferMap[k := attrs["recipient"]]; }
          } else if attrs["action"] == "burn" {
            burnMap := burnMap + {k};
            mintMap := mintMap - {k};
            transferMap := transferMap - {k};
            updateCountMap := updateCountMap + {k.col};
          }
        }
        assert Folded(mintMap, transferMap, burnMap, updateCountMap) == FoldMaybe(before, DecodeWasm(attrs));
      }
      assert raw[|raw|..] == [];
      f := Folded(mintMap, transferMap, burnMap, updateCountMap);
      forall k ensures WasmHolds(raw, f, k) {
        WasmMapsHold(raw, k);
      }
      forall c ensures WasmUpdated(raw, f, c) { WasmUpdateHolds(raw, c); }
    }

    /** The loop over a block's ERC-721 transfer logs; the uris were prefetched. */
    static method FoldEvm(logs: seq<Log>, uris: map<NftKey, string>) returns (f: Folded)
      ensures f == Fold(Nothing(), DecodeEvmAll(logs, uris))
      ensures EvmFolded(logs, uris, f)
    {
      var mintMap: map<NftKey, MintData>, transferMap: map<NftKey, string> := map[], map[];
      var burnMap: set<NftKey>, updateCountMap: set<string> := {}, {};
      assert logs[0..] == logs;
      for i := 0 to |logs|
        invariant Fold(Folded(mintMap, transferMap, burnMap, updateCountMap), DecodeEvmAll(logs[i..], uris))
               == Fold(Nothing(), DecodeEvmAll(logs, uris))
      {
        ghost var before := Folded(mintMap, transferMap, burnMap, updateCountMap);
        EvmFrom(before, logs, uris, i);
        var l := logs[i];
        var k := NftKey(l.col, l.token);
        if l.from == ZERO_TOPIC && l.to != ZERO_TOPIC {
          mintMap := mintMap[k := MintData(l.to, if k in uris then uris[k] else "")];
          burnMap := burnMap - {k};
          updateCountMap := updateCountMap + {l.col};
        } else if l.from != ZERO_TOPIC && l.to != ZERO_TOPIC {
          transferMap := transferMap[k := l.to];
        } else if l.from != ZERO_TOPIC && l.to == ZERO_TOPIC {
          burnMap := burnMap + {k};
          mintMap := mintMap - {k};
          transferMap := transferMap - {k};
          updateCountMap := updateCountMap + {l.col};
        }
        assert Folded(mintMap, transferMap, burnMap, updateCountMap) == FoldMaybe(before, DecodeEvm(l, uris));
      }
      assert logs[|logs|..] == [];
      f := Folded(mintMap, transferMap, burnMap, updateCountMap);
      forall k ensures EvmHolds(logs, uris, f, k) {
        EvmMapsHold(logs, uris, k);
      }
      forall c ensures EvmUpdated(logs, f, c) { EvmUpdateHolds(logs, uris, c); }
    }

    /** The three writes; each loop ranges over its map in an arbitrary order. */
    method WriteMints(mint: map<NftKey, MintData>, height: nat, skip: set<string>)
      modifies this`nft
      ensures nft == Inserted(old(nft), mint, height, skip)
    {
      var todo := mint.Keys;
      while todo != {}
        invariant todo <= mint.Keys
        invariant nft == Inserted(old(nft), mint - todo, height, skip)
        decreases todo
      {
        var k :| k in todo;
        if k.col !in skip && k !in nft {
          nft := nft[k := Row(mint[k].owner, height, mint[k].uri)];
        }
        todo := todo - {k};
      }
      assert mint - {} == mint;
    }

    method WriteTransfers(transfer: map<NftKey, string>, height: nat)
      modifies this`nft
      ensures nft == Upserted(old(nft), transfer, height)
    {
      var todo := transfer.Keys;
      while todo != {}
        invariant todo <= transfer.Keys
        invariant nft == Upserted(old(nft), transfer - todo, height)
        decreases todo
      {
        var k :| k in todo;
        nft := nft[k := if k in nft then nft[k].(owner := transfer[k], height := height)
                   else Row(transfer[k], height, "")];
        todo := todo - {k};
      }
      assert transfer - {} == transfer;
    }

    method WriteBurns(burn: set<NftKey>)
      modifies this`nft
      ensures nft == old(nft) - burn
    {
      var todo := burn;
      while todo != {}
        invariant todo <= burn
        invariant nft == old(nft) - (burn - todo)
        decreases todo
      {
        var k :| k in todo;
        nft := nft - {k};
        todo := todo - {k};
      }
    }

    method RefreshCounts(update: set<string>)
      modifies this`collections
      ensures collections == Refreshed(old(collections), nft, update)
    {
      var todo := update;
      while todo != {}
        invariant todo <= update
        invariant collections == Refreshed(old(collections), nft, update - todo)
        decreases todo
      {
        var c :| c in todo;
        if c in collections && TokensOf(nft, c) != {} {
          collections := collections[c := |TokensOf(nft, c)|];
        }
        todo := todo - {c};
      }
      assert update - {} == update;
    }

    /** The writes of one block; created are the collections inserted with it, skip the
        blacklisted ones. */
    method WriteBlock(f: Folded, height: nat, created: set<string>, skip: set<string>)
      modifies this
      ensures nft == Written(old(nft), f, height, skip)
      ensures collections == Refreshed(WithCollections(old(collections), created), nft, f.update)
    {
      collections := WithCollections(collections, created);
      WriteMints(f.mint, height, skip);
      WriteTransfers(f.transfer, height);
      WriteBurns(f.burn);
      RefreshCounts(f.update);
    }

    /** collect of the wasm submodule. */
    method CollectWasm(raw: seq<Attrs>, height: nat, created: set<string>)
      modifies this
      ensures var f := Fold(Nothing(), DecodeWasmAll(raw));
              WasmFolded(raw, f) && nft == Written(old(nft), f, height, {}) &&
              collections == Refreshed(WithCollections(old(collections), created), nft, f.update)
    {
      var f := FoldWasm(raw);
      WriteBlock(f, height, created, {});
    }

    /** collect of the evm submodule: a mint in a collection that has neither a prefetched name nor
        a place on the blacklist is an error, and nothing is written. */
    method CollectEvm(logs: seq<Log>, uris: map<NftKey, string>, names: set<string>, blacklist: set<string>,
                      height: nat)
      returns (ok: bool)
      modifies this
      ensures ok <==> forall k :: k in Fold(Nothing(), DecodeEvmAll(logs, uris)).mint ==> k.col in names + blacklist
      ensures !ok ==> nft == old(nft) && collections == old(collections)
      ensures ok ==> var f := Fold(Nothing(), DecodeEvmAll(logs, uris));
                     EvmFolded(logs, uris, f) && nft == Written(old(nft), f, height, blacklist - names) &&
                     collections == Refreshed(WithCollections(old(collections), MintedCols(f) * names), nft, f.update)
    {
      var f := FoldEvm(logs, uris);
      var cols := MintedCols(f);
      ok := cols <= names + blacklist;
      if !ok {
        var c :| c in cols && c !in names + blacklist;
        assert exists k :: k in f.mint && k.col == c;
        return;
      }
      WriteBlock(f, height, cols * names, blacklist - names);
    }
  }

  function MintedCols(f: Folded): set<string> {
    set k | k in f.mint :: k.col
  }

  lemma WasmFrom(f: Folded, raw: seq<Attrs>, i: nat)
    requires i < |raw|
    ensures Fold(f, DecodeWasmAll(raw[i..])) == Fold(FoldMaybe(f, DecodeWasm(raw[i])), DecodeWasmAll(raw[i + 1..]))
  {
    assert raw[i..][0] == raw[i] && raw[i..][1..] == raw[i + 1..];
    var e, rest := DecodeWasm(raw[i]), DecodeWasmAll(raw[i + 1..]);
    assert e.Some? ==> ([e.value] + rest)[1..] == rest;
    assert e.None? ==> DecodeWasmAll(raw[i..]) == rest;
  }

  lemma EvmFrom(f: Folded, logs: seq<Log>, uris: map<NftKey, string>, i: nat)
    requires i < |logs|
    ensures Fold(f, DecodeEvmAll(logs[i..], uris)) ==
            Fold(FoldMaybe(f, DecodeEvm(logs[i], uris)), DecodeEvmAll(logs[i + 1..], uris))
  {
    assert logs[i..][0] == logs[i] && logs[i..][1..] == logs[i + 1..];
    var e, rest := DecodeEvm(logs[i], uris), DecodeEvmAll(logs[i + 1..], uris);
    assert e.Some? ==> ([e.value] + rest)[1..] == rest;
    assert e.None? ==> DecodeEvmAll(logs[i..], uris) == rest;
  }

  /** With the names of the prefetched collections in hand the evm submodule never refuses a block. */
  lemma PreparedNames(logs: seq<Log>, uris: map<NftKey, string>, names: set<string>, blacklist: set<string>)
    requires forall c :: c in Filter(map[], logs) ==> c in names + blacklist
    ensures MintedCols(Fold(Nothing(), DecodeEvmAll(logs, uris))) <= names + blacklist
  {
    forall c | c in MintedCols(Fold(Nothing(), DecodeEvmAll(logs, uris))) ensures c in names + blacklist {
      var k :| k in Fold(Nothing(), DecodeEvmAll(logs, uris)).mint && k.col == c;
      PrefetchAgrees(logs, uris, k);
    }
  }
}
