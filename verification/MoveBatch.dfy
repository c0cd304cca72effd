/** The Move NFT submodule's batch: mints, transfers, mutations and burns of a block folded into maps
    and written as inserts, updates by object address, and deletes. */
module MoveBatch {
  import opened Common
  import opened MoveNft

  /** A row of the nft table by object address; one address is one collection and token id. */
  datatype Row = Row(col: string, owner: string, height: nat, uri: string)

  type Table = map<string, Row>

  /** The collection of each NFT, the creator of each collection, the uri of each prefetched
      resource (as of the end of the block), and the height of the block. */
  datatype Env = Env(col: string -> string, creator: string -> string, uris: map<string, string>, height: nat)

  datatype Folded = Folded(mint: MintMap, transfer: map<string, string>, mut: map<string, string>, burn: set<string>)

  function Nothing(): Folded { Folded(map[], map[], map[], {}) }

  function FoldOne(f: Folded, e: Event): Folded {
    match e
    case Mint(_, n) => f.(mint := MintOne(f.mint, e), burn := f.burn - {n})
    case Transfer(n, to) => f.(transfer := f.transfer[n := to])
    case Mutate(n, uri) => f.(mut := f.mut[n := uri])
    case Burn(_, n) => Folded(MintOne(f.mint, e), f.transfer - {n}, f.mut - {n}, f.burn + {n})
    case Other => f
  }

  function Fold(f: Folded, es: seq<Event>): Folded
    decreases |es|
  {
    if es == [] then f else Fold(FoldOne(f, es[0]), es[1..])
  }

  lemma {:induction false} FoldKeepsMints(f: Folded, es: seq<Event>)
    ensures Fold(f, es).mint == FoldMints(f.mint, es)
    decreases |es|
  {
    if es != [] { FoldKeepsMints(FoldOne(f, es[0]), es[1..]); }
  }

  // ---- the writes ------------------------------------------------------------------------------

  function Nfts(m: MintMap): set<string> {
    set c, n | c in m && n in m[c] :: n
  }

  function NewRow(env: Env, n: string): Row {
    Row(env.col(n), env.creator(env.col(n)), env.height, if n in env.uris then env.uris[n] else "")
  }

  function Inserted(t: Table, nfts: set<string>, env: Env): Table {
    map n | n in t.Keys + nfts :: if n in t then t[n] else NewRow(env, n)
  }

  /** Updates by address touch stored rows only: an object that is no NFT has none. */
  function Transferred(t: Table, transfer: map<string, string>, height: nat): Table {
    map n | n in t :: if n in transfer then t[n].(owner := transfer[n], height := height) else t[n]
  }

  function Mutated(t: Table, mut: map<string, string>, height: nat): Table {
    map n | n in t :: if n in mut then t[n].(uri := mut[n], height := height) else t[n]
  }

  function Written(t: Table, f: Folded, env: Env): Table {
    Mutated(Transferred(Inserted(t, Nfts(f.mint), env), f.transfer, env.height), f.mut, env.height) - f.burn
  }

  // ---- the events one at a time ------------------------------------------------------------------

  function Apply(t: Table, e: Event, env: Env): Table {
    match e
    case Mint(_, n) => t[n := NewRow(env, n)]
    case Transfer(n, to) => if n in t then t[n := t[n].(owner := to, height := env.height)] else t
    case Mutate(n, uri) => if n in t then t[n := t[n].(uri := uri, height := env.height)] else t
    case Burn(_, n) => t - {n}
    case Other => t
  }

  function ApplyAll(t: Table, es: seq<Event>, env: Env): Table
    decreases |es|
  {
    if es == [] then t else ApplyAll(Apply(t, es[0], env), es[1..], env)
  }

  /** Mints and burns come under the collection of the NFT; nothing else is asked of a block. */
  ghost predicate OwnEvents(es: seq<Event>, env: Env) {
    forall i :: 0 <= i < |es| ==> OwnEvent(es[i], env)
  }

  predicate OwnEvent(e: Event, env: Env) {
    match e
    case Mint(c, n) => c == env.col(n)
    case Burn(c, n) => c == env.col(n)
    case _ => true
  }

  /** The fold in which a mint also forgets what was done to the object before it, so that at the
      end only moves and mutations since the last mint are left. */
  function LateOne(f: Folded, e: Event): Folded {
    if e.Mint? then FoldOne(f, e).(transfer := f.transfer - {e.nft}, mut := f.mut - {e.nft}) else FoldOne(f, e)
  }

  function Late(f: Folded, es: seq<Event>): Folded
    decreases |es|
  {
    if es == [] then f else Late(LateOne(f, es[0]), es[1..])
  }

  // ---- batch versus one at a time ----------------------------------------------------------------

  function Lookup(t: Table, n: string): Option<Row> {
    if n in t then Some(t[n]) else None
  }

  /** The row the batch leaves for n when it finds r. */
  function Cell(r: Option<Row>, f: Folded, n: string, env: Env): Option<Row> {
    if n in f.burn then None
    else if r.None? && !Minted(f.mint, env.col(n), n) then None
    else
      var r1 := if r.None? then NewRow(env, n) else r.value;
      var r2 := if n in f.transfer then r1.(owner := f.transfer[n], height := env.height) else r1;
      Some(if n in f.mut then r2.(uri := f.mut[n], height := env.height) else r2)
  }

  /** Every NFT of the mint map is there under its own collection. */
  predicate OwnCollection(m: MintMap, env: Env) {
    forall c, n :: c in m && n in m[c] ==> c == env.col(n)
  }

  lemma WrittenCell(t: Table, f: Folded, env: Env, n: string)
    requires OwnCollection(f.mint, env)
    ensures Lookup(Written(t, f, env), n) == Cell(Lookup(t, n), f, n, env)
  {
    assert n in Nfts(f.mint) <==> Minted(f.mint, env.col(n), n);
  }

  function Tracked(t0: Table, f: Folded, n: string, env: Env): Option<Row> {
    Cell(if Minted(f.mint, env.col(n), n) then None else Lookup(t0, n), f, n, env)
  }

  /** The entries of g since the last mint are those of f, all of them while n is not minted. */
  ghost predicate Since(f: map<string, string>, g: map<string, string>, n: string, minted: bool) {
    && (n in g ==> n in f && f[n] == g[n])
    && (!minted ==> (n in f <==> n in g))
  }

  /** f is the batch so far and g its part since the mints; the events one by one follow g. */
  ghost predicate TracksAt(t0: Table, t: Table, f: Folded, g: Folded, env: Env, n: string) {
    var minted := Minted(f.mint, env.col(n), n);
    && Lookup(t, n) == Tracked(t0, g, n, env)
    && (n in f.burn ==> !minted)
    && Since(f.transfer, g.transfer, n, minted)
    && Since(f.mut, g.mut, n, minted)
  }

  ghost predicate Tracks(t0: Table, t: Table, f: Folded, g: Folded, env: Env) {
    f.mint == g.mint && f.burn == g.burn && forall n :: TracksAt(t0, t, f, g, env, n)
  }

  /** The key an event is about. */
  predicate About(e: Event, n: string) {
    match e
    case Mint(_, k) => k == n
    case Transfer(k, _) => k == n
    case Mutate(k, _) => k == n
    case Burn(_, k) => k == n
    case Other => false
  }

  lemma OtherKey(t0: Table, t: Table, f: Folded, g: Folded, env: Env, e: Event, n: string)
    requires !About(e, n) && f.mint == g.mint && f.burn == g.burn && TracksAt(t0, t, f, g, env, n)
    ensures TracksAt(t0, Apply(t, e, env), FoldOne(f, e), LateOne(g, e), env, n)
  {}

  lemma SameKey(t0: Table, t: Table, f: Folded, g: Folded, env: Env, e: Event, n: string)
    requires About(e, n) && OwnEvent(e, env) && f.mint == g.mint && f.burn == g.burn && TracksAt(t0, t, f, g, env, n)
    ensures TracksAt(t0, Apply(t, e, env), FoldOne(f, e), LateOne(g, e), env, n)
  {}

  lemma TracksStep(t0: Table, t: Table, f: Folded, g: Folded, env: Env, e: Event)
    requires Tracks(t0, t, f, g, env) && OwnEvent(e, env)
    ensures Tracks(t0, Apply(t, e, env), FoldOne(f, e), LateOne(g, e), env)
  {
    forall n ensures TracksAt(t0, Apply(t, e, env), FoldOne(f, e), LateOne(g, e), env, n) {
      if About(e, n) { SameKey(t0, t, f, g, env, e, n); } else { OtherKey(t0, t, f, g, env, e, n); }
    }
  }

  lemma {:induction false} TracksAll(t0: Table, t: Table, f: Folded, g: Folded, env: Env, es: seq<Event>)
    requires Tracks(t0, t, f, g, env) && OwnEvents(es, env)
    ensures Tracks(t0, ApplyAll(t, es, env), Fold(f, es), Late(g, es), env)
    decreases |es|
  {
    if es != [] {
      TracksStep(t0, t, f, g, env, es[0]);
      TracksAll(t0, Apply(t, es[0], env), FoldOne(f, es[0]), LateOne(g, es[0]), env, es[1..]);
    }
  }

  lemma {:induction false} FoldOwnCollection(f: Folded, es: seq<Event>, env: Env)
    requires OwnEvents(es, env) && OwnCollection(f.mint, env)
    ensures OwnCollection(Fold(f, es).mint, env)
    decreases |es|
  {
    if es != [] { FoldOwnCollection(FoldOne(f, es[0]), es[1..], env); }
  }

  /** What the batch does to the row of a minted NFT, the stored one if the insert is lost, gives the
      new row with the moves and mutations g since its mint. */
  predicate SameRow(t: Table, f: Folded, g: Folded, env: Env, n: string) {
    var created := NewRow(env, n);
    var r := if n in t then t[n] else created;
    && r.col == created.col
    && (n in g.transfer || created.owner == if n in f.transfer then f.transfer[n] else r.owner)
    && (n in g.mut || created.uri == if n in f.mut then f.mut[n] else r.uri)
    && (n in t ==> n in f.transfer || n in f.mut)
  }

  /** Neither a lost insert nor a move or mutation from before the mint can be told afterwards. */
  ghost predicate NoClash(t: Table, f: Folded, g: Folded, env: Env) {
    forall n :: Minted(f.mint, env.col(n), n) ==> SameRow(t, f, g, env, n)
  }

  /** For every event list of a block, objects minted again or touched before their mint included,
      the batch leaves the table the events leave one by one if and only if there is no clash. */
  lemma BatchIsSequentialIff(t: Table, es: seq<Event>, env: Env)
    requires OwnEvents(es, env)
    requires forall n :: n in t ==> t[n].height < env.height
    ensures var f, g := Fold(Nothing(), es), Late(Nothing(), es);
            Written(t, f, env) == ApplyAll(t, es, env) <==> NoClash(t, f, g, env)
  {
    var f, g := Fold(Nothing(), es), Late(Nothing(), es);
    var batch, single := Written(t, f, env), ApplyAll(t, es, env);
    forall n ensures TracksAt(t, t, Nothing(), Nothing(), env, n) {}
    TracksAll(t, t, Nothing(), Nothing(), env, es);
    FoldOwnCollection(Nothing(), es, env);
    forall n ensures Lookup(batch, n) == Lookup(single, n) <==>
                     (Minted(f.mint, env.col(n), n) ==> SameRow(t, f, g, env, n)) {
      WrittenCell(t, f, env, n);
      assert TracksAt(t, single, f, g, env, n);
      CellsAgreeIff(t, single, f, g, env, n);
    }
    SameTableIff(batch, single);
  }

  lemma CellsAgreeIff(t: Table, single: Table, f: Folded, g: Folded, env: Env, n: string)
    requires f.mint == g.mint && f.burn == g.burn && TracksAt(t, single, f, g, env, n)
    requires n in t ==> t[n].height < env.height
    ensures Cell(Lookup(t, n), f, n, env) == Tracked(t, g, n, env) <==>
            (Minted(f.mint, env.col(n), n) ==> SameRow(t, f, g, env, n))
  {}

  lemma SameTableIff(a: Table, b: Table)
    ensures a == b <==> forall n :: Lookup(a, n) == Lookup(b, n)
  {
    if forall n :: Lookup(a, n) == Lookup(b, n) {
      forall n ensures n in a <==> n in b {
        assert Lookup(a, n) == Lookup(b, n);
      }
      forall n | n in a ensures a[n] == b[n] {
        assert Lookup(a, n) == Lookup(b, n);
      }
    }
  }

  // ---- what the maps hold, by positions in the block ------------------------------------------------

  ghost function MovesOf(n: string): Event -> bool { (e: Event) => e.Transfer? && e.obj == n }
  ghost function MutatesOf(n: string): Event -> bool { (e: Event) => e.Mutate? && e.obj == n }
  ghost function BurnsOf(n: string): Event -> bool { (e: Event) => e.Burn? && e.nft == n }
  ghost function MintsOf(n: string): Event -> bool { (e: Event) => e.Mint? && e.nft == n }

  /** An object is in transferMap exactly if some transfer of it is followed by no transfer or burn
      of it, with the recipient of that transfer. */
  ghost predicate MovedHolds(es: seq<Event>, f: Folded, n: string) {
    var after := Either(MovesOf(n), BurnsOf(n));
    && (n in f.transfer <==> exists i :: Last(es, i, MovesOf(n), after))
    && (forall i :: Last(es, i, MovesOf(n), after) ==> n in f.transfer && f.transfer[n] == es[i].to)
  }

  /** mutMap: a mutation followed by no mutation or burn, with its uri. */
  ghost predicate MutatedHolds(es: seq<Event>, f: Folded, n: string) {
    var after := Either(MutatesOf(n), BurnsOf(n));
    && (n in f.mut <==> exists i :: Last(es, i, MutatesOf(n), after))
    && (forall i :: Last(es, i, MutatesOf(n), after) ==> n in f.mut && f.mut[n] == es[i].uri)
  }

  /** burnMap: a burn followed by no mint. */
  ghost predicate BurnedHolds(es: seq<Event>, f: Folded, n: string) {
    n in f.burn <==> exists i :: Last(es, i, BurnsOf(n), MintsOf(n))
  }

  ghost predicate MoveHolds(es: seq<Event>, f: Folded, n: string) {
    MovedHolds(es, f, n) && MutatedHolds(es, f, n) && BurnedHolds(es, f, n)
  }

  ghost predicate MoveFolded(es: seq<Event>, f: Folded) {
    forall n :: MoveHolds(es, f, n)
  }

  lemma MovedSnoc(es: seq<Event>, e: Event, f: Folded, n: string)
    requires MovedHolds(es, f, n)
    ensures MovedHolds(es + [e], FoldOne(f, e), n)
  {
    LastSnoc(es, e, MovesOf(n), Either(MovesOf(n), BurnsOf(n)));
  }

  lemma MutatedSnoc(es: seq<Event>, e: Event, f: Folded, n: string)
    requires MutatedHolds(es, f, n)
    ensures MutatedHolds(es + [e], FoldOne(f, e), n)
  {
    LastSnoc(es, e, MutatesOf(n), Either(MutatesOf(n), BurnsOf(n)));
  }

  lemma BurnedSnoc(es: seq<Event>, e: Event, f: Folded, n: string)
    requires BurnedHolds(es, f, n)
    ensures BurnedHolds(es + [e], FoldOne(f, e), n)
  {
    LastSnoc(es, e, BurnsOf(n), MintsOf(n));
  }

  lemma MoveSnoc(es: seq<Event>, e: Event, f: Folded, n: string, all: seq<Event>, f': Folded)
    requires MoveHolds(es, f, n) && all == es + [e] && f' == FoldOne(f, e)
    ensures MoveHolds(all, f', n)
  {
    MovedSnoc(es, e, f, n);
    MutatedSnoc(es, e, f, n);
    BurnedSnoc(es, e, f, n);
  }

  lemma {:induction false} FoldSnoc(f: Folded, es: seq<Event>, e: Event)
    ensures Fold(f, es + [e]) == FoldOne(Fold(f, es), e)
    decreases |es|
  {
    if es == [] {
      assert es + [e] == [e] && [e][1..] == [];
    } else {
      assert (es + [e])[1..] == es[1..] + [e];
      FoldSnoc(FoldOne(f, es[0]), es[1..], e);
    }
  }

  lemma {:induction false} MapsHold(es: seq<Event>, n: string)
    ensures MoveHolds(es, Fold(Nothing(), es), n)
  {
    if es == [] {
      NoEvents(n);
    } else {
      var rest, e := es[..|es| - 1], es[|es| - 1];
      assert es == rest + [e];
      MapsHold(rest, n);
      FoldSnoc(Nothing(), rest, e);
      MoveSnoc(rest, e, Fold(Nothing(), rest), n, es, Fold(Nothing(), es));
    }
  }

  lemma NoEvents(n: string)
    ensures MoveHolds([], Nothing(), n)
  {}

  /** The row of an NFT after a block, column by column: minted ones belong to the creator of their
      collection until they are moved. */
  lemma WrittenRow(t: Table, f: Folded, env: Env, n: string)
    requires OwnCollection(f.mint, env)
    ensures var w, minted := Written(t, f, env), env.col(n) in f.mint && n in f.mint[env.col(n)];
            (n in w <==> n !in f.burn && (n in t || minted)) &&
            (n in w ==>
              w[n].col == (if n in t then t[n].col else env.col(n)) &&
              w[n].owner == (if n in f.transfer then f.transfer[n] else if n in t then t[n].owner
                             else env.creator(env.col(n))) &&
              w[n].uri == (if n in f.mut then f.mut[n] else if n in t then t[n].uri
                           else if n in env.uris then env.uris[n] else "") &&
              w[n].height == (if n in t && n !in f.transfer && n !in f.mut then t[n].height else env.height))
  {
    WrittenCell(t, f, env, n);
  }

  // ---- the submodule -------------------------------------------------------------------------------

  class MoveNftSubmodule {
    var nft: Table

    constructor ()
      ensures nft == map[]
    {
      nft := map[];
    }

    static method FoldEvents(events: seq<Event>) returns (f: Folded)
      ensures f == Fold(Nothing(), events) && MoveFolded(events, f)
    {
      var mintMap: MintMap := map[];
      var transferMap: map<string, string>, mutMap: map<string, string>, burnMap: set<string> := map[], map[], {};
      assert events[0..] == events;
      for i := 0 to |events|
        invariant Fold(Folded(mintMap, transferMap, mutMap, burnMap), events[i..]) == Fold(Nothing(), events)
      {
        assert events[i..][0] == events[i] && events[i..][1..] == events[i + 1..];
        ghost var before := mintMap;
        match events[i] {
          case Mint(c, n) =>
            if c !in mintMap { mintMap := mintMap[c := {}]; }
            mintMap := mintMap[c := mintMap[c] + {n}];
            burnMap := burnMap - {n};
          case Transfer(n, to) =>
            transferMap := transferMap[n := to];
          case Mutate(n, uri) =>
            mutMap := mutMap[n := uri];
          case Burn(c, n) =>
            burnMap := burnMap + {n};
            if c in mintMap { mintMap := mintMap[c := mintMap[c] - {n}]; }
            transferMap := transferMap - {n};
            mutMap := mutMap - {n};
          case Other =>
        }
        assert mintMap == MintOne(before, events[i]);
      }
      assert events[|events|..] == [];
      f := Folded(mintMap, transferMap, mutMap, burnMap);
      forall n ensures MoveHolds(events, f, n) { MapsHold(events, n); }
    }

    /** The rows to insert: an NFT without a prefetched resource is an error. */
    static method MintedNfts(mint: MintMap, resources: set<string>) returns (ok: bool, nfts: set<string>)
      ensures ok <==> Nfts(mint) <= resources
      ensures ok ==> nfts == Nfts(mint)
    {
      ok, nfts := true, {};
      var cols := mint.Keys;
      while cols != {}
        invariant cols <= mint.Keys
        invariant nfts == set c, n | c in mint.Keys - cols && n in mint[c] :: n
        invariant nfts <= resources
        decreases cols
      {
        var c :| c in cols;
        if !(mint[c] <= resources) {
          var n :| n in mint[c] && n !in resources;
          assert n in Nfts(mint);
          return false, {};
        }
        assert mint.Keys - (cols - {c}) == (mint.Keys - cols) + {c};
        nfts := nfts + mint[c];
        cols := cols - {c};
      }
      assert mint.Keys - {} == mint.Keys;
    }

    method WriteMints(nfts: set<string>, env: Env)
      modifies this
      ensures nft == Inserted(old(nft), nfts, env)
    {
      var todo := nfts;
      while todo != {}
        invariant todo <= nfts && nft == Inserted(old(nft), nfts - todo, env)
        decreases todo
      {
        var n :| n in todo;
        if n !in nft { nft := nft[n := NewRow(env, n)]; }
        assert nfts - (todo - {n}) == (nfts - todo) + {n};
        todo := todo - {n};
      }
      assert nfts - {} == nfts;
    }

    method WriteTransfers(transfer: map<string, string>, height: nat)
      modifies this
      ensures nft == Transferred(old(nft), transfer, height)
    {
      var todo := transfer.Keys;
      while todo != {}
        invariant todo <= transfer.Keys && nft == Transferred(old(nft), transfer - todo, height)
        decreases todo
      {
        var n :| n in todo;
        if n in nft { nft := nft[n := nft[n].(owner := transfer[n], height := height)]; }
        todo := todo - {n};
      }
      assert transfer - {} == transfer;
    }

    method WriteMutations(mut: map<string, string>, height: nat)
      modifies this
      ensures nft == Mutated(old(nft), mut, height)
    {
      var todo := mut.Keys;
      while todo != {}
        invariant todo <= mut.Keys && nft == Mutated(old(nft), mut - todo, height)
        decreases todo
      {
        var n :| n in todo;
        if n in nft { nft := nft[n := nft[n].(uri := mut[n], height := height)]; }
        todo := todo - {n};
      }
      assert mut - {} == mut;
    }

    /** One block: nothing is written when a minted NFT has no resource. */
    method Collect(events: seq<Event>, env: Env) returns (ok: bool)
      modifies this
      ensures ok <==> Nfts(FoldMints(map[], events)) <= env.uris.Keys
      ensures MoveFolded(events, Fold(Nothing(), events))
      ensures nft == if ok then Written(old(nft), Fold(Nothing(), events), env) else old(nft)
    {
      var f := FoldEvents(events);
      FoldKeepsMints(Nothing(), events);
      var nfts;
      ok, nfts := MintedNfts(f.mint, env.uris.Keys);
      if !ok { return; }
      WriteMints(nfts, env);
      WriteTransfers(f.transfer, env.height);
      WriteMutations(f.mut, env.height);
      nft := nft - f.burn;
    }
  }

  /** When each NFT keeps one collection, the resources prefetched are exactly those Collect needs,
      so it never refuses a prepared block. */
  lemma PreparedSuffices(es: seq<Event>)
    requires forall i, j :: 0 <= i < |es| && 0 <= j < |es| && Counts(es[i]) && Counts(es[j]) && es[i].nft == es[j].nft
               ==> es[i].col == es[j].col
    ensures Nfts(FoldMints(map[], es)) == FilterMints({}, es)
  {
    var m := FoldMints(map[], es);
    forall n ensures n in Nfts(m) <==> n in FilterMints({}, es) {
      PrefetchAgrees(es, n);
      if n in FilterMints({}, es) {
        var c :| Minted(m, c, n);
        assert c in m && n in m[c];
      }
      if n in Nfts(m) {
        var c :| c in m && n in m[c];
        assert Minted(m, c, n);
      }
    }
  }
}
