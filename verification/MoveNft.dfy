/** The Move NFT submodule: which resources the prefetch pass asks for and which the collect
    pass needs. mintMap is nested by collection, the prefetch set is not. */
module MoveNft {
  import opened Common

  datatype Event =
    | Mint(col: string, nft: string)
    | Transfer(obj: string, to: string)   // of any object, not only of an NFT
    | Mutate(obj: string, uri: string)    // of the uri field
    | Burn(col: string, nft: string)
    | Other                               // collection creation and anything else

  /** A mint or burn: the events that name an NFT together with its collection. */
  predicate Counts(e: Event) {
    e.Mint? || e.Burn?
  }

  /** mintMap: the set of NFTs minted by collection. */
  type MintMap = map<string, set<string>>

  predicate Minted(m: MintMap, c: string, n: string) {
    c in m && n in m[c]
  }

  function MintOne(m: MintMap, e: Event): MintMap {
    match e
    case Mint(c, n) => m[c := (if c in m then m[c] else {}) + {n}]
    case Burn(c, n) => if c in m then m[c := m[c] - {n}] else m
    case _ => m
  }

  function FoldMints(m: MintMap, es: seq<Event>): MintMap
    decreases |es|
  {
    if es == [] then m else FoldMints(MintOne(m, es[0]), es[1..])
  }

  function FilterOne(s: set<string>, e: Event): set<string> {
    match e
    case Mint(_, n) => s + {n}
    case Burn(_, n) => s - {n}
    case _ => s
  }

  function FilterMints(s: set<string>, es: seq<Event>): set<string>
    decreases |es|
  {
    if es == [] then s else FilterMints(FilterOne(s, es[0]), es[1..])
  }

  // ---- what the two passes keep, by positions in the event list -------------------------------

  ghost predicate MintedAt(es: seq<Event>, i: int, c: string, n: string) {
    0 <= i < |es| && es[i] == Mint(c, n) && forall j :: i < j < |es| ==> es[j] != Burn(c, n)
  }

  ghost predicate KeptAt(es: seq<Event>, i: int, n: string) {
    0 <= i < |es| && es[i].Mint? && es[i].nft == n && forall j :: i < j < |es| ==> !(es[j].Burn? && es[j].nft == n)
  }

  /** mintMap holds (c, n) exactly when some mint of n in c has no later burn of n in c. */
  lemma {:induction false} MintMapIff(m: MintMap, es: seq<Event>, c: string, n: string)
    ensures Minted(FoldMints(m, es), c, n) <==>
            (exists i :: MintedAt(es, i, c, n)) || (Minted(m, c, n) && Burn(c, n) !in es)
    decreases |es|
  {
    if es != [] {
      var rest := es[1..];
      MintMapIff(MintOne(m, es[0]), rest, c, n);
      assert Burn(c, n) in es <==> es[0] == Burn(c, n) || Burn(c, n) in rest;
      forall i ensures MintedAt(rest, i, c, n) <==> i >= 0 && MintedAt(es, i + 1, c, n) {
        assert forall j :: 0 <= j < |rest| ==> rest[j] == es[j + 1];
        if MintedAt(rest, i, c, n) {
          forall j | i + 1 < j < |es| ensures es[j] != Burn(c, n) { assert es[j] == rest[j - 1]; }
        }
      }
      if exists i :: MintedAt(es, i, c, n) {
        var i :| MintedAt(es, i, c, n);
        if i > 0 { assert MintedAt(rest, i - 1, c, n); }
      }
      if es[0] == Mint(c, n) && Burn(c, n) !in rest { assert MintedAt(es, 0, c, n); }
    }
  }

  /** The prefetch set holds n exactly when some mint of n has no later burn of n at all. */
  lemma {:induction false} FilterIff(s: set<string>, es: seq<Event>, n: string)
    ensures n in FilterMints(s, es) <==>
            (exists i :: KeptAt(es, i, n)) || (n in s && forall j :: 0 <= j < |es| ==> !(es[j].Burn? && es[j].nft == n))
    decreases |es|
  {
    if es != [] {
      var rest := es[1..];
      FilterIff(FilterOne(s, es[0]), rest, n);
      assert forall j :: 0 <= j < |rest| ==> rest[j] == es[j + 1];
      assert forall j :: 0 < j < |es| ==> es[j] == rest[j - 1];
      forall i ensures KeptAt(rest, i, n) <==> i >= 0 && KeptAt(es, i + 1, n) {}
      if exists i :: KeptAt(es, i, n) {
        var i :| KeptAt(es, i, n);
        if i > 0 { assert KeptAt(rest, i - 1, n); }
      }
      if es[0].Mint? && es[0].nft == n && forall j :: 0 <= j < |rest| ==> !(rest[j].Burn? && rest[j].nft == n) {
        assert KeptAt(es, 0, n);
      }
    }
  }

  // ---- the missing-resource error --------------------------------------------------------------

  /** collect() meets an NFT of mintMap whose resource was not prefetched. */
  ghost predicate MissingResource(es: seq<Event>) {
    exists c, n :: Minted(FoldMints(map[], es), c, n) && n !in FilterMints({}, es)
  }

  /** A minted NFT is later burned under another collection, for the last time. */
  ghost predicate CrossBurn(es: seq<Event>, i: int, j: int) {
    && 0 <= i < j < |es| && es[i].Mint? && es[j].Burn? && es[j].nft == es[i].nft && es[j].col != es[i].col
    && (forall k :: i < k < |es| ==> es[k] != Burn(es[i].col, es[i].nft))
    && (forall k :: j < k < |es| ==> !(es[k].Mint? && es[k].nft == es[i].nft))
  }

  lemma {:induction false} LastMint(es: seq<Event>, n: string, i: nat) returns (m: nat)
    requires i < |es| && es[i].Mint? && es[i].nft == n
    ensures i <= m < |es| && es[m].Mint? && es[m].nft == n
    ensures forall k :: m < k < |es| ==> !(es[k].Mint? && es[k].nft == n)
    decreases |es| - i
  {
    if k :| i < k < |es| && es[k].Mint? && es[k].nft == n {
      m := LastMint(es, n, k);
    } else {
      m := i;
    }
  }

  /** The error is reachable exactly through a cross-collection burn. */
  lemma MissingResourceIff(es: seq<Event>)
    ensures MissingResource(es) <==> exists i, j :: CrossBurn(es, i, j)
  {
    if MissingResource(es) {
      var c, n :| Minted(FoldMints(map[], es), c, n) && n !in FilterMints({}, es);
      MintMapIff(map[], es, c, n);
      FilterIff({}, es, n);
      var i :| MintedAt(es, i, c, n);
      var m := LastMint(es, n, i);
      assert !KeptAt(es, m, n);
      var j :| m < j < |es| && es[j].Burn? && es[j].nft == n;
      assert CrossBurn(es, i, j);
    }
    if exists i, j :: CrossBurn(es, i, j) {
      var i, j :| CrossBurn(es, i, j);
      var c, n := es[i].col, es[i].nft;
      MintMapIff(map[], es, c, n);
      FilterIff({}, es, n);
      assert MintedAt(es, i, c, n);
      forall k ensures !KeptAt(es, k, n) {
        if 0 <= k < |es| && es[k].Mint? && es[k].nft == n { assert k < j; }
      }
      assert Minted(FoldMints(map[], es), c, n) && n !in FilterMints({}, es);
    }
  }

  /** When each NFT keeps one collection, the prefetched set is exactly the set of NFTs collect()
      inserts, so its error is unreachable. */
  lemma PrefetchAgrees(es: seq<Event>, n: string)
    requires forall i, j :: 0 <= i < |es| && 0 <= j < |es| && Counts(es[i]) && Counts(es[j]) && es[i].nft == es[j].nft
               ==> es[i].col == es[j].col
    ensures n in FilterMints({}, es) <==> exists c :: Minted(FoldMints(map[], es), c, n)
    ensures !MissingResource(es)
  {
    MissingResourceIff(es);
    FilterIff({}, es, n);
    if n in FilterMints({}, es) {
      var i :| KeptAt(es, i, n);
      MintMapIff(map[], es, es[i].col, n);
      assert MintedAt(es, i, es[i].col, n);
    }
    if exists c :: Minted(FoldMints(map[], es), c, n) {
      var c :| Minted(FoldMints(map[], es), c, n);
      assert !(Minted(FoldMints(map[], es), c, n) && n !in FilterMints({}, es));
    }
  }

  // ---- the prefetch loop ----------------------------------------------------------------------------

  method FilterMoveData(events: seq<Event>) returns (nftAddrMap: set<string>)
    ensures nftAddrMap == FilterMints({}, events)
  {
    nftAddrMap := {};
    assert events[0..] == events;
    for i := 0 to |events|
      invariant FilterMints(nftAddrMap, events[i..]) == FilterMints({}, events)
    {
      assert events[i..][0] == events[i] && events[i..][1..] == events[i + 1..];
      match events[i]
      case Mint(_, n) => nftAddrMap := nftAddrMap + {n};
      case Burn(_, n) => nftAddrMap := nftAddrMap - {n};
      case _ =>
    }
    assert events[|events|..] == [];
  }
}
