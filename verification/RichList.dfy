/** The EVM rich list: a block's transfer logs are folded into balance deltas, applied together
    with the processed height in one transaction, five blocks behind the indexer. */
module RichList {
  import opened Common

  datatype Key = Key(denom: string, addr: string)

  type Balances = map<Key, int>

  /** A log topic after parsing: the zero topic, an account, or not an address at all. */
  datatype Topic = Zero | Acc(addr: string) | Bad

  /** amount is None when the data field is not 0x-prefixed hex; such logs are skipped. */
  datatype Log = Log(denom: string, from: Topic, to: Topic, amount: Option<int>)

  function Value(m: Balances, k: Key): int {
    if k in m then m[k] else 0
  }

  // ---- deltas of a list of logs -----------------------------------------------------------------

  /** ApplyBalanceChange. */
  function Add(m: Balances, k: Key, amount: int): Balances {
    m[k := if k in m then m[k] + amount else amount]
  }

  function ApplyLog(m: Balances, l: Log): Balances {
    if l.amount.None? then m
    else
      var m1 := if l.from.Acc? then Add(m, Key(l.denom, l.from.addr), -l.amount.value) else m;
      if l.to.Acc? then Add(m1, Key(l.denom, l.to.addr), l.amount.value) else m1
  }

  function ApplyLogs(m: Balances, ls: seq<Log>): Balances
    decreases |ls|
  {
    if ls == [] then m else ApplyLogs(ApplyLog(m, ls[0]), ls[1..])
  }

  /** The total of the parsable logs of k's denom that pay to k's account. */
  function Received(ls: seq<Log>, k: Key): int {
    if ls == [] then 0
    else (if ls[0].denom == k.denom && ls[0].amount.Some? && ls[0].to == Acc(k.addr) then ls[0].amount.value else 0)
         + Received(ls[1..], k)
  }

  /** The total of those that take from it. */
  function Spent(ls: seq<Log>, k: Key): int {
    if ls == [] then 0
    else (if ls[0].denom == k.denom && ls[0].amount.Some? && ls[0].from == Acc(k.addr) then ls[0].amount.value else 0)
         + Spent(ls[1..], k)
  }

  /** A log with a readable amount that names k's account on either side. */
  predicate Touches(l: Log, k: Key) {
    l.denom == k.denom && l.amount.Some? && (l.from == Acc(k.addr) || l.to == Acc(k.addr))
  }

  /** The delta of a key is what it received less what it spent; a self transfer nets to 0. */
  lemma {:induction false} DeltaOf(m: Balances, ls: seq<Log>, k: Key)
    ensures Value(ApplyLogs(m, ls), k) == Value(m, k) + Received(ls, k) - Spent(ls, k)
    decreases |ls|
  {
    if ls != [] { DeltaOf(ApplyLog(m, ls[0]), ls[1..], k); }
  }

  lemma {:induction false} DeltaKeys(m: Balances, ls: seq<Log>, k: Key)
    ensures k in ApplyLogs(m, ls) <==> k in m || exists i :: 0 <= i < |ls| && Touches(ls[i], k)
    decreases |ls|
  {
    if ls != [] {
      DeltaKeys(ApplyLog(m, ls[0]), ls[1..], k);
      assert k in ApplyLog(m, ls[0]) <==> k in m || Touches(ls[0], k);
      if exists i :: 0 <= i < |ls| && Touches(ls[i], k) {
        var i :| 0 <= i < |ls| && Touches(ls[i], k);
        assert i > 0 ==> Touches(ls[1..][i - 1], k);
      }
      if exists i :: 0 <= i < |ls[1..]| && Touches(ls[1..][i], k) {
        var i :| 0 <= i < |ls[1..]| && Touches(ls[1..][i], k);
        assert Touches(ls[i + 1], k);
      }
    }
  }

  /** For every list of logs each account gains what it is paid and loses what it pays. */
  method ProcessEvmTransferEvents(logs: seq<Log>) returns (balanceMap: Balances)
    ensures balanceMap == ApplyLogs(map[], logs)
    ensures forall k :: Value(balanceMap, k) == Received(logs, k) - Spent(logs, k)
    ensures forall k :: k in balanceMap <==> exists i :: 0 <= i < |logs| && Touches(logs[i], k)
  {
    balanceMap := map[];
    assert logs[0..] == logs;
    for i := 0 to |logs|
      invariant ApplyLogs(balanceMap, logs[i..]) == ApplyLogs(map[], logs)
    {
      assert logs[i..][0] == logs[i] && logs[i..][1..] == logs[i + 1..];
      var l := logs[i];
      if l.amount.Some? {
        if l.from.Acc? { balanceMap := Add(balanceMap, Key(l.denom, l.from.addr), -l.amount.value); }
        if l.to.Acc? { balanceMap := Add(balanceMap, Key(l.denom, l.to.addr), l.amount.value); }
      }
    }
    assert logs[|logs|..] == [];
    forall k
      ensures Value(balanceMap, k) == Received(logs, k) - Spent(logs, k)
      ensures k in balanceMap <==> exists i :: 0 <= i < |logs| && Touches(logs[i], k)
    {
      DeltaOf(map[], logs, k);
      DeltaKeys(map[], logs, k);
    }
  }

  // ---- conservation --------------------------------------------------------------------------------

  /** The sum over all addresses of a denom. */
  ghost function Sum(m: Balances, d: string): int
    decreases |m|
  {
    if m == map[] then 0
    else
      var k :| k in m;
      (if k.denom == d then m[k] else 0) + Sum(m - {k}, d)
  }

  lemma {:induction false} SumWithout(m: Balances, d: string, k: Key)
    requires k in m
    ensures Sum(m, d) == (if k.denom == d then m[k] else 0) + Sum(m - {k}, d)
    decreases |m|
  {
    var p :| p in m && Sum(m, d) == (if p.denom == d then m[p] else 0) + Sum(m - {p}, d);
    if p != k {
      assert |m - {p}| < |m| by { assert (m - {p}).Keys == m.Keys - {p}; }
      SumWithout(m - {p}, d, k);
      assert k in m - {p} && p in m - {k};
      assert |m - {k}| < |m| by { assert (m - {k}).Keys == m.Keys - {k}; }
      SumWithout(m - {k}, d, p);
      assert m - {p} - {k} == m - {k} - {p};
    }
  }

  lemma SumAdd(m: Balances, d: string, k: Key, amount: int)
    ensures Sum(Add(m, k, amount), d) == Sum(m, d) + (if k.denom == d then amount else 0)
  {
    var m' := Add(m, k, amount);
    SumWithout(m', d, k);
    if k in m {
      SumWithout(m, d, k);
      assert m' - {k} == m - {k};
    } else {
      assert m' - {k} == m;
    }
  }

  /** The total amount of the logs of a denom that satisfy a condition. */
  function Amount(ls: seq<Log>, d: string, p: Log -> bool): int {
    if ls == [] then 0
    else (if ls[0].denom == d && ls[0].amount.Some? && p(ls[0]) then ls[0].amount.value else 0) + Amount(ls[1..], d, p)
  }

  predicate IsMint(l: Log) { l.from.Zero? && !l.to.Zero? }
  predicate IsBurn(l: Log) { !l.from.Zero? && l.to.Zero? }
  predicate BadFrom(l: Log) { l.from.Bad? }
  predicate BadTo(l: Log) { l.to.Bad? }

  /** For every list of logs: the deltas of a denom add up to what was minted less what was burned,
      self transfers and all, except that an unparsable topic loses its side of the transfer. */
  lemma {:induction false} DeltaSum(m: Balances, ls: seq<Log>, d: string)
    ensures Sum(ApplyLogs(m, ls), d) == Sum(m, d)
              + Amount(ls, d, IsMint) - Amount(ls, d, IsBurn) + Amount(ls, d, BadFrom) - Amount(ls, d, BadTo)
    decreases |ls|
  {
    if ls != [] {
      var l := ls[0];
      DeltaSum(ApplyLog(m, l), ls[1..], d);
      if l.amount.Some? {
        var a := l.amount.value;
        var m1 := if l.from.Acc? then Add(m, Key(l.denom, l.from.addr), -a) else m;
        if l.from.Acc? { SumAdd(m, d, Key(l.denom, l.from.addr), -a); }
        if l.to.Acc? { SumAdd(m1, d, Key(l.denom, l.to.addr), a); }
      }
    }
  }

  /** The total is conserved apart from mints and burns exactly when the amounts lost on either
      side balance; in particular when every topic is a well-formed address. */
  lemma ConservationIff(ls: seq<Log>, d: string)
    ensures Sum(ApplyLogs(map[], ls), d) == Amount(ls, d, IsMint) - Amount(ls, d, IsBurn)
       <==> Amount(ls, d, BadFrom) == Amount(ls, d, BadTo)
    ensures (forall i :: 0 <= i < |ls| ==> !ls[i].from.Bad? && !ls[i].to.Bad?) ==>
              Sum(ApplyLogs(map[], ls), d) == Amount(ls, d, IsMint) - Amount(ls, d, IsBurn)
  {
    DeltaSum(map[], ls, d);
    if forall i :: 0 <= i < |ls| ==> !ls[i].from.Bad? && !ls[i].to.Bad? {
      NoneBad(ls, d);
    }
  }

  lemma {:induction false} NoneBad(ls: seq<Log>, d: string)
    requires forall i :: 0 <= i < |ls| ==> !ls[i].from.Bad? && !ls[i].to.Bad?
    ensures Amount(ls, d, BadFrom) == 0 && Amount(ls, d, BadTo) == 0
    decreases |ls|
  {
    if ls != [] { NoneBad(ls[1..], d); }
  }

  // ---- applying a block's deltas -----------------------------------------------------------------------

  function AddAll(rich: Balances, deltas: Balances): Balances {
    map k | k in rich.Keys + deltas.Keys :: Value(rich, k) + Value(deltas, k)
  }

  /** Denoms for which some updated balance went below zero. */
  function Negative(rich: Balances, deltas: Balances): set<string> {
    set k | k in deltas && Value(rich, k) + deltas[k] < 0 :: k.denom
  }

  /** AfterProcess: absolute balances queried for the negative denoms overwrite the table. */
  function Corrected(rich: Balances, negative: set<string>, queried: Balances): Balances {
    map k | k in rich.Keys + queried.Keys && (k in rich || k.denom in negative) ::
      if k.denom in negative && k in queried then queried[k] else rich[k]
  }

  /** One upsert; the rest of the change has disjoint keys. */
  lemma AddOneMore(rich: Balances, part: Balances, k: Key, d: int)
    requires k !in part
    ensures AddAll(rich, part[k := d]) == AddAll(rich, part)[k := Value(AddAll(rich, part), k) + d]
    ensures Negative(rich, part[k := d]) ==
            Negative(rich, part) + if Value(AddAll(rich, part), k) + d < 0 then {k.denom} else {}
  {}

  // ---- exactly once over crashes ------------------------------------------------------------------------

  const BLOCK_DELAY: nat := 5

  /** What the chain says: balances at a height, whether it has accounts, deltas of a block, and
      the balances a correction would query. */
  datatype Chain = Chain(snapshot: nat -> Balances, hasAccounts: nat -> bool, deltas: nat -> Balances,
                         queried: nat -> Balances)

  ghost predicate ChainOk(c: Chain) {
    forall h :: !c.hasAccounts(h) ==> c.snapshot(h) == map[]
  }

  /** latest is the top of the block table (None while empty), status the processed height; base
      and fixed are history: the height initialised at, and for each key that a correction has
      overwritten the height of the last one. */
  datatype State = State(
    latest: Option<nat>,
    rich: Balances,
    status: Option<nat>,
    base: nat,
    fixed: map<Key, nat>,
    up: bool,
    requireInit: bool,
    cur: nat)

  datatype Event = Append(first: nat) | Boot | InitTx | BlockTx | Crash

  function FixedAt(negative: set<string>, queried: Balances, height: nat): map<Key, nat> {
    map k | k in queried && k.denom in negative :: height
  }

  function Next(c: Chain, s: State, e: Event): State {
    match e
    case Append(first) => s.(latest := Some(if s.latest.Some? then s.latest.value + 1 else first))
    case Boot =>
      if s.up || (s.status.None? && s.latest.None?) then s
      else if s.status.None? then s.(up := true, requireInit := true, cur := s.latest.value)
      else s.(up := true, requireInit := false, cur := s.status.value + 1)
    case InitTx =>
      if s.up && s.requireInit then
        var s' := s.(requireInit := false, cur := s.cur + 1, base := s.cur);
        if c.hasAccounts(s.cur) then s'.(rich := s.rich + c.snapshot(s.cur), status := Some(s.cur)) else s'
      else s
    case BlockTx =>
      if s.up && !s.requireInit && s.latest.Some? && s.latest.value >= s.cur + BLOCK_DELAY then
        var negative := Negative(s.rich, c.deltas(s.cur));
        s.(rich := Corrected(AddAll(s.rich, c.deltas(s.cur)), negative, c.queried(s.cur)),
           fixed := s.fixed + FixedAt(negative, c.queried(s.cur), s.cur), status := Some(s.cur), cur := s.cur + 1)
      else s
    case Crash => s.(up := false, requireInit := false, cur := 0)
  }

  function RunEvents(c: Chain, s: State, es: seq<Event>): State
    decreases |es|
  {
    if es == [] then s else RunEvents(c, Next(c, s, es[0]), es[1..])
  }

  function Fresh(): State {
    State(None, map[], None, 0, map[], false, false, 0)
  }

  /** The deltas of key k in blocks lo+1 .. hi. */
  function Deltas(c: Chain, lo: nat, hi: nat, k: Key): int
    decreases hi
  {
    if hi <= lo then 0 else Deltas(c, lo, hi - 1, k) + Value(c.deltas(hi), k)
  }

  /** What key k should hold at height H: the balance of the last correction, or else of the initial
      snapshot, plus the deltas of each later block up to H. */
  ghost function Owed(c: Chain, s: State, k: Key, h: nat): int {
    if k in s.fixed then Value(c.queried(s.fixed[k]), k) + Deltas(c, s.fixed[k], h, k)
    else Value(c.snapshot(s.base), k) + Deltas(c, s.base, h, k)
  }

  ghost predicate RichInv(c: Chain, s: State) {
    && (s.status.None? ==> s.rich == map[] && s.fixed == map[])
    && (s.status.Some? ==> s.base <= s.status.value && forall k :: k in s.fixed ==> s.fixed[k] <= s.status.value)
    && (s.status.Some? ==> forall k: Key :: Value(s.rich, k) == Owed(c, s, k, s.status.value))
    && (s.status.Some? && s.status.value > s.base ==> s.latest.Some? && s.latest.value >= s.status.value + BLOCK_DELAY)
    && (s.up && s.status.Some? ==> !s.requireInit && s.cur == s.status.value + 1)
    && (s.up && s.status.None? && !s.requireInit ==> s.cur == s.base + 1 && !c.hasAccounts(s.base))
  }

  lemma BlockValue(c: Chain, s: State, k: Key)
    requires ChainOk(c) && RichInv(c, s) && Next(c, s, BlockTx) != s
    ensures Value(Next(c, s, BlockTx).rich, k) == Owed(c, Next(c, s, BlockTx), k, s.cur)
  {
    var s' := Next(c, s, BlockTx);
    var negative := Negative(s.rich, c.deltas(s.cur));
    if k in FixedAt(negative, c.queried(s.cur), s.cur) {
      assert s'.fixed[k] == s.cur && k in s'.rich;
    } else {
      assert k in s'.fixed <==> k in s.fixed;
      assert Value(s'.rich, k) == Value(s.rich, k) + Value(c.deltas(s.cur), k);
      if s.status.None? {
        assert Deltas(c, s.base, s.cur, k) == Deltas(c, s.base, s.base, k) + Value(c.deltas(s.cur), k);
      } else {
        assert Value(s.rich, k) == Owed(c, s, k, s.status.value);
      }
    }
  }

  /** Some balance of the denom goes below zero. */
  ghost predicate GoesNegative(rich: Balances, deltas: Balances, denom: string) {
    exists j :: j in deltas && j.denom == denom && Value(rich, j) + deltas[j] < 0
  }

  /** One height: each balance grows by its delta, unless its denom went negative somewhere and the chain
      was asked for it; then it is what the chain says. */
  lemma BlockBalance(c: Chain, s: State, k: Key)
    requires s.up && !s.requireInit && s.latest.Some? && s.latest.value >= s.cur + 5
    ensures var s', d, queried := Next(c, s, BlockTx), c.deltas(s.cur), c.queried(s.cur);
            s'.status == Some(s.cur) && s'.cur == s.cur + 1 &&
            Value(s'.rich, k) == if GoesNegative(s.rich, d, k.denom) && k in queried then queried[k]
                                 else Value(s.rich, k) + Value(d, k)
  {
    var d := c.deltas(s.cur);
    if j :| j in d && j.denom == k.denom && Value(s.rich, j) + d[j] < 0 {
      assert k.denom in Negative(s.rich, d);
    }
  }

  lemma BlockStep(c: Chain, s: State)
    requires ChainOk(c) && RichInv(c, s)
    ensures RichInv(c, Next(c, s, BlockTx))
  {
    var s' := Next(c, s, BlockTx);
    if s' != s {
      forall k: Key ensures Value(s'.rich, k) == Owed(c, s', k, s'.status.value) {
        BlockValue(c, s, k);
      }
    }
  }

  lemma {:induction false} RichRun(c: Chain, s: State, es: seq<Event>)
    requires ChainOk(c) && RichInv(c, s)
    ensures RichInv(c, RunEvents(c, s, es))
    decreases |es|
  {
    if es != [] {
      if es[0].BlockTx? { BlockStep(c, s); }
      RichRun(c, Next(c, s, es[0]), es[1..]);
    }
  }

  /** For every crash schedule: once height H is committed, every balance is that of the last
      correction that set it, or else of the initial snapshot, plus the deltas of each later block
      up to H, once each; and a height reached by block transactions is at least five below the
      latest block. */
  lemma AppliedExactlyOnce(c: Chain, es: seq<Event>, k: Key)
    requires ChainOk(c)
    ensures var s := RunEvents(c, Fresh(), es);
            s.status.Some? ==>
              Value(s.rich, k) == Owed(c, s, k, s.status.value) &&
              (s.status.value > s.base ==> s.latest.Some? && s.latest.value >= s.status.value + BLOCK_DELAY)
  {
    RichRun(c, Fresh(), es);
  }

  /** The initial snapshot itself does not keep that distance. */
  lemma SnapshotAtTheTop(c: Chain, top: nat)
    requires c.hasAccounts(top)
    ensures var s := RunEvents(c, Fresh(), [Append(top), Boot, InitTx]); s.status == s.latest == Some(top)
  {
    var es := [Append(top), Boot, InitTx];
    assert es[1..] == [Boot, InitTx] && es[1..][1..] == [InitTx] && es[1..][1..][1..] == [];
    var s1 := Next(c, Fresh(), Append(top));
    var s2 := Next(c, s1, Boot);
    assert RunEvents(c, Fresh(), es) == RunEvents(c, s1, es[1..]) == RunEvents(c, s2, es[1..][1..]);
    assert RunEvents(c, s2, es[1..][1..]) == Next(c, s2, InitTx);
  }

  // ---- the extension and its processor -----------------------------------------------------------------

  function BlockTxs(n: nat): seq<Event> {
    seq(n, _ => BlockTx)
  }

  lemma {:induction false} RunConcat(c: Chain, s: State, es: seq<Event>, fs: seq<Event>)
    ensures RunEvents(c, s, es + fs) == RunEvents(c, RunEvents(c, s, es), fs)
    decreases |es|
  {
    if es == [] {
      assert es + fs == fs;
    } else {
      assert (es + fs)[1..] == es[1..] + fs;
      RunConcat(c, Next(c, s, es[0]), es[1..], fs);
    }
  }

  /** One more height in the run. */
  lemma OneMoreBlock(c: Chain, s: State, n: nat)
    ensures RunEvents(c, s, BlockTxs(n + 1)) == Next(c, RunEvents(c, s, BlockTxs(n)), BlockTx)
  {
    assert BlockTxs(n + 1) == BlockTxs(n) + [BlockTx];
    RunConcat(c, s, BlockTxs(n), [BlockTx]);
    assert [BlockTx][1..] == [];
  }

  /** The rich list tables together with the process working on them. */
  class Processor {
    const chain: Chain
    var latest: Option<nat>      // top of the block table
    var rich: Balances           // rich_list
    var status: Option<nat>      // rich_list_status
    ghost var base: nat
    ghost var fixed: map<Key, nat>
    var up: bool
    var requireInit: bool
    var currentHeight: nat

    ghost function View(): State
      reads this
    {
      State(latest, rich, status, base, fixed, up, requireInit, currentHeight)
    }

    constructor (chain: Chain)
      ensures View() == Fresh() && this.chain == chain
    {
      this.chain := chain;
      latest, rich, status, base, fixed := None, map[], None, 0, map[];
      up, requireInit, currentHeight := false, false, 0;
    }

    /** Initialize: resume above the saved height, or start over at the latest block; without
        any block it keeps waiting. */
    method Initialize()
      modifies `up, `requireInit, `currentHeight
      ensures View() == Next(chain, old(View()), Boot)
    {
      if up { return; }
      match status
      case Some(height) =>
        up, requireInit, currentHeight := true, false, height + 1;
      case None =>
        match latest
        case Some(height) => up, requireInit, currentHeight := true, true, height;
        case None =>
    }

    /** The transaction that takes the snapshot; a chain without accounts leaves no status. */
    method InitializeBalances()
      requires up && requireInit
      modifies `rich, `status, `requireInit, `currentHeight, `base
      ensures View() == Next(chain, old(View()), InitTx)
    {
      if chain.hasAccounts(currentHeight) {
        rich := rich + chain.snapshot(currentHeight);
        status := Some(currentHeight);
      }
      base := currentHeight;
      requireInit, currentHeight := false, currentHeight + 1;
    }

    /** One upsert per key, in whatever order the map is iterated. */
    method UpdateBalanceChanges(balanceMap: Balances) returns (negative: set<string>)
      modifies `rich
      ensures rich == AddAll(old(rich), balanceMap)
      ensures negative == Negative(old(rich), balanceMap)
    {
      negative := {};
      var todo := balanceMap.Keys;
      while todo != {}
        invariant todo <= balanceMap.Keys
        invariant rich == AddAll(old(rich), balanceMap - todo)
        invariant negative == Negative(old(rich), balanceMap - todo)
        decreases todo
      {
        var k :| k in todo;
        AddOneMore(old(rich), balanceMap - todo, k, balanceMap[k]);
        assert balanceMap - (todo - {k}) == (balanceMap - todo)[k := balanceMap[k]];
        rich := rich[k := Value(rich, k) + balanceMap[k]];
        if rich[k] < 0 { negative := negative + {k.denom}; }
        todo := todo - {k};
      }
      assert balanceMap - {} == balanceMap;
    }

    /** AfterProcess: the queried balances of each negative denom replace the stored ones. */
    method AfterProcess(negative: set<string>, queried: Balances)
      modifies `rich
      ensures rich == Corrected(old(rich), negative, queried)
    {
      var todo := negative;
      while todo != {}
        invariant todo <= negative
        invariant rich == Corrected(old(rich), negative - todo, queried)
        decreases todo
      {
        var denom :| denom in todo;
        UpdateBalances(denom, queried);
        CorrectedNext(old(rich), negative - todo, denom, queried);
        assert negative - (todo - {denom}) == (negative - todo) + {denom};
        todo := todo - {denom};
      }
      assert negative - {} == negative;
    }

    method UpdateBalances(denom: string, balances: Balances)
      modifies `rich
      ensures rich == Corrected(old(rich), {denom}, balances)
    {
      var keys := set k | k in balances && k.denom == denom;
      var todo := keys;
      while todo != {}
        invariant todo <= keys
        invariant rich == map k | k in old(rich).Keys + (keys - todo) :: if k in keys - todo then balances[k]
                  else old(rich)[k]
        decreases todo
      {
        var k :| k in todo;
        rich := rich[k := balances[k]];
        todo := todo - {k};
      }
    }

    /** The transaction of one height, once the block is five below the latest. */
    method ProcessHeight()
      requires up && !requireInit && latest.Some? && latest.value >= currentHeight + BLOCK_DELAY
      modifies `rich, `status, `currentHeight, `fixed
      ensures View() == Next(chain, old(View()), BlockTx)
    {
      var negative := UpdateBalanceChanges(chain.deltas(currentHeight));
      AfterProcess(negative, chain.queried(currentHeight));
      status := Some(currentHeight);
      fixed := fixed + FixedAt(negative, chain.queried(currentHeight), currentHeight);
      currentHeight := currentHeight + 1;
    }

    /** Run, until it would have to wait for a new block: the snapshot if it is due, then one
        transaction for each height, n in all, up to five below the latest block. */
    method Run() returns (ghost n: nat)
      requires up && RichInv(chain, View()) && ChainOk(chain)
      modifies `rich, `status, `requireInit, `currentHeight, `base, `fixed
      ensures RichInv(chain, View()) && !requireInit
      ensures View() == RunEvents(chain, if old(requireInit) then Next(chain, old(View()), InitTx)
                                  else old(View()), BlockTxs(n))
      ensures latest.Some? ==> latest.value < currentHeight + BLOCK_DELAY
    {
      ghost var start := if requireInit then Next(chain, View(), InitTx) else View();
      if requireInit { InitializeBalances(); }
      n := 0;
      while latest.Some? && latest.value >= currentHeight + BLOCK_DELAY
        invariant up && !requireInit && RichInv(chain, View())
        invariant View() == RunEvents(chain, start, BlockTxs(n))
        decreases if latest.Some? then latest.value - currentHeight else 0
      {
        BlockStep(chain, View());
        OneMoreBlock(chain, start, n);
        ProcessHeight();
        n := n + 1;
      }
    }
  }

  lemma CorrectedNext(rich: Balances, done: set<string>, denom: string, queried: Balances)
    ensures Corrected(Corrected(rich, done, queried), {denom}, queried) == Corrected(rich, done + {denom}, queried)
  {}
}
