/** The block pipeline of one indexer process and its restarts: scraper, channel, parallel
    prepare goroutines, blockMap and the sequential collect loop over one block table.
    Every scheduling choice is one Event; an event that is not enabled leaves the state as
    it is, so a theorem about all event sequences is about every interleaving. */
module Pipeline {
  import opened Common

  /** START_HEIGHT: whether it is configured, and its value. */
  datatype Config = Config(startSet: bool, startVal: int)

  /** Where the collect goroutine stands inside Collector.Collect for height h. */
  datatype Phase =
    | Idle
    | Taken(h: nat)       // popped from blockMap, transaction not begun
    | BlockDone(h: nat)   // block submodule ran
    | TxDone(h: nat)      // tx submodule ran
    | NftDone(h: nat)     // nft submodule ran, commit is next

  /** A prepare goroutine; tx and nft say which submodule succeeded in the current attempt. */
  datatype Worker = Worker(h: nat, tx: bool, nft: bool)

  datatype Sub = TxSub | NftSub

  /** table and commits are durable, everything after up dies with the process. */
  datatype State = State(
    table: set<nat>,           // heights with a block row
    commits: seq<nat>,         // history of committed heights
    unprepared: bool,          // history: "data is not prepared" was returned at least once
    up: bool,
    height: nat,
    channel: multiset<nat>,
    workers: map<nat, Worker>,
    blockMap: set<nat>,
    txCache: set<nat>,
    nftCache: set<nat>,
    phase: Phase)

  datatype Event =
    | Start(head: nat)                // process start; head is the chain head it is told
    | Scraped(h: nat)                 // the scraper pushes a block, possibly not for the first time
    | Receive(h: nat, seen: nat, id: nat) // prepare() pops it, having read `seen` for i.height
    | Prepared(id: nat, sub: Sub)     // one submodule stores its data
    | Retry(id: nat)                  // the attempt timed out, all submodules start again
    | Finish(id: nat)                 // both succeeded: enter blockMap
    | Take                            // collect() pops blockMap[i.height]
    | Collect                         // next step of Collector.Collect
    | SerializationFailure            // the transaction ends with code 40001, reported as success
    | Crash                           // cancellation, panic or kill

  function ComputeStartHeight(dbNext: nat, chainHead: nat, startSet: bool, startVal: int): (r: nat) {
    if !startSet then dbNext else Max(dbNext, Min(chainHead, Max(0, startVal)))
  }

  /** The code comment promises a result between dbNext and the chain head. The upper half
      holds exactly when the database is not ahead of the chain. The database decides unless both the
      configured height and the head are above it; then the lower of those two does. */
  lemma StartHeightBounds(dbNext: nat, head: nat, configured: bool, val: int)
    ensures var r := ComputeStartHeight(dbNext, head, configured, val);
            r >= dbNext && (r <= head <==> dbNext <= head) &&
            (!configured || val <= dbNext || head <= dbNext ==> r == dbNext) &&
            (configured && val > dbNext && head > dbNext ==> r == if val < head then val else head)
  {}

  /** dbNext of Run: a missing last block reads as height 0. */
  function DbNext(t: set<nat>): nat {
    Highest(t) + 1
  }

  function Stopped(s: State): State {
    s.(up := false, channel := multiset{}, workers := map[], blockMap := {},
       txCache := {}, nftCache := {}, phase := Idle)
  }

  /** The block submodule needs the previous block's row unless it starts mid-chain. */
  predicate PreviousRowOk(cfg: Config, t: set<nat>, h: nat) {
    h > 1 ==> (cfg.startSet && h - 1 < cfg.startVal) || h - 1 in t
  }

  /** One statement of Collector.Collect for the block taken; an error return panics. */
  function CollectStep(cfg: Config, s: State): State {
    match s.phase
    case Idle => s
    case Taken(h) =>
      if h in s.table then s.(phase := Idle, height := s.height + 1)  // already indexed
      else if PreviousRowOk(cfg, s.table, h) then s.(phase := BlockDone(h))
      else Stopped(s)
    case BlockDone(h) =>
      if h in s.txCache then s.(phase := TxDone(h), txCache := s.txCache - {h})
      else Stopped(s).(unprepared := true)
    case TxDone(h) =>
      if h in s.nftCache then s.(phase := NftDone(h), nftCache := s.nftCache - {h})
      else Stopped(s).(unprepared := true)
    case NftDone(h) =>
      s.(phase := Idle, height := s.height + 1, table := s.table + {h}, commits := s.commits + [h])
  }

  function Fill(s: State, id: nat, sub: Sub): State
    requires id in s.workers
  {
    var w := s.workers[id];
    match sub
    case TxSub => s.(txCache := s.txCache + {w.h}, workers := s.workers[id := w.(tx := true)])
    case NftSub => s.(nftCache := s.nftCache + {w.h}, workers := s.workers[id := w.(nft := true)])
  }

  function Next(cfg: Config, s: State, e: Event): State {
    match e
    case Start(head) =>
      if s.up then s
      else Stopped(s).(up := true,
                       height := ComputeStartHeight(DbNext(s.table), head, cfg.startSet, cfg.startVal))
    case Scraped(h) => if s.up then s.(channel := s.channel + multiset{h}) else s
    case Receive(h, seen, id) =>
      if s.up && h in s.channel && id !in s.workers && seen <= s.height then
        var s' := s.(channel := s.channel - multiset{h});
        if h < seen then s' else s'.(workers := s.workers[id := Worker(h, false, false)])
      else s
    case Prepared(id, sub) => if id in s.workers then Fill(s, id, sub) else s
    case Retry(id) =>
      if id in s.workers then s.(workers := s.workers[id := s.workers[id].(tx := false, nft := false)]) else s
    case Finish(id) =>
      if id in s.workers && s.workers[id].tx && s.workers[id].nft then
        s.(blockMap := s.blockMap + {s.workers[id].h}, workers := s.workers - {id})
      else s
    case Take =>
      if s.up && s.phase.Idle? && s.height in s.blockMap then
        s.(blockMap := s.blockMap - {s.height}, phase := Taken(s.height))
      else s
    case Collect => if s.up then CollectStep(cfg, s) else s
    case SerializationFailure =>
      if s.up && !s.phase.Idle? then s.(phase := Idle, height := s.height + 1) else s
    case Crash => Stopped(s)
  }

  function Run(cfg: Config, s: State, es: seq<Event>): State
    decreases |es|
  {
    if es == [] then s else Run(cfg, Next(cfg, s, es[0]), es[1..])
  }

  function Empty(): State {
    State({}, [], false, false, 0, multiset{}, map[], {}, {}, {}, Idle)
  }

  /** The first height collect() may still take in this process. */
  function NextTake(s: State): nat {
    if s.phase.Idle? then s.height else s.height + 1
  }

  // ---- prefetched data is there when it is needed --------------------------------

  ghost predicate CachesHold(s: State) {
    && !s.unprepared
    && (forall h :: h in s.blockMap && h >= NextTake(s) ==> h in s.txCache && h in s.nftCache)
    && (forall id :: id in s.workers && s.workers[id].h >= NextTake(s) ==>
          (s.workers[id].tx ==> s.workers[id].h in s.txCache) &&
          (s.workers[id].nft ==> s.workers[id].h in s.nftCache))
    && (!s.phase.Idle? ==> s.phase.h == s.height)
    && (s.phase.Taken? || s.phase.BlockDone? ==> s.phase.h in s.txCache)
    && (s.phase.Taken? || s.phase.BlockDone? || s.phase.TxDone? ==> s.phase.h in s.nftCache)
  }

  lemma CachesHoldCollect(cfg: Config, s: State)
    requires CachesHold(s)
    ensures CachesHold(CollectStep(cfg, s))
  {}

  lemma CachesHoldFill(s: State, id: nat, sub: Sub)
    requires CachesHold(s) && id in s.workers
    ensures CachesHold(Fill(s, id, sub))
  {}

  lemma CachesHoldStep(cfg: Config, s: State, e: Event)
    requires CachesHold(s)
    ensures CachesHold(Next(cfg, s, e))
  {
    if e.Collect? {
      CachesHoldCollect(cfg, s);
    } else if e.Prepared? && e.id in s.workers {
      CachesHoldFill(s, e.id, e.sub);
    }
  }

  /** Whatever the schedule, duplicates, retries and crashes included, collect() never returns
      "data is not prepared", and a block it takes has both its prefetched entries. */
  lemma {:induction false} AlwaysPrepared(cfg: Config, s: State, es: seq<Event>)
    requires CachesHold(s)
    ensures CachesHold(Run(cfg, s, es))
    ensures !Run(cfg, s, es).unprepared
    decreases |es|
  {
    if es != [] {
      CachesHoldStep(cfg, s, es[0]);
      AlwaysPrepared(cfg, Next(cfg, s, es[0]), es[1..]);
    }
  }

  // ---- one contiguous interval, growing at the top, each height once ------------

  ghost predicate Contiguous(t: set<nat>) {
    forall a, b, x :: a in t && b in t && a <= x <= b ==> x in t
  }

  /** The table is exactly the committed heights, and those count up by one. */
  ghost predicate InOrder(table: set<nat>, commits: seq<nat>) {
    && (forall i :: 0 <= i < |commits| ==> commits[i] == commits[0] + i)
    && (commits != [] ==> commits[0] >= 1)
    && (forall x :: x in table <==> commits != [] && commits[0] <= x < commits[0] + |commits|)
  }

  lemma InOrderNext(table: set<nat>, commits: seq<nat>)
    requires InOrder(table, commits)
    ensures DbNext(table) == if commits == [] then 1 else commits[0] + |commits|
    ensures Contiguous(table)
  {
    if commits != [] {
      assert commits[0] + |commits| - 1 in table;
      assert table != {};
    } else {
      assert table == {};
    }
  }

  /** The block being collected may only extend the table at its top. */
  ghost predicate PhaseOk(cfg: Config, s: State) {
    && (!s.phase.Idle? ==> s.up && s.phase.h == s.height)
    && (s.phase.BlockDone? || s.phase.TxDone? || s.phase.NftDone? ==>
          s.height !in s.table && PreviousRowOk(cfg, s.table, s.height))
  }

  ghost predicate HeightOk(cfg: Config, s: State) {
    s.up ==> s.height >= DbNext(s.table) && (cfg.startSet ==> cfg.startVal <= s.height + 1)
  }

  ghost predicate Ordered(cfg: Config, s: State) {
    && InOrder(s.table, s.commits)
    && (s.commits != [] && cfg.startSet ==> cfg.startVal <= DbNext(s.table))
    && HeightOk(cfg, s)
    && PhaseOk(cfg, s)
  }

  /** No start is told a chain head below low. */
  ghost predicate HeadsFrom(low: nat, es: seq<Event>) {
    forall i :: 0 <= i < |es| && es[i].Start? ==> es[i].head >= low
  }

  /** What START_HEIGHT must satisfy: unset, or at most one above low, head 0 being as good as 1. */
  predicate StartHeightFits(cfg: Config, low: nat) {
    cfg.startSet ==> cfg.startVal <= Max(low, 1) + 1
  }

  lemma CommitExtends(cfg: Config, s: State)
    requires Ordered(cfg, s) && s.phase.NftDone?
    ensures Ordered(cfg, CollectStep(cfg, s))
  {
    var s' := CollectStep(cfg, s);
    InOrderNext(s.table, s.commits);
    assert s.commits != [] ==> s.height == s.commits[0] + |s.commits|;
    assert InOrder(s'.table, s'.commits);
    InOrderNext(s'.table, s'.commits);
  }

  lemma OrderedStart(cfg: Config, low: nat, s: State, head: nat)
    requires Ordered(cfg, s) && StartHeightFits(cfg, low) && head >= low
    ensures Ordered(cfg, Next(cfg, s, Start(head)))
  {}

  lemma OrderedCollect(cfg: Config, s: State)
    requires Ordered(cfg, s)
    ensures Ordered(cfg, Next(cfg, s, Collect))
  {
    if s.up && s.phase.NftDone? { CommitExtends(cfg, s); }
  }

  lemma OrderedStep(cfg: Config, low: nat, s: State, e: Event)
    requires Ordered(cfg, s) && StartHeightFits(cfg, low)
    requires e.Start? ==> e.head >= low
    ensures Ordered(cfg, Next(cfg, s, e))
  {
    if e.Start? {
      OrderedStart(cfg, low, s, e.head);
    } else if e.Collect? {
      OrderedCollect(cfg, s);
    }
  }

  lemma {:induction false} OrderedRun(cfg: Config, low: nat, s: State, es: seq<Event>)
    requires Ordered(cfg, s) && StartHeightFits(cfg, low) && HeadsFrom(low, es)
    ensures Ordered(cfg, Run(cfg, s, es))
    decreases |es|
  {
    if es != [] {
      OrderedStep(cfg, low, s, es[0]);
      OrderedRun(cfg, low, Next(cfg, s, es[0]), es[1..]);
    }
  }

  // ---- when START_HEIGHT leaves a hole -------------------------------------------

  /** Every schedule, crashes and restarts included, in which no start is told a head below low. */
  ghost predicate AlwaysContiguous(cfg: Config, low: nat) {
    forall es :: HeadsFrom(low, es) ==> Contiguous(Run(cfg, Empty(), es).table)
  }

  lemma {:induction false} RunConcat(cfg: Config, s: State, es: seq<Event>, fs: seq<Event>)
    ensures Run(cfg, s, es + fs) == Run(cfg, Run(cfg, s, es), fs)
    decreases |es|
  {
    if es == [] {
      assert es + fs == fs;
    } else {
      assert (es + fs)[1..] == es[1..] + fs;
      RunConcat(cfg, Next(cfg, s, es[0]), es[1..], fs);
    }
  }

  /** An undisturbed pass of one block through the pipeline. */
  function Prefetch(h: nat): seq<Event> {
    [Scraped(h), Receive(h, h, 0), Prepared(0, TxSub), Prepared(0, NftSub), Finish(0)]
  }

  function CollectAll(): seq<Event> {
    [Take, Collect, Collect, Collect, Collect]
  }

  ghost predicate Quiet(s: State, h: nat) {
    s.up && s.phase.Idle? && s.height == h && s.workers == map[] && h !in s.table
  }

  lemma Two(cfg: Config, s: State, es: seq<Event>)
    requires |es| == 2
    ensures Run(cfg, s, es) == Next(cfg, Next(cfg, s, es[0]), es[1])
  {
    var s1 := Next(cfg, s, es[0]);
    assert Run(cfg, s, es) == Run(cfg, s1, es[1..]);
    assert Run(cfg, s1, es[1..]) == Run(cfg, Next(cfg, s1, es[1]), es[1..][1..]);
  }

  lemma Five(cfg: Config, s: State, es: seq<Event>)
    requires |es| == 5
    ensures Run(cfg, s, es) ==
      Next(cfg, Next(cfg, Next(cfg, Next(cfg, Next(cfg, s, es[0]), es[1]), es[2]), es[3]), es[4])
  {
    var s2 := Run(cfg, s, es[..2]);
    Two(cfg, s, es[..2]);
    Two(cfg, s2, es[2..4]);
    RunConcat(cfg, s2, es[2..4], es[4..]);
    RunConcat(cfg, s, es[..2], es[2..]);
    assert es[2..4] + es[4..] == es[2..] && es[..2] + es[2..] == es;
    var s4 := Run(cfg, s2, es[2..4]);
    assert Run(cfg, s4, es[4..]) == Run(cfg, Next(cfg, s4, es[4]), es[4..][1..]);
  }

  lemma PrefetchOne(cfg: Config, s: State, h: nat)
    requires Quiet(s, h)
    ensures var t := Run(cfg, s, Prefetch(h));
            t.up && t.phase.Idle? && t.height == h && t.table == s.table &&
            h in t.blockMap && h in t.txCache && h in t.nftCache
  {
    Five(cfg, s, Prefetch(h));
    var s2 := Next(cfg, Next(cfg, s, Scraped(h)), Receive(h, h, 0));
    assert 0 in s2.workers && s2.workers[0] == Worker(h, false, false);
  }

  lemma CollectOne(cfg: Config, t: State, h: nat)
    requires t.up && t.phase.Idle? && t.height == h && h !in t.table && PreviousRowOk(cfg, t.table, h)
    requires h in t.blockMap && h in t.txCache && h in t.nftCache
    ensures Run(cfg, t, CollectAll()).table == t.table + {h}
  {
    Five(cfg, t, CollectAll());
    var t1 := t.(blockMap := t.blockMap - {h}, phase := Taken(h));
    var t2 := t1.(phase := BlockDone(h));
    var t3 := t2.(phase := TxDone(h), txCache := t.txCache - {h});
    var t4 := t3.(phase := NftDone(h), nftCache := t.nftCache - {h});
    assert Next(cfg, t, Take) == t1;
    assert Next(cfg, t1, Collect) == t2;
    assert Next(cfg, t2, Collect) == t3;
    assert Next(cfg, t3, Collect) == t4;
  }

  lemma OneBlock(cfg: Config, s: State, h: nat) returns (es: seq<Event>)
    requires Quiet(s, h) && PreviousRowOk(cfg, s.table, h)
    ensures Run(cfg, s, es).table == s.table + {h}
    ensures forall i :: 0 <= i < |es| ==> !es[i].Start? && !es[i].Crash?
  {
    es := Prefetch(h) + CollectAll();
    RunConcat(cfg, s, Prefetch(h), CollectAll());
    PrefetchOne(cfg, s, h);
    CollectOne(cfg, Run(cfg, s, Prefetch(h)), h);
  }

  lemma HoleSchedule(cfg: Config, low: nat) returns (es: seq<Event>)
    requires !StartHeightFits(cfg, low)
    ensures HeadsFrom(low, es)
    ensures var h := Max(low, 1); Run(cfg, Empty(), es).table == {h, h + 2}
  {
    var h := Max(low, 1);
    var s0 := Next(cfg, Empty(), Start(h));
    var first := OneBlock(cfg, s0, h);
    var s1 := Run(cfg, s0, first);
    assert s1.table == {h};
    var again := [Crash, Start(h + 2)];
    var s2 := Run(cfg, s1, again);
    Two(cfg, s1, again);
    assert Highest(s1.table) == h;
    var second := OneBlock(cfg, s2, h + 2);
    var rest := first + (again + second);
    RunConcat(cfg, s1, again, second);
    RunConcat(cfg, s0, first, again + second);
    es := [Start(h)] + rest;
    assert es[1..] == rest;
  }

  /** A single indexer's block table stays one interval in every run, lagging endpoints included,
      exactly when START_HEIGHT is unset or at most one above the least head any start is told. */
  lemma ContiguousIff(cfg: Config, low: nat)
    ensures AlwaysContiguous(cfg, low) <==> StartHeightFits(cfg, low)
  {
    if StartHeightFits(cfg, low) {
      forall es | HeadsFrom(low, es) ensures Contiguous(Run(cfg, Empty(), es).table) {
        OrderedFromEmpty(cfg, low, es);
      }
    } else {
      var es := HoleSchedule(cfg, low);
      var h, t := Max(low, 1), Run(cfg, Empty(), es).table;
      assert h in t && h + 2 in t && h + 1 !in t;
    }
  }

  /** In such runs the commits count up by one from the first, so no height is committed twice
      or out of order, and they are exactly the rows of the table. */
  lemma OrderedFromEmpty(cfg: Config, low: nat, es: seq<Event>)
    requires StartHeightFits(cfg, low) && HeadsFrom(low, es)
    ensures var s := Run(cfg, Empty(), es);
            InOrder(s.table, s.commits) && Contiguous(s.table)
  {
    OrderedRun(cfg, low, Empty(), es);
    var s := Run(cfg, Empty(), es);
    InOrderNext(s.table, s.commits);
  }

  // ---- progress --------------------------------------------------------------------------

  /** h is the height after the last block of the table. */
  ghost predicate IsNext(table: set<nat>, h: nat) {
    if table == {} then h == 1 else h > 0 && IsMax(table, h - 1)
  }

  /** Where a start has to begin: at START_HEIGHT if that is above the next height, else there. */
  function FirstHeight(cfg: Config, next: nat): nat {
    if cfg.startSet && cfg.startVal > next then cfg.startVal else next
  }

  ghost predicate Settled(cfg: Config, next: nat, head: nat) {
    !cfg.startSet || cfg.startVal <= next || cfg.startVal <= head
  }

  lemma NextIsDbNext(table: set<nat>, h: nat)
    requires IsNext(table, h)
    ensures DbNext(table) == h && forall x :: x in table ==> x < h
  {}

  /** From every stopped state, unless START_HEIGHT is above both the next height and the head: some
      schedule that begins with this start, and has no other, adds exactly that height to the table. */
  lemma Progresses(cfg: Config, s: State, head: nat, next: nat) returns (es: seq<Event>)
    requires !s.up && IsNext(s.table, next) && Settled(cfg, next, head)
    ensures Run(cfg, s, [Start(head)] + es).table == s.table + {FirstHeight(cfg, next)}
    ensures forall i :: 0 <= i < |es| ==> !es[i].Start? && !es[i].Crash?
  {
    var s1 := Next(cfg, s, Start(head));
    NextIsDbNext(s.table, next);
    es := OneBlock(cfg, s1, FirstHeight(cfg, next));
    assert ([Start(head)] + es)[1..] == es;
  }

  /** What holds of a process that has committed nothing above the table yet, or first committed v. */
  ghost predicate FirstIs(cfg: Config, s0: State, s: State, v: nat) {
    if s.commits == s0.commits then
      s.table == s0.table &&
      (s.up ==> s.height >= v) && (s.up && !s.phase.Idle? ==> s.phase.h == s.height) &&
      (s.up && !s.phase.Idle? && !s.phase.Taken? ==> PreviousRowOk(cfg, s.table, s.height))
    else |s.commits| > |s0.commits| && s.commits[|s0.commits|] == v
  }

  lemma FirstIsStep(cfg: Config, s0: State, s: State, next: nat, e: Event)
    requires IsNext(s0.table, next) && FirstIs(cfg, s0, s, FirstHeight(cfg, next)) && !e.Start?
    ensures FirstIs(cfg, s0, Next(cfg, s, e), FirstHeight(cfg, next))
  {
    NextIsDbNext(s0.table, next);
  }

  lemma {:induction false} FirstIsRun(cfg: Config, s0: State, s: State, next: nat, es: seq<Event>)
    requires IsNext(s0.table, next) && FirstIs(cfg, s0, s, FirstHeight(cfg, next))
    requires forall i :: 0 <= i < |es| ==> !es[i].Start?
    ensures FirstIs(cfg, s0, Run(cfg, s, es), FirstHeight(cfg, next))
    decreases |es|
  {
    if es != [] {
      FirstIsStep(cfg, s0, s, next, es[0]);
      FirstIsRun(cfg, s0, Next(cfg, s, es[0]), next, es[1..]);
    }
  }

  /** And whatever the schedule until the next start, the first height it commits is that one. */
  lemma FirstCommit(cfg: Config, s: State, head: nat, next: nat, es: seq<Event>)
    requires !s.up && IsNext(s.table, next) && Settled(cfg, next, head)
    requires forall i :: 0 <= i < |es| ==> !es[i].Start?
    ensures var t := Run(cfg, s, [Start(head)] + es);
            t.commits == s.commits || (|t.commits| > |s.commits| && t.commits[|s.commits|] == FirstHeight(cfg, next))
  {
    NextIsDbNext(s.table, next);
    assert ([Start(head)] + es)[1..] == es;
    FirstIsRun(cfg, s, Next(cfg, s, Start(head)), next, es);
  }
}
