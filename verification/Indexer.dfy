/** The indexer object: its goroutines' critical sections as methods over mutable fields, each
    proved to be a step of the pipeline, and the pause/start signals of collect(). */
module Indexer {
  import opened Common
  import opened Pipeline

  const MAX_INFLIGHT_BLOCKS: nat := 100
  const MIN_INFLIGHT_BLOCKS: nat := 50

  /** Pause and start take turns, beginning with pause; paused says which came last. */
  ghost predicate Alternating(signals: seq<bool>, paused: bool) {
    (forall i :: 0 <= i < |signals| ==> signals[i] == (i % 2 == 0)) && (paused <==> |signals| % 2 == 1)
  }

  class Indexer {
    const cfg: Config
    var table: set<nat>               // the block table
    var running: bool
    var height: nat
    var blockChan: multiset<nat>
    var workers: map<nat, Worker>     // prepare goroutines
    var prepareCount: nat
    var blockMap: set<nat>
    var txCache: set<nat>
    var nftCache: set<nat>
    var paused: bool
    var phase: Phase
    ghost var commits: seq<nat>
    ghost var unprepared: bool
    ghost var signals: seq<bool>      // sent on controlChan; true is "pause"
    ghost var events: seq<Event>      // what has happened so far

    /** The state of the pipeline this object is in. */
    ghost function View(): State
      reads this
    {
      State(table, commits, unprepared, running, height, blockChan, workers, blockMap, txCache, nftCache, phase)
    }

    /** The object is in a reachable state of the pipeline, so all that is proved of runs holds of
        it; the count is the number of goroutines, and the signals alternate. */
    ghost predicate Valid()
      reads this
    {
      && View() == Run(cfg, Empty(), events)
      && prepareCount == |workers|
      && Alternating(signals, paused)
    }

    constructor (cfg: Config)
      ensures Valid() && this.cfg == cfg && View() == Empty() && signals == [] && events == []
    {
      this.cfg := cfg;
      table, running, height, blockChan, workers := {}, false, 0, multiset{}, map[];
      prepareCount, blockMap, txCache, nftCache, paused := 0, {}, {}, {}, false;
      phase, commits, unprepared, signals, events := Idle, [], false, [], [];
    }

    /** Run: the start height from the last stored block, the chain head and START_HEIGHT. */
    method Start(head: nat)
      requires Valid() && !running
      modifies this
      ensures Valid() && events == old(events) + [Event.Start(head)] && running && signals == []
      ensures View() == Next(cfg, old(View()), Event.Start(head))
    {
      RunExtend(cfg, events, Event.Start(head));
      ghost var before := View();
      Stop();
      StoppedByFields(before, View());
      events := events + [Event.Start(head)];
      height := ComputeStartHeight(DbNext(table), head, cfg.startSet, cfg.startVal);
      running := true;
    }

    /** The scraper pushes a block, possibly not for the first time. */
    method PushBlock(h: nat)
      requires Valid() && running
      modifies `events, `blockChan
      ensures Valid() && events == old(events) + [Scraped(h)]
      ensures View() == Next(cfg, old(View()), Scraped(h))
    {
      RunExtend(cfg, events, Scraped(h));
      events := events + [Scraped(h)];
      blockChan := blockChan + multiset{h};
    }

    /** prepare(): pop a block, drop it if below the height read, else start a goroutine. */
    method ReceiveBlock(h: nat, seen: nat, id: nat)
      requires Valid() && running && h in blockChan && id !in workers && seen <= height
      modifies `events, `blockChan, `prepareCount, `workers
      ensures Valid() && events == old(events) + [Receive(h, seen, id)]
      ensures View() == Next(cfg, old(View()), Receive(h, seen, id))
    {
      RunExtend(cfg, events, Receive(h, seen, id));
      events := events + [Receive(h, seen, id)];
      blockChan := blockChan - multiset{h};
      if h < seen { return; }
      prepareCount := prepareCount + 1;
      workers := workers[id := Worker(h, false, false)];
    }

    /** A submodule's prepare stores what it fetched. */
    method StorePrepared(id: nat, sub: Sub)
      requires Valid() && id in workers
      modifies `events, `txCache, `nftCache, `workers
      ensures Valid() && events == old(events) + [Prepared(id, sub)]
      ensures View() == Next(cfg, old(View()), Prepared(id, sub))
    {
      RunExtend(cfg, events, Prepared(id, sub));
      events := events + [Prepared(id, sub)];
      var w := workers[id];
      match sub
      case TxSub =>
        txCache := txCache + {w.h};
        workers := workers[id := w.(tx := true)];
      case NftSub =>
        nftCache := nftCache + {w.h};
        workers := workers[id := w.(nft := true)];
    }

    /** The goroutine's end: enter blockMap and leave the count. */
    method FinishPrepare(id: nat)
      requires Valid() && id in workers && workers[id].tx && workers[id].nft
      modifies `events, `blockMap, `workers, `prepareCount
      ensures Valid() && events == old(events) + [Finish(id)]
      ensures View() == Next(cfg, old(View()), Finish(id))
    {
      RunExtend(cfg, events, Finish(id));
      events := events + [Finish(id)];
      blockMap := blockMap + {workers[id].h};
      workers := workers - {id};
      assert workers.Keys == old(workers).Keys - {id};
      prepareCount := prepareCount - 1;
    }

    /** The flow control of collect(): the signals alternate, and paused follows the number of
        blocks in flight with hysteresis. */
    method ControlFlow()
      requires prepareCount == |workers| && Alternating(signals, paused)
      modifies `signals, `paused
      ensures Alternating(signals, paused)
      ensures var inflight := |blockMap| + |workers|;
              paused == if inflight > MAX_INFLIGHT_BLOCKS then true
                        else if inflight < MIN_INFLIGHT_BLOCKS then false
                        else old(paused)
      ensures signals == if paused == old(paused) then old(signals) else old(signals) + [paused]
    {
      var inflightCount := |blockMap| + prepareCount;
      if inflightCount > MAX_INFLIGHT_BLOCKS && !paused {
        signals := signals + [true];
        paused := true;
      } else if inflightCount < MIN_INFLIGHT_BLOCKS && paused {
        signals := signals + [false];
        paused := false;
      }
    }

    /** One pass of collect() up to taking a block, after the flow control: pop blockMap[height]. */
    method TakeBlock() returns (ok: bool)
      requires Valid() && running && phase == Idle
      modifies `events, `blockMap, `phase
      ensures Valid() && events == old(events) + [Take]
      ensures View() == Next(cfg, old(View()), Take)
      ensures ok <==> old(height) in old(blockMap)
      ensures ok ==> old(height) in txCache && old(height) in nftCache
    {
      RunExtend(cfg, events, Take);
      ReadyToTake(cfg, events);
      events := events + [Take];
      ok := height in blockMap;
      if ok {
        blockMap := blockMap - {height};
        phase := Taken(height);
      }
    }

    /** Collector.Collect for the block taken, undisturbed: skip it if its row exists, else run the
        block, tx and nft submodules and commit. Anything going wrong ends the process. */
    method CollectBlock()
      requires Valid() && running && phase.Taken?
      modifies this
      ensures Valid() && events == old(events) + [Collect, Collect, Collect, Collect]
      ensures View() == Run(cfg, old(View()), [Collect, Collect, Collect, Collect])
      ensures old(height) in old(table) ==> running && table == old(table) && height == old(height) + 1
      ensures old(height) !in old(table) && PreviousRowOk(cfg, old(table), old(height)) ==>
        running && table == old(table) + {old(height)} && height == old(height) + 1
      ensures old(height) !in old(table) && !PreviousRowOk(cfg, old(table), old(height)) ==>
              !running && table == old(table)
    {
      ReachableCollects(cfg, events);
      events := events + [Collect, Collect, Collect, Collect];
      var h := phase.h;
      if h in table {
        phase, height := Idle, height + 1;
      } else if PreviousRowOk(cfg, table, h) {
        CommitBlock(h);
      } else {
        ghost var before := View();
        Stop();
        StoppedByFields(before, View());
      }
    }

    /** Whatever was called in whatever order: if START_HEIGHT is unset or at most one above the least
        head any start was told, the table is one interval, committed in order. */
    lemma TableIsInterval(low: nat)
      requires Valid() && StartHeightFits(cfg, low) && HeadsFrom(low, events)
      ensures InOrder(table, commits) && Contiguous(table)
    {
      OrderedFromEmpty(cfg, low, events);
    }

    /** The submodules take their cached data and the database transaction commits. */
    method CommitBlock(h: nat)
      modifies `txCache, `nftCache, `table, `commits, `phase, `height
      ensures View() == old(View()).(txCache := old(txCache) - {h}, nftCache := old(nftCache) - {h},
        table := old(table) + {h}, commits := old(commits) + [h], phase := Idle, height := old(height) + 1)
    {
      txCache, nftCache := txCache - {h}, nftCache - {h};
      table := table + {h};
      commits := commits + [h];
      phase, height := Idle, height + 1;
    }

    /** The process ends; the database stays. */
    method Stop()
      modifies `running, `blockChan, `workers, `blockMap, `txCache, `nftCache, `phase, `prepareCount, `paused, `signals
      ensures !running && blockChan == multiset{} && workers == map[] && blockMap == {}
      ensures txCache == {} && nftCache == {} && phase == Idle
      ensures prepareCount == 0 && !paused && signals == []
    {
      running := false;
      blockChan := multiset{};
      workers := map[];
      blockMap := {};
      txCache := {};
      nftCache := {};
      phase := Idle;
      prepareCount := 0;
      paused := false;
      signals := [];
    }
  }

  lemma ReadyToTake(cfg: Config, es: seq<Event>)
    ensures var s := Run(cfg, Empty(), es);
            s.phase.Idle? && s.height in s.blockMap ==> s.height in s.txCache && s.height in s.nftCache
  {
    AlwaysPrepared(cfg, Empty(), es);
  }

  lemma RunExtend(cfg: Config, es: seq<Event>, e: Event)
    ensures Run(cfg, Empty(), es + [e]) == Next(cfg, Run(cfg, Empty(), es), e)
  {
    RunConcat(cfg, Empty(), es, [e]);
    assert [e][1..] == [];
  }

  lemma StoppedByFields(s: State, t: State)
    requires t.table == s.table && t.commits == s.commits && t.height == s.height && t.unprepared == s.unprepared
    requires !t.up && t.channel == multiset{} && t.workers == map[] && t.blockMap == {}
    requires t.txCache == {} && t.nftCache == {} && t.phase == Idle
    ensures t == Stopped(s)
  {}

  lemma FourCollects(cfg: Config, s: State)
    ensures Run(cfg, s, [Collect, Collect, Collect, Collect])
         == Next(cfg, Next(cfg, Next(cfg, Next(cfg, s, Collect), Collect), Collect), Collect)
  {
    var es := [Collect, Collect, Collect, Collect];
    Two(cfg, s, es[..2]);
    var s2 := Run(cfg, s, es[..2]);
    Two(cfg, s2, es[2..]);
    RunConcat(cfg, s, es[..2], es[2..]);
    assert es[..2] + es[2..] == es;
  }

  /** What collecting leaves, nothing having gone wrong with the prefetched data. */
  function Collected(cfg: Config, s: State, h: nat): State {
    if h in s.table then s.(phase := Idle, height := s.height + 1)
    else if PreviousRowOk(cfg, s.table, h) then
      s.(txCache := s.txCache - {h}, nftCache := s.nftCache - {h}, table := s.table + {h},
         commits := s.commits + [h], phase := Idle, height := s.height + 1)
    else Stopped(s)
  }

  /** The four statements of Collector.Collect in a row, from a state whose caches hold. */
  lemma CollectsAll(cfg: Config, s: State)
    requires CachesHold(s) && s.up && s.phase.Taken?
    ensures Run(cfg, s, [Collect, Collect, Collect, Collect]) == Collected(cfg, s, s.phase.h)
  {
    FourCollects(cfg, s);
  }

  lemma ReachableCollects(cfg: Config, es: seq<Event>)
    ensures var s, four := Run(cfg, Empty(), es), [Collect, Collect, Collect, Collect];
            Run(cfg, Empty(), es + four) == Run(cfg, s, four) &&
            (s.up && s.phase.Taken? ==> s.phase.h == s.height && Run(cfg, s, four) == Collected(cfg, s, s.height))
  {
    var s := Run(cfg, Empty(), es);
    AlwaysPrepared(cfg, Empty(), es);
    RunConcat(cfg, Empty(), es, [Collect, Collect, Collect, Collect]);
    if s.up && s.phase.Taken? { CollectsAll(cfg, s); }
  }
}
