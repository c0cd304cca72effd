/** The internal-tx extension's producer and consumer: heights with transactions are fetched in
    batches, scraped, pushed to a bounded channel, popped and saved, across crashes. */
module WorkQueue {
  import opened Common

  /** A row of the block table; hasRows says whether its traces yield any internal tx row. */
  datatype Block = Block(height: nat, txCount: nat, hasRows: bool)

  /** blocks, saved and failed survive the process; start and taken are its history. */
  datatype State = State(
    blocks: seq<Block>,
    saved: seq<nat>,        // heights whose rows were committed, in order
    failed: set<nat>,       // history: items whose consumption returned an error
    up: bool,
    start: nat,             // lastProducedHeight set by Initialize
    lastProduced: nat,
    batch: seq<nat>,        // scraped, not yet pushed
    queue: seq<nat>,
    taken: seq<nat>,        // popped by this process, in order
    held: Option<nat>)      // the item being consumed

  datatype Event =
    | Append(b: Block)      // the indexer commits a block on top
    | Boot
    | Produce(ok: bool)     // getBatchHeights and scrapeBatch; one scrape failing drops the batch
    | Push
    | Pop
    | Consume(ok: bool)
    | Crash

  // ---- the query behind getBatchHeights -------------------------------------------------

  ghost predicate Ascending(bs: seq<Block>) {
    forall i, j :: 0 <= i < j < |bs| ==> bs[i].height < bs[j].height
  }

  function TxAbove(bs: seq<Block>, from: nat): seq<nat> {
    if bs == [] then []
    else
      var b := bs[|bs| - 1];
      TxAbove(bs[..|bs| - 1], from) + (if b.height > from && b.txCount > 0 then [b.height] else [])
  }

  function MaxSaved(saved: seq<nat>): nat {
    if saved == [] then 0 else saved[|saved| - 1]
  }

  predicate HasRows(bs: seq<Block>, h: nat) {
    exists i :: 0 <= i < |bs| && bs[i].height == h && bs[i].txCount > 0 && bs[i].hasRows
  }

  function Next(maxSize: nat, batchSize: nat, s: State, e: Event): State {
    match e
    case Append(b) =>
      if b.height > 0 && (forall i :: 0 <= i < |s.blocks| ==> s.blocks[i].height < b.height)
      then s.(blocks := s.blocks + [b]) else s
    case Boot =>
      if s.up then s
      else s.(up := true, start := MaxSaved(s.saved), lastProduced := MaxSaved(s.saved))
    case Produce(ok) =>
      var space := maxSize - |s.queue|;
      if s.up && s.batch == [] && space > 0 && ok then
        var heights := TxAbove(s.blocks, s.lastProduced);
        s.(batch := heights[..Min(|heights|, Min(batchSize, space))])
      else s
    case Push =>
      if s.up && s.batch != [] && |s.queue| < maxSize then
        s.(queue := s.queue + [s.batch[0]], batch := s.batch[1..],
           lastProduced := if |s.batch| == 1 then s.batch[0] else s.lastProduced)
      else s
    case Pop =>
      if s.up && s.held.None? && s.queue != [] then
        s.(held := Some(s.queue[0]), taken := s.taken + [s.queue[0]], queue := s.queue[1..])
      else s
    case Consume(ok) =>
      if s.up && s.held.Some? then
        var h := s.held.value;
        if !ok then s.(held := None, failed := s.failed + {h})
        else s.(held := None, saved := if HasRows(s.blocks, h) then s.saved + [h] else s.saved)
      else s
    case Crash =>
      s.(up := false, start := 0, lastProduced := 0, batch := [], queue := [], taken := [], held := None)
  }

  function Run(maxSize: nat, batchSize: nat, s: State, es: seq<Event>): State
    decreases |es|
  {
    if es == [] then s else Run(maxSize, batchSize, Next(maxSize, batchSize, s, es[0]), es[1..])
  }

  function Init(): State {
    State([], [], {}, false, 0, 0, [], [], [], None)
  }

  // ---- facts about the query ---------------------------------------------------------------

  lemma {:induction false} TxAboveMembers(bs: seq<Block>, from: nat, h: nat)
    ensures h in TxAbove(bs, from) <==>
            exists i :: 0 <= i < |bs| && bs[i].height == h && h > from && bs[i].txCount > 0
    decreases |bs|
  {
    if bs != [] {
      var rest, b := bs[..|bs| - 1], bs[|bs| - 1];
      TxAboveMembers(rest, from, h);
      assert forall i :: 0 <= i < |rest| ==> bs[i] == rest[i];
      if exists i :: 0 <= i < |rest| && rest[i].height == h && h > from && rest[i].txCount > 0 {
        var i :| 0 <= i < |rest| && rest[i].height == h && h > from && rest[i].txCount > 0;
        assert bs[i].height == h;
      }
    }
  }

  lemma {:induction false} TxAboveAscends(bs: seq<Block>, from: nat)
    requires Ascending(bs)
    ensures StrictlyAscending(TxAbove(bs, from))
    ensures forall i :: 0 <= i < |TxAbove(bs, from)| ==> TxAbove(bs, from)[i] > from
    ensures bs != [] ==> forall i :: 0 <= i < |TxAbove(bs, from)| ==> TxAbove(bs, from)[i] <= bs[|bs| - 1].height
    decreases |bs|
  {
    if bs != [] {
      TxAboveAscends(bs[..|bs| - 1], from);
    }
  }

  /** Continuing after the k-th height yields the heights after it. */
  lemma {:induction false} ResumeAfter(bs: seq<Block>, from: nat, k: nat)
    requires Ascending(bs) && 1 <= k <= |TxAbove(bs, from)|
    ensures TxAbove(bs, TxAbove(bs, from)[k - 1]) == TxAbove(bs, from)[k..]
    decreases |bs|
  {
    var rest, b := bs[..|bs| - 1], bs[|bs| - 1];
    var t, t' := TxAbove(bs, from), TxAbove(rest, from);
    TxAboveAscends(bs, from);
    TxAboveAscends(rest, from);
    if k <= |t'| {
      assert t[k - 1] == t'[k - 1];
      ResumeAfter(rest, from, k);
      assert rest != [];
      assert t'[k - 1] < b.height;
    } else {
      assert t[k - 1] == b.height;
      NothingAbove(rest, b.height);
    }
  }

  lemma {:induction false} NothingAbove(bs: seq<Block>, top: nat)
    requires forall i :: 0 <= i < |bs| ==> bs[i].height <= top
    ensures TxAbove(bs, top) == []
    decreases |bs|
  {
    if bs != [] { NothingAbove(bs[..|bs| - 1], top); }
  }

  // ---- the queue: nothing missing, repeated or out of order; pushes never block --------------

  ghost predicate Known(bs: seq<Block>, h: nat) {
    h == 0 || exists i :: 0 <= i < |bs| && bs[i].height == h
  }

  ghost predicate QueueInv(maxSize: nat, s: State) {
    && Ascending(s.blocks)
    && (s.up ==> Known(s.blocks, s.start) && Known(s.blocks, s.lastProduced))
    && (forall i :: 0 <= i < |s.saved| ==> Known(s.blocks, s.saved[i]))
    && (!s.up ==> s.batch == [] && s.queue == [] && s.taken == [] && s.held == None)
    && |s.queue| + |s.batch| <= maxSize
    && (s.up ==>
          var t, n := TxAbove(s.blocks, s.start), |s.taken| + |s.queue| + |s.batch|;
          n <= |t| && s.taken + s.queue + s.batch == t[..n] &&
          (s.batch == [] ==> TxAbove(s.blocks, s.lastProduced) == t[n..]))
    && (s.held.Some? ==> s.taken != [] && s.held.value == s.taken[|s.taken| - 1])
  }

  lemma KnownAppend(bs: seq<Block>, b: Block, h: nat)
    requires Known(bs, h)
    ensures Known(bs + [b], h)
  {
    if h != 0 {
      var i :| 0 <= i < |bs| && bs[i].height == h;
      assert (bs + [b])[i].height == h;
    }
  }

  lemma TxAboveAppend(bs: seq<Block>, b: Block, from: nat)
    ensures TxAbove(bs + [b], from) == TxAbove(bs, from) + (if b.height > from && b.txCount > 0 then [b.height] else [])
  {
    assert (bs + [b])[..|bs|] == bs && (bs + [b])[|bs|] == b;
  }

  lemma KnownBelow(bs: seq<Block>, h: nat, top: nat)
    requires Known(bs, h) && top > 0 && forall i :: 0 <= i < |bs| ==> bs[i].height < top
    ensures h < top
  {}

  /** What the process worked through is a beginning of a list; a longer list changes nothing. */
  lemma LongerList(done: seq<nat>, t: seq<nat>, more: seq<nat>)
    requires |done| <= |t| && done == t[..|done|]
    ensures done == (t + more)[..|done|] && (t + more)[|done|..] == t[|done|..] + more
  {}

  lemma AppendTracks(s: State, b: Block, n: nat)
    requires s.start < b.height && s.lastProduced < b.height
    requires n == |s.taken| + |s.queue| + |s.batch| && n <= |TxAbove(s.blocks, s.start)|
    requires s.taken + s.queue + s.batch == TxAbove(s.blocks, s.start)[..n]
    requires s.batch == [] ==> TxAbove(s.blocks, s.lastProduced) == TxAbove(s.blocks, s.start)[n..]
    ensures n <= |TxAbove(s.blocks + [b], s.start)|
    ensures s.taken + s.queue + s.batch == TxAbove(s.blocks + [b], s.start)[..n]
    ensures s.batch == [] ==> TxAbove(s.blocks + [b], s.lastProduced) == TxAbove(s.blocks + [b], s.start)[n..]
  {
    TxAboveAppend(s.blocks, b, s.start);
    TxAboveAppend(s.blocks, b, s.lastProduced);
    LongerList(s.taken + s.queue + s.batch, TxAbove(s.blocks, s.start), if b.txCount > 0 then [b.height] else []);
  }

  lemma AppendStep(maxSize: nat, batchSize: nat, s: State, b: Block)
    requires QueueInv(maxSize, s)
    ensures QueueInv(maxSize, Next(maxSize, batchSize, s, Append(b)))
  {
    var s' := Next(maxSize, batchSize, s, Append(b));
    if s'.blocks != s.blocks {
      forall h | Known(s.blocks, h) ensures Known(s'.blocks, h) { KnownAppend(s.blocks, b, h); }
      if s.up {
        KnownBelow(s.blocks, s.start, b.height);
        KnownBelow(s.blocks, s.lastProduced, b.height);
        AppendTracks(s, b, |s.taken| + |s.queue| + |s.batch|);
      }
    }
  }

  lemma ProduceStep(maxSize: nat, batchSize: nat, s: State)
    requires QueueInv(maxSize, s)
    ensures QueueInv(maxSize, Next(maxSize, batchSize, s, Produce(true)))
  {
    var s' := Next(maxSize, batchSize, s, Produce(true));
    if s'.batch != s.batch {
      var t, n := TxAbove(s.blocks, s.start), |s.taken| + |s.queue|;
      assert s'.batch == t[n..][..|s'.batch|];
      assert t[..n] + t[n..][..|s'.batch|] == t[..n + |s'.batch|];
      assert s.taken + s.queue + s.batch == s.taken + s.queue;
    }
  }

  lemma PushStep(maxSize: nat, batchSize: nat, s: State)
    requires QueueInv(maxSize, s)
    ensures QueueInv(maxSize, Next(maxSize, batchSize, s, Push))
  {
    var s' := Next(maxSize, batchSize, s, Push);
    if s.up && s.batch != [] {
      var t, n := TxAbove(s.blocks, s.start), |s.taken| + |s.queue| + |s.batch|;
      assert s'.taken + s'.queue + s'.batch == s.taken + s.queue + s.batch;
      if |s.batch| == 1 {
        assert s.batch[0] == (s.taken + s.queue + s.batch)[n - 1] == t[n - 1];
        ResumeAfter(s.blocks, s.start, n);
        TxAboveMembers(s.blocks, s.start, s.batch[0]);
        assert s.batch[0] in t;
      }
    }
  }

  lemma QueueStep(maxSize: nat, batchSize: nat, s: State, e: Event)
    requires QueueInv(maxSize, s)
    ensures QueueInv(maxSize, Next(maxSize, batchSize, s, e))
  {
    match e
    case Append(b) => AppendStep(maxSize, batchSize, s, b);
    case Produce(ok) => if ok { ProduceStep(maxSize, batchSize, s); }
    case Push => PushStep(maxSize, batchSize, s);
    case Pop =>
      var s' := Next(maxSize, batchSize, s, Pop);
      assert s'.taken + s'.queue == s.taken + s.queue;
    case Boot => BootStep(maxSize, batchSize, s);
    case Consume(ok) => ConsumeStep(maxSize, batchSize, s, ok);
    case Crash =>
  }

  lemma BootStep(maxSize: nat, batchSize: nat, s: State)
    requires QueueInv(maxSize, s)
    ensures QueueInv(maxSize, Next(maxSize, batchSize, s, Boot))
  {}

  lemma ConsumeStep(maxSize: nat, batchSize: nat, s: State, ok: bool)
    requires QueueInv(maxSize, s)
    ensures QueueInv(maxSize, Next(maxSize, batchSize, s, Consume(ok)))
  {}

  lemma {:induction false} QueueRun(maxSize: nat, batchSize: nat, s: State, es: seq<Event>)
    requires QueueInv(maxSize, s)
    ensures QueueInv(maxSize, Run(maxSize, batchSize, s, es))
    decreases |es|
  {
    if es != [] {
      QueueStep(maxSize, batchSize, s, es[0]);
      QueueRun(maxSize, batchSize, Next(maxSize, batchSize, s, es[0]), es[1..]);
    }
  }

  /** In every reachable state a scraped item finds room, and the items popped by the process,
      then those queued, then those waiting to be pushed are exactly the first tx-bearing
      heights above the process's start point, in ascending order. */
  lemma QueueInOrder(maxSize: nat, batchSize: nat, es: seq<Event>)
    ensures var s := Run(maxSize, batchSize, Init(), es);
            (s.batch != [] ==> |s.queue| < maxSize) &&
            (s.up ==> s.taken + s.queue + s.batch <= TxAbove(s.blocks, s.start)) &&
            StrictlyAscending(s.taken + s.queue + s.batch)
  {
    QueueRun(maxSize, batchSize, Init(), es);
    var s := Run(maxSize, batchSize, Init(), es);
    TxAboveAscends(s.blocks, s.start);
    if s.up {
      var t, n := TxAbove(s.blocks, s.start), |s.taken| + |s.queue| + |s.batch|;
      assert s.taken + s.queue + s.batch == t[..n];
    }
  }

  // ---- what is saved over crashes and restarts ---------------------------------------------

  /** How many popped items are no longer in the consumer's hands. */
  function Done(s: State): nat {
    if s.held.Some? && s.taken != [] then |s.taken| - 1 else |s.taken|
  }

  ghost predicate Handled(s: State, h: nat) {
    h in s.saved || h in s.failed
  }

  ghost predicate SavedInv(s: State) {
    && StrictlyAscending(s.saved)
    && (forall h :: h in s.saved ==> HasRows(s.blocks, h))
    && (forall h: nat :: h <= MaxSaved(s.saved) && HasRows(s.blocks, h) ==> Handled(s, h))
    && (s.up ==> s.start <= MaxSaved(s.saved))
    && (s.up ==> MaxSaved(s.saved) == s.start || exists i :: 0 <= i < Done(s) && s.taken[i] == MaxSaved(s.saved))
    && (s.up ==> forall i :: 0 <= i < Done(s) && HasRows(s.blocks, s.taken[i]) ==> Handled(s, s.taken[i]))
  }

  lemma HasRowsAppend(bs: seq<Block>, b: Block, h: nat)
    requires forall i :: 0 <= i < |bs| ==> bs[i].height < b.height
    ensures h != b.height ==> (HasRows(bs + [b], h) <==> HasRows(bs, h))
    ensures HasRows(bs, h) ==> h < b.height && HasRows(bs + [b], h)
  {
    var bs' := bs + [b];
    if HasRows(bs, h) {
      var i :| 0 <= i < |bs| && bs[i].height == h && bs[i].txCount > 0 && bs[i].hasRows;
      assert bs'[i] == bs[i];
    }
    if h != b.height && HasRows(bs', h) {
      var i :| 0 <= i < |bs'| && bs'[i].height == h && bs'[i].txCount > 0 && bs'[i].hasRows;
      assert bs[i] == bs'[i];
    }
  }

  lemma SavedAppend(maxSize: nat, batchSize: nat, s: State, b: Block)
    requires QueueInv(maxSize, s) && SavedInv(s)
    ensures SavedInv(Next(maxSize, batchSize, s, Append(b)))
  {
    var s' := Next(maxSize, batchSize, s, Append(b));
    if s'.blocks != s.blocks {
      forall h: nat ensures h != b.height ==> (HasRows(s'.blocks, h) <==> HasRows(s.blocks, h))
               ensures HasRows(s.blocks, h) ==> h < b.height && HasRows(s'.blocks, h)
      {
        HasRowsAppend(s.blocks, b, h);
      }
      if s.saved != [] { assert MaxSaved(s.saved) in s.saved; }
      if s.up {
        var t, n := TxAbove(s.blocks, s.start), |s.taken| + |s.queue| + |s.batch|;
        TxAboveAscends(s.blocks, s.start);
        forall i | 0 <= i < |s.taken| ensures s.taken[i] < b.height {
          assert s.taken[i] == (s.taken + s.queue + s.batch)[i] == t[i];
        }
      }
    }
  }

  lemma TakenIsPrefix(maxSize: nat, s: State)
    requires QueueInv(maxSize, s) && s.up
    ensures var t := TxAbove(s.blocks, s.start);
            |s.taken| <= |t| && s.taken == t[..|s.taken|] && StrictlyAscending(s.taken) &&
            forall i :: 0 <= i < |s.taken| ==> s.taken[i] > s.start
  {
    TxAboveAscends(s.blocks, s.start);
    forall i | 0 <= i < |s.taken| ensures s.taken[i] == TxAbove(s.blocks, s.start)[i] {
      assert s.taken[i] == (s.taken + s.queue + s.batch)[i];
    }
  }

  /** A height that is saved is above everything saved before, and everything between was handled. */
  lemma SaveHeld(maxSize: nat, batchSize: nat, s: State)
    requires QueueInv(maxSize, s) && SavedInv(s) && s.up && s.held.Some? && HasRows(s.blocks, s.held.value)
    ensures var s' := Next(maxSize, batchSize, s, Consume(true));
            StrictlyAscending(s'.saved) && MaxSaved(s.saved) < s.held.value &&
            forall x: nat :: x <= s.held.value && HasRows(s.blocks, x) ==> Handled(s', x)
  {
    var s', h := Next(maxSize, batchSize, s, Consume(true)), s.held.value;
    TakenIsPrefix(maxSize, s);
    assert MaxSaved(s.saved) < h;
    forall i | 0 <= i < |s.saved| ensures s.saved[i] <= MaxSaved(s.saved) {}
    assert s'.saved == s.saved + [h] && h in s'.saved;
    forall x: nat | x <= h && HasRows(s.blocks, x) ensures Handled(s', x) {
      assert x < h ==> Handled(s, x) by { if MaxSaved(s.saved) < x < h { BetweenHandled(s, x); } }
    }
  }

  lemma SavedConsume(maxSize: nat, batchSize: nat, s: State, ok: bool)
    requires QueueInv(maxSize, s) && SavedInv(s) && s.up && s.held.Some?
    ensures SavedInv(Next(maxSize, batchSize, s, Consume(ok)))
  {
    var s', h := Next(maxSize, batchSize, s, Consume(ok)), s.held.value;
    TakenIsPrefix(maxSize, s);
    assert Done(s') == |s.taken| && s.taken[|s.taken| - 1] == h;
    assert forall x :: Handled(s, x) ==> Handled(s', x);
    if ok && HasRows(s.blocks, h) {
      SaveHeld(maxSize, batchSize, s);
    } else if !ok {
      assert h in s'.failed;
    }
  }

  /** A row-bearing height between the start point and the item in hand was popped before it. */
  lemma BetweenHandled(s: State, x: nat)
    requires Ascending(s.blocks) && s.up && s.held.Some? && s.taken != []
    requires |s.taken| <= |TxAbove(s.blocks, s.start)| && s.taken == TxAbove(s.blocks, s.start)[..|s.taken|]
    requires s.held.value == s.taken[|s.taken| - 1] && s.start < x < s.held.value && HasRows(s.blocks, x)
    requires forall i :: 0 <= i < Done(s) && HasRows(s.blocks, s.taken[i]) ==> Handled(s, s.taken[i])
    ensures Handled(s, x)
  {
    var t := TxAbove(s.blocks, s.start);
    TxAboveMembers(s.blocks, s.start, x);
    TxAboveAscends(s.blocks, s.start);
    var i :| 0 <= i < |t| && t[i] == x;
    assert i < |s.taken| - 1;
    assert s.taken[i] == x;
  }

  lemma SavedPop(maxSize: nat, batchSize: nat, s: State)
    requires SavedInv(s)
    ensures SavedInv(Next(maxSize, batchSize, s, Pop))
  {
    var s' := Next(maxSize, batchSize, s, Pop);
    if s'.taken != s.taken {
      assert Done(s') == Done(s) == |s.taken|;
      assert forall i :: 0 <= i < |s.taken| ==> s'.taken[i] == s.taken[i];
    }
  }

  lemma SavedBoot(maxSize: nat, batchSize: nat, s: State)
    requires QueueInv(maxSize, s) && SavedInv(s)
    ensures SavedInv(Next(maxSize, batchSize, s, Boot))
  {}

  lemma SavedStep(maxSize: nat, batchSize: nat, s: State, e: Event)
    requires QueueInv(maxSize, s) && SavedInv(s)
    ensures SavedInv(Next(maxSize, batchSize, s, e))
  {
    match e
    case Append(b) => SavedAppend(maxSize, batchSize, s, b);
    case Consume(ok) => if s.up && s.held.Some? { SavedConsume(maxSize, batchSize, s, ok); }
    case Pop => SavedPop(maxSize, batchSize, s);
    case Boot => SavedBoot(maxSize, batchSize, s);
    case Produce(_) =>
    case Push =>
    case Crash =>
  }

  lemma {:induction false} SavedRun(maxSize: nat, batchSize: nat, s: State, es: seq<Event>)
    requires QueueInv(maxSize, s) && SavedInv(s)
    ensures SavedInv(Run(maxSize, batchSize, s, es))
    decreases |es|
  {
    if es != [] {
      QueueStep(maxSize, batchSize, s, es[0]);
      SavedStep(maxSize, batchSize, s, es[0]);
      SavedRun(maxSize, batchSize, Next(maxSize, batchSize, s, es[0]), es[1..]);
    }
  }

  lemma {:induction false} OnlyGrows(maxSize: nat, batchSize: nat, s: State, es: seq<Event>)
    ensures s.saved <= Run(maxSize, batchSize, s, es).saved
    ensures s.blocks <= Run(maxSize, batchSize, s, es).blocks
    decreases |es|
  {
    if es != [] {
      var s' := Next(maxSize, batchSize, s, es[0]);
      assert s.saved <= s'.saved && s.blocks <= s'.blocks;
      OnlyGrows(maxSize, batchSize, s', es[1..]);
    }
  }

  lemma {:induction false} NothingFails(maxSize: nat, batchSize: nat, s: State, es: seq<Event>)
    requires forall i :: 0 <= i < |es| ==> es[i] != Consume(false)
    ensures Run(maxSize, batchSize, s, es).failed == s.failed
    decreases |es|
  {
    if es != [] { NothingFails(maxSize, batchSize, Next(maxSize, batchSize, s, es[0]), es[1..]); }
  }

  /** If consumption never fails except by a crash, then at every moment, over any number of
      restarts, the saved heights are exactly the row-bearing heights up to the last saved one,
      ascending, hence each saved once. */
  lemma SavedExactlyOnce(maxSize: nat, batchSize: nat, es: seq<Event>)
    requires forall i :: 0 <= i < |es| ==> es[i] != Consume(false)
    ensures var s := Run(maxSize, batchSize, Init(), es);
            StrictlyAscending(s.saved) &&
            forall h: nat :: h in s.saved <==> h <= MaxSaved(s.saved) && HasRows(s.blocks, h)
  {
    SavedRun(maxSize, batchSize, Init(), es);
    NothingFails(maxSize, batchSize, Init(), es);
    var s := Run(maxSize, batchSize, Init(), es);
    forall h | h in s.saved ensures h <= MaxSaved(s.saved) {
      var i :| 0 <= i < |s.saved| && s.saved[i] == h;
    }
  }

  ghost predicate PassedOver(s: State, h: nat) {
    HasRows(s.blocks, h) && h < MaxSaved(s.saved) && h !in s.saved
  }

  /** The failed items that matter: a row-bearing height is missing below the last saved one only
      if its consumption failed, and such a height stays missing in every continuation. */
  lemma FailedItemIsLost(maxSize: nat, batchSize: nat, es: seq<Event>, fs: seq<Event>, h: nat)
    requires PassedOver(Run(maxSize, batchSize, Init(), es), h)
    ensures var s := Run(maxSize, batchSize, Init(), es);
            h in s.failed && PassedOver(Run(maxSize, batchSize, s, fs), h)
  {
    QueueRun(maxSize, batchSize, Init(), es);
    SavedRun(maxSize, batchSize, Init(), es);
    var s := Run(maxSize, batchSize, Init(), es);
    SavedRun(maxSize, batchSize, s, fs);
    OnlyGrows(maxSize, batchSize, s, fs);
    var s' := Run(maxSize, batchSize, s, fs);
    var i :| 0 <= i < |s.blocks| && s.blocks[i].height == h && s.blocks[i].txCount > 0 && s.blocks[i].hasRows;
    assert s'.blocks[i] == s.blocks[i];
    assert s'.saved[|s.saved| - 1] == MaxSaved(s.saved);
    forall j | 0 <= j < |s'.saved| ensures s'.saved[j] != h {
      if j < |s.saved| {
        assert s'.saved[j] == s.saved[j];
      } else {
        assert s'.saved[j] > s'.saved[|s.saved| - 1];
      }
    }
  }

  // ---- exactly when something is lost -----------------------------------------------------------

  /** A consumption of a row-bearing item that ends in success or in failure. */
  predicate RowConsumed(s: State, e: Event, ok: bool) {
    e == Consume(ok) && s.up && s.held.Some? && HasRows(s.blocks, s.held.value)
  }

  ghost predicate FailedOn(s: State, e: Event, h: nat) {
    RowConsumed(s, e, false) && s.held.value == h
  }

  /** This process popped the row-bearing height h, is done with it, and has not saved it. */
  ghost predicate Pending(s: State, h: nat) {
    HasRows(s.blocks, h) && h !in s.saved && exists i :: 0 <= i < Done(s) && s.taken[i] == h
  }

  ghost predicate Positive(bs: seq<Block>) {
    forall i :: 0 <= i < |bs| ==> bs[i].height > 0
  }

  lemma {:induction false} HeightsPositive(maxSize: nat, batchSize: nat, s: State, es: seq<Event>)
    requires Positive(s.blocks)
    ensures Positive(Run(maxSize, batchSize, s, es).blocks)
    decreases |es|
  {
    if es != [] { HeightsPositive(maxSize, batchSize, Next(maxSize, batchSize, s, es[0]), es[1..]); }
  }

  lemma SavedBound(s: State, h: nat)
    requires StrictlyAscending(s.saved) && h in s.saved
    ensures h <= MaxSaved(s.saved)
  {
    var i :| 0 <= i < |s.saved| && s.saved[i] == h;
  }

  /** What this process popped before is below the item in hand and above its start. */
  lemma HeldIsNew(maxSize: nat, s: State)
    requires QueueInv(maxSize, s) && SavedInv(s) && s.up && s.held.Some?
    ensures MaxSaved(s.saved) < s.held.value && s.held.value !in s.saved
    ensures Done(s) == |s.taken| - 1 && s.taken[Done(s)] == s.held.value
    ensures forall i :: 0 <= i < Done(s) ==> s.taken[i] < s.held.value
  {
    TakenIsPrefix(maxSize, s);
    if s.held.value in s.saved { SavedBound(s, s.held.value); }
  }

  lemma PendingConsume(maxSize: nat, batchSize: nat, s: State, ok: bool, h: nat)
    requires QueueInv(maxSize, s) && SavedInv(s) && s.up && s.held.Some?
    ensures Pending(Next(maxSize, batchSize, s, Consume(ok)), h) <==> Pending(s, h) || FailedOn(s, Consume(ok), h)
  {
    var s', d := Next(maxSize, batchSize, s, Consume(ok)), Done(s);
    HeldIsNew(maxSize, s);
    assert s'.taken == s.taken && s'.blocks == s.blocks && Done(s') == d + 1;
    assert h in s'.saved <==> h in s.saved || (h == s.held.value && ok && HasRows(s.blocks, h));
    if h == s.held.value { assert s'.taken[d] == h; }
    if Pending(s, h) {
      var i :| 0 <= i < d && s.taken[i] == h;
      assert s'.taken[i] == h;
    }
  }

  lemma AppendKeeps(maxSize: nat, batchSize: nat, s: State, b: Block, h: nat)
    requires QueueInv(maxSize, s) && SavedInv(s)
    ensures Pending(Next(maxSize, batchSize, s, Append(b)), h) <==> Pending(s, h)
    ensures PassedOver(Next(maxSize, batchSize, s, Append(b)), h) <==> PassedOver(s, h)
  {
    var s' := Next(maxSize, batchSize, s, Append(b));
    if s'.blocks != s.blocks {
      assert s'.blocks == s.blocks + [b];
      HasRowsAppend(s.blocks, b, h);
      if s.saved != [] { assert MaxSaved(s.saved) in s.saved; HasRowsAppend(s.blocks, b, MaxSaved(s.saved)); }
      if s.up { TakenKnown(maxSize, s, b.height); }
    }
  }

  lemma TakenKnown(maxSize: nat, s: State, top: nat)
    requires QueueInv(maxSize, s) && s.up && forall i :: 0 <= i < |s.blocks| ==> s.blocks[i].height < top
    ensures forall i :: 0 <= i < |s.taken| ==> s.taken[i] < top
  {
    TakenIsPrefix(maxSize, s);
    TxAboveAscends(s.blocks, s.start);
  }

  lemma PendingStep(maxSize: nat, batchSize: nat, s: State, e: Event, h: nat)
    requires QueueInv(maxSize, s) && SavedInv(s)
    ensures Pending(Next(maxSize, batchSize, s, e), h) <==> e != Crash && (Pending(s, h) || FailedOn(s, e, h))
  {
    match e
    case Append(b) => AppendKeeps(maxSize, batchSize, s, b, h);
    case Consume(ok) => if s.up && s.held.Some? { PendingConsume(maxSize, batchSize, s, ok, h); }
    case Pop =>
      var s' := Next(maxSize, batchSize, s, Pop);
      assert Done(s') == Done(s) && forall i :: 0 <= i < Done(s) ==> s'.taken[i] == s.taken[i];
    case Boot =>
    case Produce(_) =>
    case Push =>
    case Crash =>
  }

  /** Saving an item passes over exactly the items this process failed on. */
  lemma PassedOverConsume(maxSize: nat, batchSize: nat, s: State, h: nat)
    requires QueueInv(maxSize, s) && SavedInv(s) && Positive(s.blocks) && RowConsumed(s, Consume(true), true)
    ensures PassedOver(Next(maxSize, batchSize, s, Consume(true)), h) <==> PassedOver(s, h) || Pending(s, h)
  {
    var s', top := Next(maxSize, batchSize, s, Consume(true)), s.held.value;
    HeldIsNew(maxSize, s);
    assert s'.saved == s.saved + [top] && MaxSaved(s'.saved) == top && s'.blocks == s.blocks;
    if PassedOver(s', h) { PassedOverWhy(maxSize, s, h); }
  }

  lemma PassedOverWhy(maxSize: nat, s: State, h: nat)
    requires QueueInv(maxSize, s) && SavedInv(s) && Positive(s.blocks) && s.up && s.held.Some?
    requires HasRows(s.blocks, h) && h < s.held.value && h !in s.saved
    ensures PassedOver(s, h) || Pending(s, h)
  {
    if h >= MaxSaved(s.saved) {
      TakenIsPrefix(maxSize, s);
      var t := TxAbove(s.blocks, s.start);
      assert s.saved != [] ==> MaxSaved(s.saved) in s.saved;
      assert h > s.start;
      TxAboveMembers(s.blocks, s.start, h);
      TxAboveAscends(s.blocks, s.start);
      var i :| 0 <= i < |t| && t[i] == h;
      assert i < |s.taken| - 1 && s.taken[i] == h;
    }
  }

  lemma PassedOverStep(maxSize: nat, batchSize: nat, s: State, e: Event, h: nat)
    requires QueueInv(maxSize, s) && SavedInv(s) && Positive(s.blocks)
    ensures PassedOver(Next(maxSize, batchSize, s, e), h) <==>
            PassedOver(s, h) || (Pending(s, h) && RowConsumed(s, e, true))
  {
    var s' := Next(maxSize, batchSize, s, e);
    if RowConsumed(s, e, true) {
      PassedOverConsume(maxSize, batchSize, s, h);
    } else if e.Append? {
      AppendKeeps(maxSize, batchSize, s, e.b, h);
    } else {
      assert s'.saved == s.saved && s'.blocks == s.blocks;
    }
  }

  ghost predicate NoCrash(es: seq<Event>, i: nat, j: nat) {
    forall k :: i < k < j && k < |es| ==> es[k] != Crash
  }

  /** Event i fails on height h, and the process lives on to the end of the list. */
  ghost predicate FailedAt(maxSize: nat, batchSize: nat, es: seq<Event>, i: nat, h: nat) {
    i < |es| && FailedOn(Run(maxSize, batchSize, Init(), es[..i]), es[i], h) && NoCrash(es, i, |es|)
  }

  /** Event i fails on the row-bearing height h and event j of the same process saves another. */
  ghost predicate LossAt(maxSize: nat, batchSize: nat, es: seq<Event>, i: nat, j: nat, h: nat) {
    i < j < |es| && NoCrash(es, i, j) &&
    FailedOn(Run(maxSize, batchSize, Init(), es[..i]), es[i], h) &&
    RowConsumed(Run(maxSize, batchSize, Init(), es[..j]), es[j], true)
  }

  lemma RunSnoc(maxSize: nat, batchSize: nat, es: seq<Event>)
    requires es != []
    ensures var rest := es[..|es| - 1];
            Run(maxSize, batchSize, Init(), es) ==
              Next(maxSize, batchSize, Run(maxSize, batchSize, Init(), rest), es[|es| - 1])
  {
    RunExtend(maxSize, batchSize, es[..|es| - 1], es[|es| - 1]);
    assert es[..|es| - 1] + [es[|es| - 1]] == es;
  }

  lemma FailedAtSnoc(maxSize: nat, batchSize: nat, es: seq<Event>, i: nat, h: nat)
    requires es != []
    ensures var n := |es| - 1;
            FailedAt(maxSize, batchSize, es, i, h) <==>
              if i == n then FailedOn(Run(maxSize, batchSize, Init(), es[..n]), es[n], h)
              else es[n] != Crash && FailedAt(maxSize, batchSize, es[..n], i, h)
  {
    var n := |es| - 1;
    if i < n {
      assert es[..n][..i] == es[..i];
      assert NoCrash(es, i, |es|) <==> NoCrash(es[..n], i, n) && es[n] != Crash;
    }
  }

  lemma LossAtSnoc(maxSize: nat, batchSize: nat, es: seq<Event>, i: nat, j: nat, h: nat)
    requires es != []
    ensures var n := |es| - 1;
            LossAt(maxSize, batchSize, es, i, j, h) <==>
              if j == n then FailedAt(maxSize, batchSize, es[..n], i, h) &&
                             RowConsumed(Run(maxSize, batchSize, Init(), es[..n]), es[n], true)
              else LossAt(maxSize, batchSize, es[..n], i, j, h)
  {
    var n := |es| - 1;
    if i < j <= n {
      assert es[..n][..i] == es[..i];
      assert NoCrash(es, i, j) <==> NoCrash(es[..n], i, j);
      if j < n { assert es[..n][..j] == es[..j]; }
    }
  }

  lemma {:induction false} PendingIff(maxSize: nat, batchSize: nat, es: seq<Event>, h: nat)
    ensures Pending(Run(maxSize, batchSize, Init(), es), h) <==> exists i :: FailedAt(maxSize, batchSize, es, i, h)
    decreases |es|
  {
    if es != [] {
      var n := |es| - 1;
      var rest, s := es[..n], Run(maxSize, batchSize, Init(), es[..n]);
      PendingIff(maxSize, batchSize, rest, h);
      QueueRun(maxSize, batchSize, Init(), rest);
      SavedRun(maxSize, batchSize, Init(), rest);
      RunSnoc(maxSize, batchSize, es);
      PendingStep(maxSize, batchSize, s, es[n], h);
      forall i: nat { FailedAtSnoc(maxSize, batchSize, es, i, h); }
      assert FailedOn(s, es[n], h) ==> FailedAt(maxSize, batchSize, es, n, h);
      if i :| FailedAt(maxSize, batchSize, rest, i, h) && es[n] != Crash {
        assert FailedAt(maxSize, batchSize, es, i, h);
      }
      if i :| FailedAt(maxSize, batchSize, es, i, h) { assert i == n || FailedAt(maxSize, batchSize, rest, i, h); }
    }
  }

  /** Exactly when a height is lost: a process failed on it and, before any crash, saved another
      row-bearing height. A failure followed by a crash loses nothing: the restart takes the item
      up again. */
  lemma {:induction false} PassedOverIff(maxSize: nat, batchSize: nat, es: seq<Event>, h: nat)
    ensures PassedOver(Run(maxSize, batchSize, Init(), es), h) <==>
            exists i, j :: LossAt(maxSize, batchSize, es, i, j, h)
    decreases |es|
  {
    if es != [] {
      var n := |es| - 1;
      var rest, s := es[..n], Run(maxSize, batchSize, Init(), es[..n]);
      PassedOverIff(maxSize, batchSize, rest, h);
      PendingIff(maxSize, batchSize, rest, h);
      QueueRun(maxSize, batchSize, Init(), rest);
      SavedRun(maxSize, batchSize, Init(), rest);
      HeightsPositive(maxSize, batchSize, Init(), rest);
      RunSnoc(maxSize, batchSize, es);
      PassedOverStep(maxSize, batchSize, s, es[n], h);
      LossExistsSnoc(maxSize, batchSize, es, h);
    }
  }

  lemma LossExistsSnoc(maxSize: nat, batchSize: nat, es: seq<Event>, h: nat)
    requires es != []
    ensures var n := |es| - 1;
            (exists i, j :: LossAt(maxSize, batchSize, es, i, j, h)) <==>
              (exists i, j :: LossAt(maxSize, batchSize, es[..n], i, j, h)) ||
              ((exists i :: FailedAt(maxSize, batchSize, es[..n], i, h)) &&
               RowConsumed(Run(maxSize, batchSize, Init(), es[..n]), es[n], true))
  {
    var n := |es| - 1;
    forall i: nat, j: nat { LossAtSnoc(maxSize, batchSize, es, i, j, h); }
    if RowConsumed(Run(maxSize, batchSize, Init(), es[..n]), es[n], true) {
      if i :| FailedAt(maxSize, batchSize, es[..n], i, h) {
        assert LossAt(maxSize, batchSize, es, i, n, h);
      }
    }
    if i, j :| LossAt(maxSize, batchSize, es[..n], i, j, h) { assert LossAt(maxSize, batchSize, es, i, j, h); }
    if i, j :| LossAt(maxSize, batchSize, es, i, j, h) {
      assert j == n || LossAt(maxSize, batchSize, es[..n], i, j, h);
    }
  }

  /** The saved heights are exactly the row-bearing ones up to the last saved. */
  ghost predicate SavedExactly(s: State) {
    forall h: nat :: h in s.saved <==> h <= MaxSaved(s.saved) && HasRows(s.blocks, h)
  }

  lemma ExactIffNoneLost(s: State)
    requires SavedInv(s) && Positive(s.blocks)
    ensures SavedExactly(s) <==> forall h :: !PassedOver(s, h)
  {
    forall h: nat
      ensures (h in s.saved <==> h <= MaxSaved(s.saved) && HasRows(s.blocks, h)) <==> !PassedOver(s, h)
    {
      if h in s.saved { SavedBound(s, h); }
      assert HasRows(s.blocks, h) ==> h > 0;
    }
  }

  /** In every run the saved heights are ascending, hence each saved once, and they are exactly
      the row-bearing ones up to the last saved if and only if no process failed on a
      row-bearing height and then saved another. */
  lemma SavedExactlyIff(maxSize: nat, batchSize: nat, es: seq<Event>)
    ensures StrictlyAscending(Run(maxSize, batchSize, Init(), es).saved)
    ensures SavedExactly(Run(maxSize, batchSize, Init(), es)) <==>
            forall i, j, h :: !LossAt(maxSize, batchSize, es, i, j, h)
  {
    QueueRun(maxSize, batchSize, Init(), es);
    SavedRun(maxSize, batchSize, Init(), es);
    HeightsPositive(maxSize, batchSize, Init(), es);
    var s := Run(maxSize, batchSize, Init(), es);
    ExactIffNoneLost(s);
    forall h: nat ensures PassedOver(s, h) <==> exists i, j :: LossAt(maxSize, batchSize, es, i, j, h) {
      PassedOverIff(maxSize, batchSize, es, h);
    }
    if i, j, h :| LossAt(maxSize, batchSize, es, i, j, h) {
      assert PassedOver(s, h);
    }
  }

  // ---- a failed item that is lost ------------------------------------------------------------

  /** Five events at a time. */
  lemma Five(maxSize: nat, batchSize: nat, s: State, es: seq<Event>, i: nat, s1: State, s2: State, s3: State,
             s4: State, s5: State)
    requires i + 5 <= |es|
    requires s1 == Next(maxSize, batchSize, s, es[i]) && s2 == Next(maxSize, batchSize, s1, es[i + 1])
    requires s3 == Next(maxSize, batchSize, s2, es[i + 2]) && s4 == Next(maxSize, batchSize, s3, es[i + 3])
    requires s5 == Next(maxSize, batchSize, s4, es[i + 4])
    ensures Run(maxSize, batchSize, s, es[i..]) == Run(maxSize, batchSize, s5, es[i + 5..])
  {
    forall j | i <= j < i + 5 ensures es[j..][0] == es[j] && es[j..][1..] == es[j + 1..] {}
    assert Run(maxSize, batchSize, s, es[i..]) == Run(maxSize, batchSize, s1, es[i + 1..]);
    assert Run(maxSize, batchSize, s1, es[i + 1..]) == Run(maxSize, batchSize, s2, es[i + 2..]);
    assert Run(maxSize, batchSize, s2, es[i + 2..]) == Run(maxSize, batchSize, s3, es[i + 3..]);
    assert Run(maxSize, batchSize, s3, es[i + 3..]) == Run(maxSize, batchSize, s4, es[i + 4..]);
    assert Run(maxSize, batchSize, s4, es[i + 4..]) == Run(maxSize, batchSize, s5, es[i + 5..]);
  }

  lemma TwoHeights(b1: Block, b2: Block)
    requires b1 == Block(1, 1, true) && b2 == Block(2, 1, true)
    ensures TxAbove([b1, b2], 0) == [1, 2]
    ensures HasRows([b1, b2], 1) && HasRows([b1, b2], 2)
  {
    assert [b1, b2][..1] == [b1] && [b1][..0] == [];
    assert TxAbove([b1], 0) == TxAbove([], 0) + [1];
    assert [b1, b2][0].hasRows && [b1, b2][1].hasRows;
  }

  lemma TwoAppends(b1: Block, b2: Block)
    requires b1 == Block(1, 1, true) && b2 == Block(2, 1, true)
    ensures Next(2, 2, Init(), Append(b1)) == Init().(blocks := [b1])
    ensures Next(2, 2, Init().(blocks := [b1]), Append(b2)) == Init().(blocks := [b1, b2])
  {
    assert [b1] + [b2] == [b1, b2];
  }

  lemma FetchBoth(s: State, b1: Block, b2: Block)
    requires b1 == Block(1, 1, true) && b2 == Block(2, 1, true)
    requires s == Init().(blocks := [b1, b2], up := true)
    ensures Next(2, 2, s, Produce(true)) == s.(batch := [1, 2])
    ensures Next(2, 2, s.(batch := [1, 2]), Push) == s.(batch := [2], queue := [1])
  {
    TwoHeights(b1, b2);
  }

  lemma FillQueue(es: seq<Event>, s5: State)
    requires |es| >= 5 && es[..5] == [Append(Block(1, 1, true)), Append(Block(2, 1, true)), Boot, Produce(true), Push]
    requires s5 == Init().(blocks := [Block(1, 1, true), Block(2, 1, true)], up := true, batch := [2], queue := [1])
    ensures Run(2, 2, Init(), es) == Run(2, 2, s5, es[5..])
  {
    var b1, b2 := Block(1, 1, true), Block(2, 1, true);
    var s1, s2 := Init().(blocks := [b1]), Init().(blocks := [b1, b2]);
    var s3 := s2.(up := true);
    var s4 := s3.(batch := [1, 2]);
    TwoAppends(b1, b2);
    FetchBoth(s3, b1, b2);
    assert Next(2, 2, s2, Boot) == s3;
    assert es[0] == es[..5][0] && es[1] == es[..5][1] && es[2] == es[..5][2] && es[3] == es[..5][3] &&
      es[4] == es[..5][4];
    Five(2, 2, Init(), es, 0, s1, s2, s3, s4, s5);
    assert es[0..] == es;
  }

  lemma PushAndFail(s5: State, s6: State, s7: State)
    requires s5 == Init().(blocks := [Block(1, 1, true), Block(2, 1, true)], up := true, batch := [2], queue := [1])
    requires s6 == s5.(batch := [], queue := [1, 2], lastProduced := 2)
    requires s7 == s6.(queue := [2], taken := [1], held := Some(1))
    ensures Next(2, 2, s5, Push) == s6 && Next(2, 2, s6, Pop) == s7
    ensures Next(2, 2, s7, Consume(false)) == s7.(held := None, failed := {1})
  {}

  lemma PopAndSave(s8: State, s9: State)
    requires s8.up && s8.held.None? && s8.queue == [2] && s8.taken == [1] && s8.saved == []
    requires s8.blocks == [Block(1, 1, true), Block(2, 1, true)]
    requires s9 == s8.(queue := [], taken := [1, 2], held := Some(2))
    ensures Next(2, 2, s8, Pop) == s9 && Next(2, 2, s9, Consume(true)) == s9.(held := None, saved := [2])
  {
    TwoHeights(Block(1, 1, true), Block(2, 1, true));
  }

  lemma LoseFirst(es: seq<Event>, s5: State, s10: State)
    requires |es| == 10 && es[5..] == [Push, Pop, Consume(false), Pop, Consume(true)]
    requires s5 == Init().(blocks := [Block(1, 1, true), Block(2, 1, true)], up := true, batch := [2], queue := [1])
    requires s10 == s5.(batch := [], queue := [], lastProduced := 2, taken := [1, 2], failed := {1}, saved := [2])
    ensures Run(2, 2, s5, es[5..]) == s10
  {
    assert es[5] == es[5..][0] && es[6] == es[5..][1] && es[7] == es[5..][2] && es[8] == es[5..][3] &&
      es[9] == es[5..][4];
    var s6 := s5.(batch := [], queue := [1, 2], lastProduced := 2);
    var s7 := s6.(queue := [2], taken := [1], held := Some(1));
    var s8 := s7.(held := None, failed := {1});
    var s9 := s8.(queue := [], taken := [1, 2], held := Some(2));
    PushAndFail(s5, s6, s7);
    PopAndSave(s8, s9);
    Five(2, 2, s5, es, 5, s6, s7, s8, s9, s10);
    assert es[10..] == [];
  }

  /** Saving height 1 fails, height 2 is saved: 1 is below the restart point and missing. */
  lemma FailureCanLose()
    ensures exists es :: PassedOver(Run(2, 2, Init(), es), 1)
  {
    var b1, b2 := Block(1, 1, true), Block(2, 1, true);
    var es := [Append(b1), Append(b2), Boot, Produce(true), Push] + [Push, Pop, Consume(false), Pop, Consume(true)];
    var s5 := Init().(blocks := [b1, b2], up := true, batch := [2], queue := [1]);
    var s10 := s5.(batch := [], queue := [], lastProduced := 2, taken := [1, 2], failed := {1}, saved := [2]);
    FillQueue(es, s5);
    LoseFirst(es, s5, s10);
    TwoHeights(b1, b2);
    assert PassedOver(Run(2, 2, Init(), es), 1);
  }

  // ---- progress -----------------------------------------------------------------------------------

  /** A running process with nothing in the channel or in hand. */
  ghost predicate Serving(maxSize: nat, s: State) {
    QueueInv(maxSize, s) && s.up && s.queue == [] && s.held.None?
  }

  function Waiting(s: State): seq<nat> {
    TxAbove(s.blocks, s.start)
  }

  /** s' is s after taking the next waiting height x and saving its rows, if it has any. */
  ghost predicate Served(s: State, s': State, x: nat) {
    && s'.blocks == s.blocks && s'.start == s.start && s'.taken == s.taken + [x]
    && s'.saved == s.saved + (if HasRows(s.blocks, x) then [x] else [])
  }

  lemma FillBatch(maxSize: nat, batchSize: nat, s: State)
    requires maxSize > 0 && batchSize > 0 && Serving(maxSize, s) && |s.taken| < |Waiting(s)|
    ensures var s' := Next(maxSize, batchSize, s, Produce(true));
            Serving(maxSize, s') && s'.batch != [] && s'.batch[0] == Waiting(s)[|s.taken|] &&
            s' == s.(batch := s'.batch)
  {
    var s', t, n := Next(maxSize, batchSize, s, Produce(true)), Waiting(s), |s.taken|;
    QueueStep(maxSize, batchSize, s, Produce(true));
    if s.batch == [] {
      assert s.taken + s.queue + s.batch == s.taken;
      assert TxAbove(s.blocks, s.lastProduced) == t[n..];
    } else {
      assert (s.taken + s.queue + s.batch)[n] == s.batch[0];
      assert s'.batch == s.batch;
    }
  }

  lemma RunThree(maxSize: nat, batchSize: nat, s: State, a: Event, b: Event, c: Event)
    ensures Run(maxSize, batchSize, s, [a, b, c]) ==
            Next(maxSize, batchSize, Next(maxSize, batchSize, Next(maxSize, batchSize, s, a), b), c)
  {
    var es := [a, b, c];
    var s1 := Next(maxSize, batchSize, s, a);
    var s2 := Next(maxSize, batchSize, s1, b);
    assert es[1..] == [b, c] && es[1..][1..] == [c] && es[1..][1..][1..] == [];
    assert Run(maxSize, batchSize, s1, es[1..]) == Run(maxSize, batchSize, s2, es[1..][1..]);
  }

  /** Push, pop and consume the first item of the batch. */
  lemma TakeFirst(maxSize: nat, batchSize: nat, s: State)
    requires maxSize > 0 && Serving(maxSize, s) && s.batch != []
    ensures var s' := Run(maxSize, batchSize, s, [Push, Pop, Consume(true)]);
            Serving(maxSize, s') && Served(s, s', s.batch[0])
  {
    var s1 := Next(maxSize, batchSize, s, Push);
    var s2 := Next(maxSize, batchSize, s1, Pop);
    var s3 := Next(maxSize, batchSize, s2, Consume(true));
    QueueStep(maxSize, batchSize, s, Push);
    QueueStep(maxSize, batchSize, s1, Pop);
    QueueStep(maxSize, batchSize, s2, Consume(true));
    RunThree(maxSize, batchSize, s, Push, Pop, Consume(true));
    assert s1.queue == [s.batch[0]] && s2.queue == [];
  }

  lemma ServeOne(maxSize: nat, batchSize: nat, s: State) returns (es: seq<Event>)
    requires maxSize > 0 && batchSize > 0 && Serving(maxSize, s) && |s.taken| < |Waiting(s)|
    ensures var s' := Run(maxSize, batchSize, s, es); Serving(maxSize, s') && Served(s, s', Waiting(s)[|s.taken|])
  {
    var three := [Push, Pop, Consume(true)];
    es := [Produce(true)] + three;
    FillBatch(maxSize, batchSize, s);
    TakeFirst(maxSize, batchSize, Next(maxSize, batchSize, s, Produce(true)));
    assert es[1..] == three;
  }

  /** The waiting heights before h have no rows. */
  ghost predicate NextRowBearing(s: State, i: nat, h: nat) {
    |s.taken| <= i < |Waiting(s)| && Waiting(s)[i] == h && HasRows(s.blocks, h) &&
    forall j :: |s.taken| <= j < i ==> !HasRows(s.blocks, Waiting(s)[j])
  }

  lemma {:induction false} ServeUntil(maxSize: nat, batchSize: nat, s: State, i: nat, h: nat) returns (es: seq<Event>)
    requires maxSize > 0 && batchSize > 0 && Serving(maxSize, s) && NextRowBearing(s, i, h)
    ensures Run(maxSize, batchSize, s, es).saved == s.saved + [h]
    decreases i - |s.taken|
  {
    var first := ServeOne(maxSize, batchSize, s);
    if |s.taken| == i {
      es := first;
    } else {
      var s' := Run(maxSize, batchSize, s, first);
      assert !HasRows(s.blocks, Waiting(s)[|s.taken|]);
      var more := ServeUntil(maxSize, batchSize, s', i, h);
      RunConcat(maxSize, batchSize, s, first, more);
      es := first + more;
    }
  }

  /** A restarted process, at its first item. */
  lemma Restarted(maxSize: nat, batchSize: nat, s: State)
    requires QueueInv(maxSize, s)
    ensures var s' := Run(maxSize, batchSize, s, [Crash, Boot]);
            Serving(maxSize, s') && s'.blocks == s.blocks && s'.saved == s.saved && s'.taken == [] &&
            s'.start == MaxSaved(s.saved)
  {
    QueueStep(maxSize, batchSize, s, Crash);
    QueueStep(maxSize, batchSize, Next(maxSize, batchSize, s, Crash), Boot);
    var es := [Crash, Boot];
    assert es[1..] == [Boot] && es[1..][1..] == [];
  }

  /** From every reachable state the next row-bearing height above the saved ones can be saved. */
  lemma Progresses(maxSize: nat, batchSize: nat, past: seq<Event>, h: nat) returns (es: seq<Event>)
    requires maxSize > 0 && batchSize > 0
    requires var s := Run(maxSize, batchSize, Init(), past);
             h > MaxSaved(s.saved) && HasRows(s.blocks, h) &&
             forall x :: MaxSaved(s.saved) < x < h ==> !HasRows(s.blocks, x)
    ensures Run(maxSize, batchSize, Init(), past + es).saved == Run(maxSize, batchSize, Init(), past).saved + [h]
  {
    var s := Run(maxSize, batchSize, Init(), past);
    QueueRun(maxSize, batchSize, Init(), past);
    Restarted(maxSize, batchSize, s);
    var s' := Run(maxSize, batchSize, s, [Crash, Boot]);
    var t := Waiting(s');
    TxAboveMembers(s.blocks, s'.start, h);
    TxAboveAscends(s.blocks, s'.start);
    var i :| 0 <= i < |t| && t[i] == h;
    assert NextRowBearing(s', i, h);
    var more := ServeUntil(maxSize, batchSize, s', i, h);
    es := [Crash, Boot] + more;
    RunConcat(maxSize, batchSize, s, [Crash, Boot], more);
    RunConcat(maxSize, batchSize, Init(), past, es);
  }

  // ---- the extension object ---------------------------------------------------------------------

  lemma RunExtend(maxSize: nat, batchSize: nat, es: seq<Event>, e: Event)
    ensures Run(maxSize, batchSize, Init(), es + [e]) ==
            Next(maxSize, batchSize, Run(maxSize, batchSize, Init(), es), e)
  {
    RunConcat(maxSize, batchSize, Init(), es, [e]);
    assert [e][1..] == [];
  }

  /** In every reachable state the channel is within its size, with room for what waits. */
  lemma QueueFits(maxSize: nat, batchSize: nat, es: seq<Event>)
    ensures var s := Run(maxSize, batchSize, Init(), es);
            |s.queue| + |s.batch| <= maxSize && (s.held.Some? ==> s.up)
  {
    QueueRun(maxSize, batchSize, Init(), es);
  }

  function Pushes(n: nat): seq<Event> {
    seq(n, _ => Push)
  }

  lemma {:induction false} RunConcat(maxSize: nat, batchSize: nat, s: State, es: seq<Event>, fs: seq<Event>)
    ensures Run(maxSize, batchSize, s, es + fs) == Run(maxSize, batchSize, Run(maxSize, batchSize, s, es), fs)
    decreases |es|
  {
    if es == [] {
      assert es + fs == fs;
    } else {
      assert (es + fs)[1..] == es[1..] + fs;
      RunConcat(maxSize, batchSize, Next(maxSize, batchSize, s, es[0]), es[1..], fs);
    }
  }

  lemma OneMorePush(maxSize: nat, batchSize: nat, s: State, n: nat)
    ensures Run(maxSize, batchSize, s, Pushes(n + 1)) ==
            Next(maxSize, batchSize, Run(maxSize, batchSize, s, Pushes(n)), Push)
  {
    assert Pushes(n + 1) == Pushes(n) + [Push];
    RunConcat(maxSize, batchSize, s, Pushes(n), [Push]);
    assert [Push][1..] == [];
  }

  class InternalTxExtension {
    const maxSize: nat           // of the channel
    const batchSize: nat
    var blocks: seq<Block>
    var saved: seq<nat>
    ghost var failed: set<nat>
    var up: bool
    ghost var start: nat
    var lastProducedHeight: nat
    var workItems: seq<nat>      // scraped, to be pushed
    var ch: seq<nat>             // the channel
    ghost var taken: seq<nat>
    var workItem: Option<nat>    // in the consumer's hands
    ghost var events: seq<Event> // what has happened so far

    ghost function View(): State
      reads this
    {
      State(blocks, saved, failed, up, start, lastProducedHeight, workItems, ch, taken, workItem)
    }

    /** The object is in a reachable state, so all that is proved of runs holds of it. */
    ghost predicate Valid()
      reads this
    {
      View() == Run(maxSize, batchSize, Init(), events)
    }

    constructor (maxSize: nat, batchSize: nat)
      ensures Valid() && View() == Init() && this.maxSize == maxSize && this.batchSize == batchSize
    {
      this.maxSize, this.batchSize := maxSize, batchSize;
      blocks, saved, failed, up, start := [], [], {}, false, 0;
      lastProducedHeight, workItems, ch, taken, workItem := 0, [], [], [], None;
      events := [];
    }

    /** Start above the highest height that has a saved row. */
    method Initialize()
      requires Valid() && !up
      modifies this`events, this`up, this`start, this`lastProducedHeight
      ensures Valid() && View() == Next(maxSize, batchSize, old(View()), Boot)
    {
      RunExtend(maxSize, batchSize, events, Boot);
      events := events + [Boot];
      up := true;
      lastProducedHeight := MaxSaved(saved);
      start := lastProducedHeight;
    }

    /** The next tx-bearing heights, no more than the channel has room for. */
    method GetBatchHeights() returns (heights: seq<nat>)
      requires |ch| <= maxSize
      ensures heights <= TxAbove(blocks, lastProducedHeight) && |ch| + |heights| <= maxSize
      ensures |heights| == Min(|TxAbove(blocks, lastProducedHeight)|, Min(batchSize, maxSize - |ch|))
    {
      var availableSpace := maxSize - |ch|;
      if availableSpace <= 0 { return []; }
      var all := TxAbove(blocks, lastProducedHeight);
      heights := all[..Min(|all|, Min(batchSize, availableSpace))];
    }

    /** The heights of a batch; scraping them succeeds or fails as a whole. */
    method ScrapeBatch(scrapeOk: bool)
      requires Valid() && up && workItems == [] && |ch| < maxSize
      modifies this`events, this`workItems
      ensures Valid() && View() == Next(maxSize, batchSize, old(View()), Produce(scrapeOk))
    {
      var heights := GetBatchHeights();
      RunExtend(maxSize, batchSize, events, Produce(scrapeOk));
      events := events + [Produce(scrapeOk)];
      ghost var next := Next(maxSize, batchSize, View(), Produce(scrapeOk));
      if scrapeOk {
        assert heights == TxAbove(blocks, lastProducedHeight)[..|heights|] == next.batch;
        workItems := heights;
      }
      assert View() == next;
    }

    /** Push of the next item: there is room. */
    method PushItem()
      requires Valid() && up && workItems != []
      modifies this`events, this`workItems, this`ch, this`lastProducedHeight
      ensures Valid() && View() == Next(maxSize, batchSize, old(View()), Push)
      ensures ch == old(ch) + [old(workItems)[0]] && workItems == old(workItems)[1..]
    {
      QueueFits(maxSize, batchSize, events);
      RunExtend(maxSize, batchSize, events, Push);
      events := events + [Push];
      ch := ch + [workItems[0]];
      if |workItems| == 1 { lastProducedHeight := workItems[0]; }
      workItems := workItems[1..];
    }

    /** The pushes of a batch without the consumer in between. */
    method PushAll()
      requires Valid() && up
      modifies this`events, this`workItems, this`ch, this`lastProducedHeight
      ensures Valid() && workItems == [] && old(ch) <= ch
      ensures View() == Run(maxSize, batchSize, old(View()), Pushes(|ch| - |old(ch)|))
    {
      ghost var n: nat, before := 0, View();
      while workItems != []
        invariant Valid() && up && old(ch) <= ch && |ch| == |old(ch)| + n
        invariant View() == Run(maxSize, batchSize, before, Pushes(n))
        decreases |workItems|
      {
        OneMorePush(maxSize, batchSize, before, n);
        PushItem();
        n := n + 1;
      }
    }

    /** One batch: the channel always has room, so every item gets in; scrapeOk says whether all
        heights of the batch were scraped. */
    method ProduceBatchWork(scrapeOk: bool)
      requires Valid() && up && workItems == [] && |ch| < maxSize
      modifies this`events, this`workItems, this`ch, this`lastProducedHeight
      ensures Valid() && workItems == []
      ensures old(ch) <= ch && |ch| <= maxSize
      ensures View() == Run(maxSize, batchSize, Next(maxSize, batchSize, old(View()), Produce(scrapeOk)),
                            Pushes(|ch| - |old(ch)|))
    {
      ghost var next := Next(maxSize, batchSize, View(), Produce(scrapeOk));
      ScrapeBatch(scrapeOk);
      ghost var produced := View();
      assert produced == next;
      PushAll();
      QueueFits(maxSize, batchSize, events);
    }

    method PopItem()
      requires Valid() && up && workItem == None && ch != []
      modifies this`events, this`workItem, this`ch, this`taken
      ensures Valid() && View() == Next(maxSize, batchSize, old(View()), Pop) && workItem == Some(old(ch)[0])
    {
      RunExtend(maxSize, batchSize, events, Pop);
      events := events + [Pop];
      workItem := Some(ch[0]);
      taken := taken + [ch[0]];
      ch := ch[1..];
    }

    /** Saving the rows in one transaction; a failed item is logged and dropped. */
    method ConsumeWork(consumeOk: bool)
      requires Valid() && up && workItem.Some?
      modifies this`events, this`workItem, this`saved, this`failed
      ensures Valid() && View() == Next(maxSize, batchSize, old(View()), Consume(consumeOk)) && workItem == None
    {
      RunExtend(maxSize, batchSize, events, Consume(consumeOk));
      events := events + [Consume(consumeOk)];
      ghost var next := Next(maxSize, batchSize, View(), Consume(consumeOk));
      var height := workItem.value;
      workItem := None;
      if !consumeOk {
        failed := failed + {height};
      } else if HasRows(blocks, height) {
        saved := saved + [height];
      }
      assert View() == next;
    }
  }
}
