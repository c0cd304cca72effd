/** The scraper: fastSync scrapes consecutive heights in concurrent goroutines until one is
    refused as not yet produced, slowSync then advances a cursor in batches of five. */
module Scraper {
  import opened Common

  const BATCH_SCRAP_SIZE: nat := 5

  // ---- fastSync as a transition system -------------------------------------------

  datatype Status = Running | Paused | Halted

  /** What the control goroutine loaded from status and has not yet stored back. */
  datatype Pending = NoStore | StorePaused | StoreRunning

  datatype Fast = Fast(
    start: nat,
    next: nat,               // the loop variable height
    tasks: set<nat>,         // heights whose goroutine is still running
    sent: seq<nat>,          // pushed to blockChan, in order
    refused: set<nat>,       // goroutines that ended on "reached latest height"
    synced: int,             // syncedHeight
    status: Status,
    pending: Pending,
    cleared: bool,           // the loop saw `running` and is about to spawn
    draining: bool,          // the loop saw `stopped` and waits for the goroutines
    returned: bool)

  datatype FastEvent =
    | Observe                // the loop loads status
    | Spawn
    | Succeed(h: nat)
    | Refuse(h: nat)
    | Signal(pause: bool)    // the control goroutine loads status
    | Store                  // ... and stores
    | Return

  function FastInit(start: nat): Fast {
    Fast(start, start, {}, [], {}, start - 1, Running, NoStore, false, false, false)
  }

  function FastNext(maxConc: nat, s: Fast, e: FastEvent): Fast {
    match e
    case Observe =>
      if s.draining then s
      else if s.status.Running? then s.(cleared := true)
      else if s.status.Paused? then s.(cleared := false)
      else s.(cleared := false, draining := true)
    case Spawn =>
      if s.cleared && |s.tasks| < Max(1, maxConc) then
        s.(tasks := s.tasks + {s.next}, next := s.next + 1, cleared := false)
      else s
    case Succeed(h) =>
      if h in s.tasks then s.(tasks := s.tasks - {h}, sent := s.sent + [h], synced := Max(s.synced, h)) else s
    case Refuse(h) =>
      if h in s.tasks then s.(tasks := s.tasks - {h}, refused := s.refused + {h}, status := Halted) else s
    case Signal(pause) =>
      if pause && s.status.Running? then s.(pending := StorePaused)
      else if !pause && s.status.Paused? then s.(pending := StoreRunning)
      else s
    case Store =>
      if s.pending.StorePaused? then s.(status := Paused, pending := NoStore)
      else if s.pending.StoreRunning? then s.(status := Running, pending := NoStore)
      else s
    case Return => if s.draining && s.tasks == {} then s.(returned := true) else s
  }

  function FastRun(maxConc: nat, s: Fast, es: seq<FastEvent>): Fast
    decreases |es|
  {
    if es == [] then s else FastRun(maxConc, FastNext(maxConc, s, es[0]), es[1..])
  }

  /** Each spawned height is in flight, sent once or refused, and synced is the highest sent. */
  ghost predicate FastInv(maxConc: nat, s: Fast) {
    && s.start <= s.next
    && (forall h :: h in s.tasks || h in s.refused || h in s.sent <==> s.start <= h < s.next)
    && (forall h :: h in s.tasks ==> h !in s.refused && h !in s.sent)
    && (forall h :: h in s.refused ==> h !in s.sent)
    && Distinct(s.sent)
    && (forall h :: h in s.sent ==> h <= s.synced)
    && (s.synced == s.start - 1 || (s.synced >= 0 && s.synced in s.sent))
    && |s.tasks| <= Max(1, maxConc)
    && (s.draining ==> !s.cleared)
    && (s.returned ==> s.draining && s.tasks == {})
  }

  lemma SpawnStep(maxConc: nat, s: Fast)
    requires FastInv(maxConc, s) && s.cleared && |s.tasks| < Max(1, maxConc)
    ensures FastInv(maxConc, FastNext(maxConc, s, Spawn))
  {
    var s' := FastNext(maxConc, s, Spawn);
    assert s.next !in s.tasks && s.next !in s.refused && s.next !in s.sent;
    assert |s'.tasks| == |s.tasks| + 1;
  }

  lemma SucceedStep(maxConc: nat, s: Fast, h: nat)
    requires FastInv(maxConc, s) && h in s.tasks
    ensures FastInv(maxConc, FastNext(maxConc, s, Succeed(h)))
  {
    var s' := FastNext(maxConc, s, Succeed(h));
    DistinctSnoc(s.sent, h);
    assert forall x :: x in s'.sent <==> x in s.sent || x == h;
    assert h in s.tasks || h in s.refused || h in s.sent;
    assert s'.synced >= 0;
    assert |s'.tasks| <= |s.tasks|;
  }

  lemma RefuseStep(maxConc: nat, s: Fast, h: nat)
    requires FastInv(maxConc, s) && h in s.tasks
    ensures FastInv(maxConc, FastNext(maxConc, s, Refuse(h)))
  {
    var s' := FastNext(maxConc, s, Refuse(h));
    assert |s'.tasks| <= |s.tasks|;
  }

  lemma FastStep(maxConc: nat, s: Fast, e: FastEvent)
    requires FastInv(maxConc, s)
    ensures FastInv(maxConc, FastNext(maxConc, s, e))
  {
    match e
    case Spawn => if s.cleared && |s.tasks| < Max(1, maxConc) { SpawnStep(maxConc, s); }
    case Succeed(h) => if h in s.tasks { SucceedStep(maxConc, s, h); }
    case Refuse(h) => if h in s.tasks { RefuseStep(maxConc, s, h); }
    case Observe =>
    case Signal(_) =>
    case Store =>
    case Return =>
  }

  lemma {:induction false} FastRunInv(maxConc: nat, s: Fast, es: seq<FastEvent>)
    requires FastInv(maxConc, s)
    ensures FastInv(maxConc, FastRun(maxConc, s, es))
    ensures FastRun(maxConc, s, es).start == s.start
    decreases |es|
  {
    if es != [] {
      FastStep(maxConc, s, es[0]);
      FastRunInv(maxConc, FastNext(maxConc, s, es[0]), es[1..]);
    }
  }

  /** The run sent exactly the heights from the start to the one fastSync returns. */
  ghost predicate SentExactly(s: Fast) {
    forall h: nat :: h in s.sent <==> s.start <= h <= s.synced
  }

  /** For every interleaving, pause race included: a returned fastSync sent no height twice, and
      it sent exactly [start, returned] if and only if no height above a refused one succeeded. */
  lemma FastSyncExact(maxConc: nat, start: nat, es: seq<FastEvent>)
    ensures var s := FastRun(maxConc, FastInit(start), es);
            Distinct(s.sent) && |s.tasks| <= Max(1, maxConc) &&
            (s.returned ==>
               (SentExactly(s) <==> forall r, h :: r in s.refused && h in s.sent ==> h < r))
  {
    FastRunInv(maxConc, FastInit(start), es);
    var s := FastRun(maxConc, FastInit(start), es);
    if s.returned && SentExactly(s) {
      forall r, h | r in s.refused && h in s.sent ensures h < r {
        assert r in s.tasks || r in s.refused || r in s.sent;
      }
    }
    if s.returned && forall r, h :: r in s.refused && h in s.sent ==> h < r {
      forall h: nat ensures h in s.sent <==> s.start <= h <= s.synced {
        if h in s.sent { assert h in s.tasks || h in s.refused || h in s.sent; }
        if s.start <= h <= s.synced {
          var top: nat := s.synced;
          assert top in s.sent;
          assert top in s.tasks || top in s.refused || top in s.sent;
          assert h in s.tasks || h in s.refused || h in s.sent;
        }
      }
    }
  }

  /** A hole is possible: 1 is refused, then 2 is produced and succeeds before fastSync returns. */
  lemma FastSyncHole()
    ensures exists es :: var s := FastRun(4, FastInit(1), es); s.returned && s.sent == [2] && !SentExactly(s)
  {
    var first, second := [Observe, Spawn, Observe, Spawn], [Refuse(1), Succeed(2), Observe, Return];
    var es := first + second;
    assert es[..4] == first && es[4..] == second;
    var s4 := Fast(1, 3, {1, 2}, [], {}, 0, Running, NoStore, false, false, false);
    HoleSpawns(es, s4);
    var s8 := Fast(1, 3, {}, [2], {1}, 2, Halted, NoStore, false, true, true);
    HoleEnds(es, s4, s8);
    assert 1 !in s8.sent;
    assert !SentExactly(s8);
  }

  lemma HoleSpawns(es: seq<FastEvent>, s4: Fast)
    requires |es| == 8 && es[..4] == [Observe, Spawn, Observe, Spawn]
    requires s4 == Fast(1, 3, {1, 2}, [], {}, 0, Running, NoStore, false, false, false)
    ensures FastRun(4, FastInit(1), es) == FastRun(4, s4, es[4..])
  {
    assert es[0] == es[..4][0] && es[1] == es[..4][1] && es[2] == es[..4][2] && es[3] == es[..4][3];
    var s0 := FastInit(1);
    var s1 := s0.(cleared := true);
    var s2 := s0.(tasks := {1}, next := 2);
    var s3 := s2.(cleared := true);
    assert FastNext(4, s1, Spawn).tasks == {1};
    assert FastNext(4, s3, Spawn).tasks == {1, 2};
    assert es[1..][1..] == es[2..] && es[2..][1..] == es[3..] && es[3..][1..] == es[4..];
    assert FastRun(4, s0, es) == FastRun(4, s1, es[1..]);
    assert FastRun(4, s1, es[1..]) == FastRun(4, s2, es[2..]);
    assert FastRun(4, s2, es[2..]) == FastRun(4, s3, es[3..]);
    assert FastRun(4, s3, es[3..]) == FastRun(4, s4, es[4..]);
  }

  lemma HoleEnds(es: seq<FastEvent>, s4: Fast, s8: Fast)
    requires |es| == 8 && es[4..] == [Refuse(1), Succeed(2), Observe, Return]
    requires s4 == Fast(1, 3, {1, 2}, [], {}, 0, Running, NoStore, false, false, false)
    requires s8 == Fast(1, 3, {}, [2], {1}, 2, Halted, NoStore, false, true, true)
    ensures FastRun(4, s4, es[4..]) == s8
  {
    assert es[4] == es[4..][0] && es[5] == es[4..][1] && es[6] == es[4..][2] && es[7] == es[4..][3];
    var s5 := s4.(tasks := {2}, refused := {1}, status := Halted);
    var s6 := s5.(tasks := {}, sent := [2], synced := 2);
    var s7 := s6.(draining := true);
    assert FastNext(4, s4, Refuse(1)).tasks == {2};
    assert FastNext(4, s4, Refuse(1)).refused == {1};
    assert {2} - {2} == {};
    assert FastNext(4, s5, Succeed(2)) == s6;
    assert es[4..][1..] == es[5..] && es[5..][1..] == es[6..] && es[6..][1..] == es[7..] && es[7..][1..] == [];
    assert FastRun(4, s4, es[4..]) == FastRun(4, s5, es[5..]);
    assert FastRun(4, s5, es[5..]) == FastRun(4, s6, es[6..]);
    assert FastRun(4, s6, es[6..]) == FastRun(4, s7, es[7..]);
    assert FastRun(4, s7, es[7..]) == FastRun(4, s8, []);
  }

  // ---- slowSync --------------------------------------------------------------------

  /** One entry of `results`: the height and whether scraping it succeeded. */
  datatype ScrapResult = ScrapResult(height: nat, ok: bool)

  /** The goroutines of one batch report each height of the window once, in any order. */
  ghost predicate Reports(rs: seq<ScrapResult>, h: nat) {
    exists i :: 0 <= i < |rs| && rs[i].height == h
  }

  ghost predicate IsBatch(c: nat, rs: seq<ScrapResult>) {
    && (forall i, j :: 0 <= i < j < |rs| ==> rs[i].height != rs[j].height)
    && (forall i :: 0 <= i < |rs| ==> c <= rs[i].height < c + BATCH_SCRAP_SIZE)
    && (forall h: nat :: c <= h < c + BATCH_SCRAP_SIZE ==> Reports(rs, h))
  }

  function Members(s: seq<nat>): set<nat> {
    set h | h in s
  }

  function Succeeded(rs: seq<ScrapResult>): seq<nat> {
    if rs == [] then [] else (if rs[0].ok then [rs[0].height] else []) + Succeeded(rs[1..])
  }

  /** The first height of the window that did not succeed, or the window's end. */
  function NextCursor(h: nat, end: nat, ok: set<nat>): (r: nat)
    requires h <= end
    ensures h <= r <= end
    ensures forall x :: h <= x < r ==> x in ok
    ensures r < end ==> r !in ok
    decreases end - h
  {
    if h < end && h in ok then NextCursor(h + 1, end, ok) else h
  }

  lemma {:induction false} SucceededMembers(rs: seq<ScrapResult>, h: nat)
    ensures h in Succeeded(rs) <==> ScrapResult(h, true) in rs
  {
    if rs != [] {
      SucceededMembers(rs[1..], h);
      assert rs == [rs[0]] + rs[1..];
    }
  }

  function Insert(r: ScrapResult, rs: seq<ScrapResult>): seq<ScrapResult> {
    if rs == [] || r.height <= rs[0].height then [r] + rs else [rs[0]] + Insert(r, rs[1..])
  }

  /** sort.Slice by height. */
  function Sort(rs: seq<ScrapResult>): seq<ScrapResult> {
    if rs == [] then [] else Insert(rs[0], Sort(rs[1..]))
  }

  ghost predicate SortedByHeight(rs: seq<ScrapResult>) {
    forall i, j :: 0 <= i < j < |rs| ==> rs[i].height <= rs[j].height
  }

  lemma {:induction false} InsertSorted(r: ScrapResult, rs: seq<ScrapResult>)
    requires SortedByHeight(rs)
    ensures SortedByHeight(Insert(r, rs))
    ensures forall x :: x in Insert(r, rs) <==> x == r || x in rs
  {
    if rs != [] && r.height > rs[0].height {
      InsertSorted(r, rs[1..]);
      assert rs == [rs[0]] + rs[1..];
      var t := Insert(r, rs[1..]);
      forall j | 0 <= j < |t| ensures rs[0].height <= t[j].height {
        assert t[j] in t;
      }
    }
  }

  lemma {:induction false} SortSorts(rs: seq<ScrapResult>)
    ensures SortedByHeight(Sort(rs))
    ensures forall x :: x in Sort(rs) <==> x in rs
  {
    if rs != [] {
      SortSorts(rs[1..]);
      InsertSorted(rs[0], Sort(rs[1..]));
      assert rs == [rs[0]] + rs[1..];
    }
  }

  class SlowSync {
    var height: nat
    var sent: seq<nat>

    constructor (start: nat)
      ensures height == start && sent == []
    {
      height, sent := start, [];
    }

    /** One round of the loop; arrivals is the order in which the goroutines report. */
    method Batch(arrivals: seq<ScrapResult>)
      requires IsBatch(height, arrivals)
      modifies this
      ensures sent == old(sent) + Succeeded(arrivals)
      ensures height == NextCursor(old(height), old(height) + BATCH_SCRAP_SIZE, Members(Succeeded(arrivals)))
    {
      var results := Gather(arrivals);
      SortSorts(arrivals);
      results := Sort(results);
      var k := FirstFailure(results);
      FirstError(height, arrivals, results, k);
      if k == |results| { height := height + BATCH_SCRAP_SIZE; } else { height := results[k].height; }
    }

    /** The goroutines' reports as they arrive: the blocks go to the channel. */
    method Gather(arrivals: seq<ScrapResult>) returns (results: seq<ScrapResult>)
      modifies this`sent
      ensures results == arrivals && sent == old(sent) + Succeeded(arrivals)
    {
      results := [];
      assert arrivals[0..] == arrivals;
      for i := 0 to |arrivals|
        invariant results == arrivals[..i]
        invariant sent + Succeeded(arrivals[i..]) == old(sent) + Succeeded(arrivals)
      {
        assert arrivals[i..][0] == arrivals[i] && arrivals[i..][1..] == arrivals[i + 1..];
        results := results + [arrivals[i]];
        if arrivals[i].ok { sent := sent + [arrivals[i].height]; }
      }
      assert arrivals[|arrivals|..] == [] && arrivals[..|arrivals|] == arrivals;
    }

    /** The position of the first failure, or the end. */
    static method FirstFailure(results: seq<ScrapResult>) returns (k: nat)
      ensures k <= |results| && (k < |results| ==> !results[k].ok)
      ensures forall i :: 0 <= i < k ==> results[i].ok
    {
      k := 0;
      while k < |results| && results[k].ok
        invariant k <= |results| && forall i :: 0 <= i < k ==> results[i].ok
      {
        k := k + 1;
      }
    }
  }

  /** The first failing entry of the sorted results is where the cursor moves. */
  lemma FirstError(c: nat, arrivals: seq<ScrapResult>, results: seq<ScrapResult>, k: nat)
    requires IsBatch(c, arrivals) && SortedByHeight(results)
    requires forall x :: x in results <==> x in arrivals
    requires k <= |results| && (k < |results| ==> !results[k].ok)
    requires forall i :: 0 <= i < k ==> results[i].ok
    ensures NextCursor(c, c + BATCH_SCRAP_SIZE, Members(Succeeded(arrivals)))
            == if k == |results| then c + BATCH_SCRAP_SIZE else results[k].height
  {
    var ok := Members(Succeeded(arrivals));
    var r := NextCursor(c, c + BATCH_SCRAP_SIZE, ok);
    if k < |results| {
      var bad := results[k];
      assert bad in arrivals;
      assert bad.height !in ok by {
        SucceededMembers(arrivals, bad.height);
      }
      assert r <= bad.height;
    }
    if r < c + BATCH_SCRAP_SIZE {
      assert Reports(arrivals, r);
      var i :| 0 <= i < |arrivals| && arrivals[i].height == r;
      SucceededMembers(arrivals, r);
      assert arrivals[i] in results;
      var j :| 0 <= j < |results| && results[j] == arrivals[i];
      assert j >= k;
    }
  }

  /** The cursor and the heights sent after a series of batches; oks[i] succeed in batch i. */
  function SlowRun(c: nat, sent: set<nat>, oks: seq<set<nat>>): (nat, set<nat>)
    decreases |oks|
  {
    if oks == [] then (c, sent)
    else
      var window := set h | h in oks[0] && c <= h < c + BATCH_SCRAP_SIZE;
      SlowRun(NextCursor(c, c + BATCH_SCRAP_SIZE, window), sent + window, oks[1..])
  }

  lemma {:induction false} SlowRunCovers(start: nat, c: nat, sent: set<nat>, oks: seq<set<nat>>)
    requires start <= c
    requires forall h: nat :: start <= h < c ==> h in sent
    requires forall h :: h in sent ==> start <= h < c + BATCH_SCRAP_SIZE
    ensures var (c', sent') := SlowRun(c, sent, oks);
            c <= c' && (forall h: nat :: start <= h < c' ==> h in sent') &&
            (forall h :: h in sent' ==> start <= h < c' + BATCH_SCRAP_SIZE)
    decreases |oks|
  {
    if oks != [] {
      var window := set h | h in oks[0] && c <= h < c + BATCH_SCRAP_SIZE;
      SlowRunCovers(start, NextCursor(c, c + BATCH_SCRAP_SIZE, window), sent + window, oks[1..]);
    }
  }

  /** Scraper.Run: when fast sync left no hole, every height from the start to slowSync's cursor
      has been sent, for any results of any number of batches, and nothing a batch beyond it. */
  lemma NoHeightSkipped(maxConc: nat, start: nat, es: seq<FastEvent>, oks: seq<set<nat>>)
    requires start >= 1
    requires var s := FastRun(maxConc, FastInit(start), es);
             s.returned && forall r, h :: r in s.refused && h in s.sent ==> h < r
    ensures var s := FastRun(maxConc, FastInit(start), es);
            s.synced + 1 >= start &&
            var (c, all) := SlowRun(s.synced + 1, Members(s.sent), oks);
            (forall h: nat :: start <= h < c ==> h in all) &&
            (forall h :: h in all ==> start <= h < c + BATCH_SCRAP_SIZE)
  {
    FastSyncExact(maxConc, start, es);
    FastRunInv(maxConc, FastInit(start), es);
    var s := FastRun(maxConc, FastInit(start), es);
    SlowRunCovers(start, s.synced + 1, Members(s.sent), oks);
  }
}
