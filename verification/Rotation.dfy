/** Endpoint rotation: a request is tried up to five times on each endpoint, with jittered
    backoff, until it succeeds, the endpoints are exhausted or the delays exceed five minutes. */
module Rotation {
  const MAX_RETRIES_PER_URL: nat := 5
  const MAX_TOTAL_DELAY_MS: int := 300000

  // ---- jitter and backoff -----------------------------------------------------------------------

  /** One step of the 32-bit linear congruential generator. */
  function NextSeed(seed: nat): (r: nat)
    ensures r < 0x1_0000_0000
  {
    (seed * 1103515245 + 12345) % 0x1_0000_0000
  }

  /** The low 31 bits of the new seed, scaled to [0, 1]. */
  function Random(newSeed: nat): (u: real)
    ensures 0.0 <= u <= 1.0
  {
    (newSeed % 0x8000_0000) as real / 0x7FFF_FFFF as real
  }

  function PowerOfTwo(n: nat): nat {
    if n == 0 then 1 else 2 * PowerOfTwo(n - 1)
  }

  /** calculateBackoffDelay in milliseconds, the random number being u. */
  function BackoffMs(attempt: int, u: real): int {
    if attempt <= 0 then 1000
    else
      var doubled := PowerOfTwo(attempt - 1) as real;
      var capped := if doubled > 30.0 then 30.0 else doubled;
      var jittered := capped + capped * 0.1 * (2.0 * u - 1.0);
      var seconds := if jittered < 1.0 then 1.0 else jittered;
      (seconds * 1000.0 + 0.5).Floor
  }

  /** The backoff before a rotation lies between 14.4 and 17.6 seconds, whatever the seed. */
  lemma RotationDelay(u: real)
    requires 0.0 <= u <= 1.0
    ensures 14400 <= BackoffMs(MAX_RETRIES_PER_URL, u) <= 17600
  {
    assert PowerOfTwo(4) == 16 by {
      assert PowerOfTwo(1) == 2 && PowerOfTwo(2) == 4 && PowerOfTwo(3) == 8;
    }
  }

  // ---- the rotation -----------------------------------------------------------------------------

  datatype Outcome = Success | NoEndpoints | Exhausted | DelayExceeded

  /** The first healthy endpoint, or 0. */
  method FindHealthyEndpoint(healthy: seq<bool>) returns (i: nat)
    ensures i < |healthy| || i == 0
    ensures i < |healthy| && healthy[i] ==> forall j :: 0 <= j < i ==> !healthy[j]
    ensures (exists j :: 0 <= j < |healthy| && healthy[j]) ==> i < |healthy| && healthy[i]
  {
    i := 0;
    while i < |healthy|
      invariant i <= |healthy|
      invariant forall j :: 0 <= j < i ==> !healthy[j]
    {
      if healthy[i] { return; }
      i := i + 1;
    }
    i := 0;
  }

  /** Where attempt number i goes. */
  function Endpoint(n: nat, start: nat, i: nat): nat
    requires n > 0
  {
    (start + i / MAX_RETRIES_PER_URL) % n
  }

  /** The attempts so far went to their endpoints. */
  ghost predicate Cyclic(n: nat, start: nat, tried: seq<nat>) {
    n > 0 && forall i :: 0 <= i < |tried| ==> tried[i] == Endpoint(n, start, i)
  }

  lemma CyclicNext(n: nat, start: nat, tried: seq<nat>, e: nat)
    requires Cyclic(n, start, tried) && e == Endpoint(n, start, |tried|)
    ensures Cyclic(n, start, tried + [e])
  {}

  lemma EndpointAt(n: nat, start: nat, rotations: nat, r: nat)
    requires n > 0 && r < MAX_RETRIES_PER_URL
    ensures Endpoint(n, start, rotations * MAX_RETRIES_PER_URL + r) == (start + rotations) % n
  {
    assert (rotations * MAX_RETRIES_PER_URL + r) / MAX_RETRIES_PER_URL == rotations;
  }

  lemma ModOnce(x: nat, n: nat)
    requires n > 0 && x < 2 * n
    ensures x % n == if x < n then x else x - n
  {
    var d := x / n;
    assert x == n * d + x % n;
    assert d >= 2 ==> n * d >= n * 2;
    assert d == 0 || d == 1;
  }

  lemma Rotated(n: nat, start: nat, r: nat)
    requires start < n && 0 < r <= n
    ensures ((start + r - 1) % n + 1) % n == (start + r) % n
    ensures (start + r) % n == start <==> r == n
  {
    ModOnce(start + r - 1, n);
    ModOnce(start + r, n);
    ModOnce((start + r - 1) % n + 1, n);
  }

  /** The same for the generator, whatever seed other goroutines have left. */
  lemma SeededDelay(seed: nat)
    ensures 14400 <= BackoffMs(MAX_RETRIES_PER_URL, Random(NextSeed(seed))) <= 17600
  {
    RotationDelay(Random(NextSeed(seed)));
  }

  /** succeeds(i) says whether attempt i succeeds, seed(i) is what the generator's seed holds when
      rotation i draws from it. For every outcome of the requests and every jitter: the attempts go five at a time
      cyclically from the start endpoint, there are at most 106, and with at most 18 endpoints a
      total failure means that all were exhausted after five attempts on each. */
  method ExecuteWithEndpointRotation(n: nat, start: nat, succeeds: nat -> bool, seed: nat -> nat)
    returns (outcome: Outcome, tried: seq<nat>)
    requires n > 0 ==> start < n
    ensures outcome == NoEndpoints <==> n == 0
    ensures n == 0 ==> tried == []
    ensures n > 0 ==> Cyclic(n, start, tried)
    ensures forall i :: 0 <= i < |tried| ==> n > 0 && tried[i] == (start + i / 5) % n
    ensures |tried| <= 106
    ensures n > 0 && outcome == Success ==>
      |tried| > 0 && succeeds(|tried| - 1) && forall i :: 0 <= i < |tried| - 1 ==> !succeeds(i)
    ensures n > 0 && outcome != Success ==> forall i :: 0 <= i < |tried| ==> !succeeds(i)
    ensures n > 0 && outcome == Exhausted ==> |tried| == n * MAX_RETRIES_PER_URL
    ensures outcome == DelayExceeded ==> n >= 19
    ensures outcome == Exhausted ==> n <= 21
  {
    tried := [];
    if n == 0 { return NoEndpoints, []; }
    var currentEndpointIndex, startEndpointIndex := start, start;
    var retriesPerEndpoint := 0;
    var totalDelay := 0;
    var rotations: nat := 0;
    while true
      invariant rotations < n && 0 <= retriesPerEndpoint <= MAX_RETRIES_PER_URL
      invariant startEndpointIndex == start && currentEndpointIndex == (start + rotations) % n
      invariant |tried| == rotations * MAX_RETRIES_PER_URL + retriesPerEndpoint
      invariant 14400 * rotations <= totalDelay <= 17600 * rotations && totalDelay <= MAX_TOTAL_DELAY_MS
      invariant Cyclic(n, start, tried)
      invariant forall i :: 0 <= i < |tried| ==> !succeeds(i)
      decreases 106 - |tried|
    {
      if retriesPerEndpoint >= MAX_RETRIES_PER_URL {
        var backoffDelay := BackoffMs(retriesPerEndpoint, Random(NextSeed(seed(rotations))));
        SeededDelay(seed(rotations));
        totalDelay := totalDelay + backoffDelay;
        rotations := rotations + 1;
        Rotated(n, start, rotations);
        currentEndpointIndex := (currentEndpointIndex + 1) % n;
        retriesPerEndpoint := 0;
        if currentEndpointIndex == startEndpointIndex {
          return Exhausted, tried;
        }
      }
      EndpointAt(n, start, rotations, retriesPerEndpoint);
      CyclicNext(n, start, tried, currentEndpointIndex);
      tried := tried + [currentEndpointIndex];
      if succeeds(|tried| - 1) {
        return Success, tried;
      }
      retriesPerEndpoint := retriesPerEndpoint + 1;
      if totalDelay > MAX_TOTAL_DELAY_MS {
        return DelayExceeded, tried;
      }
    }
  }

  /** When all endpoints were exhausted, each was tried exactly five times, in a row. */
  lemma EachExactlyFive(n: nat, start: nat, tried: seq<nat>, e: nat) returns (q: nat)
    requires start < n && e < n && |tried| == n * MAX_RETRIES_PER_URL && Cyclic(n, start, tried)
    ensures q < n
    ensures forall i :: 0 <= i < |tried| ==>
            (tried[i] == e <==> q * MAX_RETRIES_PER_URL <= i < (q + 1) * MAX_RETRIES_PER_URL)
  {
    q := if e >= start then e - start else e + n - start;
    forall i | 0 <= i < |tried|
      ensures tried[i] == e <==> q * MAX_RETRIES_PER_URL <= i < (q + 1) * MAX_RETRIES_PER_URL
    {
      var r := i / MAX_RETRIES_PER_URL;
      ModOnce(start + r, n);
      assert tried[i] == (start + r) % n;
    }
  }
}
