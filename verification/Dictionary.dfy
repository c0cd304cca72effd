/** The account dictionary: GetOrCreateAccountIds finds or creates ids through a cache that may
    lose entries at any time. */
module Dictionary {
  import opened Common
  import opened Address

  /** Bech32 decoding and encoding; addresses are lower-case hex digits as in Address. */
  datatype Codec = Codec(bech: Bech32, spell: string -> string)

  ghost predicate GoodCodec(c: Codec) {
    GoodBech32(c.bech) &&
    forall a :: IsAccount(a) ==> c.bech(c.spell(a)) == Some(a) && !Has0x(c.spell(a))
  }

  function Addr(c: Codec, s: string): Option<string> {
    Parse(c.bech, s)
  }

  /** The spelling the code uses as a map key. */
  predicate IsCanonical(c: Codec, s: string) {
    Addr(c, s).Some? && c.spell(Addr(c, s).value) == s
  }

  /** The dictionary table: ids by address, and the next id of its sequence. */
  datatype Dict = Dict(rows: map<string, nat>, nextId: nat)

  ghost predicate DictOk(d: Dict) {
    && d.nextId > 0
    && (forall a :: a in d.rows ==> IsAccount(a) && 0 < d.rows[a] < d.nextId)
    && (forall a, b :: a in d.rows && b in d.rows && d.rows[a] == d.rows[b] ==> a == b)
  }

  // ---- plain find-or-insert: the specification --------------------------------------------------

  function InsertOne(c: Codec, d: Dict, s: string): Dict {
    if Addr(c, s).None? || Addr(c, s).value in d.rows then d
    else Dict(d.rows[Addr(c, s).value := d.nextId], d.nextId + 1)
  }

  function InsertAll(c: Codec, d: Dict, ss: seq<string>): Dict
    decreases |ss|
  {
    if ss == [] then d else InsertAll(c, InsertOne(c, d, ss[0]), ss[1..])
  }

  predicate Known(c: Codec, d: Dict, s: string) {
    Addr(c, s).Some? && Addr(c, s).value in d.rows
  }

  /** The ids of those accounts that have one. */
  function IdsIn(c: Codec, d: Dict, ss: seq<string>): map<string, nat> {
    map s | s in ss && Known(c, d, s) :: d.rows[Addr(c, s).value]
  }

  /** What an insert from d to d' reports for s: the new id, or 0 when s was already there. */
  function CreatedId(c: Codec, d: Dict, d': Dict, s: string): nat {
    if Known(c, d, s) || !Known(c, d', s) then 0 else d'.rows[Addr(c, s).value]
  }

  ghost predicate Grows(d: Dict, d': Dict) {
    d.nextId <= d'.nextId && forall a :: a in d.rows ==> a in d'.rows && d'.rows[a] == d.rows[a]
  }

  lemma InsertOneOk(c: Codec, d: Dict, s: string)
    requires GoodCodec(c) && DictOk(d)
    ensures var d' := InsertOne(c, d, s);
            DictOk(d') && Grows(d, d') && (Addr(c, s).Some? ==> Known(c, d', s)) &&
            (forall a :: a in d'.rows ==> a in d.rows || Addr(c, s) == Some(a))
  {
    if Addr(c, s).Some? { ParseAccount(c.bech, s); }
  }

  /** Find-or-insert keeps ids unique, never changes one, and gives every valid account an id. */
  lemma {:induction false} InsertAllOk(c: Codec, d: Dict, ss: seq<string>)
    requires GoodCodec(c) && DictOk(d)
    ensures var d' := InsertAll(c, d, ss);
            DictOk(d') && Grows(d, d') &&
            (forall s :: s in ss && Addr(c, s).Some? ==> Known(c, d', s)) &&
            (forall a :: a in d'.rows ==> a in d.rows || exists s :: s in ss && Addr(c, s) == Some(a))
    decreases |ss|
  {
    if ss != [] {
      InsertOneOk(c, d, ss[0]);
      InsertAllOk(c, InsertOne(c, d, ss[0]), ss[1..]);
      assert forall s :: s in ss <==> s == ss[0] || s in ss[1..];
    }
  }

  lemma {:induction false} InsertConcat(c: Codec, d: Dict, a: seq<string>, b: seq<string>)
    ensures InsertAll(c, d, a + b) == InsertAll(c, InsertAll(c, d, a), b)
    decreases |a|
  {
    if a == [] {
      assert a + b == b;
    } else {
      assert (a + b)[1..] == a[1..] + b;
      InsertConcat(c, InsertOne(c, d, a[0]), a[1..], b);
    }
  }

  /** An account already known, or listed before, can be left out of the list. */
  lemma SkipKnown(c: Codec, d: Dict, a: seq<string>, x: string, b: seq<string>)
    requires GoodCodec(c) && DictOk(d)
    requires x in a || Known(c, d, x) || Addr(c, x).None?
    ensures InsertAll(c, d, a + [x] + b) == InsertAll(c, d, a + b)
  {
    InsertAllOk(c, d, a);
    var d' := InsertAll(c, d, a);
    InsertConcat(c, d, a, b);
    InsertConcat(c, d, a + [x], b);
    InsertConcat(c, d, a, [x]);
    assert InsertAll(c, d', [x]) == InsertAll(c, InsertOne(c, d', x), [x][1..]) == InsertOne(c, d', x) == d';
  }

  /** Inserting what was kept so far and then the rest of the list has the effect of the whole. */
  ghost predicate Pending(c: Codec, d: Dict, kept: seq<string>, ss: seq<string>, i: nat, whole: Dict)
    requires i <= |ss|
  {
    InsertAll(c, d, kept + ss[i..]) == whole
  }

  lemma PendingStart(c: Codec, d: Dict, ss: seq<string>)
    ensures Pending(c, d, [], ss, 0, InsertAll(c, d, ss))
  {
    assert [] + ss[0..] == ss;
  }

  lemma PendingEnd(c: Codec, d: Dict, kept: seq<string>, ss: seq<string>, whole: Dict)
    requires Pending(c, d, kept, ss, |ss|, whole)
    ensures InsertAll(c, d, kept) == whole
  {
    assert kept + ss[|ss|..] == kept;
  }

  lemma PendingStep(c: Codec, d: Dict, kept: seq<string>, ss: seq<string>, i: nat, whole: Dict)
    requires GoodCodec(c) && DictOk(d) && i < |ss| && Pending(c, d, kept, ss, i, whole)
    ensures Pending(c, d, kept + [ss[i]], ss, i + 1, whole)
    ensures ss[i] in kept || Known(c, d, ss[i]) ==> Pending(c, d, kept, ss, i + 1, whole)
  {
    assert kept + ss[i..] == kept + [ss[i]] + ss[i + 1..];
    if ss[i] in kept || Known(c, d, ss[i]) { SkipKnown(c, d, kept, ss[i], ss[i + 1..]); }
  }

  // ---- the cache ------------------------------------------------------------------------------------

  /** A cache entry for a canonical spelling holds the id of the table. */
  ghost predicate Agrees(c: Codec, d: Dict, cache: map<string, nat>) {
    forall k :: k in cache ==> IsCanonical(c, k) && Known(c, d, k) && cache[k] == d.rows[Addr(c, k).value]
  }

  /** When the database transaction around a call is rolled back, the cache still agrees with the
      table only if it kept no key of an account the call created. */
  lemma RollbackIff(c: Codec, d: Dict, d': Dict, cache: map<string, nat>)
    requires Grows(d, d') && Agrees(c, d', cache)
    ensures Agrees(c, d, cache) <==> forall k :: k in cache ==> Known(c, d, k)
  {}

  class AccountDictionary {
    const codec: Codec
    var dict: Dict
    var cache: map<string, nat>

    ghost predicate Valid()
      reads this
    {
      GoodCodec(codec) && DictOk(dict) && Agrees(codec, dict, cache)
    }

    constructor (codec: Codec)
      requires GoodCodec(codec)
      ensures Valid() && this.codec == codec && dict == Dict(map[], 1) && cache == map[]
    {
      this.codec, dict, cache := codec, Dict(map[], 1), map[];
    }

    /** The LRU drops any entries at any time. */
    method Evict(keys: set<string>)
      requires Valid()
      modifies this`cache
      ensures Valid() && cache == old(cache) - keys
    {
      cache := cache - keys;
    }

    /** The canonical spelling of s. */
    function Key(s: string): string
      requires Addr(codec, s).Some?
    {
      codec.spell(Addr(codec, s).value)
    }

    predicate Hit(s: string)
      reads this
    {
      Addr(codec, s).Some? && Key(s) in cache
    }

    lemma HitKnown(s: string)
      requires Valid() && Hit(s)
      ensures Known(codec, dict, s) && cache[Key(s)] == dict.rows[Addr(codec, s).value]
    {
      ParseAccount(codec.bech, s);
    }

    method Dedup(accounts: seq<string>) returns (deduped: seq<string>)
      requires Valid()
      ensures Distinct(deduped) && forall s :: s in deduped <==> s in accounts
      ensures InsertAll(codec, dict, deduped) == InsertAll(codec, dict, accounts)
    {
      deduped := [];
      ghost var whole := InsertAll(codec, dict, accounts);
      PendingStart(codec, dict, accounts);
      for i := 0 to |accounts|
        invariant Distinct(deduped) && forall s :: s in deduped <==> s in accounts[..i]
        invariant Pending(codec, dict, deduped, accounts, i, whole)
      {
        assert accounts[..i + 1] == accounts[..i] + [accounts[i]];
        PendingStep(codec, dict, deduped, accounts, i, whole);
        if accounts[i] !in deduped {
          DistinctSnoc(deduped, accounts[i]);
          deduped := deduped + [accounts[i]];
        }
      }
      assert accounts[..|accounts|] == accounts;
      PendingEnd(codec, dict, deduped, accounts, whole);
    }

    /** checkAccountCache. */
    method CheckCache(accounts: seq<string>) returns (idMap: map<string, nat>, uncached: seq<string>)
      requires Valid() && Distinct(accounts)
      ensures forall s :: s in idMap <==> s in accounts && Hit(s)
      ensures forall s :: s in idMap ==> Known(codec, dict, s) && idMap[s] == dict.rows[Addr(codec, s).value]
      ensures Distinct(uncached) && forall s :: s in uncached <==> s in accounts && !Hit(s)
      ensures InsertAll(codec, dict, uncached) == InsertAll(codec, dict, accounts)
    {
      idMap, uncached := map[], [];
      ghost var whole := InsertAll(codec, dict, accounts);
      PendingStart(codec, dict, accounts);
      for i := 0 to |accounts|
        invariant forall s :: s in idMap <==> s in accounts[..i] && Hit(s)
        invariant forall s :: s in idMap ==> Known(codec, dict, s) && idMap[s] == dict.rows[Addr(codec, s).value]
        invariant Distinct(uncached) && forall s :: s in uncached <==> s in accounts[..i] && !Hit(s)
        invariant Pending(codec, dict, uncached, accounts, i, whole)
      {
        var s := accounts[i];
        NotBefore(accounts, i);
        assert forall x :: x in accounts[..i + 1] <==> x in accounts[..i] || x == s;
        PendingStep(codec, dict, uncached, accounts, i, whole);
        if Hit(s) {
          HitKnown(s);
          idMap := idMap[s := cache[Key(s)]];
        } else {
          DistinctSnoc(uncached, s);
          uncached := uncached + [s];
        }
      }
      assert accounts[..|accounts|] == accounts;
      PendingEnd(codec, dict, uncached, accounts, whole);
    }

    /** fetchAccountsFromDB: the query's result by canonical spelling, or an error on a spelling
        that does not parse. */
    method Fetch(uncached: seq<string>) returns (ok: bool, found: map<string, nat>)
      requires Valid()
      ensures ok <==> forall s :: s in uncached ==> Addr(codec, s).Some?
      ensures ok ==> found.Keys == set s | s in uncached && Known(codec, dict, s) :: Key(s)
      ensures ok ==> forall s :: s in uncached && Known(codec, dict, s) ==>
                Key(s) in found &&
                found[Key(s)] == dict.rows[Addr(codec, s).value]
    {
      found := map[];
      for i := 0 to |uncached|
        invariant forall k :: 0 <= k < i ==> Addr(codec, uncached[k]).Some?
        invariant Fetched(dict, uncached[..i], found)
      {
        if Addr(codec, uncached[i]).None? { return false, map[]; }
        FetchedNext(dict, uncached, i, found);
        found := WithFetched(dict, found, uncached[i]);
      }
      assert uncached[..|uncached|] == uncached;
      ok := true;
    }

    /** The query's result for the accounts ss, by canonical spelling. */
    ghost predicate Fetched(d: Dict, ss: seq<string>, found: map<string, nat>) {
      found.Keys == (set s | s in ss && Known(codec, d, s) :: Key(s)) &&
      forall s :: s in ss && Known(codec, d, s) ==> Key(s) in found && found[Key(s)] == d.rows[Addr(codec, s).value]
    }

    function WithFetched(d: Dict, found: map<string, nat>, s: string): map<string, nat> {
      if Known(codec, d, s) then found[Key(s) := d.rows[Addr(codec, s).value]] else found
    }

    lemma FetchedNext(d: Dict, ss: seq<string>, i: nat, found: map<string, nat>)
      requires GoodCodec(codec) && i < |ss| && Fetched(d, ss[..i], found) && Addr(codec, ss[i]).Some?
      ensures Fetched(d, ss[..i + 1], WithFetched(d, found, ss[i]))
    {
      var s, next := ss[i], WithFetched(d, found, ss[i]);
      forall t | t in ss[..i] && Known(codec, d, t) ensures Key(t) == Key(s) ==> Addr(codec, t) == Addr(codec, s) {
        KeyInjective(t, s);
      }
      assert forall t :: t in ss[..i + 1] <==> t in ss[..i] || t == s;
      forall k ensures k in next <==> k in (set t | t in ss[..i + 1] && Known(codec, d, t) :: Key(t)) {}
    }

    /** Entries found or created, by canonical spelling, with the ids of table d. */
    ghost predicate Right(d: Dict, found: map<string, nat>) {
      forall k :: k in found ==> IsCanonical(codec, k) && Known(codec, d, k) && found[k] == d.rows[Addr(codec, k).value]
    }

    /** The uncached accounts that are inserted: the code looks them up by their raw spelling. */
    predicate Enters(d: Dict, s: string) {
      !(IsCanonical(codec, s) && Known(codec, d, s))
    }

    /** Inserting s among ss conflicts with nothing: its account is neither stored nor listed in
        another spelling. */
    ghost predicate Lone(d: Dict, ss: seq<string>, s: string) {
      !Known(codec, d, s) && forall t :: t in ss && t != s ==> Addr(codec, t) != Addr(codec, s)
    }

    ghost predicate ConflictFree(d: Dict, ss: seq<string>) {
      forall s :: s in ss ==> Lone(d, ss, s)
    }

    /** The same, for those accounts of a list that are inserted. */
    ghost predicate NoConflict(d: Dict, ss: seq<string>) {
      forall s :: s in ss && Enters(d, s) ==>
        !Known(codec, d, s) && forall t :: t in ss && Enters(d, t) && t != s ==> Addr(codec, t) != Addr(codec, s)
    }

    lemma KeyIsCanonical(s: string)
      requires GoodCodec(codec) && Addr(codec, s).Some?
      ensures IsCanonical(codec, Key(s)) && Addr(codec, Key(s)) == Addr(codec, s)
    {
      ParseAccount(codec.bech, s);
    }

    lemma KeyInjective(s: string, t: string)
      requires GoodCodec(codec) && Addr(codec, s).Some? && Addr(codec, t).Some?
      ensures Key(s) == Key(t) <==> Addr(codec, s) == Addr(codec, t)
    {
      KeyIsCanonical(s);
      KeyIsCanonical(t);
    }

    /** The accounts that createNewAccountEntries inserts. */
    method NewEntries(uncached: seq<string>, found: map<string, nat>) returns (entries: seq<string>)
      requires Valid() && Distinct(uncached) && Right(dict, found)
      ensures Distinct(entries) && forall s :: s in entries <==> s in uncached && s !in found
      ensures InsertAll(codec, dict, entries) == InsertAll(codec, dict, uncached)
    {
      entries := [];
      ghost var whole := InsertAll(codec, dict, uncached);
      PendingStart(codec, dict, uncached);
      for i := 0 to |uncached|
        invariant Distinct(entries) && forall s :: s in entries <==> s in uncached[..i] && s !in found
        invariant Pending(codec, dict, entries, uncached, i, whole)
      {
        NotBefore(uncached, i);
        assert forall x :: x in uncached[..i + 1] <==> x in uncached[..i] || x == uncached[i];
        PendingStep(codec, dict, entries, uncached, i, whole);
        if uncached[i] !in found {
          DistinctSnoc(entries, uncached[i]);
          entries := entries + [uncached[i]];
        }
      }
      assert uncached[..|uncached|] == uncached;
      PendingEnd(codec, dict, entries, uncached, whole);
    }

    /** INSERT ... ON CONFLICT DO NOTHING: a conflicting entry comes back with id 0. */
    method InsertEntry(s: string) returns (id: nat)
      requires GoodCodec(codec) && DictOk(dict) && Addr(codec, s).Some?
      modifies this`dict
      ensures dict == InsertOne(codec, old(dict), s) && DictOk(dict) && Grows(old(dict), dict)
      ensures id == CreatedId(codec, old(dict), dict, s)
    {
      ParseAccount(codec.bech, s);
      var a := Addr(codec, s).value;
      if a in dict.rows {
        id := 0;
      } else {
        id := dict.nextId;
        dict := Dict(dict.rows[a := id], id + 1);
      }
    }

    // ---- what a list of inserts reports ---------------------------------------------------------

    /** The table d after inserting ss: the accounts of start and those of ss. */
    ghost predicate Inserted(start: Dict, d: Dict, ss: seq<string>) {
      && (forall s :: s in ss ==> Known(codec, d, s))
      && (forall a :: a in d.rows ==> a in start.rows || exists s :: s in ss && Addr(codec, s) == Some(a))
      && (forall a :: a in start.rows ==> a in d.rows)
    }

    /** found has the id of an inserted account exactly if its insert was free of conflicts, and
        0 otherwise; other keys are as in found0. */
    ghost predicate Reports(start: Dict, d: Dict, found0: map<string, nat>, found: map<string, nat>, ss: seq<string>) {
      && (forall s :: s in ss ==> Reported(start, d, found, ss, s))
      && (forall k :: k in found0 ==> k in found)
      && (forall k :: k in found ==> (k in found0 && found[k] == found0[k]) || HasKey(ss, k))
    }

    ghost predicate Reported(start: Dict, d: Dict, found: map<string, nat>, ss: seq<string>, s: string) {
      Known(codec, d, s) && Key(s) in found &&
      found[Key(s)] == if Lone(start, ss, s) then d.rows[Addr(codec, s).value] else 0
    }

    ghost predicate HasKey(ss: seq<string>, k: string) {
      exists s :: s in ss && Addr(codec, s).Some? && Key(s) == k
    }

    /** An entry is new to the table exactly if nothing conflicts with it so far. */
    lemma NewIffLone(start: Dict, d: Dict, ss: seq<string>, s: string)
      requires Inserted(start, d, ss) && s !in ss && Addr(codec, s).Some?
      ensures !Known(codec, d, s) <==> Lone(start, ss + [s], s)
    {
      assert forall t :: t in ss + [s] <==> t in ss || t == s;
      if Known(codec, d, s) && !Known(codec, start, s) {
        var t :| t in ss && Addr(codec, t) == Addr(codec, s);
        assert t in ss + [s];
      }
    }

    lemma InsertedStep(start: Dict, d: Dict, ss: seq<string>, s: string)
      requires Inserted(start, d, ss) && Addr(codec, s).Some?
      ensures Inserted(start, InsertOne(codec, d, s), ss + [s])
    {
      var d' := InsertOne(codec, d, s);
      assert forall t :: t in ss + [s] <==> t in ss || t == s;
      forall a | a in d'.rows ensures a in start.rows || exists t :: t in ss + [s] && Addr(codec, t) == Some(a) {
        if a in d.rows && a !in start.rows {
          var t :| t in ss && Addr(codec, t) == Some(a);
          assert t in ss + [s];
        } else if a !in d.rows {
          assert s in ss + [s];
        }
      }
    }

    lemma ReportedNew(start: Dict, d: Dict, found: map<string, nat>, ss: seq<string>, s: string, id: nat)
      requires Inserted(start, d, ss) && s !in ss && Addr(codec, s).Some?
      requires id == CreatedId(codec, d, InsertOne(codec, d, s), s)
      ensures Reported(start, InsertOne(codec, d, s), found[Key(s) := id], ss + [s], s)
    {
      NewIffLone(start, d, ss, s);
    }

    lemma ReportedOther(start: Dict, d: Dict, found: map<string, nat>, ss: seq<string>, s: string, id: nat, t: string)
      requires GoodCodec(codec) && t in ss && Reported(start, d, found, ss, t) && s !in ss && Addr(codec, s).Some?
      requires id == CreatedId(codec, d, InsertOne(codec, d, s), s)
      ensures Reported(start, InsertOne(codec, d, s), found[Key(s) := id], ss + [s], t)
    {
      KeyInjective(s, t);
      OtherLone(start, ss, s, t);
    }

    lemma ReportsStep(start: Dict, d: Dict, found0: map<string, nat>, found: map<string, nat>, ss: seq<string>,
                      s: string, id: nat)
      requires GoodCodec(codec) && Inserted(start, d, ss) && Reports(start, d, found0, found, ss)
      requires s !in ss && Addr(codec, s).Some? && id == CreatedId(codec, d, InsertOne(codec, d, s), s)
      ensures Reports(start, InsertOne(codec, d, s), found0, found[Key(s) := id], ss + [s])
    {
      var d', found', ss' := InsertOne(codec, d, s), found[Key(s) := id], ss + [s];
      assert forall t :: t in ss' <==> t in ss || t == s;
      forall t | t in ss' ensures Reported(start, d', found', ss', t) {
        if t == s { ReportedNew(start, d, found, ss, s, id); } else { ReportedOther(start, d, found, ss, s, id, t); }
      }
      forall k | k in found' ensures (k in found0 && found'[k] == found0[k]) || HasKey(ss', k) {
        if k == Key(s) {
          assert s in ss';
        } else if HasKey(ss, k) {
          var t :| t in ss && Addr(codec, t).Some? && Key(t) == k;
          assert t in ss';
        }
      }
    }

    lemma OtherLone(start: Dict, ss: seq<string>, s: string, t: string)
      requires t in ss && t != s
      ensures Lone(start, ss + [s], t) <==> Lone(start, ss, t) && Addr(codec, s) != Addr(codec, t)
    {
      assert forall x :: x in ss + [s] <==> x in ss || x == s;
    }

    lemma InsertFrom(d: Dict, entries: seq<string>, i: nat)
      requires i < |entries|
      ensures InsertAll(codec, d, entries[i..]) == InsertAll(codec, InsertOne(codec, d, entries[i]), entries[i + 1..])
    {
      assert entries[i..][0] == entries[i] && entries[i..][1..] == entries[i + 1..];
    }

    method InsertEntries(entries: seq<string>, found0: map<string, nat>) returns (found: map<string, nat>)
      requires GoodCodec(codec) && DictOk(dict) && Distinct(entries)
      requires forall s :: s in entries ==> Addr(codec, s).Some?
      modifies this`dict
      ensures dict == InsertAll(codec, old(dict), entries) && DictOk(dict) && Grows(old(dict), dict)
      ensures Reports(old(dict), dict, found0, found, entries)
    {
      found := found0;
      ghost var start, whole := dict, InsertAll(codec, dict, entries);
      assert entries[0..] == entries && entries[..0] == [];
      for i := 0 to |entries|
        invariant DictOk(dict) && Grows(start, dict)
        invariant InsertAll(codec, dict, entries[i..]) == whole
        invariant Inserted(start, dict, entries[..i])
        invariant Reports(start, dict, found0, found, entries[..i])
      {
        var s := entries[i];
        assert s in entries && entries[..i + 1] == entries[..i] + [s];
        NotBefore(entries, i);
        ghost var before := dict;
        InsertFrom(dict, entries, i);
        var id := InsertEntry(s);
        InsertedStep(start, before, entries[..i], s);
        ReportsStep(start, before, found0, found, entries[..i], s, id);
        found := found[Key(s) := id];
      }
      assert entries[|entries|..] == [] && entries[..|entries|] == entries;
    }

    /** The reported ids are right exactly if no insert conflicted. */
    lemma RightIff(start: Dict, d: Dict, found0: map<string, nat>, found: map<string, nat>, entries: seq<string>)
      requires GoodCodec(codec) && DictOk(d) && Grows(start, d) && Right(start, found0)
      requires forall s :: s in entries ==> Addr(codec, s).Some?
      requires Reports(start, d, found0, found, entries)
      ensures Right(d, found) <==> ConflictFree(start, entries)
    {
      if ConflictFree(start, entries) {
        forall k | k in found
          ensures IsCanonical(codec, k) && Known(codec, d, k) && found[k] == d.rows[Addr(codec, k).value]
        {
          if HasKey(entries, k) {
            var s :| s in entries && Addr(codec, s).Some? && Key(s) == k;
            KeyIsCanonical(s);
          }
        }
      }
      if Right(d, found) {
        forall s | s in entries ensures Lone(start, entries, s) {
          KeyIsCanonical(s);
        }
      }
    }

    /** createNewAccountEntries: every account of the list gets a row and an entry, and the entries
        are all right exactly if no insert conflicted. */
    method CreateNew(uncached: seq<string>, found0: map<string, nat>) returns (found: map<string, nat>)
      requires Valid() && Distinct(uncached) && Right(dict, found0)
      requires forall s :: s in uncached ==>
               Addr(codec, s).Some? && (IsCanonical(codec, s) && Known(codec, dict, s) ==> s in found0)
      modifies this`dict
      ensures dict == InsertAll(codec, old(dict), uncached) && DictOk(dict) && Grows(old(dict), dict)
      ensures forall s :: s in uncached ==> Known(codec, dict, s) && Key(s) in found
      ensures Right(dict, found) <==> NoConflict(old(dict), uncached)
      ensures !NoConflict(old(dict), uncached) ==> SomeWrong(dict, uncached, found)
    {
      ghost var start := dict;
      var entries := NewEntries(uncached, found0);
      found := InsertEntries(entries, found0);
      InsertAllOk(codec, start, uncached);
      forall s | s in uncached ensures (s in entries <==> Enters(start, s)) && Key(s) in found {
        if s in found0 { assert IsCanonical(codec, s); }
      }
      RightIff(start, dict, found0, found, entries);
      EntriesConflict(start, uncached, entries);
      if !ConflictFree(start, entries) { ConflictIsWrong(start, dict, found, entries, uncached); }
    }

    ghost predicate SomeWrong(d: Dict, uncached: seq<string>, found: map<string, nat>) {
      exists s :: s in uncached && IsWrong(d, found, s)
    }

    ghost predicate IsWrong(d: Dict, found: map<string, nat>, s: string) {
      Known(codec, d, s) && Key(s) in found && found[Key(s)] != d.rows[Addr(codec, s).value]
    }

    lemma EntriesConflict(start: Dict, uncached: seq<string>, entries: seq<string>)
      requires forall s :: s in entries <==> s in uncached && Enters(start, s)
      ensures ConflictFree(start, entries) <==> NoConflict(start, uncached)
    {}

    lemma ConflictIsWrong(start: Dict, d: Dict, found: map<string, nat>, entries: seq<string>, uncached: seq<string>)
      requires DictOk(d) && !ConflictFree(start, entries)
      requires forall s :: s in entries ==> s in uncached && Reported(start, d, found, entries, s)
      ensures SomeWrong(d, uncached, found)
    {
      var s :| s in entries && !Lone(start, entries, s);
      assert Reported(start, d, found, entries, s);
      assert IsWrong(d, found, s);
    }

    /** updateAccountCacheAndResult. */
    method Update(uncached: seq<string>, found: map<string, nat>, idMap0: map<string, nat>)
      returns (idMap: map<string, nat>)
      requires forall s :: s in uncached ==> Addr(codec, s).Some?
      modifies this`cache
      ensures forall s :: s in idMap <==> s in idMap0 || (s in uncached && Key(s) in found)
      ensures forall s :: s in idMap ==>
              idMap[s] == if s in uncached && Key(s) in found then found[Key(s)] else idMap0[s]
      ensures forall k :: k in cache ==>
              (k in old(cache) && cache[k] == old(cache)[k]) || (k in found && cache[k] == found[k])
      ensures forall s :: s in uncached && Key(s) in found ==> Key(s) in cache && cache[Key(s)] == found[Key(s)]
    {
      idMap := idMap0;
      for i := 0 to |uncached|
        invariant forall s :: s in idMap <==> s in idMap0 || (s in uncached[..i] && Key(s) in found)
        invariant forall s :: s in idMap ==>
                  idMap[s] == if s in uncached[..i] && Key(s) in found then found[Key(s)] else idMap0[s]
        invariant forall k :: k in cache ==>
                  (k in old(cache) && cache[k] == old(cache)[k]) || (k in found && cache[k] == found[k])
        invariant forall s :: s in uncached[..i] && Key(s) in found ==>
                  Key(s) in cache && cache[Key(s)] == found[Key(s)]
      {
        var s := uncached[i];
        assert forall x :: x in uncached[..i + 1] <==> x in uncached[..i] || x == s;
        var key := Key(s);
        if key in found {
          cache := cache[key := found[key]];
          idMap := idMap[s := found[key]];
        }
      }
      assert uncached[..|uncached|] == uncached;
    }

    lemma AgreesGrows(d: Dict, d': Dict, before: map<string, nat>, found: map<string, nat>, after: map<string, nat>)
      requires Grows(d, d') && Agrees(codec, d, before) && Right(d', found)
      requires forall k :: k in after ==> (k in before && after[k] == before[k]) || (k in found && after[k] == found[k])
      ensures Agrees(codec, d', after)
    {}

    /** found has the id of each uncached account that table d knows, and of no other. */
    ghost predicate Complete(d: Dict, uncached: seq<string>, found: map<string, nat>) {
      forall s :: s in uncached && Addr(codec, s).Some? ==>
        (Key(s) in found <==> Known(codec, d, s)) &&
          (Known(codec, d, s) ==> found[Key(s)] == d.rows[Addr(codec, s).value])
    }

    lemma RightIsComplete(d: Dict, uncached: seq<string>, found: map<string, nat>)
      requires GoodCodec(codec) && Right(d, found)
      requires forall s :: s in uncached ==> Known(codec, d, s) && Key(s) in found
      ensures Complete(d, uncached, found)
    {
      forall s | s in uncached ensures found[Key(s)] == d.rows[Addr(codec, s).value] { KeyIsCanonical(s); }
    }

    /** What the cache check and the update make of found. */
    ghost predicate Merged(d0: Dict, accounts: seq<string>, uncached: seq<string>, found: map<string, nat>,
                           idMap: map<string, nat>) {
      && (forall s :: s in uncached ==> s in accounts && Addr(codec, s).Some?)
      && (forall s :: s in accounts && s !in uncached ==>
          Known(codec, d0, s) && s in idMap && idMap[s] == d0.rows[Addr(codec, s).value])
      && (forall s :: s in uncached ==> (s in idMap <==> Key(s) in found) && (s in idMap ==> idMap[s] == found[Key(s)]))
      && (forall s :: s in idMap ==> s in accounts)
    }

    lemma ResultIsIds(d0: Dict, d: Dict, accounts: seq<string>, uncached: seq<string>, found: map<string, nat>,
                      idMap: map<string, nat>)
      requires Grows(d0, d) && Complete(d, uncached, found) && Merged(d0, accounts, uncached, found, idMap)
      ensures idMap == IdsIn(codec, d, accounts)
    {
      forall s ensures s in idMap <==> s in accounts && Known(codec, d, s) {}
    }

    lemma ResultIsNotIds(d0: Dict, d: Dict, accounts: seq<string>, uncached: seq<string>, found: map<string, nat>,
                         idMap: map<string, nat>, s: string)
      requires Merged(d0, accounts, uncached, found, idMap)
      requires s in uncached && Known(codec, d, s) && Key(s) in found && found[Key(s)] != d.rows[Addr(codec, s).value]
      ensures idMap != IdsIn(codec, d, accounts)
    {
      assert s in accounts && IdsIn(codec, d, accounts)[s] == d.rows[Addr(codec, s).value];
    }

    /** Everything after the cache check, for the accounts it did not find. */
    method Resolve(uncached: seq<string>, createNew: bool) returns (ok: bool, found: map<string, nat>)
      requires Valid() && Distinct(uncached)
      modifies this`dict
      ensures ok <==> forall s :: s in uncached ==> Addr(codec, s).Some?
      ensures !ok ==> dict == old(dict)
      ensures ok ==> dict == if createNew then InsertAll(codec, old(dict), uncached) else old(dict)
      ensures DictOk(dict) && Grows(old(dict), dict)
      ensures ok && (createNew ==> NoConflict(old(dict), uncached)) ==>
              Right(dict, found) && Complete(dict, uncached, found)
      ensures ok && createNew ==> forall s :: s in uncached ==> Known(codec, dict, s) && Key(s) in found
      ensures ok && createNew && !NoConflict(old(dict), uncached) ==> SomeWrong(dict, uncached, found)
    {
      ok, found := Fetch(uncached);
      if ok {
        FetchedRight(uncached, found);
        if createNew {
          ghost var d0 := dict;
          found := CreateNew(uncached, found);
          if NoConflict(d0, uncached) { RightIsComplete(dict, uncached, found); }
        }
      }
    }

    lemma FetchedRight(uncached: seq<string>, found: map<string, nat>)
      requires Valid() && forall s :: s in uncached ==> Addr(codec, s).Some?
      requires found.Keys == set s | s in uncached && Known(codec, dict, s) :: Key(s)
      requires forall s :: s in uncached && Known(codec, dict, s) ==>
                 Key(s) in found && found[Key(s)] == dict.rows[Addr(codec, s).value]
      ensures Right(dict, found) && Complete(dict, uncached, found)
    {
      forall k | k in found
        ensures IsCanonical(codec, k) && Known(codec, dict, k) && found[k] == dict.rows[Addr(codec, k).value]
      {
        var s :| s in uncached && Known(codec, dict, s) && Key(s) == k;
        KeyIsCanonical(s);
      }
      forall s | s in uncached && Key(s) in found ensures Known(codec, dict, s) {
        var t :| t in uncached && Known(codec, dict, t) && Key(t) == Key(s);
        KeyInjective(s, t);
      }
    }

    lemma WrongBreaks(d: Dict, found: map<string, nat>, after: map<string, nat>, s: string)
      requires GoodCodec(codec) && IsWrong(d, found, s) && Key(s) in after && after[Key(s)] == found[Key(s)]
      ensures !Agrees(codec, d, after)
    {
      KeyIsCanonical(s);
    }

    /** The accounts a creating call inserts are those neither cached nor stored under the canonical
        spelling they are given in; it conflicts if one of them is stored or two are one account. */
    ghost predicate CallNoConflict(accounts: seq<string>)
      reads this
    {
      forall s :: s in accounts && !Hit(s) && Enters(dict, s) ==>
        !Known(codec, dict, s) &&
        forall t :: t in accounts && !Hit(t) && Enters(dict, t) && t != s ==> Addr(codec, t) != Addr(codec, s)
    }

    /** GetOrCreateAccountIds. Whatever the cache has lost, the table changes as find-or-insert does.
        A lookup returns the ids of the table. A creating call returns an id for every account, and
        the ids are those of the table, in the result as in the cache, if and only if no insert
        conflicts; canonical spellings never do. */
    method GetOrCreateAccountIds(accounts: seq<string>, createNew: bool) returns (ok: bool, idMap: map<string, nat>)
      requires Valid()
      modifies this`dict, this`cache
      ensures ok <==> forall s :: s in accounts ==> Addr(codec, s).Some?
      ensures !ok ==> dict == old(dict) && cache == old(cache)
      ensures ok ==> dict == if createNew then InsertAll(codec, old(dict), accounts) else old(dict)
      ensures DictOk(dict) && Grows(old(dict), dict)
      ensures ok && !createNew ==> Valid() && idMap == IdsIn(codec, dict, accounts)
      ensures ok && (createNew ==> old(CallNoConflict(accounts))) ==>
                forall s :: (s in idMap <==> s in accounts && Addr(codec, s).value in dict.rows) &&
                            (s in idMap ==> idMap[s] == dict.rows[Addr(codec, s).value])
      ensures ok && createNew ==> forall s :: s in accounts <==> s in idMap
      ensures ok && createNew ==> (idMap == IdsIn(codec, dict, accounts) <==> old(CallNoConflict(accounts)))
      ensures ok && createNew ==> (Valid() <==> old(CallNoConflict(accounts)))
      ensures (forall s :: s in accounts ==> IsCanonical(codec, s)) ==> old(CallNoConflict(accounts))
    {
      var deduped := Dedup(accounts);
      var idMap0, uncached := CheckCache(deduped);
      forall s | s in accounts && s !in uncached ensures Addr(codec, s).Some? { assert Hit(s); }
      ghost var d0, cache0 := dict, cache;
      assert CallNoConflict(accounts) <==> NoConflict(d0, uncached);
      var found;
      ok, found := Resolve(uncached, createNew);
      if !ok { return ok, idMap0; }
      idMap := Update(uncached, found, idMap0);
      assert Merged(d0, accounts, uncached, found, idMap);
      if createNew ==> NoConflict(d0, uncached) {
        AgreesGrows(d0, dict, cache0, found, cache);
        ResultIsIds(d0, dict, accounts, uncached, found, idMap);
      } else {
        ghost var s :| s in uncached && IsWrong(dict, found, s);
        ResultIsNotIds(d0, dict, accounts, uncached, found, idMap, s);
        WrongBreaks(dict, found, cache, s);
      }
    }
  }
}
