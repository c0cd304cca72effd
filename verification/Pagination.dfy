/** Cursor pagination over a table keyed by an increasing sequence number: following next_key,
    tables that grow between requests, and paging an edge table before selecting. */
module Pagination {
  import opened Common

  datatype Order = Asc | Desc

  // ---- the number in a cursor ------------------------------------------------------------------------

  const TWO_53: nat := 0x20_0000_0000_0000

  /** The spacing of 64-bit floats around n. */
  function Ulp(n: nat): (u: nat)
    ensures u > 0
  {
    if n < TWO_53 then 1 else 2 * Ulp(n / 2)
  }

  /** A cursor value passes through a JSON number: the nearest float, ties to even. */
  function ThroughFloat(n: nat): nat {
    var u := Ulp(n);
    var q, r := n / u, n % u;
    if 2 * r < u || (2 * r == u && q % 2 == 0) then q * u else (q + 1) * u
  }

  /** A cursor comes back unchanged exactly when it is a multiple of the float spacing, which all
      sequences up to 2^53 are and the next one is not. */
  lemma CursorExactIff(n: nat)
    ensures ThroughFloat(n) == n <==> n % Ulp(n) == 0
    ensures n <= TWO_53 ==> ThroughFloat(n) == n
    ensures ThroughFloat(TWO_53 + 1) == TWO_53
  {
    var u := Ulp(n);
    var q, r := n / u, n % u;
    assert n == q * u + r;
    assert (q + 1) * u == q * u + u;
    assert Ulp(TWO_53 / 2) == 1;
    assert Ulp(TWO_53) == 2;
    assert Ulp((TWO_53 + 1) / 2) == 1;
    assert Ulp(TWO_53 + 1) == 2;
    assert ((TWO_53 + 1) / 2) % 2 == 0;
  }

  // ---- one page ------------------------------------------------------------------------------------------

  /** Rows are given by their sequences in ascending order. */
  function Filter(rows: seq<nat>, order: Order, cursor: nat): seq<nat> {
    if rows == [] then []
    else (if (order.Desc? && rows[0] < cursor) || (order.Asc? && rows[0] > cursor) then [rows[0]] else [])
         + Filter(rows[1..], order, cursor)
  }

  function Reverse(s: seq<nat>): (r: seq<nat>)
    ensures |r| == |s| && forall i :: 0 <= i < |s| ==> r[i] == s[|s| - 1 - i]
  {
    seq(|s|, i requires 0 <= i < |s| => s[|s| - 1 - i])
  }

  function Arranged(rows: seq<nat>, order: Order): seq<nat> {
    if order.Desc? then Reverse(rows) else rows
  }

  function Take(s: seq<nat>, n: nat): seq<nat> {
    if |s| <= n then s else s[..n]
  }

  /** ApplySequence: WHERE beyond the cursor, ORDER BY sequence, LIMIT. */
  function Page(rows: seq<nat>, order: Order, cursor: Option<nat>, limit: nat): seq<nat> {
    match cursor
    case None => Take(Arranged(rows, order), limit)
    case Some(c) => Take(Arranged(Filter(rows, order, c), order), limit)
  }

  /** How a cursor value comes back from the key. */
  type Reader = nat -> nat

  /** One list request: the rows of a table that a cursor yields. */
  type Pager = (seq<nat>, Option<nat>) -> seq<nat>

  function Listing(order: Order, limit: nat): Pager {
    (rows, cursor) => Page(rows, order, cursor, limit)
  }

  /** What a client collects that follows next_key: request i sees tables[i], the key names the last
      row of the page, and an empty page has no key. */
  function Follow(tables: seq<seq<nat>>, cursor: Option<nat>, get: Pager, read: Reader): seq<nat>
    decreases |tables|
  {
    if tables == [] then []
    else
      var page := get(tables[0], cursor);
      if page == [] then [] else page + Follow(tables[1..], Some(read(page[|page| - 1])), get, read)
  }

  // ---- tables that only grow at the top --------------------------------------------------------------------

  ghost predicate TableOk(rows: seq<nat>) {
    StrictlyAscending(rows) && forall i :: 0 <= i < |rows| ==> rows[i] <= TWO_53
  }

  ghost predicate Grows(tables: seq<seq<nat>>, i: int, j: int) {
    0 <= i <= j < |tables| ==> tables[i] <= tables[j]
  }

  ghost predicate Growing(tables: seq<seq<nat>>) {
    (forall i :: 0 <= i < |tables| ==> TableOk(tables[i])) && (forall i, j :: Grows(tables, i, j))
  }

  /** The rows of m full pages, that is m * limit. */
  function Rows(m: nat, limit: nat): nat {
    if m == 0 then 0 else limit + Rows(m - 1, limit)
  }

  lemma {:induction false} RowsIsProduct(m: nat, limit: nat)
    ensures Rows(m, limit) == m * limit
  {
    if m > 0 {
      RowsIsProduct(m - 1, limit);
      assert (m - 1) * limit == m * limit - limit;
    }
  }

  lemma {:induction false} FilterAbove(rows: seq<nat>, j: nat)
    requires StrictlyAscending(rows) && j < |rows|
    ensures Filter(rows, Asc, rows[j]) == rows[j + 1..]
    decreases |rows|
  {
    var rest := rows[1..];
    if j > 0 {
      FilterAbove(rest, j - 1);
    } else {
      FilterAll(rest, Asc, rows[0]);
    }
  }

  lemma {:induction false} FilterBelow(rows: seq<nat>, j: nat)
    requires StrictlyAscending(rows) && j < |rows|
    ensures Filter(rows, Desc, rows[j]) == rows[..j]
    decreases |rows|
  {
    var rest := rows[1..];
    if j > 0 {
      FilterBelow(rest, j - 1);
      assert rows[..j] == [rows[0]] + rest[..j - 1];
    } else {
      FilterNone(rest, Desc, rows[0]);
    }
  }

  lemma {:induction false} FilterAll(rows: seq<nat>, order: Order, c: nat)
    requires forall i :: 0 <= i < |rows| ==> if order.Desc? then rows[i] < c else rows[i] > c
    ensures Filter(rows, order, c) == rows
  {
    if rows != [] {
      FilterAll(rows[1..], order, c);
      assert rows == [rows[0]] + rows[1..];
    }
  }

  lemma {:induction false} FilterNone(rows: seq<nat>, order: Order, c: nat)
    requires forall i :: 0 <= i < |rows| ==> if order.Desc? then rows[i] >= c else rows[i] <= c
    ensures Filter(rows, order, c) == []
  {
    if rows != [] { FilterNone(rows[1..], order, c); }
  }

  lemma GrowingTail(tables: seq<seq<nat>>)
    requires tables != [] && Growing(tables)
    ensures Growing(tables[1..])
  {
    assert forall i :: 0 <= i < |tables[1..]| ==> tables[1..][i] == tables[i + 1];
    forall i, j ensures Grows(tables[1..], i, j) {
      assert Grows(tables, i + 1, j + 1);
    }
  }

  // ---- following the key through a listing ---------------------------------------------------------------------

  /** got is the stretch of rows that starts at position from. */
  ghost predicate Stretch(rows: seq<nat>, from: nat, got: seq<nat>) {
    from + |got| <= |rows| && got == rows[from..from + |got|]
  }

  lemma StretchJoin(rows: seq<nat>, from: nat, a: seq<nat>, b: seq<nat>)
    requires Stretch(rows, from, a) && Stretch(rows, from + |a|, b)
    ensures Stretch(rows, from, a + b)
  {
    var end := from + |a| + |b|;
    assert rows[from..end] == rows[from..from + |a|] + rows[from + |a|..end];
  }

  lemma StretchNone(rows: seq<nat>, from: nat)
    requires from <= |rows|
    ensures Stretch(rows, from, [])
  {}

  /** At most m rows were returned; and m of them, or all up to position n. */
  predicate Enough(from: nat, count: nat, m: nat, n: nat) {
    count <= m && (count == m || from + count >= n)
  }

  /** A page of at most limit rows that is full or ends at position n. */
  predicate FullOrEnd(from: nat, count: nat, limit: nat, n: nat) {
    from + count <= n && count <= limit && (count == limit || from + count == n)
  }

  lemma StretchOf(rows: seq<nat>, from: nat, limit: nat, n: nat)
    requires from <= n <= |rows|
    ensures var page := Take(rows[from..n], limit);
            Stretch(rows, from, page) && FullOrEnd(from, |page|, limit, n)
  {
    var page := Take(rows[from..n], limit);
    assert page == rows[from..from + |page|];
  }

  /** With the cursor at position p of the listing, table t shows the next page of its first k rows. */
  ghost predicate Shows(get: Pager, limit: nat, t: seq<nat>, listing: seq<nat>, k: nat, p: nat) {
    p < k <= |listing| ==>
      var page := get(t, Some(listing[p]));
      Stretch(listing, p + 1, page) && FullOrEnd(p + 1, |page|, limit, k)
  }

  ghost predicate ShowsAll(get: Pager, limit: nat, t: seq<nat>, listing: seq<nat>, k: nat) {
    forall p :: Shows(get, limit, t, listing, k, p)
  }

  /** Each table shows at least as many rows of the listing as the one before it, the first at least n. */
  ghost predicate Serves(get: Pager, limit: nat, tables: seq<seq<nat>>, reach: seq<nat> -> nat, listing: seq<nat>,
                         n: nat)
    decreases |tables|
  {
    tables == [] ||
    (n <= reach(tables[0]) <= |listing| && ShowsAll(get, limit, tables[0], listing, reach(tables[0])) &&
     Serves(get, limit, tables[1..], reach, listing, reach(tables[0])))
  }

  ghost predicate ReadsBack(read: Reader, rows: seq<nat>) {
    forall i :: 0 <= i < |rows| ==> read(rows[i]) == rows[i]
  }

  lemma FloatReadsBack(rows: seq<nat>)
    requires TableOk(rows)
    ensures ReadsBack(ThroughFloat, rows)
  {
    forall i | 0 <= i < |rows| ensures ThroughFloat(rows[i]) == rows[i] {
      CursorExactIff(rows[i]);
    }
  }

  /** From the cursor at position p, the requests return the following rows of the listing without a
      gap, as many as full pages hold or as far as the first table reaches. */
  lemma {:induction false} FollowFrom(tables: seq<seq<nat>>, reach: seq<nat> -> nat, listing: seq<nat>, p: nat,
                                      limit: nat, n: nat, get: Pager, read: Reader)
    requires ReadsBack(read, listing) && limit > 0 && p < n <= |listing|
    requires Serves(get, limit, tables, reach, listing, n)
    ensures var got := Follow(tables, Some(listing[p]), get, read);
            Stretch(listing, p + 1, got) && Enough(p + 1, |got|, Rows(|tables|, limit), n)
    decreases |tables|, 0
  {
    if tables != [] {
      assert Shows(get, limit, tables[0], listing, reach(tables[0]), p);
      FollowNext(tables, reach, listing, Some(listing[p]), p + 1, limit, n, get, read);
    } else {
      StretchNone(listing, p + 1);
    }
  }

  /** The same from any cursor whose page starts at that position. */
  lemma {:induction false} FollowNext(tables: seq<seq<nat>>, reach: seq<nat> -> nat, listing: seq<nat>,
                                      cursor: Option<nat>, from: nat,
                                      limit: nat, n: nat, get: Pager, read: Reader)
    requires ReadsBack(read, listing) && limit > 0 && from <= |listing|
    requires tables != [] && n <= reach(tables[0]) <= |listing|
    requires Serves(get, limit, tables[1..], reach, listing, reach(tables[0]))
    requires var page := get(tables[0], cursor);
             Stretch(listing, from, page) && FullOrEnd(from, |page|, limit, reach(tables[0]))
    ensures var got := Follow(tables, cursor, get, read);
            Stretch(listing, from, got) && Enough(from, |got|, Rows(|tables|, limit), n)
    decreases |tables| - 1, 1
  {
    var page := get(tables[0], cursor);
    if page == [] {
      StretchNone(listing, from);
    } else {
      var p' := from + |page| - 1;
      assert page[|page| - 1] == listing[p'] && read(listing[p']) == listing[p'];
      FollowFrom(tables[1..], reach, listing, p', limit, reach(tables[0]), get, read);
      StretchJoin(listing, from, page, Follow(tables[1..], Some(listing[p']), get, read));
    }
  }

  // ---- newest first --------------------------------------------------------------------------------------------

  lemma ReverseDrop(base: seq<nat>, j: nat)
    requires j < |base|
    ensures Reverse(base[..j]) == Reverse(base)[|base| - j..|base|]
  {}

  lemma {:induction false} PageBelow(t: seq<nat>, base: seq<nat>, j: nat, limit: nat)
    requires TableOk(t) && base <= t && j < |base|
    ensures Page(t, Desc, Some(base[j]), limit) == Take(Reverse(base)[|base| - j..|base|], limit)
  {
    assert t[j] == base[j] && t[..j] == base[..j];
    FilterBelow(t, j);
    ReverseDrop(base, j);
  }

  lemma {:induction false} PageAfter(t: seq<nat>, base: seq<nat>, p: nat, limit: nat)
    requires TableOk(t) && base <= t && p < |base|
    ensures Listing(Desc, limit)(t, Some(Reverse(base)[p])) == Take(Reverse(base)[p + 1..|base|], limit)
  {
    PageBelow(t, base, |base| - 1 - p, limit);
  }

  /** Every table that begins with base shows base, newest first. */
  lemma {:induction false} DescShows(t: seq<nat>, base: seq<nat>, limit: nat)
    requires TableOk(t) && base <= t
    ensures ShowsAll(Listing(Desc, limit), limit, t, Reverse(base), |base|)
  {
    forall p: nat | p < |base| ensures Shows(Listing(Desc, limit), limit, t, Reverse(base), |base|, p) {
      PageAfter(t, base, p, limit);
      ShowsNext(Listing(Desc, limit), limit, t, Reverse(base), |base|, p);
    }
  }

  lemma ShowsNext(get: Pager, limit: nat, t: seq<nat>, listing: seq<nat>, k: nat, p: nat)
    requires p < k <= |listing| && get(t, Some(listing[p])) == Take(listing[p + 1..k], limit)
    ensures Shows(get, limit, t, listing, k, p)
  {
    StretchOf(listing, p + 1, limit, k);
  }

  lemma {:induction false} DescServes(tables: seq<seq<nat>>, base: seq<nat>, limit: nat)
    requires Growing(tables) && (tables != [] ==> base <= tables[0])
    ensures Serves(Listing(Desc, limit), limit, tables, _ => |base|, Reverse(base), |base|)
    decreases |tables|
  {
    if tables != [] {
      DescShows(tables[0], base, limit);
      GrowingTail(tables);
      if |tables| > 1 { assert Grows(tables, 0, 1); }
      DescServes(tables[1..], base, limit);
    }
  }

  /** Newest first, while newer rows keep being appended: m requests return exactly the first
      m * limit rows that were there at the first request, in order, each once; so enough requests
      return all of them and the next page is empty. */
  lemma DescendingListing(tables: seq<seq<nat>>, limit: nat)
    requires Growing(tables) && tables != [] && limit > 0
    ensures var got := Follow(tables, None, Listing(Desc, limit), ThroughFloat);
            got == Take(Reverse(tables[0]), |tables| * limit) &&
            (|tables| * limit >= |tables[0]| ==> got == Reverse(tables[0]))
  {
    var t, get := tables[0], Listing(Desc, limit);
    var listing := Reverse(t);
    DescServes(tables, t, limit);
    FloatReadsBack(t);
    assert ReadsBack(ThroughFloat, listing);
    assert listing[0..|t|] == listing;
    StretchOf(listing, 0, limit, |t|);
    FollowNext(tables, _ => |t|, listing, None, 0, limit, |t|, get, ThroughFloat);
    RowsIsProduct(|tables|, limit);
  }

  // ---- oldest first --------------------------------------------------------------------------------------------

  lemma {:induction false} PageAbove(t: seq<nat>, last: seq<nat>, p: nat, limit: nat)
    requires TableOk(t) && t <= last && p < |t|
    ensures Page(t, Asc, Some(last[p]), limit) == Take(last[p + 1..|t|], limit)
  {
    assert t[p] == last[p] && t[p + 1..] == last[p + 1..|t|];
    FilterAbove(t, p);
  }

  /** A table that last begins with shows its own rows of it. */
  lemma {:induction false} AscShows(t: seq<nat>, last: seq<nat>, limit: nat)
    requires TableOk(t) && t <= last
    ensures ShowsAll(Listing(Asc, limit), limit, t, last, |t|)
  {
    forall p: nat | p < |t| ensures Shows(Listing(Asc, limit), limit, t, last, |t|, p) {
      PageAbove(t, last, p, limit);
      ShowsNext(Listing(Asc, limit), limit, t, last, |t|, p);
    }
  }

  lemma {:induction false} AscServes(tables: seq<seq<nat>>, n: nat, limit: nat)
    requires Growing(tables) && tables != [] && n <= |tables[0]|
    ensures Serves(Listing(Asc, limit), limit, tables, (t: seq<nat>) => |t|, tables[|tables| - 1], n)
    decreases |tables|
  {
    assert Grows(tables, 0, |tables| - 1);
    AscShows(tables[0], tables[|tables| - 1], limit);
    if |tables| > 1 {
      GrowingTail(tables);
      assert Grows(tables, 0, 1);
      AscServes(tables[1..], |tables[0]|, limit);
    }
  }

  /** Oldest first: what m requests return is a gapless beginning of the last table seen, m * limit
      rows of it or all rows that were there at the first request. */
  lemma AscendingListing(tables: seq<seq<nat>>, limit: nat)
    requires Growing(tables) && tables != [] && limit > 0
    ensures var got, last := Follow(tables, None, Listing(Asc, limit), ThroughFloat), tables[|tables| - 1];
            got <= last && |got| <= |tables| * limit && (|got| == |tables| * limit || |got| >= |tables[0]|)
  {
    var last, get := tables[|tables| - 1], Listing(Asc, limit);
    AscServes(tables, |tables[0]|, limit);
    FloatReadsBack(last);
    assert Grows(tables, 0, |tables| - 1);
    assert last[0..|tables[0]|] == tables[0];
    StretchOf(last, 0, limit, |tables[0]|);
    FollowNext(tables, (t: seq<nat>) => |t|, last, None, 0, limit, |tables[0]|, get, ThroughFloat);
    RowsIsProduct(|tables|, limit);
  }

  // ---- paging the edge table -------------------------------------------------------------------------------------

  /** SELECT ... WHERE sequence IN page ORDER BY sequence. */
  function SelectIn(txs: seq<nat>, page: seq<nat>, order: Order): seq<nat> {
    Arranged(Members(txs, page), order)
  }

  /** The rows of txs whose sequence is listed. */
  function Members(txs: seq<nat>, listed: seq<nat>): seq<nat> {
    if txs == [] then [] else (if txs[0] in listed then [txs[0]] else []) + Members(txs[1..], listed)
  }

  lemma {:induction false} MembersOf(txs: seq<nat>, listed: seq<nat>)
    requires StrictlyAscending(txs)
    ensures StrictlyAscending(Members(txs, listed))
    ensures forall x :: x in Members(txs, listed) <==> x in txs && x in listed
  {
    if txs != [] {
      MembersOf(txs[1..], listed);
      assert forall x :: x in txs <==> x == txs[0] || x in txs[1..];
      var rest := Members(txs[1..], listed);
      forall i | 0 <= i < |rest| ensures txs[0] < rest[i] {
        assert rest[i] in txs[1..];
        var j :| 0 <= j < |txs[1..]| && txs[1..][j] == rest[i];
      }
    }
  }

  lemma {:induction false} SameMembers(a: seq<nat>, b: seq<nat>)
    requires StrictlyAscending(a) && StrictlyAscending(b) && forall x :: x in a <==> x in b
    ensures a == b
    decreases |a|
  {
    assert b != [] ==> b[0] in b && a != [];
    if a != [] {
      assert a[0] in b && (b != [] ==> b[0] in a);
      assert a[0] == b[0] by {
        var i :| 0 <= i < |b| && b[i] == a[0];
        var j :| 0 <= j < |a| && a[j] == b[0];
      }
      forall x ensures x in a[1..] <==> x in b[1..] {
        assert x in a <==> x == a[0] || x in a[1..];
        assert x in b <==> x == b[0] || x in b[1..];
        if x in a[1..] { var i :| 0 <= i < |a[1..]| && a[1..][i] == x; assert x > a[0]; }
        if x in b[1..] { var i :| 0 <= i < |b[1..]| && b[1..][i] == x; assert x > b[0]; }
      }
      SameMembers(a[1..], b[1..]);
    }
  }

  lemma {:induction false} FilterSub(rows: seq<nat>, order: Order, c: nat)
    requires StrictlyAscending(rows)
    ensures StrictlyAscending(Filter(rows, order, c))
    ensures forall x :: x in Filter(rows, order, c) ==> x in rows
  {
    if rows != [] {
      FilterSub(rows[1..], order, c);
      var rest := Filter(rows[1..], order, c);
      assert forall x :: x in rows <==> x == rows[0] || x in rows[1..];
      forall i | 0 <= i < |rest| ensures rows[0] < rest[i] {
        assert rest[i] in rows[1..];
        var j :| 0 <= j < |rows[1..]| && rows[1..][j] == rest[i];
      }
    }
  }

  /** buildTxEdgeQuery and its siblings: paging the edge sequences first and then selecting the
      transactions by sequence is paging the filtered transactions. */
  lemma {:induction false} EdgePageIsPage(txs: seq<nat>, edges: seq<nat>, order: Order, cursor: Option<nat>, limit: nat)
    requires StrictlyAscending(txs) && StrictlyAscending(edges) && forall x :: x in edges ==> x in txs
    ensures SelectIn(txs, Page(edges, order, cursor, limit), order) == Page(Members(txs, edges), order, cursor, limit)
  {
    MembersOf(txs, edges);
    SameMembers(Members(txs, edges), edges);
    var rows := Selected(edges, order, cursor);
    if cursor.Some? { FilterSub(edges, order, cursor.value); }
    var asc := AscendingPage(rows, order, limit);
    PageAscending(rows, order, limit);
    MembersOf(txs, Arranged(asc, order));
    SameMembers(Members(txs, Arranged(asc, order)), asc);
  }

  /** Both queries for one request. */
  predicate PagesAgree(txs: seq<nat>, edges: seq<nat>, order: Order, cursor: Option<nat>, limit: nat) {
    SelectIn(txs, Page(edges, order, cursor, limit), order) == Page(Members(txs, edges), order, cursor, limit)
  }

  lemma {:induction false} FirstAbove(rows: seq<nat>, c: nat)
    requires StrictlyAscending(rows) && c + 1 in rows
    ensures Filter(rows, Asc, c) != [] && Filter(rows, Asc, c)[0] == c + 1
  {
    if rows[0] <= c {
      assert c + 1 in rows[1..];
      FirstAbove(rows[1..], c);
    } else {
      assert rows[0] == c + 1 by { var i :| 0 <= i < |rows| && rows[i] == c + 1; }
    }
  }

  lemma {:induction false} LastBelow(rows: seq<nat>, c: nat)
    requires StrictlyAscending(rows) && c > 0 && c - 1 in rows
    ensures var f := Filter(rows, Desc, c); f != [] && f[|f| - 1] == c - 1
  {
    FilterSub(rows, Desc, c);
    InFilter(rows, Desc, c, c - 1);
    var f := Filter(rows, Desc, c);
    AllBeyond(rows, Desc, c);
    var i :| 0 <= i < |f| && f[i] == c - 1;
    assert f[|f| - 1] in f;
  }

  lemma {:induction false} InFilter(rows: seq<nat>, order: Order, c: nat, x: nat)
    requires x in rows && if order.Desc? then x < c else x > c
    ensures x in Filter(rows, order, c)
  {
    if x != rows[0] {
      assert x in rows[1..];
      InFilter(rows[1..], order, c, x);
    }
  }

  lemma {:induction false} AllBeyond(rows: seq<nat>, order: Order, c: nat)
    ensures forall x :: x in Filter(rows, order, c) ==> if order.Desc? then x < c else x > c
  {
    if rows != [] { AllBeyond(rows[1..], order, c); }
  }

  lemma {:induction false} NoMember(txs: seq<nat>, listed: seq<nat>)
    requires forall x :: x in listed ==> x !in txs
    ensures Members(txs, listed) == []
  {
    if txs != [] {
      NoMember(txs[1..], listed);
    }
  }

  /** The rows a request selects, before ordering and limit. */
  function Selected(rows: seq<nat>, order: Order, cursor: Option<nat>): seq<nat> {
    if cursor.Some? then Filter(rows, order, cursor.value) else rows
  }

  lemma {:induction false} OneRow(rows: seq<nat>, order: Order, cursor: Option<nat>, x: nat)
    requires var f := Selected(rows, order, cursor);
             f != [] && x == if order.Desc? then f[|f| - 1] else f[0]
    ensures Page(rows, order, cursor, 1) == [x]
  {
    TakeOne(Selected(rows, order, cursor), order);
  }

  lemma {:induction false} TakeOne(f: seq<nat>, order: Order)
    requires f != []
    ensures Take(Arranged(f, order), 1) == [if order.Desc? then f[|f| - 1] else f[0]]
  {
    var g := Arranged(f, order);
    assert Take(g, 1) == [g[0]];
  }

  lemma {:induction false} Differ(txs: seq<nat>, edges: seq<nat>, order: Order, cursor: Option<nat>, x: nat)
    requires x !in txs && Page(edges, order, cursor, 1) == [x] && Page(Members(txs, edges), order, cursor, 1) != []
    ensures !PagesAgree(txs, edges, order, cursor, 1)
  {
    NoMember(txs, [x]);
  }

  /** The request that starts right at x, in either order. */
  lemma {:induction false} PageAtDesc(rows: seq<nat>, x: nat)
    requires StrictlyAscending(rows) && x in rows
    ensures Page(rows, Desc, Some(x + 1), 1) == [x]
  {
    LastBelow(rows, x + 1);
    OneRow(rows, Desc, Some(x + 1), x);
  }

  function Before(x: nat): Option<nat> {
    if x == 0 then None else Some(x - 1)
  }

  lemma {:induction false} PageAtAsc(rows: seq<nat>, x: nat)
    requires StrictlyAscending(rows) && x in rows
    ensures Page(rows, Asc, Before(x), 1) == [x]
  {
    if x == 0 {
      assert rows[0] == 0 by { var i :| 0 <= i < |rows| && rows[i] == x; }
    } else {
      FirstAbove(rows, x - 1);
    }
    OneRow(rows, Asc, Before(x), x);
  }

  lemma SomePage(rows: seq<nat>, order: Order, x: nat, y: nat)
    requires y in rows && if order.Desc? then y < x else y > x
    ensures Page(rows, order, if order.Desc? then Some(x + 1) else Before(x), 1) != []
  {
    var cursor := if order.Desc? then Some(x + 1) else Before(x);
    if cursor.Some? { InFilter(rows, order, cursor.value, y); }
    var f := Selected(rows, order, cursor);
    OneRow(rows, order, cursor, if order.Desc? then f[|f| - 1] else f[0]);
  }

  /** A listed sequence x without a transaction, and one y with: some request shows it. */
  lemma {:induction false} MissingShows(txs: seq<nat>, edges: seq<nat>, x: nat, y: nat)
    returns (order: Order, cursor: Option<nat>)
    requires StrictlyAscending(txs) && StrictlyAscending(edges)
    requires x in edges && x !in txs && y in edges && y in txs
    ensures !PagesAgree(txs, edges, order, cursor, 1)
  {
    order := if y < x then Desc else Asc;
    cursor := if y < x then Some(x + 1) else Before(x);
    MembersOf(txs, edges);
    SomePage(Members(txs, edges), order, x, y);
    if y < x { PageAtDesc(edges, x); } else { PageAtAsc(edges, x); }
    Differ(txs, edges, order, cursor, x);
  }

  lemma {:induction false} NoneListed(txs: seq<nat>, edges: seq<nat>, order: Order, cursor: Option<nat>, limit: nat)
    requires StrictlyAscending(txs) && StrictlyAscending(edges) && forall x :: x in edges ==> x !in txs
    ensures PagesAgree(txs, edges, order, cursor, limit)
  {
    NoMember(txs, edges);
    var rows := Selected(edges, order, cursor);
    if cursor.Some? { FilterSub(edges, order, cursor.value); }
    var page := Page(edges, order, cursor, limit);
    PageAscending(rows, order, limit);
    NoMember(txs, page);
  }

  /** Every request gets the same page from both exactly when the edge table lists only stored
      transactions, or none. */
  lemma EdgePagesAgreeIff(txs: seq<nat>, edges: seq<nat>)
    requires StrictlyAscending(txs) && StrictlyAscending(edges)
    ensures (forall order, cursor, limit :: PagesAgree(txs, edges, order, cursor, limit)) <==>
            (forall x :: x in edges ==> x in txs) || (forall x :: x in edges ==> x !in txs)
  {
    if forall x :: x in edges ==> x in txs {
      forall order, cursor, limit ensures PagesAgree(txs, edges, order, cursor, limit) {
        EdgePageIsPage(txs, edges, order, cursor, limit);
      }
    } else if forall x :: x in edges ==> x !in txs {
      forall order, cursor, limit ensures PagesAgree(txs, edges, order, cursor, limit) {
        NoneListed(txs, edges, order, cursor, limit);
      }
    } else {
      var x :| x in edges && x !in txs;
      var y :| y in edges && y in txs;
      var order, cursor := MissingShows(txs, edges, x, y);
    }
  }

  /** The page in ascending order. */
  function AscendingPage(rows: seq<nat>, order: Order, limit: nat): seq<nat> {
    if |rows| <= limit then rows else if order.Desc? then rows[|rows| - limit..] else rows[..limit]
  }

  lemma PageAscending(rows: seq<nat>, order: Order, limit: nat)
    requires StrictlyAscending(rows)
    ensures var asc := AscendingPage(rows, order, limit);
            Arranged(asc, order) == Take(Arranged(rows, order), limit) && StrictlyAscending(asc) &&
            (forall x :: x in Arranged(asc, order) <==> x in asc) && (forall x :: x in asc ==> x in rows)
  {
    PageArranged(rows, order, limit);
    PageSub(rows, order, limit);
    ReverseMembers(AscendingPage(rows, order, limit));
  }

  lemma PageArranged(rows: seq<nat>, order: Order, limit: nat)
    ensures Arranged(AscendingPage(rows, order, limit), order) == Take(Arranged(rows, order), limit)
  {
    if |rows| > limit && order.Desc? { TakeReverse(rows, limit); }
  }

  lemma PageSub(rows: seq<nat>, order: Order, limit: nat)
    requires StrictlyAscending(rows)
    ensures var asc := AscendingPage(rows, order, limit);
            StrictlyAscending(asc) && forall x :: x in asc ==> x in rows
  {
    if |rows| > limit {
      if order.Desc? { SliceAscending(rows, |rows| - limit, |rows|); } else { SliceAscending(rows, 0, limit); }
    }
  }

  lemma SliceAscending(rows: seq<nat>, from: nat, to: nat)
    requires StrictlyAscending(rows) && from <= to <= |rows|
    ensures StrictlyAscending(rows[from..to]) && forall x :: x in rows[from..to] ==> x in rows
  {}

  lemma {:induction false} TakeReverse(rows: seq<nat>, limit: nat)
    requires limit <= |rows|
    ensures Reverse(rows[|rows| - limit..]) == Reverse(rows)[..limit]
  {}

  lemma ReverseMembers(s: seq<nat>)
    ensures forall x :: x in Reverse(s) <==> x in s
  {
    forall x ensures x in Reverse(s) <==> x in s {
      if x in s {
        var i :| 0 <= i < |s| && s[i] == x;
        assert Reverse(s)[|s| - 1 - i] == x;
      }
    }
  }
}
