/** Account addresses. The bytes of an address are written as their lower-case hex digits, 40 or
    64 of them; this spelling is the key of the account dictionary. Bech32 decoding is a
    parameter, everything on the hex side is spelled out. */
module Address {
  import opened Common

  /** Decoding of bech32 strings, None when the string is not one. */
  type Bech32 = string -> Option<string>

  predicate IsHexDigit(c: char) {
    '0' <= c <= '9' || 'a' <= c <= 'f' || 'A' <= c <= 'F'
  }

  predicate IsLowerHexDigit(c: char) {
    '0' <= c <= '9' || 'a' <= c <= 'f'
  }

  predicate AllLowerHex(s: string) {
    forall i :: 0 <= i < |s| ==> IsLowerHexDigit(s[i])
  }

  function LowerChar(c: char): char {
    if 'A' <= c <= 'Z' then (c as int + 32) as char else c
  }

  function ToLower(s: string): (r: string)
    ensures |r| == |s| && forall i :: 0 <= i < |s| ==> r[i] == LowerChar(s[i])
  {
    if s == "" then "" else [LowerChar(s[0])] + ToLower(s[1..])
  }

  function TrimZeros(s: string): string {
    if s != "" && s[0] == '0' then TrimZeros(s[1..]) else s
  }

  predicate Has0x(s: string) {
    |s| >= 2 && s[0] == '0' && s[1] == 'x'
  }

  function Zeros(n: nat): (r: string)
    ensures |r| == n && forall i :: 0 <= i < n ==> r[i] == '0'
  {
    if n == 0 then "" else "0" + Zeros(n - 1)
  }

  /** The significant digits of a hex spelling: prefix and leading zeros removed, lower case. */
  function Significant(s: string): string {
    ToLower(TrimZeros(if Has0x(s) then s[2..] else s))
  }

  function Padded(h: string): Option<string> {
    if !AllLowerHex(h) || |h| > 64 then None
    else if |h| <= 40 then Some(Zeros(40 - |h|) + h)
    else Some(Zeros(64 - |h|) + h)
  }

  /** AccAddressFromString. */
  function Parse(bech: Bech32, s: string): Option<string> {
    if !Has0x(s) && bech(s).Some? then bech(s) else Padded(Significant(s))
  }

  /** 20 or 32 bytes. */
  ghost predicate IsAccount(a: string) {
    AllLowerHex(a) && (|a| == 40 || |a| == 64)
  }

  /** 20 bytes, or 32 bytes that do not fit in 20. */
  predicate Canonical(a: string) {
    AllLowerHex(a) && (|a| == 40 || (|a| == 64 && |TrimZeros(a)| > 40))
  }

  ghost predicate GoodBech32(bech: Bech32) {
    forall s :: bech(s).Some? ==> IsAccount(bech(s).value)
  }

  // ---- canonical spellings ------------------------------------------------------------------

  lemma {:induction false} TrimTail(s: string)
    ensures |TrimZeros(s)| <= |s|
    ensures TrimZeros(s) == "" || TrimZeros(s)[0] != '0'
    ensures AllLowerHex(s) ==> AllLowerHex(TrimZeros(s))
    ensures s == Zeros(|s| - |TrimZeros(s)|) + TrimZeros(s)
  {
    if s != "" && s[0] == '0' {
      var rest := s[1..];
      TrimTail(rest);
      Regroup("0", Zeros(|rest| - |TrimZeros(rest)|), TrimZeros(rest));
      HeadAndTail(s);
    } else {
      assert Zeros(0) + s == s;
    }
  }

  lemma {:induction false} TrimLeading(n: nat, s: string)
    ensures TrimZeros(Zeros(n) + s) == TrimZeros(s)
  {
    if n > 0 {
      TrimLeading(n - 1, s);
      assert (Zeros(n) + s)[1..] == Zeros(n - 1) + s;
    } else {
      assert Zeros(0) + s == s;
    }
  }

  lemma TrimZerosOf(n: nat, h: string)
    requires h == "" || h[0] != '0'
    ensures TrimZeros(Zeros(n) + h) == h
  {
    TrimLeading(n, h);
  }

  lemma LowerId(s: string)
    requires AllLowerHex(s)
    ensures ToLower(s) == s
  {}

  lemma SignificantTrimmed(s: string)
    ensures Significant(s) == "" || Significant(s)[0] != '0'
  {
    TrimTail(if Has0x(s) then s[2..] else s);
  }

  /** Parsing yields 20 or 32 bytes. Those that come from hex digits are canonical, and these are
      the ones that parse to themselves when written in hex. */
  lemma ParseAccount(bech: Bech32, s: string)
    requires GoodBech32(bech) && Parse(bech, s).Some?
    ensures var a := Parse(bech, s).value;
            IsAccount(a) && (Has0x(s) || bech(s).None? ==> Canonical(a)) &&
            (Parse(bech, "0x" + a) == Some(a) <==> Canonical(a))
  {
    var a := Parse(bech, s).value;
    if Has0x(s) || bech(s).None? {
      var h := Significant(s);
      SignificantTrimmed(s);
      TrimZerosOf(|a| - |h|, h);
    }
    HexDetourIff(bech, a);
  }

  lemma HexParse(bech: Bech32, a: string)
    requires AllLowerHex(a)
    ensures Parse(bech, "0x" + a) == Padded(TrimZeros(a))
  {
    assert ("0x" + a)[2..] == a;
    TrimTail(a);
    LowerId(TrimZeros(a));
  }

  /** Any account written in hex and parsed again is the same account exactly when its bytes are
      canonical. */
  lemma HexDetourIff(bech: Bech32, a: string)
    requires AllLowerHex(a)
    ensures Parse(bech, "0x" + a) == Some(a) <==> Canonical(a)
  {
    HexParse(bech, a);
    TrimTail(a);
  }

  /** 32 bytes that start with 12 zero bytes come back as the 20 bytes at their end. */
  lemma HexDetourShortens(bech: Bech32, a: string)
    requires AllLowerHex(a) && |a| == 64 && |TrimZeros(a)| <= 40
    ensures Parse(bech, "0x" + a) == Some(a[24..])
  {
    HexParse(bech, a);
    TrimTail(a);
    DropZeros(64 - |TrimZeros(a)|, TrimZeros(a), 24);
  }

  lemma DropZeros(n: nat, h: string, k: nat)
    requires k <= n
    ensures (Zeros(n) + h)[k..] == Zeros(n - k) + h
  {
    var s, t := (Zeros(n) + h)[k..], Zeros(n - k) + h;
    assert |s| == |t|;
    forall i | 0 <= i < |s| ensures s[i] == t[i] {}
  }

  /** d is the lower-case form of the hex digit c. */
  predicate SameDigit(c: char, d: char) {
    IsLowerHexDigit(d) && (c == d || ('A' <= c <= 'F' && d as int == c as int + 32))
  }

  /** Nothing but zeros before the last n digits. */
  predicate FitsIn(digits: string, n: nat) {
    forall i :: 0 <= i < |digits| - n ==> digits[i] == '0'
  }

  /** Counted from the end, place j of the account is that of the digits, or zero before them. */
  predicate AlignedAt(digits: string, account: string, j: int) {
    var i := j + |digits| - |account|;
    0 <= j < |account| && i < |digits| ==> SameDigit(if i >= 0 then digits[i] else '0', account[j])
  }

  ghost predicate RightAligned(digits: string, account: string) {
    forall j :: AlignedAt(digits, account, j)
  }

  /** Digits that fit in 20 bytes give 20, others that fit in 32 give 32. */
  ghost predicate AccountOf(digits: string, account: Option<string>) {
    (account.Some? <==> FitsIn(digits, 64) && forall i :: 0 <= i < |digits| ==> IsHexDigit(digits[i])) &&
    (account.Some? ==>
      |account.value| == (if FitsIn(digits, 40) then 40 else 64) && RightAligned(digits, account.value))
  }

  /** What is not bech32 parses exactly if it consists of hex digits that fit in 32 bytes; the account
      has 20 bytes if they fit and else 32, with the digits in lower case at its end. */
  lemma HexParseIff(bech: Bech32, s: string)
    requires Has0x(s) || bech(s).None?
    ensures AccountOf(if Has0x(s) then s[2..] else s, Parse(bech, s))
  {
    var digits := if Has0x(s) then s[2..] else s;
    TrimTail(digits);
    PaddedAccount(digits, TrimZeros(digits), |digits| - |TrimZeros(digits)|);
  }

  lemma PaddedAccount(digits: string, t: string, n: nat)
    requires digits == Zeros(n) + t && (t == "" || t[0] != '0')
    ensures AccountOf(digits, Padded(ToLower(t)))
  {
    TrimmedFits(digits, t, n, 64);
    TrimmedFits(digits, t, n, 40);
    TrimmedHex(digits, t, n);
    if AllLowerHex(ToLower(t)) && |t| <= 64 { TrimmedAligned(digits, t, n, if |t| <= 40 then 40 else 64); }
  }

  lemma TrimmedAligned(digits: string, t: string, n: nat, size: nat)
    requires digits == Zeros(n) + t && |t| <= size && AllLowerHex(ToLower(t))
    ensures RightAligned(digits, Zeros(size - |t|) + ToLower(t))
  {
    var account := Zeros(size - |t|) + ToLower(t);
    forall j ensures AlignedAt(digits, account, j) {
      TrimmedDigit(digits, t, n, size, account, j);
    }
  }

  lemma TrimmedDigit(digits: string, t: string, n: nat, size: nat, account: string, j: int)
    requires digits == Zeros(n) + t && |t| <= size && AllLowerHex(ToLower(t))
    requires account == Zeros(size - |t|) + ToLower(t)
    ensures AlignedAt(digits, account, j)
  {
    if size - |t| <= j < |account| {
      var k := j - (size - |t|);
      assert account[j] == ToLower(t)[k] == LowerChar(t[k]) && digits[n + k] == t[k];
    }
  }

  lemma TrimmedFits(digits: string, t: string, n: nat, size: nat)
    requires digits == Zeros(n) + t && (t == "" || t[0] != '0')
    ensures FitsIn(digits, size) <==> |t| <= size
  {
    if |t| > size { assert digits[n] == t[0]; }
  }

  lemma TrimmedHex(digits: string, t: string, n: nat)
    requires digits == Zeros(n) + t
    ensures AllLowerHex(ToLower(t)) <==> forall i :: 0 <= i < |digits| ==> IsHexDigit(digits[i])
  {
    if AllLowerHex(ToLower(t)) {
      forall i | 0 <= i < |digits| ensures IsHexDigit(digits[i]) {
        if i >= n { assert IsLowerHexDigit(ToLower(t)[i - n]); }
      }
    } else {
      var i :| 0 <= i < |t| && !IsLowerHexDigit(ToLower(t)[i]);
      assert digits[n + i] == t[i];
    }
  }

  /** Two hex spellings name the same account exactly when they agree up to case, prefix and
      leading zeros: the dictionary key neither merges nor splits accounts. */
  lemma SameAccountIff(bech: Bech32, s: string, t: string)
    requires Has0x(s) && Has0x(t) && Parse(bech, s).Some? && Parse(bech, t).Some?
    ensures Parse(bech, s) == Parse(bech, t) <==> Significant(s) == Significant(t)
  {
    var g, h := Significant(s), Significant(t);
    SignificantTrimmed(s);
    SignificantTrimmed(t);
    TrimZerosOf(|Parse(bech, s).value| - |g|, g);
    TrimZerosOf(|Parse(bech, t).value| - |h|, h);
  }

  // ---- addresses found in an attribute value ----------------------------------------------------

  function Split(s: string): (r: seq<string>)
    ensures r != []
  {
    if s == "" then [""]
    else
      var rest := Split(s[1..]);
      if s[0] == ',' then [""] + rest else [[s[0]] + rest[0]] + rest[1..]
  }

  /** The whole of s is 0x and 1 to 64 hex digits. */
  predicate IsHexAddress(s: string) {
    Has0x(s) && 3 <= |s| <= 66 && forall i :: 2 <= i < |s| ==> IsHexDigit(s[i])
  }

  /** The whole of s is init1 and 38 or 58 lower-case letters and digits. */
  predicate IsBech32Address(s: string) {
    && (|s| == 43 || |s| == 63) && s[..5] == "init1"
    && forall i :: 5 <= i < |s| ==> 'a' <= s[i] <= 'z' || '0' <= s[i] <= '9'
  }

  predicate IsAddress(s: string) {
    IsHexAddress(s) || IsBech32Address(s)
  }

  /** The addresses both cleanups and the collector read out of an ordinary attribute value. */
  function Extract(bech: Bech32, value: string): set<string> {
    set p | p in Split(value) && IsAddress(p) && Parse(bech, p).Some? :: Parse(bech, p).value
  }

  function Joined(parts: seq<string>): string {
    if parts == [] then "" else if |parts| == 1 then parts[0] else parts[0] + "," + Joined(parts[1..])
  }

  ghost predicate NoCommas(parts: seq<string>) {
    forall i :: 0 <= i < |parts| ==> ',' !in parts[i]
  }

  lemma JoinedMore(first: string, parts: seq<string>)
    requires parts != []
    ensures Joined([first] + parts) == first + "," + Joined(parts)
  {
    assert ([first] + parts)[1..] == parts;
  }

  lemma JoinedCons(c: char, first: string, rest: seq<string>)
    ensures Joined([[c] + first] + rest) == [c] + Joined([first] + rest)
  {
    if rest != [] {
      JoinedMore([c] + first, rest);
      JoinedMore(first, rest);
      Regroup([c], first, ",");
      Regroup([c], first + ",", Joined(rest));
    }
  }

  /** The parts are free of commas and, joined by commas, give the value back. */
  lemma {:induction false} SplitJoins(s: string)
    ensures NoCommas(Split(s)) && Joined(Split(s)) == s
  {
    if s != "" {
      SplitJoins(s[1..]);
      var rest := Split(s[1..]);
      HeadAndTail(s);
      HeadAndTail(rest);
      if s[0] == ',' { JoinedMore("", rest); } else { JoinedCons(s[0], rest[0], rest[1..]); }
    }
  }

  /** No other list of parts does: splitting undoes joining. */
  lemma {:induction false} SplitOfJoined(parts: seq<string>)
    requires parts != [] && NoCommas(parts)
    ensures Split(Joined(parts)) == parts
    decreases |parts|
  {
    if |parts| == 1 {
      SplitNoComma(parts[0]);
    } else {
      SplitOfJoined(parts[1..]);
      SplitFirst(parts[0], Joined(parts[1..]));
      assert parts[0] + "," + Joined(parts[1..]) == parts[0] + ("," + Joined(parts[1..]));
      assert parts == [parts[0]] + parts[1..];
    }
  }

  lemma {:induction false} SplitFirst(first: string, rest: string)
    requires ',' !in first
    ensures Split(first + ("," + rest)) == [first] + Split(rest)
    decreases |first|
  {
    var s := first + ("," + rest);
    if first == "" {
      assert s == "," + rest && s[1..] == rest;
    } else {
      SplitFirst(first[1..], rest);
      assert s[1..] == first[1..] + ("," + rest);
      assert [first[0]] + first[1..] == first;
    }
  }

  /** A value splits into exactly the comma-free parts that join to it. */
  lemma SplitIff(s: string, parts: seq<string>)
    ensures Split(s) == parts <==> parts != [] && NoCommas(parts) && Joined(parts) == s
  {
    SplitJoins(s);
    if parts != [] && NoCommas(parts) { SplitOfJoined(parts); }
  }

  /** s is prefix followed by lo to hi characters of a kind. */
  ghost predicate Pattern(s: string, prefix: string, lo: nat, hi: nat, kind: char -> bool) {
    exists t :: s == prefix + t && lo <= |t| <= hi && forall i :: 0 <= i < |t| ==> kind(t[i])
  }

  lemma PatternIff(s: string, prefix: string, lo: nat, hi: nat, kind: char -> bool)
    ensures Pattern(s, prefix, lo, hi, kind) <==>
              prefix <= s && lo <= |s| - |prefix| <= hi && forall i :: |prefix| <= i < |s| ==> kind(s[i])
  {
    var t := if |s| >= |prefix| then s[|prefix|..] else "";
    if prefix <= s { assert s == prefix + t; }
    if u :| s == prefix + u && lo <= |u| <= hi && forall i :: 0 <= i < |u| ==> kind(u[i]) {
      assert u == t;
      assert forall i :: |prefix| <= i < |s| ==> s[i] == u[i - |prefix|];
    }
  }

  /** ^0x[a-fA-F0-9]{1,64}$, ^init1[a-z0-9]{38}$ or ^init1[a-z0-9]{58}$. */
  lemma IsAddressIff(s: string)
    ensures IsAddress(s) <==>
              Pattern(s, "0x", 1, 64, c => 'a' <= c <= 'f' || 'A' <= c <= 'F' || '0' <= c <= '9') ||
              Pattern(s, "init1", 38, 38, c => 'a' <= c <= 'z' || '0' <= c <= '9') ||
              Pattern(s, "init1", 58, 58, c => 'a' <= c <= 'z' || '0' <= c <= '9')
  {
    PatternIff(s, "0x", 1, 64, c => 'a' <= c <= 'f' || 'A' <= c <= 'F' || '0' <= c <= '9');
    PatternIff(s, "init1", 38, 38, c => 'a' <= c <= 'z' || '0' <= c <= '9');
    PatternIff(s, "init1", 58, 58, c => 'a' <= c <= 'z' || '0' <= c <= '9');
    assert "0x" <= s <==> Has0x(s);
    assert |s| >= 5 ==> ("init1" <= s <==> s[..5] == "init1");
  }

  lemma {:induction false} SplitNoComma(s: string)
    requires ',' !in s
    ensures Split(s) == [s]
  {
    if s != "" {
      SplitNoComma(s[1..]);
      assert [s[0]] + s[1..] == s;
    }
  }

  lemma ExtractAddress(bech: Bech32, w: string)
    requires IsAddress(w)
    ensures Extract(bech, w) == if Parse(bech, w).Some? then {Parse(bech, w).value} else {}
  {
    forall i | 0 <= i < |w| ensures w[i] != ',' {
      if IsBech32Address(w) && i < 5 { assert w[i] == w[..5][i]; }
    }
    SplitNoComma(w);
  }
}
