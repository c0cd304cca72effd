/** The text of a pagination key: standard base64 (section 4 of RFC 4648) of either a JSON cursor
    object or a decimal offset. */
module CursorKey {
  import opened Common
  import Pagination

  // ---- base64 --------------------------------------------------------------------------------

  function ToChar(v: nat): char
    requires v < 64
  {
    if v < 26 then (65 + v) as char
    else if v < 52 then (97 + v - 26) as char
    else if v < 62 then (48 + v - 52) as char
    else if v == 62 then '+' else '/'
  }

  function FromChar(c: char): (r: Option<nat>)
    ensures r.Some? ==> r.value < 64
  {
    if 'A' <= c <= 'Z' then Some(c as int - 65)
    else if 'a' <= c <= 'z' then Some(c as int - 97 + 26)
    else if '0' <= c <= '9' then Some(c as int - 48 + 52)
    else if c == '+' then Some(62)
    else if c == '/' then Some(63)
    else None
  }

  lemma CharRoundTrip(v: nat)
    requires v < 64
    ensures FromChar(ToChar(v)) == Some(v) && ToChar(v) != '='
  {}

  predicate IsBytes(s: string) {
    forall i :: 0 <= i < |s| ==> s[i] as int < 256
  }

  /** Three bytes as four characters; missing bytes at the end are padded. */
  function Group1(x: char): string
    requires x as int < 256
  {
    [ToChar(x as int / 4), ToChar(x as int % 4 * 16), '=', '=']
  }

  function Group2(x: char, y: char): string
    requires x as int < 256 && y as int < 256
  {
    [ToChar(x as int / 4), ToChar(x as int % 4 * 16 + y as int / 16), ToChar(y as int % 16 * 4), '=']
  }

  function Group3(x: char, y: char, z: char): string
    requires x as int < 256 && y as int < 256 && z as int < 256
  {
    [ToChar(x as int / 4), ToChar(x as int % 4 * 16 + y as int / 16), ToChar(y as int % 16 * 4 + z as int / 64),
     ToChar(z as int % 64)]
  }

  function Encode(s: string): string
    requires IsBytes(s)
    decreases |s|
  {
    if s == "" then ""
    else if |s| == 1 then Group1(s[0])
    else if |s| == 2 then Group2(s[0], s[1])
    else Group3(s[0], s[1], s[2]) + Encode(s[3..])
  }

  /** One group of four characters, padding allowed in the last group only. */
  function DecodeGroup(s: string, last: bool): Option<string>
    requires |s| == 4
  {
    var v0, v1, v2, v3 := FromChar(s[0]), FromChar(s[1]), FromChar(s[2]), FromChar(s[3]);
    if v0.None? || v1.None? then None
    else
      var a := v0.value * 4 + v1.value / 16;
      if last && s[2] == '=' && s[3] == '=' then Some([a as char])
      else if v2.None? then None
      else
        var b := v1.value % 16 * 16 + v2.value / 4;
        if last && s[3] == '=' then Some([a as char, b as char])
        else if v3.None? then None
        else Some([a as char, b as char, (v2.value % 4 * 64 + v3.value) as char])
  }

  function Decode(s: string): Option<string>
    decreases |s|
  {
    if s == "" then Some("")
    else if |s| < 4 then None
    else
      var group, rest := DecodeGroup(s[..4], |s| == 4), Decode(s[4..]);
      if group.None? || rest.None? then None else Some(group.value + rest.value)
  }

  lemma Decode1(x: char)
    requires x as int < 256
    ensures DecodeGroup(Group1(x), true) == Some([x])
  {
    CharRoundTrip(x as int / 4);
    CharRoundTrip(x as int % 4 * 16);
    GroupArithmetic(x as int, 0, 0);
  }

  lemma Decode2(x: char, y: char)
    requires x as int < 256 && y as int < 256
    ensures DecodeGroup(Group2(x, y), true) == Some([x, y])
  {
    CharRoundTrip(x as int / 4);
    CharRoundTrip(x as int % 4 * 16 + y as int / 16);
    CharRoundTrip(y as int % 16 * 4);
    GroupArithmetic(x as int, y as int, 0);
  }

  lemma Decode3(x: char, y: char, z: char, last: bool)
    requires x as int < 256 && y as int < 256 && z as int < 256
    ensures DecodeGroup(Group3(x, y, z), last) == Some([x, y, z])
  {
    CharRoundTrip(x as int / 4);
    CharRoundTrip(x as int % 4 * 16 + y as int / 16);
    CharRoundTrip(y as int % 16 * 4 + z as int / 64);
    CharRoundTrip(z as int % 64);
    GroupArithmetic(x as int, y as int, z as int);
  }

  lemma DecodeLast(g: string, text: string)
    requires |g| == 4 && DecodeGroup(g, true) == Some(text)
    ensures Decode(g) == Some(text)
  {
    assert g[..4] == g && g[4..] == "";
    assert text + "" == text;
  }

  lemma DecodeMore(g: string, text: string, rest: string, tail: string)
    requires |g| == 4 && rest != "" && DecodeGroup(g, false) == Some(text) && Decode(rest) == Some(tail)
    ensures Decode(g + rest) == Some(text + tail)
  {
    assert (g + rest)[..4] == g && (g + rest)[4..] == rest;
  }

  /** One group in front of the encoding of what follows. */
  lemma DecodeFront(x: char, y: char, z: char, tail: string)
    requires x as int < 256 && y as int < 256 && z as int < 256 && IsBytes(tail)
    requires Decode(Encode(tail)) == Some(tail)
    ensures Decode(Group3(x, y, z) + Encode(tail)) == Some([x, y, z] + tail)
  {
    var g := Group3(x, y, z);
    Decode3(x, y, z, tail == "");
    if tail == "" {
      assert g + "" == g && [x, y, z] + "" == [x, y, z];
      DecodeLast(g, [x, y, z]);
    } else {
      DecodeMore(g, [x, y, z], Encode(tail), tail);
    }
  }

  lemma DecodeOne(x: char)
    requires x as int < 256
    ensures Decode(Group1(x)) == Some([x])
  {
    Decode1(x);
    DecodeLast(Group1(x), [x]);
  }

  lemma DecodeTwo(x: char, y: char)
    requires x as int < 256 && y as int < 256
    ensures Decode(Group2(x, y)) == Some([x, y])
  {
    Decode2(x, y);
    DecodeLast(Group2(x, y), [x, y]);
  }

  lemma SplitThree(s: string)
    requires |s| >= 3
    ensures s == [s[0], s[1], s[2]] + s[3..]
  {}

  lemma EncodeMore(s: string)
    requires IsBytes(s) && |s| >= 3
    ensures Encode(s) == Group3(s[0], s[1], s[2]) + Encode(s[3..])
  {}

  lemma {:induction false} Base64RoundTrip(s: string)
    requires IsBytes(s)
    ensures Decode(Encode(s)) == Some(s)
    decreases |s|
  {
    if |s| == 1 {
      DecodeOne(s[0]);
      assert s == [s[0]];
    } else if |s| == 2 {
      DecodeTwo(s[0], s[1]);
      assert s == [s[0], s[1]];
    } else if |s| >= 3 {
      EncodeMore(s);
      SplitThree(s);
      Base64RoundTrip(s[3..]);
      DecodeFront(s[0], s[1], s[2], s[3..]);
    }
  }

  /** The test vectors of section 10 of RFC 4648. */
  lemma TestVectors()
    ensures Encode("") == "" && Encode("f") == "Zg==" && Encode("fo") == "Zm8=" && Encode("foo") == "Zm9v"
    ensures Encode("foob") == "Zm9vYg==" && Encode("fooba") == "Zm9vYmE=" && Encode("foobar") == "Zm9vYmFy"
  {
    assert "foob"[3..] == "b" && "fooba"[3..] == "ba" && "foobar"[3..] == "bar" && "foo"[3..] == "" && "bar"[3..] == "";
  }

  /** Splitting three bytes into four six-bit values and back. */
  lemma GroupArithmetic(a: nat, b: nat, c: nat)
    requires a < 256 && b < 256 && c < 256
    ensures a / 4 * 4 + (a % 4 * 16 + b / 16) / 16 == a
    ensures (a % 4 * 16 + b / 16) % 16 * 16 + (b % 16 * 4 + c / 64) / 4 == b
    ensures (b % 16 * 4 + c / 64) % 4 * 64 + c % 64 == c
  {}

  // ---- decimal numbers ---------------------------------------------------------------------------

  function Digit(v: nat): char
    requires v < 10
  {
    (48 + v) as char
  }

  predicate AllDigits(s: string) {
    forall i :: 0 <= i < |s| ==> '0' <= s[i] <= '9'
  }

  function Decimal(n: nat): (s: string)
    ensures s != "" && AllDigits(s)
  {
    if n < 10 then [Digit(n)] else Decimal(n / 10) + [Digit(n % 10)]
  }

  function Number(s: string): nat
    requires AllDigits(s)
  {
    if s == "" then 0 else Number(s[..|s| - 1]) * 10 + (s[|s| - 1] as int - 48)
  }

  lemma {:induction false} DecimalRoundTrip(n: nat)
    ensures Number(Decimal(n)) == n
  {
    var s := Decimal(n);
    if n >= 10 {
      DecimalRoundTrip(n / 10);
      assert s[..|s| - 1] == Decimal(n / 10);
    } else {
      assert s[..0] == "";
    }
  }

  // ---- the key ---------------------------------------------------------------------------------------

  datatype Parsed = Invalid | Sequence(value: nat) | Offset(offset: nat)

  const OPEN: string := "{\"sequence\":"

  /** json.Marshal of a record's cursor data, in base64. */
  function SequenceKey(n: nat): string
    requires IsBytes(SequenceText(n))
  {
    Encode(SequenceText(n))
  }

  function SequenceText(n: nat): string {
    OPEN + Decimal(n) + "}"
  }

  function OffsetKey(n: nat): string
    requires IsBytes(Decimal(n))
  {
    Encode(Decimal(n))
  }

  /** parsePaginationKey on what the service hands out: a cursor object holding one sequence, whose
      number becomes a float, or an offset. */
  function ParseKey(key: string): Parsed {
    match Decode(key)
    case None => Invalid
    case Some(text) =>
      if text != "" && text[0] == '{' then
        if |text| > |OPEN| + 1 && text[..|OPEN|] == OPEN && text[|text| - 1] == '}' &&
           AllDigits(text[|OPEN|..|text| - 1])
        then Sequence(Pagination.ThroughFloat(Number(text[|OPEN|..|text| - 1])))
        else Invalid
      else if text != "" && AllDigits(text) then Offset(Number(text))
      else Invalid
  }

  lemma SequenceTextParses(n: nat)
    ensures var text := SequenceText(n);
            IsBytes(text) && text[0] == '{' && |text| > |OPEN| + 1 && text[..|OPEN|] == OPEN &&
            text[|text| - 1] == '}' && text[|OPEN|..|text| - 1] == Decimal(n)
  {
    var text, digits := SequenceText(n), Decimal(n);
    assert text == OPEN + (digits + "}");
    assert forall i :: 0 <= i < |digits| ==> text[|OPEN| + i] == digits[i];
    assert IsBytes(OPEN);
    forall i | 0 <= i < |text| ensures text[i] as int < 256 {
      if i < |OPEN| { assert text[i] == OPEN[i]; }
      else if i < |OPEN| + |digits| { assert text[i] == digits[i - |OPEN|]; }
    }
  }

  /** A key that is handed out parses back to what it was made from: the cursor up to the float in
      its JSON number, the offset exactly; the two kinds are never confused. */
  lemma KeyRoundTrip(n: nat)
    ensures IsBytes(SequenceText(n)) && ParseKey(SequenceKey(n)) == Sequence(Pagination.ThroughFloat(n))
    ensures IsBytes(Decimal(n)) && ParseKey(OffsetKey(n)) == Offset(n)
  {
    SequenceTextParses(n);
    Base64RoundTrip(SequenceText(n));
    Base64RoundTrip(Decimal(n));
    DecimalRoundTrip(n);
    assert Decimal(n)[0] != '{';
  }

  /** What the texts look like. */
  lemma KeyTexts()
    ensures SequenceText(1207) == "{\"sequence\":1207}" && Decimal(0) == "0" && Decimal(1207) == "1207"
  {
    assert Decimal(1) == "1" && Decimal(12) == "12" && Decimal(120) == "120";
  }
}
