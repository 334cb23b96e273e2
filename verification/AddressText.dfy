/** Text forms of addresses and hashes in the GraphQL layer. */
module AddressText {
  import opened Types
  import opened Decoder

  datatype ParseError = InvalidAddress(input: string)

  /** Unicode `White_Space`, which `str::trim` removes. */
  predicate IsWhitespace(c: char) {
    || '\t' <= c <= '\r'
    || c == ' ' || c == '\U{85}' || c == '\U{A0}' || c == '\U{1680}'
    || '\U{2000}' <= c <= '\U{200A}'
    || c == '\U{2028}' || c == '\U{2029}' || c == '\U{202F}' || c == '\U{205F}' || c == '\U{3000}'
  }

  predicate IsHexDigit(c: char) {
    '0' <= c <= '9' || 'a' <= c <= 'f' || 'A' <= c <= 'F'
  }

  function HexValue(c: char): (v: nat)
    requires IsHexDigit(c)
    ensures v < 16
  {
    if '0' <= c <= '9' then c as int - '0' as int
    else if 'a' <= c <= 'f' then c as int - 'a' as int + 10
    else c as int - 'A' as int + 10
  }

  function HexDigit(v: nat): (c: char)
    requires v < 16
    ensures IsHexDigit(c) && HexValue(c) == v
    ensures Lower(c) == c
  {
    if v < 10 then (v + '0' as int) as char else (v - 10 + 'a' as int) as char
  }

  function Lower(c: char): char {
    if 'A' <= c <= 'Z' then (c as int - 'A' as int + 'a' as int) as char else c
  }

  function LowerAll(s: string): string {
    seq(|s|, i requires 0 <= i < |s| => Lower(s[i]))
  }

  predicate AllHex(s: string) {
    forall i :: 0 <= i < |s| ==> IsHexDigit(s[i])
  }

  function HexByte(b: Byte): string {
    [HexDigit(b / 16), HexDigit(b % 16)]
  }

  /** Two lower-case digits per byte, high half first. */
  function HexEncode(bytes: seq<Byte>): string {
    seq(2 * |bytes|, i requires 0 <= i < 2 * |bytes| => HexByte(bytes[i / 2])[i % 2])
  }

  function HexDecode(s: string): seq<Byte>
    requires |s| % 2 == 0
    requires AllHex(s)
  {
    seq(|s| / 2, i requires 0 <= i < |s| / 2 => PairValue(s[2 * i], s[2 * i + 1]))
  }

  function PairValue(high: char, low: char): Byte
    requires IsHexDigit(high) && IsHexDigit(low)
  {
    HexValue(high) * 16 + HexValue(low)
  }

  function TrimStart(s: string): string {
    if s != [] && IsWhitespace(s[0]) then TrimStart(s[1..]) else s
  }

  function TrimEnd(s: string): string {
    if s != [] && IsWhitespace(s[|s| - 1]) then TrimEnd(s[..|s| - 1]) else s
  }

  function Trim(s: string): string {
    TrimEnd(TrimStart(s))
  }

  function StripPrefix(s: string): string {
    if "0x" <= s then s[2..] else if "0X" <= s then s[2..] else s
  }

  function ParseAddress(value: string): Result<seq<Byte>, ParseError> {
    var trimmed := StripPrefix(Trim(value));
    // All forty characters are ASCII when the second test passes, so bytes and characters agree.
    if |trimmed| != 40 || !AllHex(trimmed) then Err(InvalidAddress(value))
    else Ok(HexDecode(trimmed))
  }

  function FormatAddress(bytes: seq<Byte>): string
    requires |bytes| == 20
  {
    "0x" + HexEncode(bytes)
  }

  /** The text that the API returns for an address that a client wrote as `value`. */
  function Normalize(value: string): Result<string, ParseError> {
    match ParseAddress(value)
    case Ok(bytes) => assert |bytes| == 20; Ok(FormatAddress(bytes))
    case Err(e) => Err(e)
  }

  // ---------- properties ----------

  lemma ByteOfPair(b: Byte)
    ensures PairValue(HexByte(b)[0], HexByte(b)[1]) == b
  {
  }

  lemma PairOfByte(high: char, low: char)
    requires IsHexDigit(high) && IsHexDigit(low)
    ensures HexByte(PairValue(high, low)) == [Lower(high), Lower(low)]
  {
    var b := PairValue(high, low);
    assert b / 16 == HexValue(high) && b % 16 == HexValue(low);
  }

  lemma DigitsOfEncode(bytes: seq<Byte>)
    ensures AllHex(HexEncode(bytes))
  {
    forall k | 0 <= k < 2 * |bytes| ensures IsHexDigit(HexEncode(bytes)[k]) {
      var two := HexByte(bytes[k / 2]);
      assert k % 2 == 0 || k % 2 == 1;
    }
  }

  lemma PairAt(bytes: seq<Byte>, i: nat)
    requires i < |bytes|
    ensures HexEncode(bytes)[2 * i] == HexByte(bytes[i])[0]
    ensures HexEncode(bytes)[2 * i + 1] == HexByte(bytes[i])[1]
  {
    assert (2 * i) / 2 == i && (2 * i) % 2 == 0;
    assert (2 * i + 1) / 2 == i && (2 * i + 1) % 2 == 1;
  }

  lemma DecodeOfEncode(bytes: seq<Byte>)
    ensures AllHex(HexEncode(bytes))
    ensures HexDecode(HexEncode(bytes)) == bytes
  {
    DigitsOfEncode(bytes);
    forall i | 0 <= i < |bytes| ensures HexDecode(HexEncode(bytes))[i] == bytes[i] {
      PairAt(bytes, i);
      ByteOfPair(bytes[i]);
    }
  }

  lemma EncodeOfPair(s: string, k: nat)
    requires |s| % 2 == 0 && AllHex(s) && 2 * k + 1 < |s|
    ensures HexEncode(HexDecode(s))[2 * k] == Lower(s[2 * k])
    ensures HexEncode(HexDecode(s))[2 * k + 1] == Lower(s[2 * k + 1])
  {
    assert HexDecode(s)[k] == PairValue(s[2 * k], s[2 * k + 1]);
    PairAt(HexDecode(s), k);
    PairOfByte(s[2 * k], s[2 * k + 1]);
  }

  lemma EncodeOfDecodeAt(s: string, i: nat)
    requires |s| % 2 == 0 && AllHex(s) && i < |s|
    ensures HexEncode(HexDecode(s))[i] == LowerAll(s)[i]
  {
    var k: nat := i / 2;
    EncodeOfPair(s, k);
    if i % 2 == 0 {
      assert i == 2 * k;
    } else {
      assert i == 2 * k + 1;
    }
  }

  lemma EncodeOfDecode(s: string)
    requires |s| % 2 == 0 && AllHex(s)
    ensures HexEncode(HexDecode(s)) == LowerAll(s)
  {
    var encoded, lower := HexEncode(HexDecode(s)), LowerAll(s);
    assert |encoded| == |lower|;
    forall i: nat | i < |encoded| ensures encoded[i] == lower[i] {
      EncodeOfDecodeAt(s, i);
    }
  }

  lemma TrimKeeps(s: string)
    requires s != [] && !IsWhitespace(s[0]) && !IsWhitespace(s[|s| - 1])
    ensures Trim(s) == s
  {
  }

  lemma HexIsNotSpace(c: char)
    requires IsHexDigit(c)
    ensures !IsWhitespace(c)
  {
  }

  lemma StripOwnPrefix(s: string)
    ensures StripPrefix("0x" + s) == s
  {
    assert "0x" <= "0x" + s;
  }

  /** Every 20-byte address survives printing and reading. */
  lemma ParseOfFormat(address: seq<Byte>)
    requires |address| == 20
    ensures ParseAddress(FormatAddress(address)) == Ok(address)
  {
    var hex := HexEncode(address);
    DecodeOfEncode(address);
    assert |hex| == 40;
    HexIsNotSpace(hex[39]);
    TrimKeeps("0x" + hex);
    StripOwnPrefix(hex);
    assert StripPrefix(Trim(FormatAddress(address))) == hex;
  }

  /** Reading and printing an accepted address gives its lower-case 0x form. */
  lemma FormatOfParse(value: string)
    requires ParseAddress(value).Ok?
    ensures |ParseAddress(value).value| == 20
    ensures FormatAddress(ParseAddress(value).value) == "0x" + LowerAll(StripPrefix(Trim(value)))
  {
    EncodeOfDecode(StripPrefix(Trim(value)));
  }

  lemma NormalizeTwice(value: string)
    requires Normalize(value).Ok?
    ensures Normalize(Normalize(value).value) == Normalize(value)
  {
    ParseOfFormat(ParseAddress(value).value);
  }

  /** Two accepted texts name the same address exactly when they differ only in case and prefix. */
  lemma SameAddress(v: string, w: string)
    requires ParseAddress(v).Ok? && ParseAddress(w).Ok?
    ensures ParseAddress(v) == ParseAddress(w)
       <==> LowerAll(StripPrefix(Trim(v))) == LowerAll(StripPrefix(Trim(w)))
  {
    FormatOfParse(v);
    FormatOfParse(w);
    DecodeOfEncode(ParseAddress(v).value);
    DecodeOfEncode(ParseAddress(w).value);
    assert FormatAddress(ParseAddress(v).value)[2..] == HexEncode(ParseAddress(v).value);
    assert FormatAddress(ParseAddress(w).value)[2..] == HexEncode(ParseAddress(w).value);
  }

  // ---------- the texts as numbers ----------

  const LOWER_DIGITS := "0123456789abcdef"
  const UPPER_DIGITS := "0123456789ABCDEF"

  /** The character is the digit of this value in one of the two alphabets. */
  predicate IsDigit(c: char, v: nat) {
    v < 16 && (c == LOWER_DIGITS[v] || c == UPPER_DIGITS[v])
  }

  predicate DigitAt(s: string, values: seq<nat>, i: nat) {
    i < |s| && i < |values| ==> IsDigit(s[i], values[i])
  }

  /** The text consists of the digits of these values, one by one. */
  ghost predicate Spells(s: string, values: seq<nat>) {
    |s| == |values| && forall i: nat :: DigitAt(s, values, i)
  }

  /** Digits read from left to right as one number. */
  function FromBase16(values: seq<nat>): nat {
    if values == [] then 0 else FromBase16(values[..|values| - 1]) * 16 + values[|values| - 1]
  }

  /** The text is this number in base 16, digit by digit. */
  ghost predicate Denotes(s: string, n: nat) {
    exists values :: Spells(s, values) && FromBase16(values) == n
  }

  lemma DenotesOnce(s: string, n: nat, m: nat)
    requires Denotes(s, n) && Denotes(s, m)
    ensures n == m
  {
    var a :| Spells(s, a) && FromBase16(a) == n;
    var b :| Spells(s, b) && FromBase16(b) == m;
    forall i: nat | i < |s| ensures a[i] == b[i] {
      assert DigitAt(s, a, i) && DigitAt(s, b, i);
      DigitsByPosition(s[i]);
    }
    assert a == b;
  }

  ghost predicate HasValue(c: char) {
    exists v: nat :: IsDigit(c, v)
  }

  /** A digit's value is its position in the alphabet. */
  lemma DigitsByPosition(c: char)
    ensures IsHexDigit(c) <==> HasValue(c)
    ensures IsHexDigit(c) ==> IsDigit(c, HexValue(c))
    ensures forall v: nat :: IsDigit(c, v) ==> IsHexDigit(c) && HexValue(c) == v
  {
    if IsHexDigit(c) {
      assert IsDigit(c, HexValue(c));
    }
  }

  function Values(s: string): seq<nat>
    requires AllHex(s)
  {
    seq(|s|, i requires 0 <= i < |s| => HexValue(s[i]))
  }

  lemma LastTwoDigits(values: seq<nat>, high: nat, low: nat)
    ensures FromBase16(values + [high, low]) == FromBase16(values) * 256 + high * 16 + low
  {
    var all, more := values + [high, low], values + [high];
    assert all[..|all| - 1] == more && more[..|more| - 1] == values;
  }

  lemma DecodeSnoc(s: string, high: char, low: char)
    requires |s| % 2 == 0 && AllHex(s) && IsHexDigit(high) && IsHexDigit(low)
    ensures AllHex(s + [high, low])
    ensures HexDecode(s + [high, low]) == HexDecode(s) + [PairValue(high, low)]
    ensures Values(s + [high, low]) == Values(s) + [HexValue(high), HexValue(low)]
  {
  }

  lemma LastByte(bytes: seq<Byte>, b: Byte)
    ensures FromBigEndian(bytes + [b]) == FromBigEndian(bytes) * 256 + b
  {
    assert (bytes + [b])[..|bytes|] == bytes;
  }

  lemma {:induction false} DecodeIsBase16(s: string)
    requires |s| % 2 == 0 && AllHex(s)
    ensures FromBase16(Values(s)) == FromBigEndian(HexDecode(s))
  {
    if s != [] {
      var front, high, low := s[..|s| - 2], s[|s| - 2], s[|s| - 1];
      assert s == front + [high, low];
      DecodeIsBase16(front);
      DecodeSnoc(front, high, low);
      LastTwoDigits(Values(front), HexValue(high), HexValue(low));
      LastByte(HexDecode(front), PairValue(high, low));
    }
  }

  /** Forty or any even number of hex digits are decoded as one base-16 number. */
  lemma DecodeDenotes(s: string)
    requires |s| % 2 == 0 && AllHex(s)
    ensures Denotes(s, FromBigEndian(HexDecode(s)))
  {
    forall i: nat ensures DigitAt(s, Values(s), i) {
      if i < |s| {
        DigitsByPosition(s[i]);
      }
    }
    DecodeIsBase16(s);
    assert Spells(s, Values(s));
  }

  predicate AllSpace(s: string) {
    forall c :: c in s ==> IsWhitespace(c)
  }

  ghost predicate AllDigits(s: string) {
    forall c :: c in s ==> HasValue(c)
  }

  lemma DigitsAreHex(s: string)
    ensures AllDigits(s) <==> AllHex(s)
  {
    forall i | 0 <= i < |s| ensures HasValue(s[i]) <==> IsHexDigit(s[i]) {
      DigitsByPosition(s[i]);
    }
    forall i | AllDigits(s) && 0 <= i < |s| ensures IsHexDigit(s[i]) {
      assert s[i] in s;
    }
  }

  /** The text is one that `parse_address` is meant to accept, in four parts. */
  ghost predicate WrittenAs(value: string, before: string, prefix: string, digits: string, after: string) {
    && value == before + prefix + digits + after
    && AllSpace(before) && AllSpace(after)
    && (prefix == "" || prefix == "0x" || prefix == "0X")
    && |digits| == 40 && AllDigits(digits)
  }

  lemma {:induction false} TrimStartSplits(s: string) returns (before: string)
    ensures s == before + TrimStart(s) && AllSpace(before)
  {
    if s != [] && IsWhitespace(s[0]) {
      var rest := TrimStartSplits(s[1..]);
      before := [s[0]] + rest;
    } else {
      before := [];
    }
  }

  lemma {:induction false} TrimEndSplits(s: string) returns (after: string)
    ensures s == TrimEnd(s) + after && AllSpace(after)
  {
    if s != [] && IsWhitespace(s[|s| - 1]) {
      var n := |s| - 1;
      var rest := TrimEndSplits(s[..n]);
      after := rest + [s[n]];
    } else {
      after := [];
    }
  }

  lemma {:induction false} TrimStartSkips(before: string, s: string)
    requires AllSpace(before)
    requires s != [] && !IsWhitespace(s[0])
    ensures TrimStart(before + s) == s
  {
    if before == [] {
      assert before + s == s;
    } else {
      TrimStartSkips(before[1..], s);
      assert (before + s)[1..] == before[1..] + s;
    }
  }

  lemma {:induction false} TrimEndSkips(s: string, after: string)
    requires AllSpace(after)
    requires s != [] && !IsWhitespace(s[|s| - 1])
    ensures TrimEnd(s + after) == s
  {
    if after == [] {
      assert s + after == s;
    } else {
      var n := |after| - 1;
      TrimEndSkips(s, after[..n]);
      assert (s + after)[..|s + after| - 1] == s + after[..n];
    }
  }

  lemma StripsPrefix(prefix: string, digits: string)
    requires prefix == "" || prefix == "0x" || prefix == "0X"
    requires |digits| == 40 && AllHex(digits)
    ensures StripPrefix(prefix + digits) == digits
  {
    if prefix == "" {
      assert prefix + digits == digits && IsHexDigit(digits[1]);
    } else {
      assert prefix <= prefix + digits && (prefix + digits)[2..] == digits;
      assert (prefix + digits)[1] == prefix[1];
    }
  }

  lemma TrimsToText(value: string, before: string, text: string, after: string)
    requires value == before + text + after && text != []
    requires AllSpace(before) && AllSpace(after)
    requires !IsWhitespace(text[0]) && !IsWhitespace(text[|text| - 1])
    ensures Trim(value) == text
  {
    assert value == before + (text + after);
    TrimStartSkips(before, text + after);
    TrimEndSkips(text, after);
  }

  /** Such a text is accepted, and its bytes are the number that its digits denote. */
  lemma ReadsDigits(value: string, before: string, prefix: string, digits: string, after: string)
    requires WrittenAs(value, before, prefix, digits, after)
    ensures ParseAddress(value).Ok? && |ParseAddress(value).value| == 20
    ensures Denotes(digits, FromBigEndian(ParseAddress(value).value))
  {
    DigitsAreHex(digits);
    var text := prefix + digits;
    assert value == before + text + after;
    assert text[0] == (if prefix == "" then digits[0] else prefix[0]) && text[|text| - 1] == digits[39];
    HexIsNotSpace(digits[0]);
    HexIsNotSpace(digits[39]);
    TrimsToText(value, before, text, after);
    StripsPrefix(prefix, digits);
    DecodeDenotes(digits);
  }

  lemma PrefixSplits(text: string) returns (prefix: string)
    ensures text == prefix + StripPrefix(text) && (prefix == "" || prefix == "0x" || prefix == "0X")
  {
    prefix := text[..|text| - |StripPrefix(text)|];
  }

  lemma PartsJoin(before: string, prefix: string, digits: string, after: string)
    ensures before + ((prefix + digits) + after) == before + prefix + digits + after
  {
  }

  lemma AcceptedIsWritten(value: string) returns (before: string, prefix: string, digits: string, after: string)
    requires ParseAddress(value).Ok?
    ensures WrittenAs(value, before, prefix, digits, after)
  {
    digits := StripPrefix(Trim(value));
    before := TrimStartSplits(value);
    after := TrimEndSplits(TrimStart(value));
    prefix := PrefixSplits(Trim(value));
    DigitsAreHex(digits);
    PartsJoin(before, prefix, digits, after);
  }

  /** `parse_address` accepts exactly forty digits in either case, with an optional prefix, inside white space. */
  lemma AcceptsExactly(value: string)
    ensures ParseAddress(value).Ok?
       <==> exists before, prefix, digits, after :: WrittenAs(value, before, prefix, digits, after)
  {
    if ParseAddress(value).Ok? {
      var before, prefix, digits, after := AcceptedIsWritten(value);
    } else if before, prefix, digits, after :| WrittenAs(value, before, prefix, digits, after) {
      ReadsDigits(value, before, prefix, digits, after);
    }
  }

  /** A printed text: the prefix, and two lower-case digits per byte that denote the bytes as one number. */
  ghost predicate Prints(text: string, bytes: seq<Byte>) {
    && |text| == 2 + 2 * |bytes| && text[..2] == "0x"
    && (forall c :: c in text[2..] ==> c in LOWER_DIGITS)
    && Denotes(text[2..], FromBigEndian(bytes))
  }

  lemma DigitOfValue(v: nat)
    requires v < 16
    ensures HexDigit(v) == LOWER_DIGITS[v]
  {
    DigitsByPosition(HexDigit(v));
  }

  lemma EncodesInLower(bytes: seq<Byte>)
    ensures forall c :: c in HexEncode(bytes) ==> c in LOWER_DIGITS
  {
    forall i | 0 <= i < 2 * |bytes| ensures HexEncode(bytes)[i] in LOWER_DIGITS {
      DigitOfValue(bytes[i / 2] / 16);
      DigitOfValue(bytes[i / 2] % 16);
    }
  }

  lemma EncodePrints(bytes: seq<Byte>)
    ensures Prints("0x" + HexEncode(bytes), bytes)
  {
    DecodeOfEncode(bytes);
    DecodeDenotes(HexEncode(bytes));
    EncodesInLower(bytes);
    assert ("0x" + HexEncode(bytes))[2..] == HexEncode(bytes);
  }

  lemma FormatPrints(bytes: seq<Byte>)
    requires |bytes| == 20
    ensures Prints(FormatAddress(bytes), bytes)
  {
    EncodePrints(bytes);
  }

  /** Hashes print byte by byte unless they have 32 bytes; both ways print the same text. */
  method FormatHash(bytes: seq<Byte>) returns (encoded: string)
    ensures Prints(encoded, bytes)
    ensures AllHex(encoded[2..]) && HexDecode(encoded[2..]) == bytes
    ensures |bytes| == 20 ==> encoded == FormatAddress(bytes)
  {
    if |bytes| == 32 {
      encoded := "0x" + HexEncode(bytes);
    } else {
      encoded := "0x";
      for i := 0 to |bytes|
        invariant encoded == "0x" + HexEncode(bytes[..i])
      {
        encoded := encoded + HexByte(bytes[i]);
        assert HexEncode(bytes[..i + 1]) == HexEncode(bytes[..i]) + HexByte(bytes[i]);
      }
      assert bytes[..|bytes|] == bytes;
    }
    assert encoded[2..] == HexEncode(bytes);
    DecodeOfEncode(bytes);
    EncodePrints(bytes);
  }
}
