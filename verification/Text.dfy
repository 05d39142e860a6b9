/** Decimal numbers and separated fields, as the formats of this client write and read them. */
module Text {
  import opened Wrappers
  import opened Bytes

  const USIZE_MAX: nat := 0xFFFF_FFFF_FFFF_FFFF

  predicate IsDigit(c: char) { '0' <= c <= '9' }

  ghost predicate AllDigits(s: string) {
    forall i :: 0 <= i < |s| ==> IsDigit(s[i])
  }

  function Digit(d: nat): (c: char)
    requires d < 10
    ensures IsDigit(c)
  {
    '0' + d as char
  }

  function Decimal(n: nat): (s: string)
    ensures s != []
    ensures AllDigits(s)
  {
    if n < 10 then [Digit(n)] else Decimal(n / 10) + [Digit(n % 10)]
  }

  /** The number some digits stand for. */
  function Value(s: string): nat {
    if s == [] || !IsDigit(s[|s| - 1]) then 0
    else 10 * Value(s[..|s| - 1]) + (s[|s| - 1] as int - '0' as int)
  }

  lemma {:induction false} DecimalRoundTrip(n: nat)
    ensures Value(Decimal(n)) == n
  {
    if n >= 10 {
      DecimalRoundTrip(n / 10);
      assert Decimal(n)[..|Decimal(n)| - 1] == Decimal(n / 10);
    } else {
      assert Decimal(n)[..0] == [];
    }
  }

  lemma DecimalIsInjective(m: nat, n: nat)
    requires Decimal(m) == Decimal(n)
    ensures m == n
  {
    DecimalRoundTrip(m);
    DecimalRoundTrip(n);
  }

  predicate Digits(s: string) {
    s == [] || (IsDigit(s[0]) && Digits(s[1..]))
  }

  lemma {:induction false} DigitsMeansAll(s: string)
    ensures Digits(s) <==> AllDigits(s)
  {
    if s != [] {
      DigitsMeansAll(s[1..]);
      assert AllDigits(s) ==> IsDigit(s[0]) && forall i :: 0 <= i < |s| - 1 ==> s[1..][i] == s[i + 1];
      assert IsDigit(s[0]) && AllDigits(s[1..]) ==> forall i :: 0 < i < |s| ==> s[i] == s[1..][i - 1];
    }
  }

  /** An unsigned number as the standard library parses it: one plus sign may stand in front. */
  function ParseNumber(s: string): Option<nat> {
    var digits := if s != [] && s[0] == '+' then s[1..] else s;
    if digits == [] || !Digits(digits) || Value(digits) > USIZE_MAX then None else Some(Value(digits))
  }

  lemma ParseOfDecimal(n: nat)
    requires n <= USIZE_MAX
    ensures ParseNumber(Decimal(n)) == Some(n)
  {
    DecimalRoundTrip(n);
    DigitsMeansAll(Decimal(n));
  }

  // ---- Fields ----------------------------------------------------------------------------------

  /** Where `c` stands first, or the length. */
  function IndexOf(s: string, c: char): (i: nat)
    ensures i <= |s|
    ensures i < |s| ==> s[i] == c
    ensures forall k :: 0 <= k < i ==> s[k] != c
  {
    if s == [] || s[0] == c then 0 else 1 + IndexOf(s[1..], c)
  }

  function Split(s: string, c: char): (parts: seq<string>)
    ensures parts != []
    decreases |s|
  {
    var i := IndexOf(s, c);
    if i == |s| then [s] else [s[..i]] + Split(s[i + 1..], c)
  }

  predicate SplitsInto(s: string, c: char, parts: seq<string>) {
    Split(s, c) == parts
  }

  lemma SplitFirst(front: string, rest: string, c: char, parts: seq<string>)
    requires c !in front && SplitsInto(rest, c, parts)
    ensures SplitsInto(front + [c] + rest, c, [front] + parts)
  {
    var s := front + [c] + rest;
    var i := IndexOf(s, c);
    assert s[|front|] == c;
    assert forall k :: 0 <= k < |front| ==> s[k] == front[k] && front[k] != c;
    assert s[..i] == front && s[i + 1..] == rest;
  }

  lemma SplitLast(s: string, c: char)
    requires c !in s
    ensures SplitsInto(s, c, [s])
  {
    var i := IndexOf(s, c);
    assert forall k :: 0 <= k < |s| ==> s[k] != c;
  }

  // ---- Blanks at the ends --------------------------------------------------------------------------

  /** Unicode white space, which is what trimming takes away. */
  predicate IsBlank(c: char) {
    var n := c as int;
    || 0x9 <= n <= 0xD || n == 0x20 || n == 0x85 || n == 0xA0 || n == 0x1680
    || 0x2000 <= n <= 0x200A || n == 0x2028 || n == 0x2029 || n == 0x202F || n == 0x205F || n == 0x3000
  }

  /** A value without blanks at its ends, and not nothing. */
  predicate IsTrimmed(s: string) {
    s != [] && !IsBlank(s[0]) && !IsBlank(s[|s| - 1])
  }

  function Trim(s: string): (r: string)
    ensures r == [] || IsTrimmed(r)
    decreases |s|
  {
    if s == [] then s
    else if IsBlank(s[0]) then Trim(s[1..])
    else if IsBlank(s[|s| - 1]) then Trim(s[..|s| - 1])
    else s
  }

  /** A stored value that is nothing is no value. */
  function Trimmed(value: Option<string>): Option<string> {
    if value.Some? && Trim(value.value) != [] then Some(Trim(value.value)) else None
  }

  lemma {:induction false} TrimShortens(s: string)
    ensures |Trim(s)| <= |s|
    ensures |Trim(s)| == |s| ==> s == [] || IsTrimmed(s)
    decreases |s|
  {
    if s == [] {
    } else if IsBlank(s[0]) {
      TrimShortens(s[1..]);
    } else if IsBlank(s[|s| - 1]) {
      TrimShortens(s[..|s| - 1]);
    }
  }

  lemma TrimOfTrimmed(s: string)
    requires IsTrimmed(s)
    ensures Trim(s) == s
  {
  }

  // ---- Text as bytes ------------------------------------------------------------------------------

  predicate IsAscii(s: string) {
    forall i :: 0 <= i < |s| ==> s[i] as int < 0x80
  }

  function AsciiByte(c: char): Byte
    requires c as int < 0x80
  {
    c as int
  }

  function Encoded(s: string): seq<Byte>
    requires IsAscii(s)
  {
    seq(|s|, i requires 0 <= i < |s| => AsciiByte(s[i]))
  }

  /** One character per byte; for text whose fields are ASCII it reads the fields. */
  function Characters(bytes: seq<Byte>): string {
    seq(|bytes|, i requires 0 <= i < |bytes| => bytes[i] as char)
  }

  predicate Follows(s: seq<Byte>, n: nat) {
    n <= |s| && forall i :: 0 <= i < n ==> 0x80 <= s[i] <= 0xBF
  }

  /** Well-formed UTF-8 (table 3-7 of the Unicode standard): no surrogates, no overlong forms. */
  predicate IsUtf8(s: seq<Byte>) {
    s == [] ||
    (s[0] < 0x80 && IsUtf8(s[1..])) ||
    (0xC2 <= s[0] <= 0xDF && Follows(s[1..], 1) && IsUtf8(s[2..])) ||
    (0xE0 <= s[0] <= 0xEF && Follows(s[1..], 2) && IsUtf8(s[3..])
     && (s[0] == 0xE0 ==> s[1] >= 0xA0) && (s[0] == 0xED ==> s[1] <= 0x9F)) ||
    (0xF0 <= s[0] <= 0xF4 && Follows(s[1..], 3) && IsUtf8(s[4..])
     && (s[0] == 0xF0 ==> s[1] >= 0x90) && (s[0] == 0xF4 ==> s[1] <= 0x8F))
  }

  lemma {:induction false} AsciiIsUtf8(bytes: seq<Byte>)
    requires forall i :: 0 <= i < |bytes| ==> bytes[i] < 0x80
    ensures IsUtf8(bytes)
  {
    if bytes != [] { AsciiIsUtf8(bytes[1..]); }
  }

  lemma AsciiRoundTrip(s: string)
    requires IsAscii(s)
    ensures IsUtf8(Encoded(s)) && Characters(Encoded(s)) == s
  {
    AsciiIsUtf8(Encoded(s));
  }
}
