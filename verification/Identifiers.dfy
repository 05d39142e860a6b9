/** The SID and the CLSID as text, and back. */
module Identifiers {
  import opened Wrappers
  import opened Bytes
  import opened Text

  const SID_HEADER: nat := 8
  const SID_REVISION: nat := 1

  // ---- SID -------------------------------------------------------------------------------------------

  /** How many bytes a SID with this many sub-authorities takes. */
  function SidLength(subAuthorities: nat): nat {
    SID_HEADER + 4 * subAuthorities
  }

  function FieldAt(body: seq<Byte>, i: nat): string
    requires 4 * i + 4 <= |body|
  {
    Decimal(FromLittleEndian(body[4 * i..4 * i + 4]))
  }

  /** The four-byte chunks of the body as decimal numbers. */
  function SubAuthorityFields(body: seq<Byte>): (fields: seq<string>)
    ensures |fields| == |body| / 4
  {
    seq(|body| / 4, i requires 0 <= i < |body| / 4 => FieldAt(body, i))
  }

  /** Text that is fields, each behind a dash. */
  function Dashed(fields: seq<string>): string {
    if fields == [] then "" else ['-'] + (fields[0] + Dashed(fields[1..]))
  }

  lemma {:induction false} DashedBehind(fields: seq<string>, last: string)
    ensures Dashed(fields + [last]) == Dashed(fields) + (['-'] + last)
  {
    if fields == [] {
      assert [last][1..] == [];
      assert [] + [last] == [last];
    } else {
      DashedBehind(fields[1..], last);
      assert (fields + [last])[1..] == fields[1..] + [last];
    }
  }

  /** The bytes are a SID this client writes: long enough, of the one revision, with a narrow authority. */
  predicate IsSid(raw: seq<Byte>) {
    && SID_HEADER <= |raw|
    && raw[0] == SID_REVISION
    && FromBigEndian(raw[2..SID_HEADER]) < 0x1_0000_0000
    && SidLength(raw[1]) <= |raw|
  }

  /** Revision, authority and sub-authorities, each as a decimal number. */
  function SidFields(raw: seq<Byte>): seq<string>
    requires IsSid(raw)
  {
    [Decimal(raw[0]), Decimal(FromBigEndian(raw[2..SID_HEADER]))]
    + SubAuthorityFields(raw[SID_HEADER..SidLength(raw[1])])
  }

  method SidText(raw: seq<Byte>) returns (text: Option<string>)
    ensures text == if IsSid(raw) then Some("S" + Dashed(SidFields(raw))) else None
  {
    if |raw| < SID_HEADER { return None; }
    if raw[0] != SID_REVISION { return None; }
    var authority := FoldAuthority(raw[2..SID_HEADER]);
    if authority >= 0x1_0000_0000 { return None; }
    if |raw| < SidLength(raw[1]) { return None; }
    var out := "S-" + Decimal(raw[0]) + (['-'] + Decimal(authority));
    TwoDashed(Decimal(raw[0]), Decimal(authority));
    out := PushSubAuthorities(raw[SID_HEADER..SidLength(raw[1])], out, [Decimal(raw[0]), Decimal(authority)]);
    return Some(out);
  }

  /** Most significant byte first. */
  method FoldAuthority(bytes: seq<Byte>) returns (value: nat)
    ensures value == FromBigEndian(bytes)
  {
    value := 0;
    for i := 0 to |bytes|
      invariant value == FromBigEndian(bytes[..i])
    {
      assert bytes[..i + 1][..i] == bytes[..i];
      value := value * 0x100 + bytes[i] as int;
    }
    assert bytes[..|bytes|] == bytes;
  }

  method PushSubAuthorities(body: seq<Byte>, text: string, ghost front: seq<string>) returns (out: string)
    requires text == "S" + Dashed(front + [])
    ensures out == "S" + Dashed(front + SubAuthorityFields(body))
  {
    out := text;
    ghost var fields := SubAuthorityFields(body);
    for i := 0 to |body| / 4
      invariant out == "S" + Dashed(front + fields[..i])
    {
      var value := FieldAt(body, i);
      TextGrows(out, front, fields[..i], value, fields[..i + 1]);
      out := out + (['-'] + value);
    }
    assert fields[..|fields|] == fields;
  }

  lemma TextGrows(text: string, front: seq<string>, fields: seq<string>, field: string, more: seq<string>)
    requires text == "S" + Dashed(front + fields) && more == fields + [field]
    ensures text + (['-'] + field) == "S" + Dashed(front + more)
  {
    DashedBehind(front + fields, field);
    assert front + more == front + fields + [field];
    Behind(Dashed(front + fields), ['-'] + field);
  }

  lemma Behind(text: string, more: string)
    ensures "S" + text + more == "S" + (text + more)
  {
  }

  lemma TwoDashed(a: string, b: string)
    ensures "S-" + a + (['-'] + b) == "S" + Dashed([a, b] + [])
  {
    assert [a, b][1..] == [b] && [b][1..] == [] && [a, b] + [] == [a, b];
    assert Dashed([b]) == ['-'] + b;
    assert "S-" + a == "S" + (['-'] + a);
  }

  /** The bytes a SID's text stands for. */
  function ParseSid(text: string): seq<Byte> {
    SidOf(Split(text, '-'))
  }

  function BigEndianField(field: string, width: nat): seq<Byte> {
    ToBigEndian(Value(field), width)
  }

  function SidOf(fields: seq<string>): seq<Byte> {
    if |fields| < 3 then [] else SidBytes(fields[1], fields[2], fields[3..])
  }

  function SidBytes(revision: string, authority: string, fields: seq<string>): seq<Byte> {
    SidHead(Value(revision), |fields|) + BigEndianField(authority, 6) + SubAuthorityBytes(fields)
  }

  function SidHead(revision: nat, count: nat): seq<Byte> {
    [revision % 0x100, count % 0x100]
  }

  function SubAuthorityBytes(fields: seq<string>): seq<Byte> {
    if fields == [] then []
    else SubAuthorityBytes(fields[..|fields| - 1]) + ToLittleEndian(Value(fields[|fields| - 1]), 4)
  }

  lemma {:induction false} SplitOfDashed(first: string, fields: seq<string>)
    requires '-' !in first && forall i :: 0 <= i < |fields| ==> '-' !in fields[i]
    ensures SplitsInto(first + Dashed(fields), '-', [first] + fields)
    decreases |fields|
  {
    if fields == [] {
      assert first + "" == first && [first] + [] == [first];
      SplitLast(first, '-');
    } else {
      SplitOfDashed(fields[0], fields[1..]);
      assert [fields[0]] + fields[1..] == fields;
      DashBehind(first, fields[0] + Dashed(fields[1..]), fields);
    }
  }

  lemma DashBehind(first: string, rest: string, parts: seq<string>)
    requires '-' !in first && SplitsInto(rest, '-', parts)
    ensures SplitsInto(first + (['-'] + rest), '-', [first] + parts)
  {
    SplitFirst(first, rest, '-', parts);
    assert first + ['-'] + rest == first + (['-'] + rest);
  }

  ghost predicate StandFor(fields: seq<string>, bytes: seq<Byte>) {
    SubAuthorityBytes(fields) == bytes
  }

  lemma OneBack(fields: seq<string>, bytes: seq<Byte>, last: string, four: seq<Byte>)
    requires StandFor(fields, bytes) && ToLittleEndian(Value(last), 4) == four
    ensures StandFor(fields + [last], bytes + four)
  {
    assert (fields + [last])[..|fields|] == fields;
  }

  lemma FieldBack(s: seq<Byte>, width: nat)
    requires |s| == width
    ensures ToLittleEndian(Value(Decimal(FromLittleEndian(s))), width) == s
  {
    DecimalRoundTrip(FromLittleEndian(s));
    LittleEndianDecodes(s);
  }

  lemma ChunkBack(body: seq<Byte>, i: nat, field: string)
    requires 4 * i + 4 <= |body| && field == FieldAt(body, i)
    ensures ToLittleEndian(Value(field), 4) == body[4 * i..4 * i + 4]
    ensures body[..4 * i] + body[4 * i..4 * i + 4] == body[..4 * (i + 1)]
  {
    FieldBack(body[4 * i..4 * i + 4], 4);
  }

  lemma {:induction false} FieldsBack(body: seq<Byte>, fields: seq<string>, n: nat)
    requires 4 * n <= |body| && fields == SubAuthorityFields(body)
    ensures StandFor(fields[..n], body[..4 * n])
  {
    if n > 0 {
      FieldsBack(body, fields, n - 1);
      ChunkBack(body, n - 1, fields[n - 1]);
      OneBack(fields[..n - 1], body[..4 * (n - 1)], fields[n - 1], body[4 * (n - 1)..4 * (n - 1) + 4]);
      assert fields[..n] == fields[..n - 1] + [fields[n - 1]];
    } else {
      assert fields[..0] == [] && body[..0] == [];
    }
  }

  lemma AllFieldsBack(body: seq<Byte>)
    requires |body| % 4 == 0
    ensures StandFor(SubAuthorityFields(body), body)
  {
    var fields := SubAuthorityFields(body);
    FieldsBack(body, fields, |fields|);
    assert fields[..|fields|] == fields && body[..4 * |fields|] == body;
  }

  lemma NoDash(raw: seq<Byte>)
    requires IsSid(raw)
    ensures forall i :: 0 <= i < |SidFields(raw)| ==> '-' !in SidFields(raw)[i]
  {
  }

  lemma SidOfItsFields(raw: seq<Byte>)
    requires IsSid(raw)
    ensures SidOf(["S"] + SidFields(raw)) == raw[..SidLength(raw[1])]
  {
    var body := raw[SID_HEADER..SidLength(raw[1])];
    AllFieldsBack(body);
    HeaderBack(raw[0], raw[2..SID_HEADER], SubAuthorityFields(body));
    assert raw[..SidLength(raw[1])] == [raw[0], raw[1]] + raw[2..SID_HEADER] + body;
  }

  lemma HeaderBack(revision: Byte, authority: seq<Byte>, fields: seq<string>)
    requires |authority| == 6 && |fields| < 0x100
    ensures SidOf(["S"] + ([Decimal(revision), Decimal(FromBigEndian(authority))] + fields))
         == [revision, |fields|] + authority + SubAuthorityBytes(fields)
  {
    DecimalRoundTrip(revision);
    NumberBack(authority, 6);
    SidOfFields("S", Decimal(revision), Decimal(FromBigEndian(authority)), fields, revision, authority);
  }

  lemma NumberBack(s: seq<Byte>, width: nat)
    requires |s| == width
    ensures BigEndianField(Decimal(FromBigEndian(s)), width) == s
  {
    DecimalRoundTrip(FromBigEndian(s));
    BigEndianDecodes(s);
  }

  lemma SidOfFields(
    first: string, revision: string, authority: string, fields: seq<string>, r: Byte, a: seq<Byte>)
    requires Value(revision) == r && BigEndianField(authority, 6) == a && |fields| < 0x100
    ensures SidOf([first] + ([revision, authority] + fields)) == [r, |fields|] + a + SubAuthorityBytes(fields)
  {
    var parts := [first] + ([revision, authority] + fields);
    var rest := parts[3..];
    assert rest == fields;
    assert parts[1] == revision && parts[2] == authority;
    SidParts(revision, authority, fields);
  }

  lemma SidParts(revision: string, authority: string, fields: seq<string>)
    requires Value(revision) < 0x100 && |fields| < 0x100
    ensures SidBytes(revision, authority, fields)
         == [Value(revision), |fields|] + BigEndianField(authority, 6) + SubAuthorityBytes(fields)
  {
    HeadAsItIs(Value(revision), |fields|);
  }

  lemma HeadAsItIs(revision: nat, count: nat)
    requires revision < 0x100 && count < 0x100
    ensures SidHead(revision, count) == [revision, count]
  {
  }

  /** What the text says is exactly the SID it was made of: the first `SidLength` bytes, whatever follows them. */
  lemma SidRoundTrip(raw: seq<Byte>)
    requires IsSid(raw)
    ensures ParseSid("S" + Dashed(SidFields(raw))) == raw[..SidLength(raw[1])]
  {
    NoDash(raw);
    SplitOfDashed("S", SidFields(raw));
    SidOfItsFields(raw);
  }

  // ---- CLSID -------------------------------------------------------------------------------------------

  predicate IsHexDigit(c: char) { '0' <= c <= '9' || 'A' <= c <= 'F' }

  function HexDigit(d: nat): (c: char)
    requires d < 16
    ensures IsHexDigit(c)
  {
    if d < 10 then '0' + d as char else 'A' + (d - 10) as char
  }

  function HexValue(c: char): (d: nat)
    requires IsHexDigit(c)
    ensures d < 16 && HexDigit(d) == c
  {
    if c <= '9' then c as int - '0' as int else c as int - 'A' as int + 10
  }

  function Pow16(n: nat): (p: nat)
    ensures p > 0
  {
    if n == 0 then 1 else 16 * Pow16(n - 1)
  }

  /** The low `width` hexadecimal digits, in upper case. */
  function Hex(n: nat, width: nat): (s: string)
    ensures |s| == width && forall i :: 0 <= i < width ==> IsHexDigit(s[i])
  {
    if width == 0 then "" else Hex(n / 16, width - 1) + [HexDigit(n % 16)]
  }

  predicate AllHex(s: string) {
    forall i :: 0 <= i < |s| ==> IsHexDigit(s[i])
  }

  function FromHex(s: string): nat
    requires AllHex(s)
  {
    if s == [] then 0 else 16 * FromHex(s[..|s| - 1]) + HexValue(s[|s| - 1])
  }

  ghost predicate IsHexOf(s: string, n: nat) {
    n < Pow16(|s|) && Hex(n, |s|) == s
  }

  lemma OneHexDigitMore(s: string, n: nat, c: char)
    requires IsHexDigit(c) && IsHexOf(s, n)
    ensures IsHexOf(s + [c], 16 * n + HexValue(c))
  {
  }

  lemma {:induction false} HexDecodes(s: string)
    requires AllHex(s)
    ensures IsHexOf(s, FromHex(s))
  {
    if s != [] {
      var front := s[..|s| - 1];
      HexDecodes(front);
      OneHexDigitMore(front, FromHex(front), s[|s| - 1]);
      assert s == front + [s[|s| - 1]];
    }
  }

  lemma {:induction false} HexRoundTrip(n: nat, width: nat)
    requires n < Pow16(width)
    ensures FromHex(Hex(n, width)) == n
  {
    if width > 0 {
      HexRoundTrip(n / 16, width - 1);
      assert Hex(n, width)[..width - 1] == Hex(n / 16, width - 1);
    }
  }

  function Quotient(n: nat, d: nat): nat
    requires d > 0
  {
    n / d
  }

  function Remainder(n: nat, d: nat): nat
    requires d > 0
  {
    n % d
  }

  /** Cutting the last `low` digits off a number cuts them off its text. */
  lemma {:induction false} HexSplits(n: nat, high: nat, low: nat)
    ensures Hex(n, high + low) == Hex(Quotient(n, Pow16(low)), high) + Hex(Remainder(n, Pow16(low)), low)
  {
    if low > 0 {
      HexSplits(n / 16, high, low - 1);
      DividedTwice(n, Pow16(low - 1));
    }
  }

  lemma DividedTwice(n: nat, p: nat)
    requires p > 0
    ensures n / 16 / p == n / (16 * p)
    ensures n % (16 * p) / 16 == n / 16 % p
    ensures n % (16 * p) % 16 == n % 16
  {
    var q, r := n / 16 / p, n / 16 % p;
    assert n / 16 == q * p + r;
    assert n == 16 * (n / 16) + n % 16;
    assert q * (16 * p) == 16 * (q * p);
    RemainderIsUnique(n, 16 * p, q, 16 * r + n % 16);
  }

  /** A GUID in braces, upper case, in groups of 8, 4, 4, 4 and 12 digits. */
  function ClsidText(value: nat): string {
    InBraces(
      Hex(Remainder(Quotient(value, 0x1_0000_0000_0000_0000_0000_0000), 0x1_0000_0000), 8),
      Hex(Remainder(Quotient(value, 0x1_0000_0000_0000_0000_0000), 0x1_0000), 4),
      Hex(Remainder(Quotient(value, 0x1_0000_0000_0000_0000), 0x1_0000), 4),
      Hex(Remainder(Quotient(value, 0x1_0000_0000_0000), 0x1_0000), 4),
      Hex(Remainder(value, 0x1_0000_0000_0000), 12))
  }

  function InBraces(a: string, b: string, c: string, d: string, e: string): string {
    "{" + a + "-" + b + "-" + c + "-" + d + "-" + e + "}"
  }

  /** The shape of the text: braces, dashes, and 32 upper-case digits between them. */
  predicate IsClsidText(text: string) {
    && |text| == 38
    && text[0] == '{' && text[37] == '}'
    && text[9] == '-' && text[14] == '-' && text[19] == '-' && text[24] == '-'
    && AllHex(ClsidDigits(text))
  }

  function ClsidDigits(text: string): string
    requires |text| == 38
  {
    text[1..9] + text[10..14] + text[15..19] + text[20..24] + text[25..37]
  }

  function ParseClsid(text: string): nat
    requires IsClsidText(text)
  {
    FromHex(ClsidDigits(text))
  }

  lemma Powers()
    ensures Pow16(4) == 0x1_0000
    ensures Pow16(8) == 0x1_0000_0000
    ensures Pow16(12) == 0x1_0000_0000_0000
    ensures Pow16(16) == 0x1_0000_0000_0000_0000
    ensures Pow16(20) == 0x1_0000_0000_0000_0000_0000
    ensures Pow16(24) == 0x1_0000_0000_0000_0000_0000_0000
    ensures Pow16(32) == 0x1_0000_0000_0000_0000_0000_0000_0000_0000
  {
    PowerSum(4, 4);
    PowerSum(8, 4);
    PowerSum(12, 4);
    PowerSum(16, 4);
    PowerSum(20, 4);
    PowerSum(24, 8);
  }

  lemma {:induction false} PowerSum(a: nat, b: nat)
    ensures Pow16(a + b) == Pow16(a) * Pow16(b)
  {
    if b > 0 { PowerSum(a, b - 1); }
  }

  lemma DigitsInBraces(a: string, b: string, c: string, d: string, e: string)
    requires |a| == 8 && |b| == |c| == |d| == 4 && |e| == 12
    ensures |InBraces(a, b, c, d, e)| == 38
    ensures ClsidDigits(InBraces(a, b, c, d, e)) == a + b + c + d + e
  {
  }

  lemma QuotientTwice(n: nat, p: nat, q: nat)
    requires p > 0 && q > 0 && p * q > 0
    ensures Quotient(Quotient(n, p), q) == Quotient(n, p * q)
  {
    var h, l := n / p, n % p;
    TwoDivisions(n, p, q, p * q, l, h / q, h % q);
  }

  lemma TwoDivisions(n: nat, p: nat, q: nat, pq: nat, l: nat, t: nat, r: nat)
    requires pq == p * q > 0 && l < p && r < q
    requires n == (t * q + r) * p + l
    ensures n / pq == t
  {
    Regrouped(t, q, r, p);
    MultiplyIsMonotone(r + 1, q, p);
    RemainderIsUnique(n, pq, t, r * p + l);
  }

  lemma Regrouped(t: nat, q: nat, r: nat, p: nat)
    ensures (t * q + r) * p == t * (p * q) + r * p
    ensures (r + 1) * p == r * p + p
  {
    assert (t * q + r) * p == (t * q) * p + r * p;
    assert (t * q) * p == t * (q * p);
  }

  /** One group of four digits, with everything in front of it. */
  lemma Group(value: nat, low: nat, next: nat, high: nat)
    requires low > 0 && next == low * 0x1_0000
    ensures Hex(Quotient(value, low), high + 4)
         == Hex(Quotient(value, next), high) + Hex(Remainder(Quotient(value, low), 0x1_0000), 4)
  {
    Powers();
    HexSplits(Quotient(value, low), high, 4);
    QuotientTwice(value, low, 0x1_0000);
  }

  lemma HighGroup(value: nat)
    requires value < 0x1_0000_0000_0000_0000_0000_0000_0000_0000
    ensures Remainder(Quotient(value, 0x1_0000_0000_0000_0000_0000_0000), 0x1_0000_0000)
         == Quotient(value, 0x1_0000_0000_0000_0000_0000_0000)
  {
  }

  /** The five groups are the 32 digits of the number. */
  lemma GroupsAreTheDigits(value: nat)
    requires value < 0x1_0000_0000_0000_0000_0000_0000_0000_0000
    ensures |ClsidText(value)| == 38 && ClsidDigits(ClsidText(value)) == Hex(value, 32)
  {
    FiveGroups(value, 0x1_0000_0000_0000, 0x1_0000_0000_0000_0000, 0x1_0000_0000_0000_0000_0000,
      0x1_0000_0000_0000_0000_0000_0000, 8, 4, 12);
    HighGroup(value);
    DigitsInBraces(
      Hex(Remainder(Quotient(value, 0x1_0000_0000_0000_0000_0000_0000), 0x1_0000_0000), 8),
      Hex(Remainder(Quotient(value, 0x1_0000_0000_0000_0000_0000), 0x1_0000), 4),
      Hex(Remainder(Quotient(value, 0x1_0000_0000_0000_0000), 0x1_0000), 4),
      Hex(Remainder(Quotient(value, 0x1_0000_0000_0000), 0x1_0000), 4),
      Hex(Remainder(value, 0x1_0000_0000_0000), 12));
  }

  lemma FiveGroups(value: nat, p12: nat, p16: nat, p20: nat, p24: nat, eight: nat, four: nat, twelve: nat)
    requires p12 == 0x1_0000_0000_0000 && p16 == p12 * 0x1_0000 && p20 == p16 * 0x1_0000 && p24 == p20 * 0x1_0000
    requires eight == 8 && four == 4 && twelve == 12
    ensures Hex(value, eight + four + four + four + twelve)
         == Hex(Quotient(value, p24), eight)
          + Hex(Remainder(Quotient(value, p20), 0x1_0000), four)
          + Hex(Remainder(Quotient(value, p16), 0x1_0000), four)
          + Hex(Remainder(Quotient(value, p12), 0x1_0000), four)
          + Hex(Remainder(value, p12), twelve)
  {
    TwelveDigits(p12, twelve);
    HexSplits(value, eight + four + four + four, twelve);
    Group(value, p12, p16, eight + four + four);
    Group(value, p16, p20, eight + four);
    Group(value, p20, p24, eight);
  }

  lemma TwelveDigits(p: nat, width: nat)
    requires p == 0x1_0000_0000_0000 && width == 12
    ensures Pow16(width) == p
  {
    Powers();
  }

  /** Printing a GUID loses nothing. */
  lemma ClsidRoundTrip(value: nat)
    requires value < 0x1_0000_0000_0000_0000_0000_0000_0000_0000
    ensures IsClsidText(ClsidText(value)) && ParseClsid(ClsidText(value)) == value
  {
    GroupsAreTheDigits(value);
    Powers();
    HexRoundTrip(value, 32);
  }

  /** And every text of the shape is the text of a GUID. */
  lemma ClsidTextIsOnto(text: string)
    requires IsClsidText(text)
    ensures ParseClsid(text) < 0x1_0000_0000_0000_0000_0000_0000_0000_0000
    ensures ClsidText(ParseClsid(text)) == text
  {
    var value := ParseClsid(text);
    Powers();
    HexDecodes(ClsidDigits(text));
    GroupsAreTheDigits(value);
    var again := ClsidText(value);
    assert ClsidDigits(again) == ClsidDigits(text);
    forall i | 0 <= i < 38 ensures again[i] == text[i] {
      var at := if i < 9 then i - 1 else if i < 14 then i - 2 else if i < 19 then i - 3
                else if i < 24 then i - 4 else i - 5;
      if i != 0 && i != 9 && i != 14 && i != 19 && i != 24 && i != 37 {
        assert ClsidDigits(again)[at] == again[i] && ClsidDigits(text)[at] == text[i];
      }
    }
  }
}
