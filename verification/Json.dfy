/**
JSON documents as their signs and strings (section 7 of RFC 8259), and the one escape more that a
document needs to stand in a script.
*/
module Json {
  import opened Wrappers
  import opened Page

  datatype Token = Sign(sign: char) | Text(value: string)

  // ---- Writing ----------------------------------------------------------------------------------------------

  function HexDigit(d: nat): char
    requires d < 16
  {
    if d < 10 then '0' + d as char else 'a' + (d - 10) as char
  }

  /** One character of a string, as the encoder writes it. */
  function Escaped(c: char): (s: string)
    ensures s != []
  {
    if c == '"' then ['\\', '"']
    else if c == '\\' then ['\\', '\\']
    else if c as int == 0x8 then ['\\', 'b']
    else if c as int == 0x9 then ['\\', 't']
    else if c as int == 0xA then ['\\', 'n']
    else if c as int == 0xC then ['\\', 'f']
    else if c as int == 0xD then ['\\', 'r']
    else if c as int < 0x20 then ['\\', 'u', '0', '0', HexDigit(c as int / 16), HexDigit(c as int % 16)]
    else [c]
  }

  function EscapedText(value: string): string {
    if value == "" then "" else Escaped(value[0]) + EscapedText(value[1..])
  }

  function WrittenToken(token: Token): string {
    match token
    case Sign(sign) => [sign]
    case Text(value) => ['"'] + (EscapedText(value) + ['"'])
  }

  function WrittenDocument(tokens: seq<Token>): string {
    if tokens == [] then "" else WrittenToken(tokens[0]) + WrittenDocument(tokens[1..])
  }

  // ---- Reading ----------------------------------------------------------------------------------------------

  function HexValue(c: char): Option<nat> {
    if '0' <= c <= '9' then Some(c as int - '0' as int)
    else if 'a' <= c <= 'f' then Some(c as int - 'a' as int + 10)
    else if 'A' <= c <= 'F' then Some(c as int - 'A' as int + 10)
    else None
  }

  /** The four digits behind `\u`. */
  function FourDigits(s: string): Option<nat>
    requires |s| >= 4
  {
    var a, b, c, d := HexValue(s[0]), HexValue(s[1]), HexValue(s[2]), HexValue(s[3]);
    if a.Some? && b.Some? && c.Some? && d.Some? then
      Some(0x1000 * a.value + 0x100 * b.value + 0x10 * c.value + d.value)
    else None
  }

  /** What comes next inside a string. */
  datatype Unit = End(rest: string) | Char(c: char, rest: string) | Broken

  /** The short escapes. */
  function ShortEscape(c: char): Option<char> {
    match c
    case '"' => Some('"')
    case '\\' => Some('\\')
    case '/' => Some('/')
    case 'b' => Some(0x8 as char)
    case 'f' => Some(0xC as char)
    case 'n' => Some(0xA as char)
    case 'r' => Some(0xD as char)
    case 't' => Some(0x9 as char)
    case _ => None
  }

  function Next(s: string): (u: Unit)
    ensures !u.Broken? ==> |u.rest| < |s|
  {
    if s == "" then Broken
    else if s[0] == '"' then End(s[1..])
    else if s[0] == '\\' then
      if |s| >= 2 && ShortEscape(s[1]).Some? then Char(ShortEscape(s[1]).value, s[2..])
      else if |s| >= 6 && s[1] == 'u' then
        var n := FourDigits(s[2..6]);
        if n.Some? && !(0xD800 <= n.value < 0xE000) then Char(n.value as char, s[6..]) else Broken
      else Broken
    else if s[0] as int < 0x20 then Broken
    else Char(s[0], s[1..])
  }

  datatype Body = Body(value: string, rest: string) | Unreadable

  /** A string from behind its opening quote on, with what follows its closing one. */
  function ReadBody(s: string): (b: Body)
    ensures b.Body? ==> |b.rest| < |s|
    decreases |s|
  {
    match Next(s)
    case Broken => Unreadable
    case End(rest) => Body("", rest)
    case Char(c, rest) =>
      match ReadBody(rest)
      case Unreadable => Unreadable
      case Body(value, behind) => Body([c] + value, behind)
  }

  function ReadDocument(s: string): Option<seq<Token>>
    decreases |s|
  {
    if s == "" then Some([])
    else if s[0] == '"' then
      match ReadBody(s[1..])
      case Unreadable => None
      case Body(value, rest) =>
        var behind := ReadDocument(rest);
        if behind.Some? then Some([Text(value)] + behind.value) else None
    else
      var behind := ReadDocument(s[1..]);
      if behind.Some? then Some([Sign(s[0])] + behind.value) else None
  }

  // ---- Round trip -------------------------------------------------------------------------------------------

  lemma EscapedReads(c: char, rest: string)
    ensures Next(Escaped(c) + rest) == Char(c, rest)
  {
    var s := Escaped(c) + rest;
    assert s[|Escaped(c)|..] == rest;
    if c as int < 0x20 && |Escaped(c)| == 6 {
      assert s[2..6] == ['0', '0', HexDigit(c as int / 16), HexDigit(c as int % 16)];
      assert FourDigits(s[2..6]) == Some(c as int);
    }
  }

  predicate IsBody(s: string, value: string, rest: string) {
    ReadBody(s) == Body(value, rest)
  }

  lemma CharReads(c: char, behind: string, value: string, rest: string)
    requires IsBody(behind, value, rest)
    ensures IsBody(Escaped(c) + behind, [c] + value, rest)
  {
    EscapedReads(c, behind);
  }

  lemma {:induction false} TextReads(value: string, rest: string)
    ensures IsBody(EscapedText(value) + (['"'] + rest), value, rest)
  {
    if value == "" {
      assert EscapedText(value) + (['"'] + rest) == ['"'] + rest;
    } else {
      var behind := EscapedText(value[1..]) + (['"'] + rest);
      assert EscapedText(value) + (['"'] + rest) == Escaped(value[0]) + behind;
      TextReads(value[1..], rest);
      CharReads(value[0], behind, value[1..], rest);
      assert value == [value[0]] + value[1..];
    }
  }

  /** Signs are printable ASCII, and no sign opens a string. */
  predicate IsSign(c: char) {
    0x20 < c as int < 0x7F && c != '"'
  }

  predicate AreTokens(tokens: seq<Token>) {
    forall i :: 0 <= i < |tokens| && tokens[i].Sign? ==> IsSign(tokens[i].sign)
  }

  predicate ReadsAs(s: string, tokens: seq<Token>) {
    ReadDocument(s) == Some(tokens)
  }

  lemma SignReads(sign: char, rest: string, tokens: seq<Token>)
    requires IsSign(sign) && ReadsAs(rest, tokens)
    ensures ReadsAs([sign] + rest, [Sign(sign)] + tokens)
  {
    assert ([sign] + rest)[1..] == rest;
  }

  lemma TokenReads(value: string, rest: string, tokens: seq<Token>)
    requires ReadsAs(rest, tokens)
    ensures ReadsAs(WrittenToken(Text(value)) + rest, [Text(value)] + tokens)
  {
    var s, body := WrittenToken(Text(value)) + rest, EscapedText(value) + (['"'] + rest);
    assert s == ['"'] + body;
    assert s[1..] == body;
    TextReads(value, rest);
  }

  /** Every document that is written reads back as itself, whatever its strings hold. */
  lemma {:induction false} DocumentRoundTrip(tokens: seq<Token>)
    requires AreTokens(tokens)
    ensures ReadsAs(WrittenDocument(tokens), tokens)
  {
    if tokens != [] {
      DocumentRoundTrip(tokens[1..]);
      assert tokens == [tokens[0]] + tokens[1..];
      match tokens[0]
      case Sign(sign) => SignReads(sign, WrittenDocument(tokens[1..]), tokens[1..]);
      case Text(value) => TokenReads(value, WrittenDocument(tokens[1..]), tokens[1..]);
    }
  }

  // ---- In a script ------------------------------------------------------------------------------------------

  const LINE: char := 0x2028 as char
  const PARAGRAPH: char := 0x2029 as char

  const LINE_ESCAPE: string := ['\\', 'u', '2', '0', '2', '8']
  const PARAGRAPH_ESCAPE: string := ['\\', 'u', '2', '0', '2', '9']

  /** The two separators JSON permits and a script does not, as escapes. */
  function LineSafe(json: string): string {
    Replace(Replace(json, [LINE], LINE_ESCAPE), [PARAGRAPH], PARAGRAPH_ESCAPE)
  }

  predicate IsSeparator(c: char) {
    c == LINE || c == PARAGRAPH
  }

  function SafeChar(c: char): string {
    if c == LINE then LINE_ESCAPE else if c == PARAGRAPH then PARAGRAPH_ESCAPE else [c]
  }

  lemma {:induction false} PastOthers(front: string, rest: string, c: char, part: string)
    requires c !in front
    ensures Replace(front + rest, [c], part) == front + Replace(rest, [c], part)
  {
    if front == "" {
      assert front + rest == rest;
    } else {
      var s := front + rest;
      assert s[0] == front[0] && front[0] in front;
      assert s[1..] == front[1..] + rest;
      PastOthers(front[1..], rest, c, part);
      assert front == [front[0]] + front[1..];
    }
  }

  lemma AtTheChar(rest: string, c: char, part: string)
    ensures Replace([c] + rest, [c], part) == part + Replace(rest, [c], part)
  {
    assert ([c] + rest)[1..] == rest;
  }

  /** Two replacements over the text are one step over each character. */
  lemma SafeStep(c: char, rest: string)
    ensures LineSafe([c] + rest) == SafeChar(c) + LineSafe(rest)
  {
    var inner := Replace(rest, [LINE], LINE_ESCAPE);
    if c == LINE {
      AtTheChar(rest, LINE, LINE_ESCAPE);
      PastOthers(LINE_ESCAPE, inner, PARAGRAPH, PARAGRAPH_ESCAPE);
    } else {
      PastOthers([c], rest, LINE, LINE_ESCAPE);
      if c == PARAGRAPH {
        AtTheChar(inner, PARAGRAPH, PARAGRAPH_ESCAPE);
      } else {
        PastOthers([c], inner, PARAGRAPH, PARAGRAPH_ESCAPE);
      }
    }
  }

  lemma {:induction false} SafeFront(front: string, rest: string)
    requires forall i :: 0 <= i < |front| ==> !IsSeparator(front[i])
    ensures LineSafe(front + rest) == front + LineSafe(rest)
  {
    if front == "" {
      assert front + rest == rest;
    } else {
      assert front + rest == [front[0]] + (front[1..] + rest);
      SafeStep(front[0], front[1..] + rest);
      SafeFront(front[1..], rest);
      assert front == [front[0]] + front[1..];
    }
  }

  /** Inside a string the escape and the separator are one character. */
  lemma SafeNext(s: string)
    requires !Next(s).Broken?
    ensures Next(LineSafe(s)) == Next(s).(rest := LineSafe(Next(s).rest))
  {
    var rest := Next(s).rest;
    var front := s[..|s| - |rest|];
    assert s == front + rest;
    if IsSeparator(s[0]) {
      assert front == [s[0]];
      SafeStep(s[0], rest);
      SeparatorEscape(s[0], LineSafe(rest));
    } else {
      FrontIsSafe(s);
      SafeFront(front, rest);
      SameFront(front, rest, LineSafe(rest));
    }
  }

  lemma FrontIsSafe(s: string)
    requires !Next(s).Broken? && !IsSeparator(s[0])
    ensures forall i :: 0 <= i < |s| - |Next(s).rest| ==> !IsSeparator(s[i])
  {
    if s[0] == '\\' && ShortEscape(s[1]).None? {
      var four := s[2..6];
      assert forall i :: 2 <= i < 6 ==> s[i] == four[i - 2];
    }
  }

  lemma SeparatorEscape(c: char, rest: string)
    requires IsSeparator(c)
    ensures Next(SafeChar(c) + rest) == Char(c, rest)
  {
    var s := SafeChar(c) + rest;
    assert s[6..] == rest;
    assert s[2..6] == SafeChar(c)[2..6];
    assert FourDigits(s[2..6]) == Some(c as int);
  }

  /** What comes next does not depend on what follows it. */
  lemma SameFront(front: string, rest: string, other: string)
    requires !Next(front + rest).Broken? && Next(front + rest).rest == rest
    ensures Next(front + other) == Next(front + rest).(rest := other)
  {
    var s, t := front + rest, front + other;
    assert t[|front|..] == other;
    assert forall i :: 0 <= i < |front| ==> s[i] == t[i];
    if |front| == 6 { assert s[2..6] == t[2..6]; }
  }

  lemma {:induction false} SafeBody(s: string)
    requires ReadBody(s).Body?
    ensures ReadBody(LineSafe(s)) == Body(ReadBody(s).value, LineSafe(ReadBody(s).rest))
    decreases |s|
  {
    SafeNext(s);
    if Next(s).Char? { SafeBody(Next(s).rest); }
  }

  /** Separators stand in strings alone. */
  predicate SeparatorsInStrings(tokens: seq<Token>) {
    forall i :: 0 <= i < |tokens| && tokens[i].Sign? ==> !IsSeparator(tokens[i].sign)
  }

  /** Whatever document it is, a reader finds the same in the escaped text as in the text. */
  lemma {:induction false} LineSafeKeepsTheMeaning(s: string)
    requires ReadDocument(s).Some? && SeparatorsInStrings(ReadDocument(s).value)
    ensures ReadDocument(LineSafe(s)) == ReadDocument(s)
    decreases |s|
  {
    if s != "" {
      var tokens := ReadDocument(s).value;
      assert s == [s[0]] + s[1..];
      SafeStep(s[0], s[1..]);
      assert forall i :: 0 <= i < |tokens| - 1 ==> tokens[1..][i] == tokens[i + 1];
      if s[0] == '"' {
        var body := ReadBody(s[1..]);
        assert tokens[1..] == ReadDocument(body.rest).value;
        SafeBody(s[1..]);
        LineSafeKeepsTheMeaning(body.rest);
        assert LineSafe(s)[1..] == LineSafe(s[1..]);
      } else {
        assert tokens[0] == Sign(s[0]);
        assert tokens[1..] == ReadDocument(s[1..]).value;
        LineSafeKeepsTheMeaning(s[1..]);
        assert LineSafe(s)[1..] == LineSafe(s[1..]);
      }
    }
  }

  /** The script that hands a document to the page. */
  function AsScript(tokens: seq<Token>): string {
    "window.receive(" + LineSafe(WrittenDocument(tokens)) + ");"
  }

  predicate EndsALine(c: char) {
    c as int == 0xA || c as int == 0xD || IsSeparator(c)
  }

  ghost predicate IsOneLine(s: string) {
    forall i :: 0 <= i < |s| ==> !EndsALine(s[i])
  }

  lemma OneLineBehindAnother(a: string, b: string)
    requires IsOneLine(a) && IsOneLine(b)
    ensures IsOneLine(a + b)
  {
  }

  lemma EscapedIsOneLine(c: char)
    ensures !IsSeparator(c) ==> IsOneLine(Escaped(c))
    ensures IsOneLine(SafeChar(c)) <==> c as int != 0xA && c as int != 0xD
  {
    if IsSeparator(c) {
    } else {
      assert SafeChar(c)[0] == c;
    }
  }

  lemma CharIsOneLine(c: char, rest: string)
    requires IsOneLine(LineSafe(rest))
    ensures IsOneLine(LineSafe(Escaped(c) + rest))
  {
    EscapedIsOneLine(c);
    if IsSeparator(c) {
      SafeStep(c, rest);
      OneLineBehindAnother(SafeChar(c), LineSafe(rest));
    } else {
      SafeFront(Escaped(c), rest);
      OneLineBehindAnother(Escaped(c), LineSafe(rest));
    }
  }

  lemma {:induction false} SafeTextIsOneLine(value: string, rest: string)
    requires IsOneLine(LineSafe(rest))
    ensures IsOneLine(LineSafe(EscapedText(value) + rest))
  {
    if value == "" {
      assert EscapedText(value) + rest == rest;
    } else {
      var behind := EscapedText(value[1..]) + rest;
      SafeTextIsOneLine(value[1..], rest);
      CharIsOneLine(value[0], behind);
      assert EscapedText(value) + rest == Escaped(value[0]) + behind;
    }
  }

  lemma QuoteIsOneLine(rest: string)
    requires IsOneLine(LineSafe(rest))
    ensures IsOneLine(LineSafe(['"'] + rest))
  {
    SafeStep('"', rest);
    OneLineBehindAnother(['"'], LineSafe(rest));
  }

  lemma TokenIsOneLine(token: Token, rest: string)
    requires token.Sign? ==> IsSign(token.sign)
    requires IsOneLine(LineSafe(rest))
    ensures IsOneLine(LineSafe(WrittenToken(token) + rest))
  {
    match token
    case Sign(sign) =>
      SafeStep(sign, rest);
      OneLineBehindAnother([sign], LineSafe(rest));
    case Text(value) =>
      var body := EscapedText(value) + (['"'] + rest);
      assert WrittenToken(token) + rest == ['"'] + body;
      QuoteIsOneLine(rest);
      SafeTextIsOneLine(value, ['"'] + rest);
      QuoteIsOneLine(body);
  }

  lemma {:induction false} SafeDocumentIsOneLine(tokens: seq<Token>)
    requires AreTokens(tokens)
    ensures IsOneLine(LineSafe(WrittenDocument(tokens)))
  {
    if tokens != [] {
      SafeDocumentIsOneLine(tokens[1..]);
      TokenIsOneLine(tokens[0], WrittenDocument(tokens[1..]));
    }
  }

  /** The script is one line whatever the notice says, and the page finds the notice in it as it was. */
  lemma ScriptDelivers(tokens: seq<Token>)
    requires AreTokens(tokens)
    ensures IsOneLine(AsScript(tokens))
    ensures var script := AsScript(tokens);
      |script| >= 17 && ReadDocument(script[15..|script| - 2]) == Some(tokens)
  {
    var json := LineSafe(WrittenDocument(tokens));
    DocumentRoundTrip(tokens);
    LineSafeKeepsTheMeaning(WrittenDocument(tokens));
    SafeDocumentIsOneLine(tokens);
    CallIsOneLine(json);
    Unwrapped(json);
  }

  lemma CallIsOneLine(json: string)
    requires IsOneLine(json)
    ensures IsOneLine("window.receive(" + json + ");")
  {
    OneLineBehindAnother("window.receive(", json);
    OneLineBehindAnother("window.receive(" + json, ");");
  }

  lemma Unwrapped(json: string)
    ensures var script := "window.receive(" + json + ");";
      |script| == |json| + 17 && script[15..|script| - 2] == json
  {
  }
}
