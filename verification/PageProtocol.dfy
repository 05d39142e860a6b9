/** The set-up's request: seven values from the page, within the length a request may have. */
module PageProtocol {
  import opened Wrappers
  import opened Json

  const MAX_LENGTH: nat := 12_288
  const MAX_VALUE: nat := 256
  const WORST_BYTES: nat := 6
  const SETUP_FRAME: nat := 512

  /** The seven values; their order here is the one in which their lengths are checked. */
  const NAMES: seq<string> :=
    ["apiBase", "authBase", "appBase", "deviceName", "mirrorPath", "language", "enrollmentCode"]

  /** The order in which the page writes them: the language stands on its first page. */
  const PAGE_ORDER: seq<nat> := [5, 0, 1, 2, 3, 4, 6]

  datatype ReadError = TooLong(bytes: nat) | UnreadableRequest | ValueTooLong(characters: nat)

  // ---- Lengths ----------------------------------------------------------------------------------------------

  /** How many bytes a character takes in UTF-8. */
  function Width(c: char): (n: nat)
    ensures 1 <= n <= 4
  {
    if c as int < 0x80 then 1 else if c as int < 0x800 then 2 else if c as int < 0x1_0000 then 3 else 4
  }

  function ByteLength(s: string): nat {
    if s == "" then 0 else Width(s[0]) + ByteLength(s[1..])
  }

  lemma {:induction false} ByteLengthOfBoth(a: string, b: string)
    ensures ByteLength(a + b) == ByteLength(a) + ByteLength(b)
  {
    if a == "" {
      assert a + b == b;
    } else {
      assert (a + b)[1..] == a[1..] + b;
      ByteLengthOfBoth(a[1..], b);
    }
  }

  lemma {:induction false} PlainLength(s: string)
    requires forall i :: 0 <= i < |s| ==> s[i] as int < 0x80
    ensures ByteLength(s) == |s|
  {
    if s != "" { PlainLength(s[1..]); }
  }

  /** A control character is the worst case: six bytes for one. */
  lemma EscapedLength(c: char)
    ensures ByteLength(Escaped(c)) <= WORST_BYTES
  {
    if c as int < 0x80 {
      PlainLength(Escaped(c));
    } else {
      assert [c][1..] == "";
    }
  }

  lemma {:induction false} TextLength(value: string)
    ensures ByteLength(EscapedText(value)) <= WORST_BYTES * |value|
  {
    if value != "" {
      EscapedLength(value[0]);
      ByteLengthOfBoth(Escaped(value[0]), EscapedText(value[1..]));
      TextLength(value[1..]);
    }
  }

  // ---- The message ------------------------------------------------------------------------------------------

  type Values = seq<Option<string>>

  function Signs(s: string): (tokens: seq<Token>)
    ensures |tokens| == |s|
  {
    seq(|s|, i requires 0 <= i < |s| => Sign(s[i]))
  }

  function ValueTokens(value: Option<string>): seq<Token> {
    if value.Some? then [Text(value.value)] else Signs("null")
  }

  function Field(name: string, value: Option<string>): seq<Token> {
    [Text(name), Sign(':')] + ValueTokens(value)
  }

  /** Which values a message carries, and in which order: each at most once. */
  predicate IsOrder(order: seq<nat>) {
    && (forall k :: 0 <= k < |order| ==> order[k] < |NAMES|)
    && (forall j, k :: 0 <= j < k < |order| ==> order[j] != order[k])
  }

  function Comma(k: nat): seq<Token> {
    if k == 0 then [] else [Sign(',')]
  }

  /** The fields from the `k`-th one of the order on, with the braces that close values and request. */
  function Fields(values: Values, order: seq<nat>, k: nat): seq<Token>
    requires |values| == |NAMES| && IsOrder(order) && k <= |order|
    decreases |order| - k
  {
    if k == |order| then Signs("}}")
    else Comma(k) + Field(NAMES[order[k]], values[order[k]]) + Fields(values, order, k + 1)
  }

  function Opening(kind: string, name: string, values: string): seq<Token> {
    [Sign('{'), Text(kind), Sign(':'), Text(name), Sign(','), Text(values), Sign(':'), Sign('{')]
  }

  /** What every set-up's request begins with. */
  const HEAD: seq<Token> := Opening("kind", "applySetup", "values")

  function Request(values: Values, order: seq<nat>): seq<Token>
    requires |values| == |NAMES| && IsOrder(order)
  {
    HEAD + Fields(values, order, 0)
  }

  // ---- Reading ----------------------------------------------------------------------------------------------

  /** One value, and what follows it. */
  function ReadValue(tokens: seq<Token>): (r: Option<(Option<string>, seq<Token>)>)
    ensures r.Some? ==> |r.value.1| < |tokens|
  {
    if tokens != [] && tokens[0].Text? then Some((Some(tokens[0].value), tokens[1..]))
    else if Signs("null") <= tokens then Some((None, tokens[4..]))
    else None
  }

  /** The name of the next field, its value, and what follows it. */
  function ReadField(tokens: seq<Token>, first: bool): (r: Option<(string, Option<string>, seq<Token>)>)
    ensures r.Some? ==> |r.value.2| < |tokens|
  {
    var named := if first then tokens else if tokens != [] && tokens[0] == Sign(',') then tokens[1..] else [];
    if |named| < 2 || !named[0].Text? || named[1] != Sign(':') then None
    else
      var value := ReadValue(named[2..]);
      if value.None? then None else Some((named[0].value, value.value.0, value.value.1))
  }

  function NameIndexFrom(name: string, i: nat): (r: nat)
    requires i <= |NAMES|
    ensures i <= r <= |NAMES|
    ensures r < |NAMES| ==> NAMES[r] == name
    decreases |NAMES| - i
  {
    if i == |NAMES| || NAMES[i] == name then i else NameIndexFrom(name, i + 1)
  }

  /**
  The fields in whatever order they come: one that is missing stays absent, an unknown one is
  passed over, and one that comes twice makes the request unreadable.
  */
  function ReadFields(tokens: seq<Token>, first: bool, seen: set<nat>, got: Values): (r: Option<Values>)
    requires |got| == |NAMES|
    ensures r.Some? ==> |r.value| == |NAMES|
    decreases |tokens|
  {
    if tokens == Signs("}}") then Some(got)
    else
      var field := ReadField(tokens, first);
      if field.None? then None
      else
        var i := NameIndexFrom(field.value.0, 0);
        if i == |NAMES| then ReadFields(field.value.2, false, seen, got)
        else if i in seen then None
        else ReadFields(field.value.2, false, seen + {i}, got[i := field.value.1])
  }

  /** Nothing given yet. */
  const NOTHING: Values := [None, None, None, None, None, None, None]

  /** The first value with more characters than the page lets anybody type. */
  function LongestOver(values: Values): Option<nat> {
    if values == [] then None
    else if values[0].Some? && |values[0].value| > MAX_VALUE then Some(|values[0].value|)
    else LongestOver(values[1..])
  }

  function Read(text: string): Result<Values, ReadError> {
    if ByteLength(text) > MAX_LENGTH then Failure(TooLong(ByteLength(text)))
    else
      var tokens := ReadDocument(text);
      if tokens.None? || !(HEAD <= tokens.value) then Failure(UnreadableRequest)
      else
        var values := ReadFields(tokens.value[|HEAD|..], true, {}, NOTHING);
        if values.None? then Failure(UnreadableRequest)
        else if LongestOver(values.value).Some? then Failure(ValueTooLong(LongestOver(values.value).value))
        else Success(values.value)
  }

  // ---- Every set-up arrives ---------------------------------------------------------------------------------

  lemma ValueReads(value: Option<string>, rest: seq<Token>)
    ensures ReadValue(ValueTokens(value) + rest) == Some((value, rest))
  {
    var tokens := ValueTokens(value) + rest;
    assert tokens[|ValueTokens(value)|..] == rest;
    if value.None? {
      assert tokens[0] == Signs("null")[0];
      assert tokens[..4] == Signs("null");
    }
  }

  lemma FieldReads(k: nat, name: string, value: Option<string>, rest: seq<Token>)
    ensures ReadField(Comma(k) + Field(name, value) + rest, k == 0) == Some((name, value, rest))
    ensures Comma(k) + Field(name, value) + rest != Signs("}}")
  {
    var tokens := Comma(k) + Field(name, value) + rest;
    var named := [Text(name), Sign(':')] + (ValueTokens(value) + rest);
    assert tokens == Comma(k) + named;
    assert tokens[|Comma(k)|..] == named;
    assert named[2..] == ValueTokens(value) + rest;
    ValueReads(value, rest);
    assert Signs("}}")[0] == Sign('}');
  }

  lemma NamesDiffer(i: nat, j: nat)
    requires i < j < |NAMES|
    ensures NAMES[i] != NAMES[j]
  {
    assert NAMES[0][2] != NAMES[2][2] && NAMES[1][0] != NAMES[5][0] && NAMES[3][0] != NAMES[4][0];
    assert |NAMES[0]| == |NAMES[2]| == 7 && |NAMES[1]| == |NAMES[5]| == 8;
    assert |NAMES[3]| == |NAMES[4]| == 10 && |NAMES[6]| == 14;
  }

  lemma NameIsFound(i: nat)
    requires i < |NAMES|
    ensures NameIndexFrom(NAMES[i], 0) == i
  {
    NameIsFoundFrom(i, 0);
  }

  lemma {:induction false} NameIsFoundFrom(i: nat, from: nat)
    requires from <= i < |NAMES|
    ensures NameIndexFrom(NAMES[i], from) == i
    decreases i - from
  {
    if from < i {
      NamesDiffer(from, i);
      NameIsFoundFrom(i, from + 1);
    }
  }

  /** What has been read once the first `k` fields of the order have. */
  ghost predicate HalfRead(values: Values, order: seq<nat>, k: nat, seen: set<nat>, got: Values)
    requires |values| == |NAMES| && k <= |order|
  {
    && |got| == |NAMES|
    && (forall i :: i in seen <==> i in order[..k])
    && (forall i :: 0 <= i < |NAMES| ==> got[i] == if i in seen then values[i] else None)
  }

  /** Every value that is given stands in the order; what the message does not carry is absent. */
  ghost predicate Carries(order: seq<nat>, values: Values) {
    forall i :: 0 <= i < |values| && values[i].Some? ==> i in order
  }

  lemma HalfReadOnceMore(values: Values, order: seq<nat>, k: nat, seen: set<nat>, got: Values)
    requires |values| == |NAMES| && IsOrder(order) && k < |order| && HalfRead(values, order, k, seen, got)
    ensures order[k] !in seen
    ensures HalfRead(values, order, k + 1, seen + {order[k]}, got[order[k] := values[order[k]]])
  {
    assert order[..k + 1] == order[..k] + [order[k]];
    assert forall j :: 0 <= j < k ==> order[..k][j] == order[j];
  }

  lemma {:induction false} FieldsReadBack(values: Values, order: seq<nat>, k: nat, seen: set<nat>, got: Values)
    requires |values| == |NAMES| && IsOrder(order) && Carries(order, values)
    requires k <= |order| && HalfRead(values, order, k, seen, got)
    ensures ReadFields(Fields(values, order, k), k == 0, seen, got) == Some(values)
    decreases |order| - k
  {
    if k < |order| {
      var i, rest := order[k], Fields(values, order, k + 1);
      FieldReads(k, NAMES[i], values[i], rest);
      NameIsFound(i);
      HalfReadOnceMore(values, order, k, seen, got);
      FieldsReadBack(values, order, k + 1, seen + {i}, got[i := values[i]]);
    } else {
      assert order[..k] == order;
      assert got == values;
    }
  }

  ghost predicate FieldsRead(tokens: seq<Token>, values: Values) {
    ReadFields(tokens, true, {}, NOTHING) == Some(values)
  }

  lemma AllFieldsRead(values: Values, order: seq<nat>)
    requires |values| == |NAMES| && IsOrder(order) && Carries(order, values)
    ensures FieldsRead(Fields(values, order, 0), values)
  {
    assert order[..0] == [];
    FieldsReadBack(values, order, 0, {}, NOTHING);
  }

  predicate Fits(values: Values) {
    forall i :: 0 <= i < |values| && values[i].Some? ==> |values[i].value| <= MAX_VALUE
  }

  /** The refusal names the first value that is too long, and there is one exactly when not all fit. */
  lemma {:induction false} LongestOverMeans(values: Values)
    ensures LongestOver(values).None? <==> Fits(values)
    ensures LongestOver(values).Some? ==>
      exists i :: 0 <= i < |values| && values[i].Some? && |values[i].value| == LongestOver(values).value
                  && !Fits(values[..i + 1]) && Fits(values[..i])
  {
    if values != [] {
      LongestOverMeans(values[1..]);
      if values[0].Some? && |values[0].value| > MAX_VALUE {
        assert values[..1][0] == values[0];
      } else if LongestOver(values).Some? {
        var j :| 0 <= j < |values| - 1 && values[1..][j].Some? && |values[1..][j].value| == LongestOver(values).value
                 && !Fits(values[1..][..j + 1]) && Fits(values[1..][..j]);
        assert values[..j + 2][1..] == values[1..][..j + 1] && values[..j + 1][1..] == values[1..][..j];
        FitsFromTheFront(values[..j + 2]);
        FitsFromTheFront(values[..j + 1]);
        assert values[j + 1] == values[1..][j];
      } else {
        FitsFromTheFront(values);
      }
    }
  }

  lemma FitsFromTheFront(values: Values)
    requires values != [] && (values[0].Some? ==> |values[0].value| <= MAX_VALUE)
    ensures Fits(values) <==> Fits(values[1..])
  {
    assert forall i :: 1 <= i < |values| ==> values[i] == values[1..][i - 1];
  }

  // ---- Within the length ------------------------------------------------------------------------------------

  /** How many bytes these tokens are. */
  function Length(tokens: seq<Token>): nat {
    ByteLength(WrittenDocument(tokens))
  }

  lemma {:induction false} LengthOfBoth(a: seq<Token>, b: seq<Token>)
    ensures Length(a + b) == Length(a) + Length(b)
  {
    if a == [] {
      assert a + b == b;
    } else {
      assert (a + b)[1..] == a[1..] + b;
      LengthOfBoth(a[1..], b);
      ByteLengthOfBoth(WrittenToken(a[0]), WrittenDocument(a[1..]));
      ByteLengthOfBoth(WrittenToken(a[0]), WrittenDocument(a[1..] + b));
    }
  }

  lemma LengthOfOne(token: Token)
    ensures token.Sign? && IsSign(token.sign) ==> Length([token]) == 1
    ensures token.Text? ==> Length([token]) == 2 + ByteLength(EscapedText(token.value))
  {
    assert [token][1..] == [] && WrittenDocument([token]) == WrittenToken(token) + "";
    assert WrittenToken(token) + "" == WrittenToken(token);
    match token
    case Sign(sign) => if IsSign(sign) { PlainLength([sign]); }
    case Text(value) => QuotedLength(EscapedText(value));
  }

  lemma QuotedLength(s: string)
    ensures ByteLength(['"'] + (s + ['"'])) == 2 + ByteLength(s)
  {
    ByteLengthOfBoth(['"'], s + ['"']);
    ByteLengthOfBoth(s, ['"']);
    assert ['"'][1..] == "";
  }

  predicate IsPlain(c: char) {
    0x20 <= c as int < 0x7F && c != '"' && c != '\\'
  }

  /** The names of the protocol carry nothing to escape. */
  lemma {:induction false} PlainText(s: string)
    requires forall i :: 0 <= i < |s| ==> IsPlain(s[i])
    ensures ByteLength(EscapedText(s)) == |s|
  {
    if s != "" {
      PlainText(s[1..]);
      assert EscapedText(s) == [s[0]] + EscapedText(s[1..]);
    }
  }

  lemma {:induction false} SignsLength(s: string)
    requires forall i :: 0 <= i < |s| ==> IsSign(s[i])
    ensures Length(Signs(s)) == |s|
  {
    if s != "" {
      SignsLength(s[1..]);
      LengthOfOne(Sign(s[0]));
      assert Signs(s) == [Sign(s[0])] + Signs(s[1..]);
      LengthOfBoth([Sign(s[0])], Signs(s[1..]));
    }
  }

  lemma ValueLength(value: Option<string>)
    requires value.Some? ==> |value.value| <= MAX_VALUE
    ensures Length(ValueTokens(value)) <= 2 + WORST_BYTES * MAX_VALUE
  {
    if value.Some? {
      LengthOfOne(Text(value.value));
      TextLength(value.value);
    } else {
      SignsLength("null");
    }
  }

  lemma FieldLength(name: string, value: Option<string>)
    requires forall i :: 0 <= i < |name| ==> IsPlain(name[i])
    requires value.Some? ==> |value.value| <= MAX_VALUE
    ensures Length([Sign(',')] + Field(name, value)) <= |name| + 6 + WORST_BYTES * MAX_VALUE
    ensures Length(Field(name, value)) <= |name| + 6 + WORST_BYTES * MAX_VALUE
  {
    LengthOfBoth([Sign(',')], Field(name, value));
    LengthOfBoth([Text(name), Sign(':')], ValueTokens(value));
    assert [Text(name), Sign(':')] == [Text(name)] + [Sign(':')];
    LengthOfBoth([Text(name)], [Sign(':')]);
    LengthOfOne(Sign(','));
    LengthOfOne(Sign(':'));
    LengthOfOne(Text(name));
    PlainText(name);
    ValueLength(value);
  }

  lemma NamesArePlain(i: nat)
    requires i < |NAMES|
    ensures |NAMES[i]| <= 14 && forall k :: 0 <= k < |NAMES[i]| ==> IsPlain(NAMES[i][k])
  {
    assert i == 0 || i == 1 || i == 2 || i == 3 || i == 4 || i == 5 || i == 6;
  }

  lemma {:induction false} FieldsLength(values: Values, order: seq<nat>, k: nat)
    requires |values| == |NAMES| && IsOrder(order) && k <= |order| && Fits(values)
    ensures Length(Fields(values, order, k)) <= (|order| - k) * (20 + WORST_BYTES * MAX_VALUE) + 2
    decreases |order| - k
  {
    if k == |order| {
      SignsLength("}}");
    } else {
      var i := order[k];
      NamesArePlain(i);
      FieldLength(NAMES[i], values[i]);
      FieldsLength(values, order, k + 1);
      assert [] + Field(NAMES[i], values[i]) == Field(NAMES[i], values[i]);
      LengthOfBoth(Comma(k) + Field(NAMES[i], values[i]), Fields(values, order, k + 1));
    }
  }

  function Members(order: seq<nat>): set<nat> {
    set i | i in order
  }

  lemma {:induction false} SubsetIsSmaller(a: set<nat>, b: set<nat>)
    requires a <= b
    ensures |a| <= |b|
  {
    if a != {} {
      var x :| x in a;
      SubsetIsSmaller(a - {x}, b - {x});
    }
  }

  lemma {:induction false} DistinctMembers(order: seq<nat>)
    requires IsOrder(order)
    ensures |Members(order)| == |order|
  {
    if order != [] {
      var front, last := order[..|order| - 1], order[|order| - 1];
      DistinctMembers(front);
      MembersOneMore(order, front, last);
    }
  }

  lemma MembersOneMore(order: seq<nat>, front: seq<nat>, last: nat)
    requires IsOrder(order) && order == front + [last]
    ensures last !in Members(front) && Members(order) == Members(front) + {last}
  {
    assert order[|front|] == last;
    assert forall k :: 0 <= k < |front| ==> order[k] == front[k];
  }

  /** No message carries more than the seven values. */
  lemma OrderIsShort(order: seq<nat>)
    requires IsOrder(order)
    ensures |order| <= |NAMES|
  {
    var all: set<nat> := {0, 1, 2, 3, 4, 5, 6};
    DistinctMembers(order);
    assert forall i :: i in order ==> i in all;
    SubsetIsSmaller(Members(order), all);
  }

  lemma HeadLength()
    ensures Length(HEAD) <= 40
  {
    OpeningLength("kind", "applySetup", "values");
  }

  lemma OpeningLength(kind: string, name: string, values: string)
    requires forall i :: 0 <= i < |kind| ==> IsPlain(kind[i])
    requires forall i :: 0 <= i < |name| ==> IsPlain(name[i])
    requires forall i :: 0 <= i < |values| ==> IsPlain(values[i])
    ensures Length(Opening(kind, name, values)) == |kind| + |name| + |values| + 11
  {
    var a := [Sign('{'), Text(kind), Sign(':'), Text(name)];
    var b := [Sign(','), Text(values), Sign(':'), Sign('{')];
    assert Opening(kind, name, values) == a + b;
    LengthOfBoth(a, b);
    FourLength(Sign('{'), Text(kind), Sign(':'), Text(name));
    FourLength(Sign(','), Text(values), Sign(':'), Sign('{'));
    LengthOfOne(Sign('{'));
    LengthOfOne(Sign(':'));
    LengthOfOne(Sign(','));
    PlainTokenLength(kind);
    PlainTokenLength(name);
    PlainTokenLength(values);
  }

  lemma PlainTokenLength(s: string)
    requires forall i :: 0 <= i < |s| ==> IsPlain(s[i])
    ensures Length([Text(s)]) == 2 + |s|
  {
    LengthOfOne(Text(s));
    PlainText(s);
  }

  lemma FourLength(a: Token, b: Token, c: Token, d: Token)
    ensures Length([a, b, c, d]) == Length([a]) + Length([b]) + Length([c]) + Length([d])
  {
    LengthOfBoth([a], [b]);
    LengthOfBoth([c], [d]);
    LengthOfBoth([a] + [b], [c] + [d]);
    assert [a] + [b] + ([c] + [d]) == [a, b, c, d];
  }

  /** The two budgets meet: seven values at their limit, whatever their characters, are never too long a request. */
  lemma SetupFits(values: Values, order: seq<nat>)
    requires |values| == |NAMES| && IsOrder(order) && Fits(values)
    ensures Length(Request(values, order)) <= WORST_BYTES * MAX_VALUE * |NAMES| + SETUP_FRAME <= MAX_LENGTH
  {
    LengthOfBoth(HEAD, Fields(values, order, 0));
    HeadLength();
    FieldsLength(values, order, 0);
    OrderIsShort(order);
  }

  lemma FieldIsOfTokens(name: string, value: Option<string>)
    ensures AreTokens(Field(name, value)) && AreTokens([Sign(',')] + Field(name, value))
  {
  }

  lemma TokensBehindTokens(a: seq<Token>, b: seq<Token>)
    requires AreTokens(a) && AreTokens(b)
    ensures AreTokens(a + b)
  {
  }

  lemma {:induction false} FieldsAreOfTokens(values: Values, order: seq<nat>, k: nat)
    requires |values| == |NAMES| && IsOrder(order) && k <= |order|
    ensures AreTokens(Fields(values, order, k))
    decreases |order| - k
  {
    if k < |order| {
      var i := order[k];
      FieldIsOfTokens(NAMES[i], values[i]);
      assert [] + Field(NAMES[i], values[i]) == Field(NAMES[i], values[i]);
      FieldsAreOfTokens(values, order, k + 1);
      TokensBehindTokens(Comma(k) + Field(NAMES[i], values[i]), Fields(values, order, k + 1));
    }
  }

  /** What a text that carries these values is read as. */
  function Verdict(bytes: nat, values: Values): Result<Values, ReadError> {
    if bytes > MAX_LENGTH then Failure(TooLong(bytes))
    else if LongestOver(values).Some? then Failure(ValueTooLong(LongestOver(values).value))
    else Success(values)
  }

  lemma ReadOfTokens(text: string, fields: seq<Token>, values: Values)
    requires ReadsAs(text, HEAD + fields) && FieldsRead(fields, values)
    ensures Read(text) == Verdict(ByteLength(text), values)
  {
    assert (HEAD + fields)[|HEAD|..] == fields;
  }

  lemma BothPartsRead(head: seq<Token>, fields: seq<Token>)
    requires AreTokens(head) && AreTokens(fields)
    ensures ReadsAs(WrittenDocument(head + fields), head + fields)
  {
    TokensBehindTokens(head, fields);
    DocumentRoundTrip(head + fields);
  }

  lemma HeadIsOfTokens()
    ensures AreTokens(HEAD)
  {
  }

  lemma RequestReads(values: Values, order: seq<nat>)
    requires |values| == |NAMES| && IsOrder(order)
    ensures ReadsAs(WrittenDocument(Request(values, order)), HEAD + Fields(values, order, 0))
  {
    HeadIsOfTokens();
    FieldsAreOfTokens(values, order, 0);
    BothPartsRead(HEAD, Fields(values, order, 0));
  }

  /**
  Whatever values a message carries and in whatever order: it is read as exactly those values, or
  refused for the first one that is too long, unless the whole text is.
  */
  lemma EveryRequestIsRead(values: Values, order: seq<nat>)
    requires |values| == |NAMES| && IsOrder(order) && Carries(order, values)
    ensures var text := WrittenDocument(Request(values, order)); Read(text) == Verdict(ByteLength(text), values)
    ensures LongestOver(values).None? <==> Fits(values)
  {
    RequestReads(values, order);
    AllFieldsRead(values, order);
    ReadOfTokens(WrittenDocument(Request(values, order)), Fields(values, order, 0), values);
    LongestOverMeans(values);
  }

  /** A set-up whose values all fit arrives as it was typed, in the page's own order as in any other. */
  lemma EverySetupArrives(values: Values, order: seq<nat>)
    requires |values| == |NAMES| && IsOrder(order) && Carries(order, values) && Fits(values)
    ensures Read(WrittenDocument(Request(values, order))) == Success(values)
  {
    EveryRequestIsRead(values, order);
    SetupFits(values, order);
  }

  /** The request the page really sends, with all seven fields and the language in front. */
  lemma ThePagesRequestArrives(values: Values)
    requires |values| == |NAMES| && Fits(values)
    ensures IsOrder(PAGE_ORDER) && Read(WrittenDocument(Request(values, PAGE_ORDER))) == Success(values)
  {
    PagesOrder(values);
    EverySetupArrives(values, PAGE_ORDER);
  }

  lemma PagesOrder(values: Values)
    requires |values| == |NAMES|
    ensures IsOrder(PAGE_ORDER) && Carries(PAGE_ORDER, values)
  {
    assert PAGE_ORDER[1] == 0 && PAGE_ORDER[2] == 1 && PAGE_ORDER[3] == 2 && PAGE_ORDER[4] == 3;
    assert PAGE_ORDER[5] == 4 && PAGE_ORDER[0] == 5 && PAGE_ORDER[6] == 6;
  }
}
