/** The window's page: one file in which seven markers are replaced, one after another. */
module Page {

  datatype Name = Style | Script | Mirror | Extension | Nonce | Language | Catalog

  function Label(name: Name): (text: string)
    ensures text != [] && '{' !in text && '}' !in text
  {
    match name
    case Style => "STYLE"
    case Script => "SCRIPT"
    case Mirror => "MIRROR"
    case Extension => "EXTENSION"
    case Nonce => "NONCE"
    case Language => "LANGUAGE"
    case Catalog => "CATALOG"
  }

  function Marker(name: Name): (marker: string)
    ensures |marker| == |Label(name)| + 4
  {
    "{{" + Label(name) + "}}"
  }

  /** Every occurrence from left to right, none overlapping another. */
  function Replace(s: string, marker: string, part: string): string
    requires marker != []
    decreases |s|
  {
    if s == [] then s
    else if marker <= s then part + Replace(s[|marker|..], marker, part)
    else [s[0]] + Replace(s[1..], marker, part)
  }

  function Put(s: string, name: Name, parts: Name -> string): string {
    Replace(s, Marker(name), parts(name))
  }

  /** The catalogue goes in last. */
  function PageOf(template: string, parts: Name -> string): string {
    var styled := Put(template, Style, parts);
    var scripted := Put(styled, Script, parts);
    var mirrored := Put(scripted, Mirror, parts);
    var extended := Put(mirrored, Extension, parts);
    var guarded := Put(extended, Nonce, parts);
    var named := Put(guarded, Language, parts);
    Put(named, Catalog, parts)
  }

  // ---- All markers at once ----------------------------------------------------------------------------------

  /** The marker the text begins with, if it begins with one. */
  ghost predicate BeginsWith(s: string, name: Name) {
    Marker(name) <= s
  }

  /** Each marker of the template replaced by its part, and no part looked at. */
  ghost function Filled(template: string, parts: Name -> string): string
    decreases |template|
  {
    if template == [] then template
    else if exists name :: BeginsWith(template, name) then
      var name :| BeginsWith(template, name);
      parts(name) + Filled(template[|Marker(name)|..], parts)
    else [template[0]] + Filled(template[1..], parts)
  }

  lemma OneMarkerAtATime(s: string, a: Name, b: Name)
    requires BeginsWith(s, a) && BeginsWith(s, b)
    ensures a == b
  {
    if a != b { LabelsDiffer(a, b); }
    var m, n := Marker(a), Marker(b);
    assert forall i :: 0 <= i < |m| ==> m[i] == s[i];
    assert forall i :: 0 <= i < |n| ==> n[i] == s[i];
  }

  /** Two labels differ within both, before either closes. */
  lemma LabelsDiffer(a: Name, b: Name)
    requires a != b
    ensures exists i :: 0 <= i < |Marker(a)| && i < |Marker(b)| && Marker(a)[i] != Marker(b)[i]
  {
    var m, n := Marker(a), Marker(b);
    if m[2] == n[2] { assert m[3] != n[3]; }
  }

  // ---- A template, read as plain text and markers -----------------------------------------------------------

  datatype Piece = Plain(text: string) | Slot(name: Name)

  /** A piece once the markers of `done` have been replaced. */
  function Shown(piece: Piece, done: set<Name>, parts: Name -> string): string {
    match piece
    case Plain(text) => text
    case Slot(name) => if name in done then parts(name) else Marker(name)
  }

  function Written(pieces: seq<Piece>, done: set<Name>, parts: Name -> string): string {
    if pieces == [] then "" else Shown(pieces[0], done, parts) + Written(pieces[1..], done, parts)
  }

  /** The text opens no marker, neither inside nor with what follows it. */
  ghost predicate Closed(text: string) {
    && (forall i :: 0 <= i < |text| - 1 ==> !(text[i] == '{' && text[i + 1] == '{'))
    && (text != "" ==> text[|text| - 1] != '{')
  }

  /** Between its markers the template opens none. */
  ghost predicate OpensOnlyMarkers(pieces: seq<Piece>) {
    forall i :: 0 <= i < |pieces| && pieces[i].Plain? ==> Closed(pieces[i].text)
  }

  lemma PrefixSays(m: string, s: string)
    requires m <= s && |m| >= 2
    ensures |s| >= 2 && s[0] == m[0] && s[1] == m[1]
  {
  }

  /** A text that opens no marker does not begin with one, whatever follows it. */
  lemma ClosedIsNoMarker(text: string, rest: string, name: Name)
    requires Closed(text) && text != ""
    ensures !(Marker(name) <= text + rest)
  {
    if Marker(name) <= text + rest { PrefixSays(Marker(name), text + rest); }
  }

  predicate ReplacesInto(s: string, name: Name, part: string, r: string) {
    Replace(s, Marker(name), part) == r
  }

  lemma OneCharacterOn(text: string, rest: string, name: Name, part: string, replaced: string)
    requires Closed(text) && text != "" && ReplacesInto(text[1..] + rest, name, part, text[1..] + replaced)
    ensures ReplacesInto(text + rest, name, part, text + replaced)
  {
    ClosedIsNoMarker(text, rest, name);
    PastOneCharacter(text, text[1..], rest, name, part, replaced);
  }

  /** A character that opens no marker stays, and the replacement goes on behind it. */
  lemma PastOneCharacter(text: string, tail: string, rest: string, name: Name, part: string, replaced: string)
    requires text != "" && tail == text[1..] && !(Marker(name) <= text + rest)
    requires ReplacesInto(tail + rest, name, part, tail + replaced)
    ensures ReplacesInto(text + rest, name, part, text + replaced)
  {
    assert (text + rest)[1..] == tail + rest && (text + rest)[0] == text[0];
    assert text + replaced == [text[0]] + (tail + replaced);
  }

  lemma {:induction false} PastClosed(text: string, rest: string, name: Name, part: string)
    requires Closed(text)
    ensures ReplacesInto(text + rest, name, part, text + Replace(rest, Marker(name), part))
    decreases |text|
  {
    var replaced := Replace(rest, Marker(name), part);
    if text == "" {
      assert text + rest == rest && text + replaced == replaced;
    } else {
      PastClosed(text[1..], rest, name, part);
      OneCharacterOn(text, rest, name, part, replaced);
    }
  }

  /** What stands behind the first character of a marker opens none. */
  lemma MarkerTail(name: Name)
    ensures Marker(name) == "{" + Marker(name)[1..] && Closed(Marker(name)[1..])
  {
    var tail := Marker(name)[1..];
    assert forall i :: 1 <= i < |tail| ==> tail[i] != '{' by {
      forall i | 1 <= i < |tail| ensures tail[i] != '{' {
        if i <= |Label(name)| { assert tail[i] == Label(name)[i - 1]; }
      }
    }
  }

  lemma PastAnotherMarker(other: Name, rest: string, name: Name, part: string)
    requires other != name
    ensures ReplacesInto(Marker(other) + rest, name, part, Marker(other) + Replace(rest, Marker(name), part))
  {
    var tail := Marker(other)[1..];
    NotAnotherMarker(other, rest, name);
    MarkerTail(other);
    PastClosed(tail, rest, name, part);
    PastOneCharacter(Marker(other), tail, rest, name, part, Replace(rest, Marker(name), part));
  }

  lemma NotAnotherMarker(other: Name, rest: string, name: Name)
    requires other != name
    ensures !(Marker(name) <= Marker(other) + rest)
  {
    if Marker(name) <= Marker(other) + rest { OneMarkerAtATime(Marker(other) + rest, other, name); }
  }

  lemma AtItsMarker(name: Name, rest: string, part: string)
    ensures Replace(Marker(name) + rest, Marker(name), part) == part + Replace(rest, Marker(name), part)
  {
    assert (Marker(name) + rest)[|Marker(name)|..] == rest;
  }

  /** One replacement fills the slots of its name and moves nothing else. */
  lemma {:induction false} PutFillsItsSlots(pieces: seq<Piece>, done: set<Name>, name: Name, parts: Name -> string)
    requires OpensOnlyMarkers(pieces) && name !in done
    requires forall other :: other in done ==> Closed(parts(other))
    ensures Put(Written(pieces, done, parts), name, parts) == Written(pieces, done + {name}, parts)
    decreases |pieces|
  {
    if pieces != [] {
      PutFillsItsSlots(pieces[1..], done, name, parts);
      PutPastThePiece(pieces[0], Written(pieces[1..], done, parts), done, name, parts);
    }
  }

  lemma PutPastThePiece(piece: Piece, rest: string, done: set<Name>, name: Name, parts: Name -> string)
    requires piece.Plain? ==> Closed(piece.text)
    requires name !in done && forall other :: other in done ==> Closed(parts(other))
    ensures Put(Shown(piece, done, parts) + rest, name, parts)
         == Shown(piece, done + {name}, parts) + Put(rest, name, parts)
  {
    match piece
    case Plain(text) => PastClosed(text, rest, name, parts(name));
    case Slot(other) =>
      if other == name {
        AtItsMarker(name, rest, parts(name));
      } else if other in done {
        PastClosed(parts(other), rest, name, parts(name));
      } else {
        PastAnotherMarker(other, rest, name, parts(name));
      }
  }

  const EVERY_NAME: set<Name> := {Style, Script, Mirror, Extension, Nonce, Language, Catalog}

  lemma {:induction false} FilledPastClosed(text: string, rest: string, parts: Name -> string, filled: string)
    requires Closed(text) && FillsInto(rest, parts, filled)
    ensures FillsInto(text + rest, parts, text + filled)
    decreases |text|
  {
    if text == "" {
      assert text + rest == rest && text + filled == filled;
    } else {
      FilledPastClosed(text[1..], rest, parts, filled);
      ClosedOpensNone(text, rest);
      assert (text + rest)[1..] == text[1..] + rest && (text + rest)[0] == text[0];
      assert text + filled == [text[0]] + (text[1..] + filled);
      FilledPastOne(text + rest, text[1..] + rest, parts, text[1..] + filled, text + filled);
    }
  }

  /** Quantified so that `Filled` is unfolded only where it is asked for. */
  ghost predicate FillsInto(s: string, parts: Name -> string, r: string) {
    forall t :: t == s ==> Filled(t, parts) == r
  }

  ghost predicate OpensNone(s: string) {
    forall name :: !BeginsWith(s, name)
  }

  lemma ClosedOpensNone(text: string, rest: string)
    requires Closed(text) && text != ""
    ensures OpensNone(text + rest)
  {
    forall name ensures !BeginsWith(text + rest, name) { ClosedIsNoMarker(text, rest, name); }
  }

  lemma FilledPastOne(s: string, tail: string, parts: Name -> string, filled: string, all: string)
    requires s != "" && tail == s[1..] && OpensNone(s)
    requires FillsInto(tail, parts, filled) && all == [s[0]] + filled
    ensures FillsInto(s, parts, all)
  {
  }

  lemma FilledAtAMarker(name: Name, rest: string, parts: Name -> string)
    ensures Filled(Marker(name) + rest, parts) == parts(name) + Filled(rest, parts)
  {
    var s := Marker(name) + rest;
    assert BeginsWith(s, name);
    forall other | BeginsWith(s, other) ensures other == name { OneMarkerAtATime(s, other, name); }
    assert s[|Marker(name)|..] == rest;
  }

  lemma {:induction false} FilledIsEverySlot(pieces: seq<Piece>, parts: Name -> string)
    requires OpensOnlyMarkers(pieces)
    ensures Filled(Written(pieces, {}, parts), parts) == Written(pieces, EVERY_NAME, parts)
    decreases |pieces|
  {
    if pieces != [] {
      var rest := Written(pieces[1..], {}, parts);
      FilledIsEverySlot(pieces[1..], parts);
      match pieces[0]
      case Plain(text) => FilledPastClosed(text, rest, parts, Filled(rest, parts));
      case Slot(name) => FilledAtAMarker(name, rest, parts);
    }
  }

  /**
  Seven replacements one after another are one replacement of all markers at once, if neither the
  text between the markers nor any part but the catalogue opens a marker. Of the catalogue nothing
  is asked: whatever it says stands in the page as it says it.
  */
  lemma SevenReplacementsAreOne(pieces: seq<Piece>, parts: Name -> string)
    requires OpensOnlyMarkers(pieces)
    requires forall name :: name != Catalog ==> Closed(parts(name))
    ensures PageOf(Written(pieces, {}, parts), parts) == Filled(Written(pieces, {}, parts), parts)
  {
    FirstFour(pieces, parts);
    LastThree(pieces, parts);
    FilledIsEverySlot(pieces, parts);
  }

  const PIECES: set<Name> := {Style, Script, Mirror, Extension}

  lemma FirstFour(pieces: seq<Piece>, parts: Name -> string)
    requires OpensOnlyMarkers(pieces)
    requires forall name :: name != Catalog ==> Closed(parts(name))
    ensures Put(Put(Put(Put(Written(pieces, {}, parts), Style, parts), Script, parts), Mirror, parts), Extension, parts)
         == Written(pieces, PIECES, parts)
  {
    FillOneMore(pieces, {}, Style, {Style}, parts);
    FillOneMore(pieces, {Style}, Script, {Style, Script}, parts);
    FillOneMore(pieces, {Style, Script}, Mirror, {Style, Script, Mirror}, parts);
    FillOneMore(pieces, {Style, Script, Mirror}, Extension, PIECES, parts);
  }

  lemma LastThree(pieces: seq<Piece>, parts: Name -> string)
    requires OpensOnlyMarkers(pieces)
    requires forall name :: name != Catalog ==> Closed(parts(name))
    ensures Put(Put(Put(Written(pieces, PIECES, parts), Nonce, parts), Language, parts), Catalog, parts)
         == Written(pieces, EVERY_NAME, parts)
  {
    FillOneMore(pieces, PIECES, Nonce, PIECES + {Nonce}, parts);
    FillOneMore(pieces, PIECES + {Nonce}, Language, PIECES + {Nonce, Language}, parts);
    FillOneMore(pieces, PIECES + {Nonce, Language}, Catalog, EVERY_NAME, parts);
  }

  lemma FillOneMore(pieces: seq<Piece>, done: set<Name>, name: Name, next: set<Name>, parts: Name -> string)
    requires OpensOnlyMarkers(pieces) && name !in done && next == done + {name} && Catalog !in done
    requires forall other :: other != Catalog ==> Closed(parts(other))
    ensures Put(Written(pieces, done, parts), name, parts) == Written(pieces, next, parts)
  {
    PutFillsItsSlots(pieces, done, name, parts);
  }

  /** That no part contains two opening braces is not enough: a part that ends with one opens a marker at its seam. */
  lemma ASeamOpensAMarker(parts: Name -> string)
    requires parts(Style) == "{" && parts(Nonce) == "n"
    ensures PageOf(Marker(Style) + "{NONCE}}", parts) == "n"
    ensures Filled(Marker(Style) + "{NONCE}}", parts) == "{{NONCE}}"
  {
    SeamFilled(parts);
    SeamReplaced(parts);
  }

  lemma SeamFilled(parts: Name -> string)
    requires parts(Style) == "{"
    ensures Filled(Marker(Style) + "{NONCE}}", parts) == "{{NONCE}}"
  {
    FilledAtAMarker(Style, "{NONCE}}", parts);
    FilledOfClosed("{NONCE}}", parts);
    assert "{" + "{NONCE}}" == "{{NONCE}}";
  }

  lemma FilledOfClosed(text: string, parts: Name -> string)
    requires Closed(text)
    ensures Filled(text, parts) == text
  {
    FilledPastClosed(text, "", parts, "");
    assert text + "" == text;
  }

  lemma SeamReplaced(parts: Name -> string)
    requires parts(Style) == "{" && parts(Nonce) == "n"
    ensures PageOf(Marker(Style) + "{NONCE}}", parts) == "n"
  {
    StyleThenClosed("{NONCE}}", parts);
    assert "{" + "{NONCE}}" == Marker(Nonce);
    NonceAlone(Script, parts);
    NonceAlone(Mirror, parts);
    NonceAlone(Extension, parts);
    NonceFilled(parts);
    Untouched("n", Language, parts(Language));
    Untouched("n", Catalog, parts(Catalog));
  }

  lemma StyleThenClosed(rest: string, parts: Name -> string)
    requires Closed(rest)
    ensures Put(Marker(Style) + rest, Style, parts) == parts(Style) + rest
  {
    AtItsMarker(Style, rest, parts(Style));
    Untouched(rest, Style, parts(Style));
  }

  lemma NonceFilled(parts: Name -> string)
    ensures Put(Marker(Nonce), Nonce, parts) == parts(Nonce)
  {
    AtItsMarker(Nonce, "", parts(Nonce));
    assert Marker(Nonce) + "" == Marker(Nonce) && parts(Nonce) + "" == parts(Nonce);
  }

  lemma NonceAlone(name: Name, parts: Name -> string)
    requires name != Nonce
    ensures Put(Marker(Nonce), name, parts) == Marker(Nonce)
  {
    PastAnotherMarker(Nonce, "", name, parts(name));
    assert Marker(Nonce) + "" == Marker(Nonce);
  }

  lemma Untouched(text: string, name: Name, part: string)
    requires Closed(text)
    ensures Replace(text, Marker(name), part) == text
  {
    PastClosed(text, "", name, part);
    assert text + "" == text;
  }
}
