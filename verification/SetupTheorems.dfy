/** What a typed value is worth once it is stored, over any walk through the set-up. */
module SetupTheorems {
  import opened Wrappers
  import opened Text
  import opened Seal
  import opened Starts
  import opened Setup
  import BaseAddress

  /** The text as it would be stored has no blank at its end; only an address can have one, behind its slashes. */
  predicate EndsClean(which: Value, typed: string) {
    IsAddress(which) ==> IsTrimmed(BaseAddress.CutSlashes(Trim(typed)))
  }

  lemma TagIsATag(tongue: Tongue)
    ensures FromTag(Tag(tongue)) == Some(tongue) && IsTrimmed(Tag(tongue))
  {
    var tag := Tag(tongue);
    assert IndexOf(tag, '-') == 2 && IndexOf(tag, '_') == 2;
    assert tag[..2] == tag;
    assert LowerAll(tag) == tag;
  }

  lemma CheckedAgain(m: Machine, which: Value, text: string)
    requires CheckAlone(m, which, text).Success?
    ensures CheckAlone(m, which, CheckAlone(m, which, text).value) == CheckAlone(m, which, text)
  {
    if IsAddress(which) { BaseAddress.CheckIsIdempotent(text); }
    if which.Language? { TagIsATag(FromTag(text).value); }
  }

  /** A stored form: not nothing, accepted again as it is, and trimmed exactly when the typed text ends clean. */
  lemma AdmittedForm(r: Resolution, occupied: string -> bool, which: Value, typed: string)
    requires Admit(r, occupied, which, typed).Success?
    ensures var c := Admit(r, occupied, which, typed).value;
      && c != []
      && CheckAlone(r.m, which, c) == Success(c)
      && (IsTrimmed(c) <==> EndsClean(which, typed))
    ensures Carried(r.m, which).None? && IsOffered(which)
  {
    CheckedAgain(r.m, which, Trim(typed));
    if IsAddress(which) { BaseAddress.CheckIsIdempotent(Trim(typed)); }
    if which.Language? { TagIsATag(FromTag(Trim(typed)).value); }
  }

  /** Reading a row in which an admitted form stands. */
  lemma RowReadsBack(m: Machine, which: Value, c: string)
    requires c != [] && CheckAlone(m, which, c) == Success(c)
    requires Carried(m, which).None? && IsOffered(which)
    ensures ResolveOne(m, which, Some(c)) == Some(Resolved(c, FromSetting)) <==> IsTrimmed(c)
  {
    if which.Language? { TagIsATag(FromTag(c).value); }
    if IsTrimmed(c) {
      TrimOfTrimmed(c);
    } else {
      TrimShortens(c);
      NothingGrows(m, which, Trim(c));
    }
  }

  lemma NothingGrows(m: Machine, which: Value, text: string)
    ensures CheckAlone(m, which, text).Success? && !which.Language? ==> |CheckAlone(m, which, text).value| <= |text|
  {
  }

  /**
  What the door accepted is what the next reading returns, exactly when the stored form ends
  without a blank. Every other value stays, and so does every mark of the counterpart.
  */
  lemma WriteThenRead(r: Resolution, table: Table, occupied: string -> bool, which: Value, typed: string)
    requires Admit(r, occupied, which, typed).Success?
    ensures var c := Admit(r, occupied, which, typed).value;
      var before, after := Resolution(r.m, table), Resolution(r.m, table[Typed(which) := c]);
      && (after.Of(which) == Some(Resolved(c, FromSetting)) <==> EndsClean(which, typed))
      && (forall other :: other != which ==> after.Of(other) == before.Of(other))
      && (!IsAddress(which) ==> after.Against() == before.Against())
  {
    var c := Admit(r, occupied, which, typed).value;
    AdmittedForm(r, occupied, which, typed);
    RowReadsBack(r.m, which, c);
    OneRowOn(r.m, table, which, c);
  }

  /** One row more is one value read anew, and all others as before. */
  lemma OneRowOn(m: Machine, table: Table, which: Value, c: string)
    ensures var before, after := Resolution(m, table), Resolution(m, table[Typed(which) := c]);
      && after.Of(which) == ResolveOne(m, which, Some(c))
      && (forall other :: other != which ==> after.Of(other) == before.Of(other))
      && (!IsAddress(which) ==> after.Against() == before.Against())
  {
    var after := table[Typed(which) := c];
    assert Row(after, Typed(which)) == Some(c);
    OtherRowsStay(table, which, c);
    if !IsAddress(which) { SameAgainst(Resolution(m, table), Resolution(m, after)); }
  }

  lemma OtherRowsStay(table: Table, which: Value, c: string)
    ensures forall slot :: slot != Typed(which) ==> Row(table[Typed(which) := c], slot) == Row(table, slot)
  {
  }

  /** The comparison looks at three values and the marks. */
  lemma SameAgainst(before: Resolution, after: Resolution)
    requires after.Of(ApiBase) == before.Of(ApiBase) && after.Of(AuthBase) == before.Of(AuthBase)
    requires after.Of(AppBase) == before.Of(AppBase)
    requires forall key :: Row(after.table, Mark(key)) == Row(before.table, Mark(key))
    ensures after.Against() == before.Against()
  {
    assert after.Text(ApiBase) == before.Text(ApiBase);
    assert after.Text(AuthBase) == before.Text(AuthBase);
    assert after.Text(AppBase) == before.Text(AppBase);
  }

  /** Leaving an answer standing is never refused: what was stored is accepted again, whatever lies in the root. */
  lemma AcceptedAgain(r: Resolution, occupied: string -> bool, later: string -> bool, which: Value, typed: string)
    requires Admit(r, occupied, which, typed).Success? && EndsClean(which, typed)
    ensures var c := Admit(r, occupied, which, typed).value;
      Admit(Resolution(r.m, r.table[Typed(which) := c]), later, which, c) == Success(c)
  {
    var c := Admit(r, occupied, which, typed).value;
    AdmittedForm(r, occupied, which, typed);
    RowReadsBack(r.m, which, c);
    OneRowOn(r.m, r.table, which, c);
    TrimOfTrimmed(c);
    var after := Resolution(r.m, r.table[Typed(which) := c]);
    if which.MirrorPath? { RootStands(r, after, occupied, later, c); }
    AcceptsAsItIs(after, later, which, c);
  }

  /** The root that is remembered is not asked again what lies in it. */
  lemma RootStands(r: Resolution, after: Resolution, occupied: string -> bool, later: string -> bool, root: string)
    requires after.m == r.m && forall other: Value :: !other.MirrorPath? ==> after.Of(other) == r.Of(other)
    requires after.Text(MirrorPath) == Some(root) && RootRefused(r, occupied, root).None?
    ensures RootRefused(after, later, root).None?
  {
    assert after.Of(DataPath) == r.Of(DataPath);
    assert after.Of(Staging) == r.Of(Staging);
    assert after.Of(Holding) == r.Of(Holding);
  }

  lemma AcceptsAsItIs(r: Resolution, occupied: string -> bool, which: Value, c: string)
    requires IsOffered(which) && Carried(r.m, which).None? && (which.DeviceName? ==> !r.Against().StillEnrolled?)
    requires c != "" && Trim(c) == c && CheckAlone(r.m, which, c) == Success(c)
    requires which.MirrorPath? ==> RootRefused(r, occupied, c).None?
    ensures Admit(r, occupied, which, c) == Success(c)
  {
  }

  /** One address, two channels: from the environment it reads as from the table, exactly when it ends clean. */
  lemma BothChannelsAgree(m: Machine, typing: Resolution, occupied: string -> bool, which: Value, raw: string)
    requires IsAddress(which) && which in m.variables && m.variables[which] == raw
    requires Admit(typing, occupied, which, raw).Success?
    ensures var c := Admit(typing, occupied, which, raw).value;
      && ResolveOne(m, which, None) == Some(Resolved(c, FromEnvironment))
      && (ResolveOne(typing.m, which, Some(c)) == Some(Resolved(c, FromSetting)) <==> EndsClean(which, raw))
  {
    var c := Admit(typing, occupied, which, raw).value;
    AdmittedForm(typing, occupied, which, raw);
    RowReadsBack(typing.m, which, c);
    AddressFromEnvironment(m, which, raw, c);
  }

  lemma AddressFromEnvironment(m: Machine, which: Value, raw: string, c: string)
    requires IsAddress(which) && which in m.variables && m.variables[which] == raw
    requires BaseAddress.Check(Trim(raw)) == Success(c)
    ensures ResolveOne(m, which, None) == Some(Resolved(c, FromEnvironment))
  {
  }

  predicate IsPlainHost(host: string) {
    && IsTrimmed(host)
    && '/' !in host && '?' !in host && '#' !in host && '@' !in host
  }

  /** The family that fails: a blank between any host and a closing slash is stored, and read as another text. */
  lemma ABlankBehindTheHost(m: Machine, occupied: string -> bool, host: string)
    requires ApiBase !in m.variables && IsPlainHost(host)
    ensures var plain := "https://" + host;
      var cut := plain + [' '];
      && Admit(Resolution(m, map[]), occupied, ApiBase, cut + ['/']) == Success(cut)
      && Resolution(m, map[Typed(ApiBase) := cut]).Of(ApiBase) == Some(Resolved(plain, FromSetting))
  {
    var plain := "https://" + host;
    var cut := plain + [' '];
    HttpsHostIsAccepted(host);
    HttpsHostIsAccepted(host + [' ']);
    assert "https://" + (host + [' ']) == cut;
    SlashAndBlank(plain, cut, cut + ['/']);
    StoredAs(m, occupied, cut + ['/'], cut);
    ReadAs(m, cut, plain);
  }

  lemma SlashAndBlank(plain: string, cut: string, typed: string)
    requires cut == plain + [' '] && typed == cut + ['/']
    requires IsTrimmed(plain) && BaseAddress.Check(cut) == Success(cut)
    ensures Trim(typed) == typed && Trim(cut) == plain
    ensures BaseAddress.Check(typed) == Success(cut)
  {
    assert typed[..|typed| - 1] == cut && cut[..|cut| - 1] == plain;
    assert cut[0] == plain[0];
    TrimOfTrimmed(typed);
    TrimOfTrimmed(plain);
    assert BaseAddress.CutSlashes(typed) == cut == BaseAddress.CutSlashes(cut);
  }

  lemma StoredAs(m: Machine, occupied: string -> bool, typed: string, cut: string)
    requires ApiBase !in m.variables && typed != [] && Trim(typed) == typed
    requires BaseAddress.Check(typed) == Success(cut)
    ensures Admit(Resolution(m, map[]), occupied, ApiBase, typed) == Success(cut)
  {
  }

  lemma ReadAs(m: Machine, cut: string, plain: string)
    requires ApiBase !in m.variables && plain != [] && Trim(cut) == plain
    requires BaseAddress.Check(plain) == Success(plain)
    ensures Resolution(m, map[Typed(ApiBase) := cut]).Of(ApiBase) == Some(Resolved(plain, FromSetting))
  {
  }

  lemma HttpsHostIsAccepted(rest: string)
    requires rest != [] && rest[0] != '/' && rest[|rest| - 1] != '/'
    requires '?' !in rest && '#' !in rest && '@' !in rest
    ensures BaseAddress.Check("https://" + rest) == Success("https://" + rest)
  {
    var s := "https://" + rest;
    SchemeEnds(rest);
    assert s[..5] == "https" && LowerAll("https") == "https";
    assert s[8..] == rest;
    assert forall i :: 0 <= i < |BaseAddress.Authority(rest)| ==> BaseAddress.Authority(rest)[i] == rest[i];
  }

  lemma SchemeEnds(rest: string)
    ensures AuthorityStart("https://" + rest) == 8
  {
    var s := "https://" + rest;
    assert s[5..][..3] == "://";
    assert s[5..] == s[4..][1..] && s[4..] == s[3..][1..] && s[3..] == s[2..][1..];
    assert s[2..] == s[1..][1..];
    assert AuthorityStart(s[5..]) == 3;
    assert s[4..][0] == 's' && AuthorityStart(s[4..]) == 4;
    assert s[3..][0] == 'p' && AuthorityStart(s[3..]) == 5;
    assert s[2..][0] == 't' && AuthorityStart(s[2..]) == 6;
    assert s[1..][0] == 't' && AuthorityStart(s[1..]) == 7;
  }

  // ---- Pages ------------------------------------------------------------------------------------------------

  /** The place of a value among the offered ones; six for one that is not. */
  function Rank(which: Value): (i: nat)
    ensures i < |OFFERED| ==> OFFERED[i] == which
    ensures i < |OFFERED| <==> IsOffered(which)
  {
    match which
    case ApiBase => 0
    case AuthBase => 1
    case AppBase => 2
    case DeviceName => 3
    case MirrorPath => 4
    case Language => 5
    case _ => 6
  }

  lemma RankIsUnique(i: nat)
    requires i < |OFFERED|
    ensures Rank(OFFERED[i]) == i
  {
    assert i == 0 || i == 1 || i == 2 || i == 3 || i == 4 || i == 5;
  }

  /** The value is among the first `n` of the page, and the door took it. */
  ghost predicate Lands(r: Resolution, page: Page, n: nat, which: Value) {
    Rank(which) < n && IsOffered(which) && Judged(r, page, which).Stored?
  }

  lemma {:induction false} RowAfter(r: Resolution, page: Page, n: nat, slot: Slot)
    requires n <= |OFFERED|
    ensures Row(Written(r, page, n), slot)
         == if slot.Typed? && Lands(r, page, n, slot.which) then Some(Judged(r, page, slot.which).text)
            else Row(r.table, slot)
  {
    if n > 0 {
      RowAfter(r, page, n - 1, slot);
      RankIsUnique(n - 1);
    }
  }

  /** The table after one page. */
  ghost function AfterPage(m: Machine, table: Table, page: Page): Table {
    var r := Resolution(m, table);
    Written(r, page, FirstStop(r, page, 0))
  }

  /**
  After a page: each value it stored before it stopped reads back as what was stored if it ends
  clean, and every other value is what it was before.
  */
  lemma PageLands(m: Machine, table: Table, page: Page, which: Value)
    ensures var r := Resolution(m, table);
      var stop := FirstStop(r, page, 0);
      var after := Resolution(m, AfterPage(m, table, page));
      if Lands(r, page, stop, which) then
        (after.Of(which) == Some(Resolved(Judged(r, page, which).text, FromSetting))
         <==> EndsClean(which, page.typed(which).value))
      else after.Of(which) == r.Of(which)
  {
    var r := Resolution(m, table);
    var stop := FirstStop(r, page, 0);
    RowAfter(r, page, stop, Typed(which));
    if Lands(r, page, stop, which) {
      AdmittedForm(r, page.occupied, which, page.typed(which).value);
      RowReadsBack(m, which, Judged(r, page, which).text);
    }
  }

  /** A root that was typed lies above none of the places a sign-out must not clear. */
  ghost predicate RootIsSafe(r: Resolution) {
    r.Of(MirrorPath).Some? && r.Of(MirrorPath).value.origin.FromSetting? ==> IsClear(r, r.Of(MirrorPath).value.text)
  }

  lemma PageKeeps(m: Machine, table: Table, page: Page, which: Value)
    requires Resolution(m, table).IsFixed(which) || !IsOffered(which)
    ensures Resolution(m, AfterPage(m, table, page)).Of(which) == Resolution(m, table).Of(which)
  {
    PageLands(m, table, page, which);
  }

  lemma PageKeepsTheRoot(m: Machine, table: Table, page: Page)
    requires RootIsSafe(Resolution(m, table))
    ensures RootIsSafe(Resolution(m, AfterPage(m, table, page)))
  {
    var r := Resolution(m, table);
    PageLands(m, table, page, MirrorPath);
    PageKeeps(m, table, page, DataPath);
    PageKeeps(m, table, page, Staging);
    PageKeeps(m, table, page, Holding);
    var after := Resolution(m, AfterPage(m, table, page));
    if Lands(r, page, FirstStop(r, page, 0), MirrorPath) {
      RootTaken(r, page);
      ClearStays(r, after, Judged(r, page, MirrorPath).text);
    } else if r.Of(MirrorPath).Some? && r.Of(MirrorPath).value.origin.FromSetting? {
      ClearStays(r, after, r.Of(MirrorPath).value.text);
    }
  }

  /** Whether a root is clear depends on three places that no page writes. */
  lemma ClearStays(r: Resolution, after: Resolution, root: string)
    requires after.m == r.m && IsClear(r, root)
    requires after.Of(DataPath) == r.Of(DataPath) && after.Of(Staging) == r.Of(Staging)
    requires after.Of(Holding) == r.Of(Holding)
    ensures IsClear(after, root)
  {
    assert OWN_PLACES == [DataPath, Staging, Holding];
    forall i | 0 <= i < |OWN_PLACES| ensures !Covers(after, root, OWN_PLACES[i]) {
      assert !Covers(r, root, OWN_PLACES[i]);
    }
  }

  lemma RootTaken(r: Resolution, page: Page)
    requires Judged(r, page, MirrorPath).Stored?
    ensures IsClear(r, Judged(r, page, MirrorPath).text)
  {
    var root := Judged(r, page, MirrorPath).text;
    assert RootRefused(r, page.occupied, root).None?;
    assert OWN_PLACES == [DataPath, Staging, Holding];
  }

  ghost function Walked(m: Machine, table: Table, pages: seq<Page>): Table
    decreases |pages|
  {
    if pages == [] then table else Walked(m, AfterPage(m, table, pages[0]), pages[1..])
  }

  /**
  Over any number of pages, whatever was typed: a value the environment fixes and a place that is
  not offered read as at the start, the marks of the counterpart stand, and no root is ever
  remembered above the data, the staging area or the holding directory.
  */
  lemma {:induction false} EveryWalkKeeps(m: Machine, table: Table, pages: seq<Page>)
    ensures var before, after := Resolution(m, table), Resolution(m, Walked(m, table, pages));
      && (forall which :: before.IsFixed(which) || !IsOffered(which) ==> after.Of(which) == before.Of(which))
      && (forall key :: Row(after.table, Mark(key)) == Row(table, Mark(key)))
      && (RootIsSafe(before) ==> RootIsSafe(after))
    decreases |pages|
  {
    if pages != [] {
      var r := Resolution(m, table);
      var next := AfterPage(m, table, pages[0]);
      forall which | r.IsFixed(which) || !IsOffered(which) ensures Resolution(m, next).Of(which) == r.Of(which) {
        PageKeeps(m, table, pages[0], which);
      }
      forall key ensures Row(next, Mark(key)) == Row(table, Mark(key)) {
        RowAfter(r, pages[0], FirstStop(r, pages[0], 0), Mark(key));
      }
      if RootIsSafe(r) { PageKeepsTheRoot(m, table, pages[0]); }
      EveryWalkKeeps(m, next, pages[1..]);
    }
  }
}
