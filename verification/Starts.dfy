/**
A workstation over its starts: the `setting` table, the engines built over it, and what the device
really is enrolled with. Any sequence of starts, each of which may stop between any two writes, and
of an engine's enrolments between them.
*/
module Starts {
  import opened Wrappers
  import opened Text
  import opened Seal

  /** The keys of the `setting` table that the seal reads and writes. */
  datatype Key =
    | Enrolled
    | KeySet
    | CounterpartApi
    | CounterpartAuth
    | CounterpartApp
    | CounterpartChanged
    | CompletedMark

  /** What stands for a set mark. */
  const YES: string := "yes"

  /** Three stored values are a counterpart only when all three stand. */
  function AddressesFrom(api: Option<string>, auth: Option<string>, app: Option<string>): Option<Addresses> {
    if Trimmed(api).Some? && Trimmed(auth).Some? && Trimmed(app).Some? then
      Some(Addresses(Trimmed(api).value, Trimmed(auth).value, Trimmed(app).value))
    else None
  }

  function AddressOf(a: Addresses, key: Key): string {
    match key
    case CounterpartAuth => a.auth
    case CounterpartApp => a.app
    case _ => a.api
  }

  predicate IsSealKey(key: Key) {
    key.CounterpartApi? || key.CounterpartAuth? || key.CounterpartApp?
  }

  // ---- One server, whatever blanks stand at the ends of its addresses ------------------------------

  predicate IsBlankText(s: string) {
    Trim(s) == []
  }

  /** Effective addresses: none of them is blank. */
  predicate Usable(a: Addresses) {
    !IsBlankText(a.api) && !IsBlankText(a.auth) && !IsBlankText(a.app)
  }

  predicate Matches(pattern: string, address: string) {
    !IsBlankText(address) && SameAddress(pattern, Trim(address))
  }

  /** Two spellings of one address: whatever matches the one matches the other. */
  ghost predicate OneAddress(a: string, b: string) {
    forall pattern :: Matches(pattern, a) <==> Matches(pattern, b)
  }

  lemma OneAddressMeans(a: string, b: string)
    ensures OneAddress(a, b) <==> if IsBlankText(a) then IsBlankText(b) else Matches(Trim(a), b)
  {
    SameAddressIsAnEquivalence(Trim(a), Trim(a), Trim(a));
    SameAddressIsAnEquivalence(Trim(b), Trim(b), Trim(b));
    assert !IsBlankText(a) ==> Matches(Trim(a), a);
    assert !IsBlankText(b) ==> Matches(Trim(b), b);
    forall pattern ensures Matches(Trim(a), b) ==> (Matches(pattern, a) <==> Matches(pattern, b)) || IsBlankText(a) {
      SameAddressIsAnEquivalence(pattern, Trim(a), Trim(b));
      SameAddressIsAnEquivalence(Trim(a), Trim(b), Trim(a));
      SameAddressIsAnEquivalence(pattern, Trim(b), Trim(a));
    }
  }

  ghost predicate OneServer(a: Addresses, b: Addresses) {
    OneAddress(a.api, b.api) && OneAddress(a.auth, b.auth) && OneAddress(a.app, b.app)
  }

  lemma OneServerIsAnEquivalence(a: Addresses, b: Addresses, c: Addresses)
    ensures OneServer(a, a)
    ensures OneServer(a, b) ==> OneServer(b, a)
    ensures OneServer(a, b) && OneServer(b, c) ==> OneServer(a, c)
  {
    OneAddressIsAnEquivalence(a.api, b.api, c.api);
    OneAddressIsAnEquivalence(a.auth, b.auth, c.auth);
    OneAddressIsAnEquivalence(a.app, b.app, c.app);
  }

  lemma OneAddressIsAnEquivalence(a: string, b: string, c: string)
    ensures OneAddress(a, a)
    ensures OneAddress(a, b) ==> OneAddress(b, a)
    ensures OneAddress(a, b) && OneAddress(b, c) ==> OneAddress(a, c)
  {
  }

  /** No address carries a blank at an end. */
  predicate IsClean(a: Addresses) {
    IsTrimmed(a.api) && IsTrimmed(a.auth) && IsTrimmed(a.app)
  }

  /** The addresses as the table gives them back. */
  function Bare(a: Addresses): Addresses {
    Addresses(Trim(a.api), Trim(a.auth), Trim(a.app))
  }

  lemma BlankAlike(a: string, b: string, end: nat, i: nat)
    requires EqualUpToCaseBefore(a, b, end) && i < |a|
    ensures IsBlank(a[i]) <==> IsBlank(b[i])
  {
  }

  /** No blank is a letter, so an address that matches a trimmed one is trimmed. */
  lemma MatchesOnlyTrimmed(a: string, b: string)
    requires IsTrimmed(a)
    ensures SameAddress(a, b) <==> IsTrimmed(b) && OneAddress(a, b)
  {
    TrimOfTrimmed(a);
    if IsTrimmed(b) { TrimOfTrimmed(b); }
    OneAddressMeans(a, b);
    if SameAddress(a, b) {
      SameAddressMeans(a, b);
      BlankAlike(a, b, AuthorityEnd(a), 0);
      BlankAlike(a, b, AuthorityEnd(a), |a| - 1);
    }
  }

  /** What the comparison takes for the server of a seal is that server, and carries no blanks. */
  lemma SameServerIsOne(stored: Addresses, now: Addresses)
    requires IsClean(stored)
    ensures SameServer(stored, now) <==> IsClean(now) && OneServer(stored, now)
  {
    MatchesOnlyTrimmed(stored.api, now.api);
    MatchesOnlyTrimmed(stored.auth, now.auth);
    MatchesOnlyTrimmed(stored.app, now.app);
  }

  // ---- The comparison, and the seal as it stands in the table --------------------------------------

  datatype Counterpart = NotEnrolled | StillEnrolled(isSealed: bool) | Changed(stored: Addresses)

  function Compare(enrolled: bool, stored: Option<Addresses>, now: Addresses): Counterpart {
    if !enrolled then NotEnrolled
    else if stored.None? then StillEnrolled(false)
    else if !SameServer(stored.value, now) then Changed(stored.value)
    else StillEnrolled(true)
  }

  /** An engine that was built: against which server, and whose mark and key set stood then. */
  datatype Built = Built(server: Addresses, mark: Option<Addresses>, keys: Option<Addresses>, stray: bool)

  ghost predicate Belongs(owner: Option<Addresses>, server: Addresses) {
    owner.Some? ==> OneServer(owner.value, server)
  }

  function Setting(settings: map<Key, string>, key: Key): Option<string> {
    if key in settings then Some(settings[key]) else None
  }

  function SealOf(settings: map<Key, string>): Option<Addresses> {
    AddressesFrom(
      Setting(settings, CounterpartApi), Setting(settings, CounterpartAuth), Setting(settings, CounterpartApp))
  }

  /** An address of the seal stands in the table, in some spelling of this one. */
  ghost predicate Spells(settings: map<Key, string>, key: Key, address: string) {
    key in settings && !IsBlankText(settings[key]) && OneAddress(settings[key], address)
  }

  /** The seal stands in the table, and it names this server in some spelling. */
  ghost predicate Names(settings: map<Key, string>, server: Addresses) {
    && Spells(settings, CounterpartApi, server.api)
    && Spells(settings, CounterpartAuth, server.auth)
    && Spells(settings, CounterpartApp, server.app)
  }

  /** A seal that is half old and half new spelling is still the seal of the same server. */
  lemma RespellingStaysInTheClass(settings: map<Key, string>, server: Addresses, key: Key, now: Addresses)
    requires Names(settings, server) && OneServer(now, server) && Usable(now) && IsSealKey(key)
    ensures Names(settings[key := AddressOf(now, key)], server)
  {
  }

  /** Both servers a seal names are one. */
  lemma NamedAreOne(settings: map<Key, string>, a: Addresses, b: Addresses)
    requires Names(settings, a) && Names(settings, b)
    ensures OneServer(a, b)
  {
    OneAddressIsAnEquivalence(settings[CounterpartApi], a.api, a.api);
    OneAddressIsAnEquivalence(settings[CounterpartAuth], a.auth, a.auth);
    OneAddressIsAnEquivalence(settings[CounterpartApp], a.app, a.app);
    OneAddressIsAnEquivalence(a.api, settings[CounterpartApi], b.api);
    OneAddressIsAnEquivalence(a.auth, settings[CounterpartAuth], b.auth);
    OneAddressIsAnEquivalence(a.app, settings[CounterpartApp], b.app);
  }

  lemma BareSpells(s: string)
    requires !IsBlankText(s)
    ensures IsTrimmed(Trim(s)) && OneAddress(s, Trim(s))
  {
    TrimOfTrimmed(Trim(s));
    SameAddressIsAnEquivalence(Trim(s), Trim(s), Trim(s));
    OneAddressMeans(s, Trim(s));
  }

  /** What is read of a seal is clean, and one of the servers the seal names. */
  lemma NamesWhatIsStored(settings: map<Key, string>, server: Addresses)
    requires Names(settings, server)
    ensures SealOf(settings).Some? && IsClean(SealOf(settings).value) && Names(settings, SealOf(settings).value)
  {
    BareSpells(settings[CounterpartApi]);
    BareSpells(settings[CounterpartAuth]);
    BareSpells(settings[CounterpartApp]);
  }

  lemma StillStored(settings: map<Key, string>, server: Addresses, now: Addresses) returns (stored: Addresses)
    requires Names(settings, server) && Compare(true, SealOf(settings), now).StillEnrolled?
    ensures Names(settings, stored) && OneServer(stored, now)
  {
    NamesWhatIsStored(settings, server);
    stored := SealOf(settings).value;
    SameServerIsOne(stored, now);
  }

  /** The three addresses stand in the table as they are. */
  predicate IsSealedWith(settings: map<Key, string>, now: Addresses) {
    && Setting(settings, CounterpartApi) == Some(now.api)
    && Setting(settings, CounterpartAuth) == Some(now.auth)
    && Setting(settings, CounterpartApp) == Some(now.app)
  }

  lemma SealedAnew(settings: map<Key, string>, now: Addresses)
    requires Usable(now) && IsSealedWith(settings, now)
    ensures Names(settings, now) && SealOf(settings) == Some(Bare(now))
  {
    OneServerIsAnEquivalence(now, now, now);
  }

  function Sealed(settings: map<Key, string>, now: Addresses): map<Key, string> {
    settings[CounterpartApi := now.api][CounterpartAuth := now.auth][CounterpartApp := now.app]
  }

  /**
  What the comparison says of a seal written with one set of addresses and compared with another:
  at home exactly for the same server in addresses without blanks at their ends. No re-point is missed.
  */
  lemma ComparisonDecides(settings: map<Key, string>, enrolled: Addresses, now: Addresses)
    requires Usable(enrolled)
    ensures Compare(true, SealOf(Sealed(settings, enrolled)), now)
         == if OneServer(enrolled, now) && IsClean(now) then StillEnrolled(true) else Changed(Bare(enrolled))
  {
    SealedAnew(Sealed(settings, enrolled), enrolled);
    BareComparison(enrolled, now);
  }

  lemma BareComparison(enrolled: Addresses, now: Addresses)
    requires Usable(enrolled)
    ensures SameServer(Bare(enrolled), now) <==> OneServer(enrolled, now) && IsClean(now)
  {
    BareSpells(enrolled.api);
    BareSpells(enrolled.auth);
    BareSpells(enrolled.app);
    SameServerIsOne(Bare(enrolled), now);
    OneServerIsAnEquivalence(enrolled, Bare(enrolled), now);
    OneServerIsAnEquivalence(Bare(enrolled), enrolled, now);
  }

  /**
  When an enrolled device is still at home after a start that changed nothing: exactly if its
  addresses carry no blanks at their ends. The stored ones lose them on reading and the effective
  ones keep them, so otherwise every start takes its own server for another one.
  */
  lemma SealSurvivesAStart(settings: map<Key, string>, now: Addresses)
    requires Usable(now)
    ensures Compare(true, SealOf(Sealed(settings, now)), now)
         == if IsClean(now) then StillEnrolled(true) else Changed(Bare(now))
  {
    ComparisonDecides(settings, now, now);
    OneServerIsAnEquivalence(now, now, now);
  }

  class Workstation {
    var settings: map<Key, string>
    var running: Option<Addresses>
    /** With which server the mark was earned, and which one the key set came from. */
    var enrolledWith: Option<Addresses>
    var keysFrom: Option<Addresses>
    /** Every engine that was ever built here. */
    var builds: seq<Built>
    /**
    The key set stands without its mark: a start stopped between the two deletes, or an enrolment
    between the anchoring and the mark, and the key set has neither been deleted nor anchored anew.
    */
    var strayKeys: bool

    constructor ()
      ensures Valid() && builds == [] && settings == map[] && running.None? && !strayKeys
    {
      settings, running, enrolledWith, keysFrom, builds, strayKeys := map[], None, None, None, [], false;
    }

    predicate IsEnrolled()
      reads this
    {
      Setting(settings, Enrolled) == Some(YES)
    }

    function Stored(): Option<Addresses>
      reads this
    {
      SealOf(settings)
    }

    /** The seal names the server the mark was earned with, in some spelling. */
    ghost predicate MarkIsSealed()
      reads this
    {
      && (IsEnrolled() <==> enrolledWith.Some?)
      && (enrolledWith.Some? ==> Names(settings, enrolledWith.value))
    }

    /** The key set is of the enrolled server, or stray. */
    ghost predicate KeysAreOurs()
      reads this
    {
      && (KeySet in settings <==> keysFrom.Some?)
      && (strayKeys ==> keysFrom.Some?)
      && (keysFrom.Some? && !strayKeys ==> enrolledWith.Some? && OneServer(enrolledWith.value, keysFrom.value))
    }

    /**
    No engine was ever built against another server than the one of the mark that stood, nor than
    the one of the key set, unless the key set was stray.
    */
    ghost predicate BuildsAreSafe()
      reads this
    {
      forall i :: 0 <= i < |builds| ==>
        && Belongs(builds[i].mark, builds[i].server)
        && (Belongs(builds[i].keys, builds[i].server) || builds[i].stray)
    }

    /** A running engine is one of the server the seal names, and so of the one its mark is of. */
    ghost predicate RunsSealed()
      reads this
    {
      running.Some? ==> Names(settings, running.value)
    }

    ghost predicate Valid()
      reads this
    {
      MarkIsSealed() && KeysAreOurs() && BuildsAreSafe() && RunsSealed()
    }

    /** The engine is built over what stands in the table. */
    method Build(server: Addresses)
      requires MarkIsSealed() && KeysAreOurs() && BuildsAreSafe() && Names(settings, server)
      modifies this`builds
      ensures BuildsAreSafe()
      ensures builds == old(builds) + [Built(server, enrolledWith, keysFrom, strayKeys)]
    {
      if enrolledWith.Some? {
        NamedAreOne(settings, enrolledWith.value, server);
        if keysFrom.Some? && !strayKeys {
          OneServerIsAnEquivalence(enrolledWith.value, keysFrom.value, server);
          OneServerIsAnEquivalence(keysFrom.value, enrolledWith.value, server);
        }
      }
      builds := builds + [Built(server, enrolledWith, keysFrom, strayKeys)];
    }

    /** The address of one kind is written over one of the same server, or over anything while there is no mark. */
    method Remember(now: Addresses, left: nat) returns (ok: bool, rest: nat)
      requires Usable(now) && MarkIsSealed()
      requires enrolledWith.Some? ==> OneServer(now, enrolledWith.value)
      modifies this`settings
      ensures MarkIsSealed()
      ensures SameButTheSeal(old(settings), settings)
      ensures ok <==> left >= 3
      ensures ok ==> rest == left - 3 && Stored() == Some(Bare(now)) && Names(settings, now)
    {
      rest := left;
      if rest == 0 { return false, 0; }
      WriteAddress(CounterpartApi, now);
      if rest == 1 { return false, 0; }
      WriteAddress(CounterpartAuth, now);
      if rest == 2 { return false, 0; }
      WriteAddress(CounterpartApp, now);
      SealedAnew(settings, now);
      return true, left - 3;
    }

    method WriteAddress(key: Key, now: Addresses)
      requires MarkIsSealed() && Usable(now) && IsSealKey(key)
      requires enrolledWith.Some? ==> OneServer(now, enrolledWith.value)
      modifies this`settings
      ensures settings == old(settings)[key := AddressOf(now, key)]
      ensures MarkIsSealed()
    {
      if enrolledWith.Some? { RespellingStaysInTheClass(settings, enrolledWith.value, key, now); }
      settings := settings[key := AddressOf(now, key)];
    }

    static ghost predicate SameButTheSeal(before: map<Key, string>, after: map<Key, string>) {
      forall key :: !IsSealKey(key) ==>
        && (key in before <==> key in after)
        && (key in before ==> before[key] == after[key])
    }

    /** The device is given back to nobody: signed out of the old server, then its mark and its key set deleted. */
    method StartAfresh(stored: Addresses, left: nat, comesUp: bool) returns (ok: bool, rest: nat)
      requires MarkIsSealed() && KeysAreOurs() && BuildsAreSafe() && running.None?
      requires enrolledWith.Some? && Stored() == Some(stored)
      modifies this
      ensures MarkIsSealed() && KeysAreOurs() && BuildsAreSafe() && running.None?
      ensures old(builds) <= builds <= old(builds) + [Built(stored, old(enrolledWith), old(keysFrom), old(strayKeys))]
      ensures ok <==> comesUp && left >= 2
      ensures ok ==> rest == left - 2 && enrolledWith.None? && keysFrom.None? && !strayKeys
      ensures comesUp && left == 1 ==>
        enrolledWith.None? && keysFrom == old(keysFrom) && strayKeys == keysFrom.Some?
      ensures !comesUp || left == 0 ==>
        enrolledWith == old(enrolledWith) && keysFrom == old(keysFrom) && strayKeys == old(strayKeys)
    {
      if !comesUp { return false, left; }
      NamesWhatIsStored(settings, enrolledWith.value);
      Build(stored);
      if left == 0 { return false, 0; }
      settings := settings - {Enrolled};
      enrolledWith, strayKeys := None, keysFrom.Some?;
      if left == 1 { return false, 0; }
      settings := settings - {KeySet};
      keysFrom, strayKeys := None, false;
      return true, left - 2;
    }

    /** Signed out of the old server, and the change of server noted for the page that says so. */
    method LeaveServer(stored: Addresses, left: nat, comesUp: bool) returns (ok: bool, rest: nat)
      requires MarkIsSealed() && KeysAreOurs() && BuildsAreSafe() && running.None?
      requires enrolledWith.Some? && Stored() == Some(stored)
      modifies this
      ensures MarkIsSealed() && KeysAreOurs() && BuildsAreSafe() && running.None?
      ensures ok <==> comesUp && left >= 4
      ensures ok ==> rest == left - 4 && enrolledWith.None? && keysFrom.None? && !strayKeys
      ensures comesUp && left == 1 ==>
        enrolledWith.None? && keysFrom == old(keysFrom) && strayKeys == keysFrom.Some?
    {
      ok, rest := StartAfresh(stored, left, comesUp);
      if ok { ok, rest := NoteChanged(stored, rest); }
    }

    /**
    One start of the program with these addresses. It stops before its write number `left`, or, with
    `comesUp` false, because the old server's engine does not come up for the sign-out.
    */
    method Start(now: Addresses, left: nat, comesUp: bool) returns (up: bool)
      requires Valid() && Usable(now)
      modifies this
      ensures Valid()
      ensures up ==>
        && running == Some(now) && Stored() == Some(Bare(now))
        && builds != [] && builds[|builds| - 1] == Built(now, enrolledWith, keysFrom, strayKeys)
      ensures var comparison := Compare(old(IsEnrolled()), old(Stored()), now);
        if comparison.Changed? then
          && (up ==> enrolledWith.None? && keysFrom.None? && !strayKeys)
          && (comesUp && left == 1 ==> enrolledWith.None? && keysFrom == old(keysFrom) && strayKeys == keysFrom.Some?)
          && (up <==> comesUp && left >= 7)
        else
          && enrolledWith == old(enrolledWith) && keysFrom == old(keysFrom) && strayKeys == old(strayKeys)
          && (up <==> left >= 3)
    {
      running := None;
      var rest := left;
      match Compare(IsEnrolled(), Stored(), now) {
        case Changed(stored) =>
          var ok;
          ok, rest := LeaveServer(stored, left, comesUp);
          if !ok { return false; }
        case StillEnrolled(_) => SealNames(now);
        case NotEnrolled =>
      }
      up := SealAndBuild(now, rest);
    }

    /** A device that is still at home is one of the server it starts with. */
    lemma SealNames(now: Addresses)
      requires MarkIsSealed() && Compare(IsEnrolled(), Stored(), now).StillEnrolled?
      ensures enrolledWith.Some? && OneServer(now, enrolledWith.value)
    {
      var stored := StillStored(settings, enrolledWith.value, now);
      NamedAreOne(settings, stored, enrolledWith.value);
      OneServerIsAnEquivalence(stored, now, stored);
      OneServerIsAnEquivalence(now, stored, enrolledWith.value);
    }

    /** And one that is pointed elsewhere is found out, in whatever spelling. */
    lemma ElsewhereIsSeen(now: Addresses)
      requires MarkIsSealed() && enrolledWith.Some? && !OneServer(enrolledWith.value, now)
      ensures Compare(IsEnrolled(), Stored(), now).Changed?
    {
      if Compare(IsEnrolled(), Stored(), now).StillEnrolled? {
        SealNames(now);
        OneServerIsAnEquivalence(now, enrolledWith.value, now);
      }
    }

    /** The end of every start: the seal is written anew, and the engine is built. */
    method SealAndBuild(now: Addresses, left: nat) returns (up: bool)
      requires MarkIsSealed() && KeysAreOurs() && BuildsAreSafe() && running.None?
      requires Usable(now) && (enrolledWith.Some? ==> OneServer(now, enrolledWith.value))
      modifies this
      ensures Valid()
      ensures enrolledWith == old(enrolledWith) && keysFrom == old(keysFrom) && strayKeys == old(strayKeys)
      ensures up <==> left >= 3
      ensures up ==>
        && running == Some(now) && Stored() == Some(Bare(now))
        && builds != [] && builds[|builds| - 1] == Built(now, enrolledWith, keysFrom, strayKeys)
    {
      var rest;
      up, rest := Remember(now, left);
      if up {
        Build(now);
        running := Some(now);
      }
    }

    method NoteChanged(stored: Addresses, left: nat) returns (ok: bool, rest: nat)
      requires MarkIsSealed() && enrolledWith.None?
      modifies this`settings
      ensures MarkIsSealed() && (KeySet in settings <==> KeySet in old(settings))
      ensures ok <==> left >= 2
      ensures ok ==> rest == left - 2
      ensures ok ==> Setting(settings, CounterpartChanged) == Some(stored.api) && CompletedMark !in settings
    {
      if left == 0 { return false, 0; }
      settings := settings[CounterpartChanged := stored.api];
      if left == 1 { return false, 0; }
      settings := settings - {CompletedMark};
      return true, left - 2;
    }

    /**
    The engine that runs enrols the device, once. The answer may carry the server's keys: they are
    anchored first, unless others are anchored already, and only then the mark is set. It stops
    before its write number `left`.
    */
    method Enrol(offered: Option<string>, agrees: bool, left: nat) returns (ok: bool)
      requires Valid() && running.Some?
      modifies this
      ensures Valid() && running == old(running) && builds == old(builds)
      ensures old(IsEnrolled()) ==> ok && unchanged(this)
      ensures !old(IsEnrolled()) && offered.Some? && KeySet in old(settings) && !agrees ==> !ok && unchanged(this)
      ensures !old(IsEnrolled()) && (offered.Some? && KeySet in old(settings) ==> agrees) ==>
        && (ok <==> left >= if offered.Some? then 2 else 1)
        && enrolledWith == (if ok then running else None)
        && keysFrom == (if offered.Some? && left > 0 then running else old(keysFrom))
        && strayKeys == (if offered.Some? && left > 0 then !ok
                         else old(strayKeys) && !(ok && old(keysFrom) == running))
    {
      if IsEnrolled() { return true; }
      if offered.None? {
        ok := left > 0;
        if ok { SetMark(); }
      } else {
        if KeySet in settings && !agrees { return false; }
        ok := AnchorAndMark(offered.value, left);
      }
    }

    method AnchorAndMark(keys: string, left: nat) returns (ok: bool)
      requires Valid() && running.Some? && !IsEnrolled()
      modifies this`settings, this`keysFrom, this`strayKeys, this`enrolledWith
      ensures Valid()
      ensures ok <==> left >= 2
      ensures enrolledWith == if ok then running else None
      ensures keysFrom == if left > 0 then running else old(keysFrom)
      ensures strayKeys == if left > 0 then !ok else old(strayKeys)
    {
      if left == 0 { return false; }
      Anchor(keys);
      if left == 1 { return false; }
      SetMark();
      return true;
    }

    method Anchor(keys: string)
      requires Valid() && running.Some? && !IsEnrolled()
      modifies this`settings, this`keysFrom, this`strayKeys
      ensures Valid() && !IsEnrolled()
      ensures keysFrom == running && strayKeys
    {
      settings := settings[KeySet := keys];
      keysFrom, strayKeys := running, true;
    }

    /** The mark makes the key set of the running engine's server the enrolled one's. */
    method SetMark()
      requires Valid() && running.Some? && !IsEnrolled()
      modifies this`settings, this`enrolledWith, this`strayKeys
      ensures Valid() && enrolledWith == running
      ensures strayKeys == (old(strayKeys) && keysFrom != running)
    {
      NamedAreOne(settings, running.value, running.value);
      settings := settings[Enrolled := YES];
      enrolledWith, strayKeys := running, strayKeys && keysFrom != running;
    }

    /** An anchored key set takes later keys in; it is never anchored anew by them. */
    method AdoptKeys(keys: string)
      requires Valid() && running.Some?
      modifies this`settings
      ensures Valid() && (KeySet in settings <==> KeySet in old(settings))
    {
      if KeySet in settings { settings := settings[KeySet := keys]; }
    }
  }

  datatype Event =
    | StartUp(now: Addresses, left: nat, comesUp: bool)
    | Enrolment(offered: Option<string>, agrees: bool, writes: nat)
    | Adoption(keys: string)
    | Quit

  /**
  A whole life of a workstation. No engine was ever built against a server of another class than
  the one of the mark that stood; none against another than the one of its key set either, unless a
  stop had parted the two. However often the seal was written anew, it still
  names the server of the mark.
  */
  method Life(events: seq<Event>) returns (w: Workstation)
    requires forall e :: e in events && e.StartUp? ==> Usable(e.now)
    ensures fresh(w) && w.Valid()
    ensures forall i :: 0 <= i < |w.builds| ==> Belongs(w.builds[i].mark, w.builds[i].server)
    ensures forall i :: 0 <= i < |w.builds| && !w.builds[i].stray ==> Belongs(w.builds[i].keys, w.builds[i].server)
    ensures w.enrolledWith.Some? ==> w.Stored().Some? && OneServer(w.enrolledWith.value, w.Stored().value)
  {
    w := new Workstation();
    for i := 0 to |events|
      invariant fresh(w) && w.Valid()
    {
      assert events[i] in events;
      match events[i]
      case StartUp(now, left, comesUp) => var _ := w.Start(now, left, comesUp);
      case Enrolment(offered, agrees, writes) =>
        if w.running.Some? { var _ := w.Enrol(offered, agrees, writes); }
      case Adoption(keys) => if w.running.Some? { w.AdoptKeys(keys); }
      case Quit => w.running := None;
    }
  }

  /**
  The exception, as it happens: enrolled with one server, pointed at another, stopped between the
  two deletes, started again. The engine of the second server runs over the key set of the first.
  */
  method StoppedBetweenTheDeletes(first: Addresses, second: Addresses, keys: string) returns (w: Workstation)
    requires Usable(first) && Usable(second) && !OneServer(first, second)
    ensures w.Valid() && w.builds != []
    ensures w.builds[|w.builds| - 1] == Built(second, None, Some(first), true)
  {
    w := new Workstation();
    var ok := w.Start(first, 3, true);
    ok := w.Enrol(Some(keys), false, 2);
    w.ElsewhereIsSeen(second);
    ok := w.Start(second, 1, true);
    ok := w.Start(second, 3, true);
  }

  /**
  And the other way into it: an enrolment stopped between the anchoring and the mark, and a start
  against another server, which finds no mark and so compares nothing.
  */
  method StoppedBeforeTheMark(first: Addresses, second: Addresses, keys: string) returns (w: Workstation)
    requires Usable(first) && Usable(second)
    ensures w.Valid() && w.builds != []
    ensures w.builds[|w.builds| - 1] == Built(second, None, Some(first), true)
  {
    w := new Workstation();
    var ok := w.Start(first, 3, true);
    ok := w.Enrol(Some(keys), false, 1);
    ok := w.Start(second, 3, true);
  }
}
