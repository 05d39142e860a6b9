/**
The values of a workstation: one order of precedence that reads them, one door through which a
typed one gets in, and the pages of the set-up that go through it.
*/
module Setup {
  import opened Wrappers
  import opened Text
  import opened Seal
  import opened Starts
  import BaseAddress

  datatype Value =
    | ApiBase
    | AuthBase
    | AppBase
    | DeviceName
    | Language
    | DataPath
    | Staging
    | MirrorPath
    | Holding

  /** The values the set-up may remember; the other three are never stored. */
  const OFFERED: seq<Value> := [ApiBase, AuthBase, AppBase, DeviceName, MirrorPath, Language]

  predicate IsOffered(which: Value) {
    !which.DataPath? && !which.Staging? && !which.Holding?
  }

  predicate IsAddress(which: Value) {
    which.ApiBase? || which.AuthBase? || which.AppBase?
  }

  datatype Tongue = De | En

  function Tag(tongue: Tongue): string {
    if tongue.De? then "de" else "en"
  }

  /** The language of a tag; only its primary subtag counts. */
  function FromTag(tag: string): Option<Tongue> {
    var primary := LowerAll(tag[..Min(IndexOf(tag, '-'), IndexOf(tag, '_'))]);
    if primary == "de" then Some(De) else if primary == "en" then Some(En) else None
  }

  /** A row of the `setting` table: a typed value, or one of the marks of the counterpart. */
  datatype Slot = Typed(which: Value) | Mark(key: Key)

  type Table = map<Slot, string>

  function Row(table: Table, slot: Slot): Option<string> {
    if slot in table then Some(table[slot]) else None
  }

  /** What this process sees of its machine: the environment, the default places, and how paths are read here. */
  datatype Machine = Machine(
    variables: map<Value, string>,
    places: map<Value, string>,
    system: Tongue,
    isAbsolute: string -> bool,
    components: string -> seq<string>,
    windows: bool)

  datatype Refusal =
    | NotOffered
    | Fixed
    | Spent
    | Empty
    | Address(error: BaseAddress.AddressError)
    | PathEqual
    | Contains(inner: Value)
    | NotEmpty
    | ControlCharacter
    | NotAbsolute
    | UnknownLanguage
    | NotStored

  /** The set-up never offered it, so it says nothing about it. */
  predicate IsNotOffered(refusal: Refusal) {
    refusal.NotOffered? || refusal.Fixed? || refusal.Spent?
  }

  predicate IsControl(c: char) {
    c as int < 0x20 || 0x7F <= c as int < 0xA0
  }

  /** Everything that can be said about one value without knowing the others. */
  function CheckAlone(m: Machine, which: Value, text: string): Result<string, Refusal> {
    match which
    case ApiBase | AuthBase | AppBase =>
      var checked := BaseAddress.Check(text);
      if checked.Success? then Success(checked.value) else Failure(Address(checked.error))
    case MirrorPath => if m.isAbsolute(text) then Success(text) else Failure(NotAbsolute)
    case DeviceName =>
      if exists i :: 0 <= i < |text| && IsControl(text[i]) then Failure(ControlCharacter) else Success(text)
    case Language => if FromTag(text).Some? then Success(Tag(FromTag(text).value)) else Failure(UnknownLanguage)
    case _ => Failure(NotOffered)
  }

  // ---- Reading ------------------------------------------------------------------------------------------

  datatype Origin = FromEnvironment | FromSetting | FromDefault

  datatype Resolved = Resolved(text: string, origin: Origin)

  /** An address in the form it is stored in, if it is one; everything else as it was written. */
  function AsWritten(m: Machine, which: Value, text: string): string {
    if IsAddress(which) && CheckAlone(m, which, text).Success? then CheckAlone(m, which, text).value else text
  }

  function DefaultFor(m: Machine, which: Value): Option<string> {
    if IsAddress(which) then None
    else if which.Language? then Some(Tag(m.system))
    else if which in m.places then Some(m.places[which])
    else None
  }

  /** The value the environment carries; only a language may be passed over here. */
  function Carried(m: Machine, which: Value): Option<string> {
    if which !in m.variables then None
    else
      var raw := Trim(m.variables[which]);
      if !which.Language? then Some(AsWritten(m, which, raw))
      else if raw != "" && FromTag(raw).Some? then Some(Tag(FromTag(raw).value))
      else None
  }

  /** The value a row stands for, if it still holds. */
  function Remembered(m: Machine, which: Value, row: Option<string>): Option<string> {
    if IsOffered(which) && Trimmed(row).Some? && CheckAlone(m, which, Trimmed(row).value).Success? then
      Some(CheckAlone(m, which, Trimmed(row).value).value)
    else None
  }

  /** Environment, then setting, then default. */
  function ResolveOne(m: Machine, which: Value, row: Option<string>): Option<Resolved> {
    if Carried(m, which).Some? then Some(Resolved(Carried(m, which).value, FromEnvironment))
    else if Remembered(m, which, row).Some? then Some(Resolved(Remembered(m, which, row).value, FromSetting))
    else if DefaultFor(m, which).Some? then Some(Resolved(DefaultFor(m, which).value, FromDefault))
    else None
  }

  /** Every value of this workstation, as one reading of the table found them. */
  datatype Resolution = Resolution(m: Machine, table: Table) {
    function Of(which: Value): Option<Resolved> {
      ResolveOne(m, which, Row(table, Typed(which)))
    }

    function Text(which: Value): Option<string> {
      if Of(which).Some? then Some(Of(which).value.text) else None
    }

    predicate IsFixed(which: Value) {
      Of(which).Some? && Of(which).value.origin.FromEnvironment?
    }

    function Against(): Counterpart {
      var now := AddressesFrom(Text(ApiBase), Text(AuthBase), Text(AppBase));
      var stored := AddressesFrom(
        Row(table, Mark(CounterpartApi)), Row(table, Mark(CounterpartAuth)), Row(table, Mark(CounterpartApp)));
      var enrolled := Row(table, Mark(Enrolled)) == Some(YES);
      if now.Some? then Compare(enrolled, stored, now.value)
      else if enrolled then StillEnrolled(stored.Some?)
      else NotEnrolled
    }
  }

  // ---- The mirror's root ------------------------------------------------------------------------------

  predicate SameComponent(m: Machine, left: string, right: string) {
    if m.windows then LowerAll(left) == LowerAll(right) else left == right
  }

  /** `root` is `inner` or lies above it, component by component. */
  ghost predicate LiesAbove(m: Machine, root: string, inner: string) {
    && |m.components(root)| <= |m.components(inner)|
    && forall i :: 0 <= i < |m.components(root)| ==> SameComponent(m, m.components(root)[i], m.components(inner)[i])
  }

  method Holds(m: Machine, root: string, inner: string) returns (above: bool)
    ensures above <==> LiesAbove(m, root, inner)
  {
    var ours, theirs := m.components(root), m.components(inner);
    for i := 0 to |ours|
      invariant i <= |theirs|
      invariant forall k :: 0 <= k < i ==> SameComponent(m, ours[k], theirs[k])
    {
      if i == |theirs| || !SameComponent(m, ours[i], theirs[i]) { return false; }
    }
    return true;
  }

  /** The places a sign-out must not clear away with the mirror. */
  const OWN_PLACES: seq<Value> := [DataPath, Staging, Holding]

  ghost predicate Covers(r: Resolution, root: string, which: Value) {
    r.Text(which).Some? && LiesAbove(r.m, root, r.Text(which).value)
  }

  ghost predicate IsClear(r: Resolution, root: string) {
    forall i :: 0 <= i < |OWN_PLACES| ==> !Covers(r, root, OWN_PLACES[i])
  }

  /** Of mirror, staging and holding no two are one path. */
  predicate PathsDiffer(m: Machine, root: string, staging: string, holding: string) {
    && m.components(root) != m.components(holding)
    && m.components(root) != m.components(staging)
    && m.components(holding) != m.components(staging)
  }

  /** What a root is refused for: the first place it lies above, or things of somebody else's in it. */
  ghost function RootRefused(r: Resolution, occupied: string -> bool, root: string): Option<Refusal> {
    if r.Text(Staging).Some? && r.Text(Holding).Some?
       && !PathsDiffer(r.m, root, r.Text(Staging).value, r.Text(Holding).value)
    then Some(PathEqual)
    else if Covers(r, root, DataPath) then Some(Contains(DataPath))
    else if Covers(r, root, Staging) then Some(Contains(Staging))
    else if Covers(r, root, Holding) then Some(Contains(Holding))
    else if r.Text(MirrorPath) != Some(root) && occupied(root) then Some(NotEmpty)
    else None
  }

  method CheckRoot(r: Resolution, occupied: string -> bool, root: string) returns (refused: Option<Refusal>)
    ensures refused == RootRefused(r, occupied, root)
  {
    if r.Text(Staging).Some? && r.Text(Holding).Some? {
      if !PathsDiffer(r.m, root, r.Text(Staging).value, r.Text(Holding).value) { return Some(PathEqual); }
    }
    for i := 0 to |OWN_PLACES|
      invariant forall k :: 0 <= k < i ==> !Covers(r, root, OWN_PLACES[k])
    {
      assert forall k :: 0 <= k < i ==> !Covers(r, root, OWN_PLACES[k]);
      var inner := r.Text(OWN_PLACES[i]);
      if inner.Some? {
        var above := Holds(r.m, root, inner.value);
        if above {
          assert OWN_PLACES[0] == DataPath && OWN_PLACES[1] == Staging && OWN_PLACES[2] == Holding;
          return Some(Contains(OWN_PLACES[i]));
        }
      }
    }
    assert OWN_PLACES[0] == DataPath && OWN_PLACES[1] == Staging && OWN_PLACES[2] == Holding;
    if r.Text(MirrorPath) == Some(root) { return None; }
    return if occupied(root) then Some(NotEmpty) else None;
  }

  // ---- The one door ---------------------------------------------------------------------------------------

  /** What the door makes of a typed value: the form in which it is stored, or why it is not. */
  ghost function Admit(
    r: Resolution, occupied: string -> bool, which: Value, typed: string): Result<string, Refusal>
  {
    if !IsOffered(which) then Failure(NotOffered)
    else if r.IsFixed(which) then Failure(Fixed)
    else if which.DeviceName? && r.Against().StillEnrolled? then Failure(Spent)
    else if Trim(typed) == "" then Failure(Empty)
    else
      var checked := CheckAlone(r.m, which, Trim(typed));
      if checked.Failure? || !which.MirrorPath? then checked
      else if RootRefused(r, occupied, checked.value).Some? then Failure(RootRefused(r, occupied, checked.value).value)
      else checked
  }

  class Settings {
    var table: Table

    /** The only place that writes a typed value. The resolution may be an earlier reading of the table. */
    method SetValue(r: Resolution, occupied: string -> bool, which: Value, typed: string, takes: bool)
        returns (stored: Result<string, Refusal>)
      modifies this
      ensures stored == if Admit(r, occupied, which, typed).Success? && !takes then Failure(NotStored)
                        else Admit(r, occupied, which, typed)
      ensures table == if stored.Success? then old(table)[Typed(which) := stored.value] else old(table)
    {
      if !IsOffered(which) { return Failure(NotOffered); }
      if r.IsFixed(which) { return Failure(Fixed); }
      if which.DeviceName? && r.Against().StillEnrolled? { return Failure(Spent); }
      var text := Trim(typed);
      if text == "" { return Failure(Empty); }
      var checked := CheckAlone(r.m, which, text);
      if checked.Failure? { return checked; }
      if which.MirrorPath? {
        var refused := CheckRoot(r, occupied, checked.value);
        if refused.Some? { return Failure(refused.value); }
      }
      if !takes { return Failure(NotStored); }
      table := table[Typed(which) := checked.value];
      return checked;
    }

    /** What one press of "Next" handed over, value by value, judged by one reading taken before the first. */
    method StoreValues(m: Machine, page: Page) returns (refused: Option<Refusal>)
      modifies this
      ensures var r := Resolution(m, old(table));
        && table == Written(r, page, FirstStop(r, page, 0))
        && refused == StopReason(r, page, FirstStop(r, page, 0))
    {
      var r := Resolution(m, table);
      for i := 0 to |OFFERED|
        invariant table == Written(r, page, i)
        invariant FirstStop(r, page, 0) == FirstStop(r, page, i)
      {
        var which, typed := OFFERED[i], page.typed(OFFERED[i]);
        if typed.Some? && IsOpen(r, which) {
          var stored := SetValue(r, page.occupied, which, typed.value, page.takes(which));
          if stored.Failure? && !IsNotOffered(stored.error) { return Some(stored.error); }
        }
      }
      return None;
    }
  }

  /** What the wizard hands over, and what it meets: occupied directories, and the writes the store takes. */
  datatype Page = Page(typed: Value -> Option<string>, occupied: string -> bool, takes: Value -> bool)

  /** The field is shown as one that can be typed into. */
  predicate IsOpen(r: Resolution, which: Value) {
    && !r.IsFixed(which)
    && !(which.DeviceName? && r.Against().StillEnrolled?)
    && (which.MirrorPath? ==> r.m.windows)
  }

  datatype Outcome = Passed | Stored(text: string) | Refused(why: Refusal)

  ghost function Judged(r: Resolution, page: Page, which: Value): Outcome {
    var typed := page.typed(which);
    if typed.None? || !IsOpen(r, which) then Passed
    else
      var admitted := Admit(r, page.occupied, which, typed.value);
      if admitted.Failure? then (if IsNotOffered(admitted.error) then Passed else Refused(admitted.error))
      else if page.takes(which) then Stored(admitted.value)
      else Refused(NotStored)
  }

  /** Where the page stops: at the first refusal the user is told of. */
  ghost function FirstStop(r: Resolution, page: Page, i: nat): (stop: nat)
    requires i <= |OFFERED|
    ensures i <= stop <= |OFFERED|
    decreases |OFFERED| - i
  {
    if i == |OFFERED| || Judged(r, page, OFFERED[i]).Refused? then i else FirstStop(r, page, i + 1)
  }

  ghost function StopReason(r: Resolution, page: Page, stop: nat): Option<Refusal> {
    if stop < |OFFERED| && Judged(r, page, OFFERED[stop]).Refused? then Some(Judged(r, page, OFFERED[stop]).why)
    else None
  }

  /** The table after the first `n` values of the page. */
  ghost function Written(r: Resolution, page: Page, n: nat): Table
    requires n <= |OFFERED|
  {
    if n == 0 then r.table
    else
      var before, which := Written(r, page, n - 1), OFFERED[n - 1];
      var outcome := Judged(r, page, which);
      if outcome.Stored? then before[Typed(which) := outcome.text] else before
  }
}
