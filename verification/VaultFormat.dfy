/** How the vault lays a value out in the keychain: a header entry and numbered chunks beside it. */
module VaultFormat {
  import opened Wrappers
  import opened Bytes
  import opened Text

  const CHUNK_BYTES: nat := 2048
  const CHUNK_MAX: nat := 64
  const HEADER_MARKER: string := "edms-vault/1"

  type Entries = map<string, seq<Byte>>

  datatype Reason = NotText | WrongMarker | NoCount | NoLength | BadCount | ChunkMissing(number: nat) | WrongLength

  datatype VaultError = Corrupt(reason: Reason) | Denied | NotReachable

  function ChunkName(slot: string, number: nat): string {
    slot + "#" + Decimal(number)
  }

  /** How many chunks `length` bytes take; an empty value takes one. */
  function ChunkCount(length: nat): (n: nat)
    ensures n >= 1
    ensures length <= CHUNK_BYTES * n
    ensures n > 1 ==> CHUNK_BYTES * (n - 1) < length
  {
    Max((length + CHUNK_BYTES - 1) / CHUNK_BYTES, 1)
  }

  /** Where chunk `number`, counted from 1, of `length` bytes ends. */
  function End(number: nat, length: nat): nat {
    Min(CHUNK_BYTES * number, length)
  }

  function Chunk(value: seq<Byte>, number: nat): seq<Byte>
    requires number >= 1
  {
    value[End(number - 1, |value|)..End(number, |value|)]
  }

  function HeaderText(chunks: nat, length: nat): string {
    HEADER_MARKER + [' '] + (Decimal(chunks) + [' '] + Decimal(length))
  }

  lemma HeaderIsAscii(chunks: nat, length: nat)
    ensures IsAscii(HeaderText(chunks, length))
  {
    assert IsAscii(HEADER_MARKER);
  }

  function Header(chunks: nat, length: nat): seq<Byte> {
    HeaderIsAscii(chunks, length);
    Encoded(HeaderText(chunks, length))
  }

  function ReadHeader(header: seq<Byte>): Result<(nat, nat), VaultError> {
    if !IsUtf8(header) then Failure(Corrupt(NotText))
    else
      var parts := Split(Characters(header), ' ');
      if parts[0] != HEADER_MARKER then Failure(Corrupt(WrongMarker))
      else
        var chunks := if |parts| < 2 then None else ParseNumber(parts[1]);
        var length := if |parts| < 3 then None else ParseNumber(parts[2]);
        if chunks.None? then Failure(Corrupt(NoCount))
        else if length.None? then Failure(Corrupt(NoLength))
        else if chunks.value == 0 || chunks.value > CHUNK_MAX then Failure(Corrupt(BadCount))
        else Success((chunks.value, length.value))
  }

  lemma NoSpaceInDecimal(n: nat)
    ensures ' ' !in Decimal(n) && '#' !in Decimal(n)
  {
  }

  lemma HeaderRoundTrip(chunks: nat, length: nat)
    requires 1 <= chunks <= CHUNK_MAX && length <= USIZE_MAX
    ensures ReadHeader(Header(chunks, length)) == Success((chunks, length))
  {
    var c, l := Decimal(chunks), Decimal(length);
    HeaderIsAscii(chunks, length);
    AsciiRoundTrip(HeaderText(chunks, length));
    NoSpaceInDecimal(chunks);
    NoSpaceInDecimal(length);
    assert HEADER_MARKER == "edms-vault/1";
    SplitLast(l, ' ');
    SplitFirst(c, l, ' ', [l]);
    SplitFirst(HEADER_MARKER, c + [' '] + l, ' ', [c] + [l]);
    assert HeaderText(chunks, length) == HEADER_MARKER + [' '] + (c + [' '] + l);
    ParseOfDecimal(chunks);
    ParseOfDecimal(length);
  }

  // ---- Reading ------------------------------------------------------------------------------------

  /** The chunks 1 to `n` put together, or the number of the first one that is missing. */
  function Collect(entries: Entries, slot: string, n: nat): Result<seq<Byte>, nat> {
    if n == 0 then Success([])
    else
      var before := Collect(entries, slot, n - 1);
      if before.Failure? then before
      else if ChunkName(slot, n) !in entries then Failure(n)
      else Success(before.value + entries[ChunkName(slot, n)])
  }

  /** What a read of the slot answers; `None` is a slot without a value. */
  function ReadBack(entries: Entries, slot: string): Result<Option<seq<Byte>>, VaultError> {
    if slot !in entries then Success(None)
    else
      var header := ReadHeader(entries[slot]);
      if header.Failure? then Failure(header.error)
      else
        var value := Collect(entries, slot, header.value.0);
        if value.Failure? then Failure(Corrupt(ChunkMissing(value.error)))
        else if |value.value| != header.value.1 then Failure(Corrupt(WrongLength))
        else Success(Some(value.value))
  }

  /** The slot holds exactly this value: its header, its chunks, and no chunk besides. */
  ghost predicate Stored(entries: Entries, slot: string, value: seq<Byte>) {
    var n := ChunkCount(|value|);
    && n <= CHUNK_MAX
    && slot in entries && entries[slot] == Header(n, |value|)
    && (forall i :: 1 <= i <= n ==> ChunkName(slot, i) in entries && entries[ChunkName(slot, i)] == Chunk(value, i))
    && (forall i :: n < i <= CHUNK_MAX ==> ChunkName(slot, i) !in entries)
  }

  /** The slot holds nothing, and no chunk is left behind. */
  ghost predicate Vacant(entries: Entries, slot: string) {
    && slot !in entries
    && forall i :: 1 <= i <= CHUNK_MAX ==> ChunkName(slot, i) !in entries
  }

  lemma {:induction false} CollectOfStored(entries: Entries, slot: string, value: seq<Byte>, n: nat)
    requires forall i :: 1 <= i <= n ==> ChunkName(slot, i) in entries && entries[ChunkName(slot, i)] == Chunk(value, i)
    ensures Collect(entries, slot, n) == Success(value[..End(n, |value|)])
  {
    if n > 0 {
      CollectOfStored(entries, slot, value, n - 1);
      assert value[..End(n - 1, |value|)] + Chunk(value, n) == value[..End(n, |value|)];
    }
  }

  /** A stored value reads back as itself. */
  lemma StoredReadsBack(entries: Entries, slot: string, value: seq<Byte>)
    requires Stored(entries, slot, value)
    ensures ReadBack(entries, slot) == Success(Some(value))
  {
    HeaderRoundTrip(ChunkCount(|value|), |value|);
    CollectOfStored(entries, slot, value, ChunkCount(|value|));
    assert value[..|value|] == value;
  }

  // ---- Names ---------------------------------------------------------------------------------------

  predicate NoHash(slot: string) { '#' !in slot }

  /** Entries of slots without `#` never share a name. */
  lemma NamesAreApart(s: string, i: nat, t: string, j: nat)
    requires NoHash(s) && NoHash(t)
    ensures ChunkName(s, i) != t
    ensures ChunkName(s, i) == ChunkName(t, j) ==> s == t && i == j
  {
    assert ChunkName(s, i)[|s|] == '#' && ChunkName(t, j)[|t|] == '#';
    if ChunkName(s, i) == ChunkName(t, j) {
      assert forall k :: 0 <= k < |s| ==> s[k] == ChunkName(s, i)[k] && s[k] != '#';
      assert forall k :: 0 <= k < |t| ==> t[k] == ChunkName(t, j)[k] && t[k] != '#';
      assert |s| == |t|;
      assert ChunkName(s, i)[..|s|] == s && ChunkName(t, j)[..|t|] == t;
      assert ChunkName(s, i)[|s| + 1..] == Decimal(i) && ChunkName(t, j)[|t| + 1..] == Decimal(j);
      DecimalIsInjective(i, j);
    }
  }

  lemma ChunkNamesOf(slot: string, i: nat, j: nat)
    ensures ChunkName(slot, i) == ChunkName(slot, j) ==> i == j
    ensures ChunkName(slot, i) != slot
  {
    assert ChunkName(slot, i)[|slot| + 1..] == Decimal(i) && ChunkName(slot, j)[|slot| + 1..] == Decimal(j);
    if ChunkName(slot, i) == ChunkName(slot, j) { DecimalIsInjective(i, j); }
  }
}
