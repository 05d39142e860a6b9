/** What the vault promises: a map from slots to values, and what an interrupted write leaves to be read. */
module VaultTheorems {
  import opened Wrappers
  import opened Bytes
  import opened Text
  import opened VaultFormat
  import opened Vault

  // ---- One slot ----------------------------------------------------------------------------------

  /** The chunks that are there are exactly 1 to `m`. */
  ghost predicate Contiguous(entries: Entries, slot: string, m: nat) {
    m <= CHUNK_MAX && forall i :: 1 <= i <= CHUNK_MAX ==> (ChunkName(slot, i) in entries <==> i <= m)
  }

  lemma {:induction false} SetChunkAt(entries: Entries, slot: string, value: seq<Byte>, n: nat, i: nat)
    requires i >= 1
    ensures var name, after := ChunkName(slot, i), SetChunks(entries, slot, value, n);
      && (name in after <==> i <= n || name in entries)
      && (i <= n ==> after[name] == Chunk(value, i))
      && (n < i && name in entries ==> after[name] == entries[name])
  {
    if n > 0 {
      SetChunkAt(entries, slot, value, n - 1, i);
      ChunkNamesOf(slot, n, i);
    }
  }

  lemma {:induction false} WithoutAt(entries: Entries, slot: string, from: nat, n: nat, i: nat)
    ensures var name, after := ChunkName(slot, i), Without(entries, slot, from, n);
      && (name in after <==> name in entries && !(from <= i < from + n))
      && (name in after ==> after[name] == entries[name])
  {
    if n > 0 {
      WithoutAt(entries, slot, from, n - 1, i);
      ChunkNamesOf(slot, from + n - 1, i);
    }
  }

  lemma {:induction false} RunLengthOf(entries: Entries, slot: string, from: nat, m: nat)
    requires 1 <= from && m <= CHUNK_MAX
    requires forall i :: from <= i <= CHUNK_MAX ==> (ChunkName(slot, i) in entries <==> i <= m)
    ensures RunLength(entries, slot, from) == Max(m + 1 - from, 0)
    decreases CHUNK_MAX + 1 - from
  {
    if from <= CHUNK_MAX && from <= m { RunLengthOf(entries, slot, from + 1, m); }
  }

  lemma {:induction false} WithoutIsSmaller(entries: Entries, slot: string, from: nat, n: nat)
    ensures Without(entries, slot, from, n).Keys <= entries.Keys
  {
    if n > 0 { WithoutIsSmaller(entries, slot, from, n - 1); }
  }

  // ---- When a completed write or delete leaves nothing behind --------------------------------------

  /** No gap behind the first `n` chunks: whoever has a chunk behind it is there. */
  ghost predicate NoGap(entries: Entries, slot: string, n: nat) {
    forall i, j :: n < i < j <= CHUNK_MAX && ChunkName(slot, j) in entries ==> ChunkName(slot, i) in entries
  }

  ghost predicate EndsBefore(entries: Entries, slot: string, end: nat) {
    forall i :: end <= i <= CHUNK_MAX ==> ChunkName(slot, i) !in entries
  }

  /** A run is all there is behind it exactly when no gap hides a chunk. */
  lemma RunReachesAll(entries: Entries, slot: string, from: nat, end: nat)
    requires 1 <= from && IsRun(entries, slot, from, end)
    ensures EndsBefore(entries, slot, end) <==> NoGap(entries, slot, from - 1)
  {
    if NoGap(entries, slot, from - 1) {
      forall j | end <= j <= CHUNK_MAX ensures ChunkName(slot, j) !in entries {
        assert ChunkName(slot, end) !in entries;
      }
    }
  }

  /** What stands at chunk `i` behind a completed write, whose clearing stopped before `end`. */
  ghost predicate WrittenAt(entries: Entries, after: Entries, slot: string, value: seq<Byte>, end: nat, i: nat)
    requires i >= 1
  {
    var n, name := ChunkCount(|value|), ChunkName(slot, i);
    && (name in after <==> i <= n || (end <= i && name in entries))
    && (i <= n ==> name in after && after[name] == Chunk(value, i))
  }

  /** The run behind the new value's chunks is the same before and after they are written. */
  lemma RunBehindAWrite(entries: Entries, slot: string, value: seq<Byte>, n: nat, end: nat)
    requires end == n + 1 + RunLength(SetChunks(entries, slot, value, n), slot, n + 1)
    ensures IsRun(entries, slot, n + 1, end)
  {
    var filled := SetChunks(entries, slot, value, n);
    RunIsThere(filled, slot, n + 1, end);
    forall i | n < i ensures ChunkName(slot, i) in filled <==> ChunkName(slot, i) in entries {
      SetChunkAt(entries, slot, value, n, i);
    }
  }

  lemma WriteAtEachChunk(entries: Entries, slot: string, value: seq<Byte>, n: nat, end: nat, i: nat)
    requires n == ChunkCount(|value|) && 1 <= i
    requires end == n + 1 + RunLength(SetChunks(entries, slot, value, n), slot, n + 1)
    ensures WrittenAt(entries, AfterCalls(entries, slot, value, WriteCalls(entries, slot, value)), slot, value, end, i)
  {
    var filled := SetChunks(entries, slot, value, n);
    RunBehindAWrite(entries, slot, value, n, end);
    SetChunkAt(entries, slot, value, n, i);
    WithoutAt(filled, slot, n + 1, end - (n + 1), i);
    ChunkNamesOf(slot, i, i);
  }

  /**
  Over any entries, torn ones too: a completed write leaves exactly its value if and only if there
  was no gap in front of a chunk beyond the new value's own.
  */
  lemma WriteStoresExactly(entries: Entries, slot: string, value: seq<Byte>)
    requires ChunkCount(|value|) <= CHUNK_MAX
    ensures Stored(AfterCalls(entries, slot, value, WriteCalls(entries, slot, value)), slot, value)
       <==> NoGap(entries, slot, ChunkCount(|value|))
  {
    var n, after := ChunkCount(|value|), AfterCalls(entries, slot, value, WriteCalls(entries, slot, value));
    var end := n + 1 + RunLength(SetChunks(entries, slot, value, n), slot, n + 1);
    assert slot in after && after[slot] == Header(n, |value|);
    forall i | 1 <= i <= CHUNK_MAX ensures WrittenAt(entries, after, slot, value, end, i) {
      WriteAtEachChunk(entries, slot, value, n, end, i);
    }
    RunBehindAWrite(entries, slot, value, n, end);
    RunReachesAll(entries, slot, n + 1, end);
    StoredWhenItEnds(entries, after, slot, value, end);
  }

  lemma StoredWhenItEnds(entries: Entries, after: Entries, slot: string, value: seq<Byte>, end: nat)
    requires var n := ChunkCount(|value|);
      n <= CHUNK_MAX && n < end && slot in after && after[slot] == Header(n, |value|)
    requires forall i :: 1 <= i <= CHUNK_MAX ==> WrittenAt(entries, after, slot, value, end, i)
    ensures Stored(after, slot, value) <==> EndsBefore(entries, slot, end)
  {
    var n := ChunkCount(|value|);
    forall i | 1 <= i <= CHUNK_MAX
      ensures i <= n ==> ChunkName(slot, i) in after && after[ChunkName(slot, i)] == Chunk(value, i)
      ensures n < i ==> (ChunkName(slot, i) in after <==> end <= i && ChunkName(slot, i) in entries)
    {
      assert WrittenAt(entries, after, slot, value, end, i);
    }
  }

  /** And a completed delete leaves nothing if and only if no gap stood in front of any chunk. */
  lemma DeleteVacatesExactly(entries: Entries, slot: string, k: nat)
    requires k >= CHUNK_MAX
    ensures Vacant(AfterDelete(entries, slot, k), slot) <==> NoGap(entries, slot, 0)
  {
    var headless := entries - {slot};
    var run := RunLength(headless, slot, 1);
    forall i ensures ChunkName(slot, i) in headless <==> ChunkName(slot, i) in entries {
      ChunkNamesOf(slot, i, i);
    }
    RunIsThere(headless, slot, 1, 1 + run);
    RunReachesAll(entries, slot, 1, 1 + run);
    WithoutIsSmaller(headless, slot, 1, run);
    forall i | 1 <= i <= CHUNK_MAX
      ensures ChunkName(slot, i) in AfterDelete(entries, slot, k) <==> ChunkName(slot, i) in entries && 1 + run <= i
    {
      WithoutAt(headless, slot, 1, run, i);
    }
  }

  /** What is written over contiguous chunks is stored, and nothing of a longer predecessor stays behind. */
  lemma WriteStores(entries: Entries, slot: string, value: seq<Byte>, m: nat)
    requires Contiguous(entries, slot, m) && ChunkCount(|value|) <= CHUNK_MAX
    ensures Stored(AfterCalls(entries, slot, value, WriteCalls(entries, slot, value)), slot, value)
  {
    WriteStoresExactly(entries, slot, value);
  }

  lemma DeleteVacates(entries: Entries, slot: string, m: nat, k: nat)
    requires Contiguous(entries, slot, m) && k >= CHUNK_MAX
    ensures Vacant(AfterDelete(entries, slot, k), slot)
  {
    DeleteVacatesExactly(entries, slot, k);
  }

  // ---- Every slot beside it ------------------------------------------------------------------------

  ghost predicate Apart(name: string, slot: string) {
    name != slot && forall i :: ChunkName(slot, i) != name
  }

  /** What is read under this name is the same before and after. */
  ghost predicate SameAt(name: string, before: Entries, after: Entries) {
    && (name in before <==> name in after)
    && (name in before ==> before[name] == after[name])
  }

  lemma {:induction false} SetChunksApart(entries: Entries, slot: string, value: seq<Byte>, n: nat, name: string)
    requires Apart(name, slot)
    ensures SameAt(name, entries, SetChunks(entries, slot, value, n))
  {
    if n > 0 { SetChunksApart(entries, slot, value, n - 1, name); }
  }

  lemma {:induction false} WithoutApart(entries: Entries, slot: string, from: nat, n: nat, name: string)
    requires Apart(name, slot)
    ensures SameAt(name, entries, Without(entries, slot, from, n))
  {
    if n > 0 { WithoutApart(entries, slot, from, n - 1, name); }
  }

  lemma WriteLeavesOthers(entries: Entries, slot: string, value: seq<Byte>, k: nat, name: string)
    requires Apart(name, slot)
    ensures SameAt(name, entries, AfterCalls(entries, slot, value, k))
  {
    var n := ChunkCount(|value|);
    if k <= n {
      SetChunksApart(entries, slot, value, k, name);
    } else {
      var filled := SetChunks(entries, slot, value, n);
      var gone := Min(RunLength(filled, slot, n + 1), k - n);
      SetChunksApart(entries, slot, value, n, name);
      WithoutApart(filled, slot, n + 1, gone, name);
    }
  }

  lemma DeleteLeavesOthers(entries: Entries, slot: string, k: nat, name: string)
    requires Apart(name, slot)
    ensures SameAt(name, entries, AfterDelete(entries, slot, k))
  {
    var headless := entries - {slot};
    WithoutApart(headless, slot, 1, Min(RunLength(headless, slot, 1), k), name);
  }

  /** However far a write or a delete gets, no other name changes. */
  lemma OthersStay(entries: Entries, slot: string, value: seq<Byte>, k: nat, name: string)
    requires Apart(name, slot)
    ensures SameAt(name, entries, AfterCalls(entries, slot, value, k))
    ensures SameAt(name, entries, AfterDelete(entries, slot, k))
  {
    WriteLeavesOthers(entries, slot, value, k, name);
    DeleteLeavesOthers(entries, slot, k, name);
  }

  lemma NamesOfAnother(slot: string, other: string, j: nat)
    requires NoHash(slot) && NoHash(other) && slot != other
    ensures Apart(other, slot) && Apart(ChunkName(other, j), slot)
  {
    forall i ensures ChunkName(slot, i) != other && ChunkName(slot, i) != ChunkName(other, j) {
      NamesAreApart(slot, i, other, j);
    }
    NamesAreApart(other, j, slot, 0);
  }

  /** A slot is left alone: all its names read the same. */
  ghost predicate Untouched(slot: string, before: Entries, after: Entries) {
    SameAt(slot, before, after) && forall j :: SameAt(ChunkName(slot, j), before, after)
  }

  lemma OtherSlotsStay(entries: Entries, slot: string, value: seq<Byte>, k: nat, other: string)
    requires NoHash(slot) && NoHash(other) && slot != other
    ensures Untouched(other, entries, AfterCalls(entries, slot, value, k))
    ensures Untouched(other, entries, AfterDelete(entries, slot, k))
  {
    NamesOfAnother(slot, other, 0);
    OthersStay(entries, slot, value, k, other);
    forall j
      ensures SameAt(ChunkName(other, j), entries, AfterCalls(entries, slot, value, k))
      ensures SameAt(ChunkName(other, j), entries, AfterDelete(entries, slot, k))
    {
      NamesOfAnother(slot, other, j);
      OthersStay(entries, slot, value, k, ChunkName(other, j));
    }
  }

  // ---- The vault is a map --------------------------------------------------------------------------

  datatype Op = Put(slot: string, value: seq<Byte>) | Remove(slot: string)

  /** An operation that no call interrupts. */
  function Done(entries: Entries, op: Op): Entries {
    match op
    case Put(slot, value) =>
      if ChunkCount(|value|) > CHUNK_MAX then entries
      else AfterCalls(entries, slot, value, WriteCalls(entries, slot, value))
    case Remove(slot) => AfterDelete(entries, slot, CHUNK_MAX)
  }

  /** The same on a plain map; a value beyond the limit is refused. */
  function Meant(values: map<string, seq<Byte>>, op: Op): map<string, seq<Byte>> {
    match op
    case Put(slot, value) => if ChunkCount(|value|) > CHUNK_MAX then values else values[slot := value]
    case Remove(slot) => values - {slot}
  }

  ghost predicate Holds(entries: Entries, values: map<string, seq<Byte>>, slot: string) {
    if slot in values then Stored(entries, slot, values[slot]) else Vacant(entries, slot)
  }

  ghost predicate Represents(entries: Entries, values: map<string, seq<Byte>>) {
    forall slot :: NoHash(slot) ==> Holds(entries, values, slot)
  }

  lemma HoldsStays(before: Entries, after: Entries, values: map<string, seq<Byte>>, slot: string)
    requires Holds(before, values, slot) && Untouched(slot, before, after)
    ensures Holds(after, values, slot)
  {
    assert forall j :: SameAt(ChunkName(slot, j), before, after);
  }

  lemma HoldsIsContiguous(entries: Entries, values: map<string, seq<Byte>>, slot: string) returns (m: nat)
    requires Holds(entries, values, slot)
    ensures Contiguous(entries, slot, m)
  {
    m := if slot in values then ChunkCount(|values[slot]|) else 0;
  }

  lemma StepRefines(entries: Entries, values: map<string, seq<Byte>>, op: Op)
    requires Represents(entries, values) && NoHash(op.slot)
    ensures Represents(Done(entries, op), Meant(values, op))
  {
    var after, meant := Done(entries, op), Meant(values, op);
    forall slot | NoHash(slot) ensures Holds(after, meant, slot) {
      if slot == op.slot {
        var m := HoldsIsContiguous(entries, values, slot);
        if op.Remove? {
          DeleteVacates(entries, slot, m, CHUNK_MAX);
        } else if ChunkCount(|op.value|) <= CHUNK_MAX {
          WriteStores(entries, slot, op.value, m);
        }
      } else {
        var value := if op.Put? then op.value else [];
        OtherSlotsStay(entries, op.slot, value, WriteCalls(entries, op.slot, value), slot);
        OtherSlotsStay(entries, op.slot, value, CHUNK_MAX, slot);
        if after != entries { HoldsStays(entries, after, values, slot); }
      }
    }
  }

  function AllDone(entries: Entries, ops: seq<Op>): Entries
    decreases |ops|
  {
    if ops == [] then entries else AllDone(Done(entries, ops[0]), ops[1..])
  }

  function AllMeant(values: map<string, seq<Byte>>, ops: seq<Op>): map<string, seq<Byte>>
    decreases |ops|
  {
    if ops == [] then values else AllMeant(Meant(values, ops[0]), ops[1..])
  }

  /** Completed writes and deletes on slots without `#` behave like a map, and every read answers from it. */
  lemma {:induction false} VaultIsAMap(entries: Entries, values: map<string, seq<Byte>>, ops: seq<Op>, slot: string)
    requires Represents(entries, values)
    requires NoHash(slot) && forall op :: op in ops ==> NoHash(op.slot)
    ensures Represents(AllDone(entries, ops), AllMeant(values, ops))
    ensures ReadBack(AllDone(entries, ops), slot)
         == Success(if slot in AllMeant(values, ops) then Some(AllMeant(values, ops)[slot]) else None)
    decreases |ops|
  {
    if ops == [] {
      assert Holds(entries, values, slot);
      if slot in values { StoredReadsBack(entries, slot, values[slot]); }
    } else {
      assert ops[0] in ops;
      StepRefines(entries, values, ops[0]);
      VaultIsAMap(Done(entries, ops[0]), Meant(values, ops[0]), ops[1..], slot);
    }
  }

  // ---- A write that is interrupted ------------------------------------------------------------------

  ghost predicate Collects(entries: Entries, slot: string, n: nat, value: seq<Byte>) {
    Collect(entries, slot, n) == Success(value)
  }

  lemma CollectOneMore(entries: Entries, slot: string, n: nat, before: seq<Byte>, chunk: seq<Byte>, all: seq<Byte>)
    requires n >= 1 && Collects(entries, slot, n - 1, before) && all == before + chunk
    requires ChunkName(slot, n) in entries && entries[ChunkName(slot, n)] == chunk
    ensures Collects(entries, slot, n, all)
  {
  }

  /** What the first `i` chunks hold once `n` of them have been overwritten. */
  function Overwritten(old_: seq<Byte>, value: seq<Byte>, n: nat, i: nat): seq<Byte> {
    var q := Min(i, n);
    value[..End(q, |value|)] + old_[End(q, |old_|)..End(i, |old_|)]
  }

  lemma {:induction false} CollectOverwritten(entries: Entries, slot: string, old_: seq<Byte>, value: seq<Byte>,
                                              n: nat, i: nat)
    requires Stored(entries, slot, old_)
    requires i <= ChunkCount(|old_|)
    ensures Collects(SetChunks(entries, slot, value, n), slot, i, Overwritten(old_, value, n, i))
  {
    if i == 0 {
      assert Overwritten(old_, value, n, 0) == [];
    } else {
      CollectOverwritten(entries, slot, old_, value, n, i - 1);
      SetChunkAt(entries, slot, value, n, i);
      if i <= n { NewChunkBehind(value, old_, i); } else { OldChunkBehind(value[..End(n, |value|)], old_, n, i); }
      CollectOneMore(SetChunks(entries, slot, value, n), slot, i, Overwritten(old_, value, n, i - 1),
        if i <= n then Chunk(value, i) else Chunk(old_, i), Overwritten(old_, value, n, i));
    }
  }

  lemma NewChunkBehind(value: seq<Byte>, old_: seq<Byte>, i: nat)
    requires i >= 1
    ensures value[..End(i - 1, |value|)] + old_[End(i - 1, |old_|)..End(i - 1, |old_|)] + Chunk(value, i)
         == value[..End(i, |value|)] + old_[End(i, |old_|)..End(i, |old_|)]
  {
  }

  lemma OldChunkBehind(front: seq<Byte>, old_: seq<Byte>, n: nat, i: nat)
    requires n < i
    ensures front + old_[End(n, |old_|)..End(i - 1, |old_|)] + Chunk(old_, i)
         == front + old_[End(n, |old_|)..End(i, |old_|)]
  {
  }

  lemma HeaderStays(entries: Entries, slot: string, value: seq<Byte>, n: nat)
    ensures SameAt(slot, entries, SetChunks(entries, slot, value, n))
  {
    if n > 0 {
      HeaderStays(entries, slot, value, n - 1);
      ChunkNamesOf(slot, n, n);
    }
  }

  /** What a read gives when `q` chunks of the new value stand in front of the rest of the old one. */
  function Torn(old_: seq<Byte>, value: seq<Byte>, q: nat): Result<Option<seq<Byte>>, VaultError> {
    var a, b := End(q, |value|), End(q, |old_|);
    if a == b then Success(Some(value[..a] + old_[b..])) else Failure(Corrupt(WrongLength))
  }

  /** Interrupted while the chunks were being written, or before the first leftover was deleted. */
  lemma InterruptedInTheChunks(entries: Entries, slot: string, old_: seq<Byte>, value: seq<Byte>, n: nat)
    requires Stored(entries, slot, old_)
    ensures ReadBack(SetChunks(entries, slot, value, n), slot) == Torn(old_, value, Min(n, ChunkCount(|old_|)))
  {
    var m := ChunkCount(|old_|);
    HeaderStays(entries, slot, value, n);
    HeaderRoundTrip(m, |old_|);
    CollectOverwritten(entries, slot, old_, value, n, m);
    assert old_[..|old_|] == old_;
  }

  /** Interrupted once a leftover is gone: the missing chunk shows. */
  lemma InterruptedInTheClearing(entries: Entries, slot: string, old_: seq<Byte>, value: seq<Byte>, d: nat)
    requires Stored(entries, slot, old_)
    requires d > 0 && ChunkCount(|value|) < ChunkCount(|old_|)
    ensures var n := ChunkCount(|value|);
      ReadBack(Without(SetChunks(entries, slot, value, n), slot, n + 1, d), slot)
      == Failure(Corrupt(ChunkMissing(n + 1)))
  {
    var n, m := ChunkCount(|value|), ChunkCount(|old_|);
    var filled := SetChunks(entries, slot, value, n);
    var after := Without(filled, slot, n + 1, d);
    HeaderStays(entries, slot, value, n);
    WithoutKeepsTheHeader(filled, slot, n + 1, d);
    HeaderRoundTrip(m, |old_|);
    forall i | 1 <= i <= n ensures ChunkName(slot, i) in after && after[ChunkName(slot, i)] == Chunk(value, i) {
      SetChunkAt(entries, slot, value, n, i);
      WithoutAt(filled, slot, n + 1, d, i);
    }
    CollectOfStored(after, slot, value, n);
    WithoutAt(filled, slot, n + 1, d, n + 1);
    CollectStopsAt(after, slot, n + 1, m);
  }

  lemma {:induction false} WithoutKeepsTheHeader(entries: Entries, slot: string, from: nat, n: nat)
    ensures SameAt(slot, entries, Without(entries, slot, from, n))
  {
    if n > 0 {
      WithoutKeepsTheHeader(entries, slot, from, n - 1);
      ChunkNamesOf(slot, from + n - 1, 0);
    }
  }

  lemma {:induction false} CollectStopsAt(entries: Entries, slot: string, number: nat, n: nat)
    requires 1 <= number <= n
    requires Collect(entries, slot, number) == Failure(number)
    ensures Collect(entries, slot, n) == Failure(number)
  {
    if number < n { CollectStopsAt(entries, slot, number, n - 1); }
  }

  /** The chunks the new value leaves behind are a run of their own. */
  lemma RunOfLeftovers(entries: Entries, slot: string, old_: seq<Byte>, value: seq<Byte>)
    requires Stored(entries, slot, old_) && ChunkCount(|value|) <= CHUNK_MAX
    ensures var n := ChunkCount(|value|);
      RunLength(SetChunks(entries, slot, value, n), slot, n + 1) == Max(ChunkCount(|old_|) - n, 0)
  {
    var n, m := ChunkCount(|value|), ChunkCount(|old_|);
    var filled := SetChunks(entries, slot, value, n);
    forall i | n + 1 <= i <= CHUNK_MAX ensures ChunkName(slot, i) in filled <==> i <= m {
      SetChunkAt(entries, slot, value, n, i);
    }
    RunLengthOf(filled, slot, n + 1, m);
  }

  /**
  The write interrupted after any number of calls, exactly: with q of the old value's chunks
  overwritten, the read is refused when the lengths overwritten differ or a leftover chunk is
  already gone; otherwise it gives the new beginning with the old end, and nothing shows.
  */
  lemma InterruptedWrite(entries: Entries, slot: string, old_: seq<Byte>, value: seq<Byte>, k: nat)
    requires Stored(entries, slot, old_)
    requires ChunkCount(|value|) <= CHUNK_MAX && k < WriteCalls(entries, slot, value)
    ensures var n, m := ChunkCount(|value|), ChunkCount(|old_|);
      ReadBack(AfterCalls(entries, slot, value, k), slot)
      == if n < k && n < m then Failure(Corrupt(ChunkMissing(n + 1)))
         else Torn(old_, value, Min(Min(k, n), m))
  {
    var n, m := ChunkCount(|value|), ChunkCount(|old_|);
    if k <= n {
      InterruptedInTheChunks(entries, slot, old_, value, k);
    } else {
      RunOfLeftovers(entries, slot, old_, value);
      if n < m {
        InterruptedInTheClearing(entries, slot, old_, value, Min(m - n, k - n));
      } else {
        InterruptedInTheChunks(entries, slot, old_, value, n);
      }
    }
  }

  /** A slot that had no value has none until the header stands. */
  lemma InterruptedFirstWrite(entries: Entries, slot: string, value: seq<Byte>, k: nat)
    requires slot !in entries && k < WriteCalls(entries, slot, value)
    ensures ReadBack(AfterCalls(entries, slot, value, k), slot) == Success(None)
  {
    var n := ChunkCount(|value|);
    HeaderStays(entries, slot, value, Min(k, n));
    if k > n {
      var filled := SetChunks(entries, slot, value, n);
      WithoutKeepsTheHeader(filled, slot, n + 1, Min(RunLength(filled, slot, n + 1), k - n));
    }
  }

  /** A torn write always shows for these lengths: one value is one chunk, and the first chunks differ in length. */
  predicate Detects(before: nat, after: nat) {
    (before <= CHUNK_BYTES || after <= CHUNK_BYTES) && Min(before, CHUNK_BYTES) != Min(after, CHUNK_BYTES)
  }

  /** For these lengths every interrupted write that touched a chunk is refused by every read. */
  lemma TearAlwaysShows(entries: Entries, slot: string, old_: seq<Byte>, value: seq<Byte>, k: nat)
    requires Stored(entries, slot, old_)
    requires ChunkCount(|value|) <= CHUNK_MAX && 1 <= k < WriteCalls(entries, slot, value)
    requires Detects(|old_|, |value|)
    ensures ReadBack(AfterCalls(entries, slot, value, k), slot).Failure?
  {
    InterruptedWrite(entries, slot, old_, value, k);
  }

  /**
  For all other lengths the comment in the code is wrong: interrupted after the first chunk, the
  write leaves a value that reads back as if intact, the new first chunk in front of the old rest.
  */
  lemma TearGoesUnnoticed(entries: Entries, slot: string, old_: seq<Byte>, value: seq<Byte>)
    requires Stored(entries, slot, old_)
    requires ChunkCount(|value|) <= CHUNK_MAX && !Detects(|old_|, |value|)
    ensures var a := Min(CHUNK_BYTES, |value|);
      && a <= |old_|
      && ReadBack(AfterCalls(entries, slot, value, 1), slot) == Success(Some(value[..a] + old_[a..]))
  {
    InterruptedWrite(entries, slot, old_, value, 1);
  }

  /** An old value of at most one chunk: the tear shows exactly when its length is not that of the new first chunk. */
  lemma TearOverOneChunk(entries: Entries, slot: string, old_: seq<Byte>, value: seq<Byte>, k: nat)
    requires Stored(entries, slot, old_) && |old_| <= CHUNK_BYTES
    requires ChunkCount(|value|) <= CHUNK_MAX && 1 <= k < WriteCalls(entries, slot, value)
    ensures ReadBack(AfterCalls(entries, slot, value, k), slot).Failure? <==> |old_| != |Chunk(value, 1)|
  {
    InterruptedWrite(entries, slot, old_, value, k);
  }

  /** A device key of two chunks over another: what is read is neither the one nor the other. */
  lemma MixtureOfTwo(slot: string) returns (entries: Entries, old_: seq<Byte>, value: seq<Byte>)
    ensures Stored(entries, slot, old_)
    ensures exists mixture :: ReadBack(AfterCalls(entries, slot, value, 1), slot) == Success(Some(mixture))
                           && mixture != old_ && mixture != value
  {
    old_, value := seq(CHUNK_BYTES + 1, _ => 1), seq(CHUNK_BYTES + 1, _ => 2);
    var blank: Entries := map[];
    entries := AfterCalls(blank, slot, old_, WriteCalls(blank, slot, old_));
    WriteStores(blank, slot, old_, 0);
    TearGoesUnnoticed(entries, slot, old_, value);
    var mixture := value[..CHUNK_BYTES] + old_[CHUNK_BYTES..];
    assert mixture[0] == 2 && mixture[CHUNK_BYTES] == 1;
  }

  ghost predicate Carries(entries: Entries, slot: string, number: nat, chunk: seq<Byte>) {
    ChunkName(slot, number) in entries && entries[ChunkName(slot, number)] == chunk
  }

  /** A write of `value` interrupted behind its first deleted leftover, and a completed write of `next` after it. */
  function TornThenWritten(entries: Entries, slot: string, value: seq<Byte>, next: seq<Byte>): Entries {
    var torn := AfterCalls(entries, slot, value, ChunkCount(|value|) + 1);
    AfterCalls(torn, slot, next, WriteCalls(torn, slot, next))
  }

  lemma TornBehindTheFirst(entries: Entries, slot: string, old_: seq<Byte>, value: seq<Byte>, n: nat, m: nat)
    requires Stored(entries, slot, old_) && n == ChunkCount(|value|) && m == ChunkCount(|old_|) && n + 2 <= m
    ensures var torn := AfterCalls(entries, slot, value, n + 1);
      ChunkName(slot, n + 1) !in torn && Carries(torn, slot, m, Chunk(old_, m))
  {
    RunOfLeftovers(entries, slot, old_, value);
    var filled := SetChunks(entries, slot, value, n);
    assert AfterCalls(entries, slot, value, n + 1) == Without(filled, slot, n + 1, 1);
    SetChunkAt(entries, slot, value, n, m);
    WithoutAt(filled, slot, n + 1, 1, n + 1);
    WithoutAt(filled, slot, n + 1, 1, m);
  }

  lemma WrittenOverAGap(torn: Entries, slot: string, next: seq<Byte>, n: nat, m: nat, chunk: seq<Byte>)
    requires n == ChunkCount(|next|) && n + 2 <= m
    requires ChunkName(slot, n + 1) !in torn && Carries(torn, slot, m, chunk)
    ensures Carries(AfterCalls(torn, slot, next, WriteCalls(torn, slot, next)), slot, m, chunk)
  {
    SetChunkAt(torn, slot, next, n, n + 1);
    SetChunkAt(torn, slot, next, n, m);
    ChunkNamesOf(slot, m, m);
    assert RunLength(SetChunks(torn, slot, next, n), slot, n + 1) == 0;
  }

  /**
  Without contiguous chunks the clearing stops too early: a write interrupted behind its first
  deleted leftover, and a completed one of as many chunks after it, leave a chunk of the old value
  in the keychain for good.
  */
  lemma LeftoverStays(entries: Entries, slot: string, old_: seq<Byte>, value: seq<Byte>, next: seq<Byte>)
    requires Stored(entries, slot, old_)
    requires ChunkCount(|value|) == ChunkCount(|next|) && ChunkCount(|value|) + 2 <= ChunkCount(|old_|)
    ensures var m := ChunkCount(|old_|);
      Carries(TornThenWritten(entries, slot, value, next), slot, m, Chunk(old_, m))
  {
    var n, m := ChunkCount(|value|), ChunkCount(|old_|);
    TornBehindTheFirst(entries, slot, old_, value, n, m);
    WrittenOverAGap(AfterCalls(entries, slot, value, n + 1), slot, next, n, m, Chunk(old_, m));
  }
}
