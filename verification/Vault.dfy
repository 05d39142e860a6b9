/** The vault over a keychain that can stop working between any two calls. */
module Vault {
  import opened Wrappers
  import opened Bytes
  import opened VaultFormat

  /** The keychain of one service; `left` calls still work, and then the program or the keychain is gone. */
  class Keychain {
    var entries: Entries
    var left: nat

    constructor (entries: Entries, left: nat)
      ensures this.entries == entries && this.left == left
    {
      this.entries, this.left := entries, left;
    }

    method Get(name: string) returns (r: Result<Option<seq<Byte>>, VaultError>)
      modifies this`left
      ensures left == Max(old(left) - 1, 0)
      ensures r == if old(left) == 0 then Failure(NotReachable)
                   else Success(if name in entries then Some(entries[name]) else None)
    {
      if left == 0 { return Failure(NotReachable); }
      left := left - 1;
      r := Success(if name in entries then Some(entries[name]) else None);
    }

    method Set(name: string, secret: seq<Byte>) returns (ok: bool)
      modifies this
      ensures ok <==> old(left) > 0
      ensures left == Max(old(left) - 1, 0)
      ensures entries == if ok then old(entries)[name := secret] else old(entries)
    {
      if left == 0 { return false; }
      entries, left := entries[name := secret], left - 1;
      ok := true;
    }

    /** Whether the entry was there. */
    method Delete(name: string) returns (r: Result<bool, VaultError>)
      modifies this
      ensures r == if old(left) == 0 then Failure(NotReachable) else Success(name in old(entries))
      ensures left == Max(old(left) - 1, 0)
      ensures entries == if r.Success? then old(entries) - {name} else old(entries)
    {
      if left == 0 { return Failure(NotReachable); }
      r := Success(name in entries);
      entries, left := entries - {name}, left - 1;
    }
  }

  // ---- What the calls do to the entries --------------------------------------------------------------

  /** The first `n` chunks of `value` have been written. */
  function SetChunks(entries: Entries, slot: string, value: seq<Byte>, n: nat): Entries {
    if n == 0 then entries else SetChunks(entries, slot, value, n - 1)[ChunkName(slot, n) := Chunk(value, n)]
  }

  /** `n` chunks from `from` on have been deleted. */
  function Without(entries: Entries, slot: string, from: nat, n: nat): Entries {
    if n == 0 then entries else Without(entries, slot, from, n - 1) - {ChunkName(slot, from + n - 1)}
  }

  /** How many chunks stand one behind the other from `from` on. */
  function RunLength(entries: Entries, slot: string, from: nat): (n: nat)
    ensures from <= CHUNK_MAX + 1 ==> from + n <= CHUNK_MAX + 1
    decreases CHUNK_MAX + 1 - from
  {
    if from > CHUNK_MAX || ChunkName(slot, from) !in entries then 0 else 1 + RunLength(entries, slot, from + 1)
  }

  /** The chunks from `from` up to `end` are there, and the next one is not. */
  ghost predicate IsRun(entries: Entries, slot: string, from: nat, end: nat) {
    && from <= end <= Max(from, CHUNK_MAX + 1)
    && (forall i :: from <= i < end ==> ChunkName(slot, i) in entries)
    && (end <= CHUNK_MAX ==> ChunkName(slot, end) !in entries)
  }

  lemma {:induction false} RunIsThere(entries: Entries, slot: string, from: nat, end: nat)
    requires end == from + RunLength(entries, slot, from)
    ensures IsRun(entries, slot, from, end)
    decreases CHUNK_MAX + 1 - from
  {
    if from <= CHUNK_MAX && ChunkName(slot, from) in entries { RunIsThere(entries, slot, from + 1, end); }
  }

  /** The deletes that find a chunk, and the one that finds none. */
  function ClearCalls(entries: Entries, slot: string, from: nat): nat {
    var n := RunLength(entries, slot, from);
    if from + n <= CHUNK_MAX then n + 1 else n
  }

  /** The calls of a write that nothing interrupts. */
  function WriteCalls(entries: Entries, slot: string, value: seq<Byte>): nat {
    var n := ChunkCount(|value|);
    n + ClearCalls(SetChunks(entries, slot, value, n), slot, n + 1) + 1
  }

  /** The entries when a write has made `k` of its calls, or all of them. */
  function AfterCalls(entries: Entries, slot: string, value: seq<Byte>, k: nat): Entries {
    var n := ChunkCount(|value|);
    if k <= n then SetChunks(entries, slot, value, k)
    else
      var filled := SetChunks(entries, slot, value, n);
      var cleared := Without(filled, slot, n + 1, Min(RunLength(filled, slot, n + 1), k - n));
      if k < WriteCalls(entries, slot, value) then cleared else cleared[slot := Header(n, |value|)]
  }

  /** The entries when a delete has made its first call and `k` more. */
  function AfterDelete(entries: Entries, slot: string, k: nat): Entries {
    var headless := entries - {slot};
    Without(headless, slot, 1, Min(RunLength(headless, slot, 1), k))
  }

  class SystemVault {
    const keychain: Keychain

    constructor (keychain: Keychain)
      ensures this.keychain == keychain
    {
      this.keychain := keychain;
    }

    method Read(slot: string) returns (r: Result<Option<seq<Byte>>, VaultError>)
      modifies keychain`left
      ensures r == ReadBack(keychain.entries, slot) || (r == Failure(NotReachable) && keychain.left == 0)
      ensures old(keychain.left) > CHUNK_MAX ==> r == ReadBack(keychain.entries, slot)
    {
      var header := keychain.Get(slot);
      if header.Failure? { return Failure(header.error); }
      if header.value.None? { return Success(None); }
      var parsed := ReadHeader(header.value.value);
      if parsed.Failure? { return Failure(parsed.error); }
      var (chunks, length) := parsed.value;
      var value: seq<Byte> := [];
      for number := 1 to chunks + 1
        invariant Collect(keychain.entries, slot, number - 1) == Success(value)
        invariant keychain.left >= old(keychain.left) - number
      {
        var part := keychain.Get(ChunkName(slot, number));
        if part.Failure? { return Failure(part.error); }
        if part.value.None? {
          MissingStays(keychain.entries, slot, number, chunks);
          return Failure(Corrupt(ChunkMissing(number)));
        }
        value := value + part.value.value;
      }
      if |value| != length { return Failure(Corrupt(WrongLength)); }
      return Success(Some(value));
    }

    lemma MissingStays(entries: Entries, slot: string, number: nat, chunks: nat)
      requires 1 <= number <= chunks
      requires Collect(entries, slot, number) == Failure(number)
      ensures Collect(entries, slot, chunks) == Failure(number)
    {
      if number < chunks { MissingStays(entries, slot, number, chunks - 1); }
    }

    /** Deletes the chunks from `from` on, up to the first one that is not there. */
    method ClearChunks(slot: string, from: nat) returns (ok: bool)
      requires from >= 1
      modifies keychain
      ensures var calls := ClearCalls(old(keychain.entries), slot, from);
        var n := RunLength(old(keychain.entries), slot, from);
        && (ok <==> calls <= old(keychain.left))
        && keychain.left == Max(old(keychain.left) - calls, 0)
        && Cleared(old(keychain.entries), keychain.entries, slot, from, Min(n, old(keychain.left)))
    {
      ghost var end := from + RunLength(keychain.entries, slot, from);
      RunIsThere(keychain.entries, slot, from, end);
      ok := ClearRun(slot, from, end);
    }

    /** The same, told where the run ends. */
    method ClearRun(slot: string, from: nat, ghost end: nat) returns (ok: bool)
      requires from >= 1 && IsRun(keychain.entries, slot, from, end)
      modifies keychain
      ensures var calls := if end <= CHUNK_MAX then end - from + 1 else end - from;
        (ok <==> calls <= old(keychain.left)) && keychain.left == Max(old(keychain.left) - calls, 0)
      ensures Cleared(old(keychain.entries), keychain.entries, slot, from, Min(end - from, old(keychain.left)))
    {
      ghost var before := keychain.entries;
      var number := from;
      while number <= CHUNK_MAX
        invariant from <= number <= end
        invariant keychain.left == old(keychain.left) - (number - from)
        invariant Cleared(before, keychain.entries, slot, from, number - from)
        decreases CHUNK_MAX + 1 - number
      {
        var deleted := ClearChunk(slot, from, number, before);
        if deleted.Failure? { return false; }
        if !deleted.value { return true; }
        number := number + 1;
      }
      return true;
    }

    method ClearChunk(slot: string, ghost from: nat, number: nat, ghost before: Entries)
        returns (found: Result<bool, VaultError>)
      requires from <= number && Cleared(before, keychain.entries, slot, from, number - from)
      modifies keychain
      ensures found == if old(keychain.left) == 0 then Failure(NotReachable)
                       else Success(ChunkName(slot, number) in before)
      ensures keychain.left == Max(old(keychain.left) - 1, 0)
      ensures Cleared(before, keychain.entries, slot, from,
                      if found == Success(true) then number + 1 - from else number - from)
    {
      WithoutKeepsTheRest(before, slot, from, number - from, number);
      found := keychain.Delete(ChunkName(slot, number));
    }

    /** Chunks first, then the leftovers of a longer predecessor, then the header; the first call that fails ends it. */
    method Write(slot: string, value: seq<Byte>) returns (r: Result<(), VaultError>)
      modifies keychain
      ensures ChunkCount(|value|) > CHUNK_MAX ==> r == Failure(Denied) && unchanged(keychain)
      ensures ChunkCount(|value|) <= CHUNK_MAX ==>
        && keychain.entries == AfterCalls(old(keychain.entries), slot, value, old(keychain.left))
        && (r.Success? <==> WriteCalls(old(keychain.entries), slot, value) <= old(keychain.left))
    {
      var chunks := ChunkCount(|value|);
      if chunks > CHUNK_MAX { return Failure(Denied); }
      var ok := WriteChunks(slot, value);
      if !ok { return Failure(NotReachable); }
      ok := ClearChunks(slot, chunks + 1);
      if !ok { return Failure(NotReachable); }
      ok := keychain.Set(slot, Header(chunks, |value|));
      r := if ok then Success(()) else Failure(NotReachable);
    }

    method WriteChunks(slot: string, value: seq<Byte>) returns (ok: bool)
      modifies keychain
      ensures var n := ChunkCount(|value|);
        && (ok <==> n <= old(keychain.left))
        && keychain.left == Max(old(keychain.left) - n, 0)
        && Filled(old(keychain.entries), keychain.entries, slot, value, Min(n, old(keychain.left)))
    {
      var rest, number: nat := value, 0;
      ghost var before := keychain.entries;
      WholeIsRest(value);
      while rest != []
        invariant IsRest(rest, value, number)
        invariant keychain.left == old(keychain.left) - number
        invariant Filled(before, keychain.entries, slot, value, number)
        decreases |rest|
      {
        ok, rest := WriteNext(slot, rest, number, value, before);
        if !ok { return; }
        number := number + 1;
      }
      ok := true;
      if value == [] {
        EmptyValue(value);
        ok := WriteChunk(slot, 1, [], value, before);
      }
    }

    /** Writes the next chunk of what is left of the value, and says what is left then. */
    method WriteNext(slot: string, rest: seq<Byte>, number: nat, ghost value: seq<Byte>, ghost before: Entries)
        returns (ok: bool, more: seq<Byte>)
      requires rest != [] && IsRest(rest, value, number) && Filled(before, keychain.entries, slot, value, number)
      modifies keychain
      ensures ok <==> old(keychain.left) > 0
      ensures keychain.left == Max(old(keychain.left) - 1, 0)
      ensures |more| < |rest| && IsRest(more, value, number + 1)
      ensures Filled(before, keychain.entries, slot, value, if ok then number + 1 else number)
    {
      var part := rest[..Min(CHUNK_BYTES, |rest|)];
      NextChunk(rest, value, number);
      ok := WriteChunk(slot, number + 1, part, value, before);
      more := rest[|part|..];
    }

    method WriteChunk(slot: string, number: nat, part: seq<Byte>, ghost value: seq<Byte>, ghost before: Entries)
        returns (ok: bool)
      requires number >= 1 && part == Chunk(value, number)
      requires Filled(before, keychain.entries, slot, value, number - 1)
      modifies keychain
      ensures ok <==> old(keychain.left) > 0
      ensures keychain.left == Max(old(keychain.left) - 1, 0)
      ensures Filled(before, keychain.entries, slot, value, if ok then number else number - 1)
    {
      ok := keychain.Set(ChunkName(slot, number), part);
    }

    /** The header first: from then on the slot has no value. */
    method Delete(slot: string) returns (r: Result<(), VaultError>)
      modifies keychain
      ensures old(keychain.left) == 0 ==> r == Failure(NotReachable) && keychain.entries == old(keychain.entries)
      ensures old(keychain.left) > 0 ==>
        && keychain.entries == AfterDelete(old(keychain.entries), slot, old(keychain.left) - 1)
        && (r.Success? <==> ClearCalls(old(keychain.entries) - {slot}, slot, 1) < old(keychain.left))
    {
      var deleted := keychain.Delete(slot);
      if deleted.Failure? { return Failure(deleted.error); }
      var ok := ClearChunks(slot, 1);
      r := if ok then Success(()) else Failure(NotReachable);
    }
  }

  /** The first `n` chunks from `from` on have gone from the entries. */
  ghost predicate Cleared(before: Entries, after: Entries, slot: string, from: nat, n: nat) {
    after == Without(before, slot, from, n)
  }

  /** The first `n` chunks of the value have come to the entries. */
  ghost predicate Filled(before: Entries, after: Entries, slot: string, value: seq<Byte>, n: nat) {
    after == SetChunks(before, slot, value, n)
  }

  /** What is left of the value behind its first `number` chunks. */
  ghost predicate IsRest(rest: seq<Byte>, value: seq<Byte>, number: nat) {
    && rest == value[End(number, |value|)..]
    && number <= ChunkCount(|value|)
    && (rest == [] ==> number == if value == [] then 0 else ChunkCount(|value|))
  }

  lemma NextChunk(rest: seq<Byte>, value: seq<Byte>, number: nat)
    requires rest != [] && IsRest(rest, value, number)
    ensures var part := rest[..Min(CHUNK_BYTES, |rest|)];
      && part == Chunk(value, number + 1)
      && IsRest(rest[|part|..], value, number + 1)
  {
  }

  lemma WholeIsRest(value: seq<Byte>)
    ensures IsRest(value, value, 0)
  {
  }

  lemma EmptyValue(value: seq<Byte>)
    requires value == []
    ensures ChunkCount(|value|) == 1 && Chunk(value, 1) == []
  {
  }

  lemma {:induction false} WithoutKeepsTheRest(entries: Entries, slot: string, from: nat, n: nat, i: nat)
    requires from + n <= i
    ensures ChunkName(slot, i) in Without(entries, slot, from, n) <==> ChunkName(slot, i) in entries
    ensures ChunkName(slot, i) in entries ==>
      Without(entries, slot, from, n)[ChunkName(slot, i)] == entries[ChunkName(slot, i)]
  {
    if n > 0 {
      WithoutKeepsTheRest(entries, slot, from, n - 1, i);
      ChunkNamesOf(slot, i, from + n - 1);
    }
  }
}
