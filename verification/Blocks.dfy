/**
The 4 KB arithmetic for handing a file over: bytes come in however the source writes them, aligned
chunks of one size go out, and the rest at the end of the file.
*/
module Blocks {
  import opened Wrappers
  import opened Bytes

  const ALIGNMENT: nat := 4096
  const U64_MAX: nat := 0xFFFF_FFFF_FFFF_FFFF

  /** One hand-off: where the bytes belong, and the bytes. */
  datatype Piece = Piece(offset: nat, data: seq<Byte>)

  function ContentOf(pieces: seq<Piece>): seq<Byte> {
    if pieces == [] then [] else ContentOf(pieces[..|pieces| - 1]) + pieces[|pieces| - 1].data
  }

  /** The piece starts where the ones before it end. */
  ghost predicate InItsPlace(pieces: seq<Piece>, i: nat)
    requires i < |pieces|
  {
    pieces[i].offset == |ContentOf(pieces[..i])|
  }

  ghost predicate Gapless(pieces: seq<Piece>) {
    forall i :: 0 <= i < |pieces| ==> InItsPlace(pieces, i)
  }

  ghost predicate WholeChunks(pieces: seq<Piece>, chunk: nat) {
    forall i :: 0 <= i < |pieces| ==> |pieces[i].data| == chunk
  }

  /**
  The rules of a complete hand-over, without saying how it is cut: gapless from 0 and the whole
  file; every piece but the last exactly one chunk, the last one no more; nothing empty but the one
  piece of an empty file.
  */
  ghost predicate Proper(pieces: seq<Piece>, file: seq<Byte>, chunk: nat) {
    && pieces != []
    && ContentOf(pieces) == file
    && Gapless(pieces)
    && (forall i :: 0 <= i < |pieces| - 1 ==> |pieces[i].data| == chunk)
    && |pieces[|pieces| - 1].data| <= chunk
    && (file != [] ==> pieces[|pieces| - 1].data != [])
  }

  // ---- The one sequence that obeys them ----------------------------------------------------------

  predicate Multiple(n: nat, chunk: nat)
    requires chunk > 0
  {
    n == 0 || (chunk <= n && Multiple(n - chunk, chunk))
  }

  /** `data`, of a whole number of chunks, chunk by chunk. */
  function Full(data: seq<Byte>, chunk: nat): seq<Piece>
    requires chunk > 0
    decreases |data|
  {
    if |data| < chunk then []
    else
      var start := |data| - chunk;
      Full(data[..start], chunk) + [Piece(start, data[start..])]
  }

  /** Where the last piece of `n` bytes starts. */
  function LastStart(n: nat, chunk: nat): (start: nat)
    requires chunk > 0
    ensures start <= n
  {
    if n <= chunk then 0 else chunk + LastStart(n - chunk, chunk)
  }

  function Canonical(file: seq<Byte>, chunk: nat): seq<Piece>
    requires chunk > 0
  {
    var start := LastStart(|file|, chunk);
    Full(file[..start], chunk) + [Piece(start, file[start..])]
  }

  lemma {:induction false} LastStartOf(n: nat, rest: nat, chunk: nat)
    requires chunk > 0 && Multiple(n, chunk)
    requires rest <= chunk && (rest == 0 ==> n == 0)
    ensures LastStart(n + rest, chunk) == n
  {
    if n > 0 { LastStartOf(n - chunk, rest, chunk); }
  }

  lemma {:induction false} LastStartIsMultiple(n: nat, chunk: nat)
    requires chunk > 0
    ensures Multiple(LastStart(n, chunk), chunk)
    ensures n - LastStart(n, chunk) <= chunk
    ensures n > 0 ==> LastStart(n, chunk) < n
  {
    if n > chunk { LastStartIsMultiple(n - chunk, chunk); }
  }

  lemma SamePlaceInFront(front: seq<Piece>, last: Piece, i: nat)
    requires i < |front|
    ensures InItsPlace(front + [last], i) <==> InItsPlace(front, i)
  {
    assert (front + [last])[..i] == front[..i];
  }

  lemma PlaceBehind(front: seq<Piece>, last: Piece)
    ensures ContentOf(front + [last]) == ContentOf(front) + last.data
    ensures InItsPlace(front + [last], |front|) <==> last.offset == |ContentOf(front)|
  {
    assert (front + [last])[..|front|] == front;
  }

  lemma PieceBehind(front: seq<Piece>, last: Piece)
    ensures ContentOf(front + [last]) == ContentOf(front) + last.data
    ensures Gapless(front + [last]) <==> Gapless(front) && last.offset == |ContentOf(front)|
  {
    PlaceBehind(front, last);
    forall i | 0 <= i < |front| ensures InItsPlace(front + [last], i) <==> InItsPlace(front, i) {
      SamePlaceInFront(front, last, i);
    }
  }

  lemma {:induction false} FullObeys(data: seq<Byte>, chunk: nat)
    requires chunk > 0 && Multiple(|data|, chunk)
    ensures ContentOf(Full(data, chunk)) == data
    ensures Gapless(Full(data, chunk)) && WholeChunks(Full(data, chunk), chunk)
    decreases |data|
  {
    if data != [] {
      var start := |data| - chunk;
      FullObeys(data[..start], chunk);
      PieceBehind(Full(data[..start], chunk), Piece(start, data[start..]));
      assert data == data[..start] + data[start..];
    }
  }

  lemma MultipleGrows(n: nat, chunk: nat)
    requires chunk > 0 && Multiple(n, chunk)
    ensures Multiple(n + chunk, chunk)
  {
  }

  lemma FullGrows(front: seq<Byte>, data: seq<Byte>, chunk: nat)
    requires chunk > 0 && |data| == chunk
    ensures Full(front + data, chunk) == Full(front, chunk) + [Piece(|front|, data)]
  {
    assert (front + data)[..|front|] == front && (front + data)[|front|..] == data;
  }

  lemma {:induction false} FullIsMultiple(data: seq<Byte>, chunk: nat, i: nat)
    requires chunk > 0 && Multiple(|data|, chunk) && i < |Full(data, chunk)|
    ensures Multiple(Full(data, chunk)[i].offset, chunk)
    decreases |data|
  {
    var start := |data| - chunk;
    if i < |Full(data[..start], chunk)| { FullIsMultiple(data[..start], chunk, i); }
  }

  /** Chunks that stand one behind the other from 0 are the chunks of what they add up to. */
  lemma {:induction false} WholeChunksAreFull(pieces: seq<Piece>, chunk: nat)
    requires chunk > 0 && Gapless(pieces) && WholeChunks(pieces, chunk)
    ensures Multiple(|ContentOf(pieces)|, chunk) && Full(ContentOf(pieces), chunk) == pieces
  {
    if pieces != [] {
      var front, last := pieces[..|pieces| - 1], pieces[|pieces| - 1];
      assert pieces == front + [last];
      PieceBehind(front, last);
      WholeChunksAreFull(front, chunk);
      assert (ContentOf(front) + last.data)[..|ContentOf(front)|] == ContentOf(front);
    }
  }

  lemma ProperHasToBe(front: seq<Piece>, last: Piece, file: seq<Byte>, chunk: nat)
    requires chunk > 0 && Gapless(front) && WholeChunks(front, chunk)
    requires last.offset == |ContentOf(front)| && file == ContentOf(front) + last.data
    requires |last.data| <= chunk && (last.data == [] ==> file == [])
    ensures Canonical(file, chunk) == front + [last]
  {
    WholeChunksAreFull(front, chunk);
    LastStartOf(last.offset, |last.data|, chunk);
    assert file[..last.offset] == ContentOf(front) && file[last.offset..] == last.data;
  }

  /** The rules leave no choice: exactly one sequence of pieces obeys them. */
  lemma ProperIsCanonical(pieces: seq<Piece>, file: seq<Byte>, chunk: nat)
    requires chunk > 0
    ensures Proper(pieces, file, chunk) <==> pieces == Canonical(file, chunk)
  {
    if Proper(pieces, file, chunk) {
      var front, last := pieces[..|pieces| - 1], pieces[|pieces| - 1];
      assert pieces == front + [last];
      PieceBehind(front, last);
      ProperHasToBe(front, last, file, chunk);
    }
    CanonicalIsProper(file, chunk);
  }

  lemma CanonicalIsProper(file: seq<Byte>, chunk: nat)
    requires chunk > 0
    ensures Proper(Canonical(file, chunk), file, chunk)
  {
    var start := LastStart(|file|, chunk);
    var front, last := Full(file[..start], chunk), Piece(start, file[start..]);
    LastStartIsMultiple(|file|, chunk);
    FullObeys(file[..start], chunk);
    PieceBehind(front, last);
    assert file == file[..start] + file[start..];
  }

  /** Chunks all of one size behind one another are the canonical pieces of what they carry, unless that is nothing. */
  lemma FullIsCanonical(data: seq<Byte>, chunk: nat)
    requires chunk > 0 && Multiple(|data|, chunk) && data != []
    ensures Full(data, chunk) == Canonical(data, chunk)
  {
    LastStartOf(|data| - chunk, chunk, chunk);
  }

  /** What cldflt demands: every piece starts aligned, and is aligned or ends with the file. */
  lemma PiecesAreAligned(file: seq<Byte>, chunk: nat, i: nat)
    requires chunk > 0 && chunk % ALIGNMENT == 0 && i < |Canonical(file, chunk)|
    ensures var piece := Canonical(file, chunk)[i];
      && piece.offset % ALIGNMENT == 0
      && (|piece.data| % ALIGNMENT == 0 || piece.offset + |piece.data| == |file|)
  {
    var start := LastStart(|file|, chunk);
    LastStartIsMultiple(|file|, chunk);
    FullObeys(file[..start], chunk);
    if i < |Full(file[..start], chunk)| { FullIsMultiple(file[..start], chunk, i); }
    MultipleIsAligned(Canonical(file, chunk)[i].offset, chunk);
  }

  lemma {:induction false} MultipleIsAligned(n: nat, chunk: nat)
    requires chunk > 0 && chunk % ALIGNMENT == 0 && Multiple(n, chunk)
    ensures n % ALIGNMENT == 0
  {
    if n > 0 { MultipleIsAligned(n - chunk, chunk); }
  }

  // ---- The buffer ----------------------------------------------------------------------------------

  datatype BlockError =
    | Gap(expected: nat, got: nat)
    | OverEnd(until: nat, total: nat)
    | Incomplete(delivered: nat, total: nat)
    | HandOff

  /** The chunk size: the least multiple of the alignment that holds `chunk` bytes and at least one. */
  function RoundedUp(chunk: nat): (size: nat)
    ensures size % ALIGNMENT == 0 && Max(chunk, 1) <= size < Max(chunk, 1) + ALIGNMENT
  {
    (Max(chunk, 1) + ALIGNMENT - 1) / ALIGNMENT * ALIGNMENT
  }

  predicate IsTaken(gone: bool, accepts: nat -> bool, n: nat) {
    !gone && accepts(n)
  }

  /** Where the pieces go: the n-th hand-off may fail, and a connection that is gone takes nothing. */
  class Output {
    const gone: bool
    const accepts: nat -> bool
    var calls: nat
    var emitted: seq<Piece>

    constructor (gone: bool, accepts: nat -> bool)
      ensures this.gone == gone && this.accepts == accepts && calls == 0 && emitted == []
    {
      this.gone, this.accepts, calls, emitted := gone, accepts, 0, [];
    }

    predicate Honest()
      reads this
    {
      gone ==> emitted == []
    }

    /** Whether the n-th hand-off would be taken. */
    predicate Takes(n: nat) {
      IsTaken(gone, accepts, n)
    }

    /** Since then every hand-off was taken, or the last one was asked for and refused, and only that one. */
    twostate predicate Handed(ok: bool)
      reads this
    {
      && old(calls) <= calls
      && (ok ==> forall n :: old(calls) <= n < calls ==> IsTaken(gone, accepts, n))
      && (!ok ==> old(calls) < calls && !IsTaken(gone, accepts, calls - 1))
      && (!ok ==> forall n :: old(calls) <= n < calls - 1 ==> IsTaken(gone, accepts, n))
    }

    method Put(offset: nat, data: seq<Byte>) returns (ok: bool)
      modifies this
      ensures emitted == if ok then old(emitted) + [Piece(offset, data)] else old(emitted)
      ensures ok == Takes(old(calls)) && calls == old(calls) + 1
    {
      ok, calls := !gone && accepts(calls), calls + 1;
      if ok { emitted := emitted + [Piece(offset, data)]; }
    }
  }

  class BlockBuffer {
    const total: nat
    const chunk: nat
    var received: nat
    var sent: nat
    var buffer: seq<Byte>
    var completed: bool
    /** What was taken in and not dropped, and how many bytes a failed hand-off has dropped. */
    ghost var kept: seq<Byte>
    ghost var lost: nat

    /** The chunk size is rounded up to a multiple of `ALIGNMENT`. */
    constructor (total: nat, chunk: nat)
      requires total <= U64_MAX
      ensures this.total == total
      ensures this.chunk == RoundedUp(chunk)
      ensures received == sent == lost == 0 && buffer == kept == [] && !completed
    {
      this.total := total;
      this.chunk := RoundedUp(chunk);
      received, sent, buffer, completed, kept, lost := 0, 0, [], false, [], 0;
    }

    /** Everything kept, handed over; nothing at all when nothing was kept of a file that has bytes. */
    ghost function Everything(): seq<Piece>
      requires chunk > 0
      reads this
    {
      if kept == [] && total != 0 then [] else Canonical(kept, chunk)
    }

    /** The state with `open` bytes counted as received that are neither kept nor dropped yet. */
    ghost predicate Midway(output: Output, open: nat)
      reads this, output
    {
      && chunk > 0
      && total <= U64_MAX
      && output.Honest()
      && received == |kept| + lost + open <= total
      && sent <= |kept|
      && buffer == kept[sent..]
      && if completed then received == total && open == 0 && buffer == [] && output.emitted == Everything()
         else Multiple(sent, chunk) && |buffer| <= chunk && output.emitted == Full(kept[..sent], chunk)
    }

    ghost predicate Valid(output: Output)
      reads this, output
    {
      Midway(output, 0)
    }

    /** Hands one whole chunk over, behind what has been sent. */
    method HandChunk(data: seq<Byte>, output: Output) returns (ok: bool)
      requires chunk > 0 && sent <= |kept| && |data| == chunk
      requires output.emitted == Full(kept[..sent], chunk) && output.Honest()
      modifies this`sent, output
      ensures output.Honest()
      ensures output.Handed(ok)
      ensures sent == if ok then old(sent) + chunk else old(sent)
      ensures output.emitted == if ok then Full(kept[..old(sent)] + data, chunk) else old(output.emitted)
    {
      ok := output.Put(sent, data);
      if ok {
        FullGrows(kept[..sent], data, chunk);
        sent := sent + chunk;
      }
    }

    /**
    Takes a piece of the file in. A piece in the wrong place or beyond the end changes nothing; a
    piece taken is behind what was kept; a failed hand-off drops what stands behind the chunk it
    could not hand over, and the bytes count as received all the same.
    */
    method Take(offset: nat, data: seq<Byte>, output: Output) returns (r: Result<(), BlockError>)
      requires Valid(output)
      modifies this, output
      ensures Valid(output)
      ensures completed == old(completed)
      ensures output.Handed(r != Failure(HandOff))
      ensures match r
        case Success(_) =>
          && offset == old(received)
          && kept == old(kept) + data && lost == old(lost)
        case Failure(HandOff) =>
          && offset == old(received)
          && old(kept) <= kept <= old(kept) + data
          && received == old(received) + |data|
          && (lost == old(lost) <==> old(buffer) != [] && |old(buffer)| + |data| <= chunk)
          && (old(buffer) == [] ==> buffer == [])
        case Failure(Gap(expected, got)) =>
          expected == old(received) && got == offset != expected && unchanged(this) && unchanged(output)
        case Failure(OverEnd(until, end)) =>
          && offset == old(received) && total < offset + |data| && unchanged(this) && unchanged(output)
          && until == Min(offset + |data|, U64_MAX) && end == total
        case Failure(Incomplete(_, _)) => false
    {
      if offset != received { return Failure(Gap(received, offset)); }
      if offset + |data| > U64_MAX { return Failure(OverEnd(U64_MAX, total)); }
      var until := offset + |data|;
      if until > total { return Failure(OverEnd(until, total)); }
      received := until;
      var rest := data;
      if buffer != [] {
        var filled;
        filled, rest := FillUp(data, output);
        if !filled { return Failure(HandOff); }
      }
      r := PassThrough(rest, output);
    }

    /** Buffers what does not make more than a chunk. */
    method Keep(data: seq<Byte>, output: Output, ghost open: nat)
      requires Midway(output, |data| + open) && |buffer| + |data| <= chunk
      modifies this
      ensures Midway(output, open)
      ensures kept == old(kept) + data && buffer == old(buffer) + data
      ensures completed == old(completed) && received == old(received) && lost == old(lost) && sent == old(sent)
    {
      assert (kept + data)[..sent] == kept[..sent] && (kept + data)[sent..] == buffer + data;
      assert data == [] ==> kept + data == kept && buffer + data == buffer;
      buffer, kept := buffer + data, kept + data;
    }

    /** The part of `Take` that fills a buffer that holds something, and hands it over once it is a chunk. */
    method FillUp(data: seq<Byte>, output: Output) returns (ok: bool, rest: seq<Byte>)
      requires Midway(output, |data|) && buffer != []
      modifies this, output
      ensures completed == old(completed) && received == old(received)
      ensures old(kept) <= kept && kept + rest == old(kept) + data
      ensures rest == [] <==> |old(buffer)| + |data| <= chunk
      ensures output.Handed(ok)
      ensures ok ==> Midway(output, |rest|) && (buffer == [] || rest == []) && lost == old(lost)
      ensures !ok ==> Valid(output) && lost == old(lost) + |rest|
    {
      var missing := chunk - |buffer|;
      var front := data[..Min(missing, |data|)];
      rest := data[|front|..];
      Keep(front, output, |rest|);
      ok := true;
      if |buffer| == chunk { ok := HandBuffer(output, |rest|); }
    }

    /** A full buffer goes out; if it does not, everything behind it is dropped. */
    method HandBuffer(output: Output, ghost open: nat) returns (ok: bool)
      requires Midway(output, open) && !completed && |buffer| == chunk
      modifies this`sent, this`buffer, this`lost, output
      ensures output.Handed(ok)
      ensures ok ==> Midway(output, open) && buffer == [] && lost == old(lost)
      ensures !ok ==> Valid(output) && lost == old(lost) + open
    {
      assert kept[..sent] + buffer == kept == kept[..sent + chunk];
      MultipleGrows(sent, chunk);
      ok := HandChunk(buffer, output);
      if ok { buffer := []; } else { lost := lost + open; }
    }

    /** The part of `Take` behind the buffer: whole chunks go out uncopied, the rest is buffered. */
    method PassThrough(data: seq<Byte>, output: Output) returns (r: Result<(), BlockError>)
      requires Midway(output, |data|) && (buffer == [] || data == [])
      modifies this, output
      ensures Valid(output)
      ensures completed == old(completed) && received == old(received)
      ensures output.Handed(r.Success?)
      ensures match r
        case Success(_) => kept == old(kept) + data && lost == old(lost)
        case Failure(HandOff) =>
          old(kept) <= kept <= old(kept) + data && lost > old(lost) && |data| >= chunk && buffer == []
        case Failure(_) => false
    {
      var rest := data;
      while |rest| >= chunk
        invariant Midway(output, |rest|) && (buffer == [] || rest == [])
        invariant completed == old(completed) && received == old(received) && lost == old(lost)
        invariant output.Handed(true)
        invariant old(kept) <= kept && kept + rest == old(kept) + data
        decreases |rest|
      {
        var ok := PassOne(rest, output);
        if !ok { return Failure(HandOff); }
        rest := rest[chunk..];
      }
      Keep(rest, output, 0);
      return Success(());
    }

    /** One chunk goes out from the front; if it does not, everything from there on is dropped. */
    method PassOne(rest: seq<Byte>, output: Output) returns (ok: bool)
      requires Midway(output, |rest|) && buffer == [] && |rest| >= chunk
      modifies this, output
      ensures completed == old(completed) && received == old(received) && buffer == []
      ensures output.Handed(ok)
      ensures ok ==> Midway(output, |rest| - chunk) && kept == old(kept) + rest[..chunk] && lost == old(lost)
      ensures !ok ==> Valid(output) && kept == old(kept) && lost == old(lost) + |rest|
    {
      var head := rest[..chunk];
      assert kept[..sent] == kept;
      MultipleGrows(sent, chunk);
      ok := HandChunk(head, output);
      if !ok {
        lost := lost + |rest|;
        return;
      }
      assert (kept + head)[..sent] == kept + head;
      kept := kept + head;
    }

    /** The last piece: whatever is left, or the one empty piece of an empty file. */
    method HandRest(output: Output) returns (ok: bool)
      requires Valid(output) && received == total && !completed && (buffer != [] || total == 0)
      modifies this`sent, this`buffer, output
      ensures output.Honest() && output.Handed(ok)
      ensures ok ==> sent == |kept| && buffer == [] && output.emitted == Canonical(kept, chunk)
      ensures !ok ==> sent == old(sent) && buffer == old(buffer) && output.emitted == old(output.emitted)
    {
      ok := output.Put(sent, buffer);
      if ok {
        LastStartOf(sent, |buffer|, chunk);
        sent := sent + |buffer|;
        buffer := [];
      }
    }

    /**
    Hands the rest over and establishes that everything arrived. What it hands over is everything
    that was kept; that is the whole file exactly when no failed hand-off dropped a byte, and then
    exactly when `sent` has reached `total`.
    */
    method Complete(output: Output) returns (r: Result<nat, BlockError>)
      requires Valid(output)
      modifies this, output
      ensures Valid(output)
      ensures kept == old(kept) && lost == old(lost) && received == old(received)
      ensures output.Handed(r != Failure(HandOff))
      ensures match r
        case Success(n) =>
          && n == total == received && completed
          && output.emitted == Everything()
          && (lost == 0 <==> sent == total)
          && (old(completed) ==> unchanged(output))
        case Failure(Incomplete(delivered, end)) =>
          delivered == received != total == end && unchanged(this) && unchanged(output)
        case Failure(HandOff) =>
          && received == total && unchanged(this) && output.emitted == old(output.emitted)
          && (buffer != [] || total == 0)
        case Failure(_) => false
    {
      if received != total { return Failure(Incomplete(received, total)); }
      if !completed && (buffer != [] || total == 0) {
        var ok := HandRest(output);
        if !ok { return Failure(HandOff); }
      } else if !completed && kept != [] {
        assert kept[..sent] == kept;
        FullIsCanonical(kept, chunk);
      }
      completed := true;
      return Success(total);
    }
  }

  // ---- Whole runs ------------------------------------------------------------------------------------

  datatype Op = TakeIn(offset: nat, data: seq<Byte>) | Finish

  datatype Answer = Taken | Finished(total: nat) | Refused(error: BlockError)

  /** What a call brought into the buffer. */
  function CarriedBy(op: Op, answer: Answer): seq<Byte> {
    if op.TakeIn? && answer.Taken? then op.data else []
  }

  /** The bytes of the pieces that were taken. */
  function AcceptedBy(ops: seq<Op>, answers: seq<Answer>): seq<Byte>
    requires |ops| == |answers|
  {
    if ops == [] then []
    else AcceptedBy(ops[..|ops| - 1], answers[..|ops| - 1]) + CarriedBy(ops[|ops| - 1], answers[|ops| - 1])
  }

  ghost predicate Completed(answers: seq<Answer>) {
    exists i :: 0 <= i < |answers| && answers[i].Finished?
  }

  ghost predicate NothingRefusedByOutput(answers: seq<Answer>) {
    forall i :: 0 <= i < |answers| ==> answers[i] != Refused(HandOff)
  }

  /** The answer to a call when every hand-off is taken, and that many bytes have been taken in. */
  function AnswerTo(op: Op, received: nat, total: nat): Answer {
    match op
    case TakeIn(offset, data) =>
      if offset != received then Refused(Gap(received, offset))
      else if offset + |data| > total then Refused(OverEnd(Min(offset + |data|, U64_MAX), total))
      else Taken
    case Finish => if received == total then Finished(total) else Refused(Incomplete(received, total))
  }

  /** Every answer is the one to its call. */
  ghost predicate Answered(ops: seq<Op>, answers: seq<Answer>, total: nat) {
    && |ops| == |answers|
    && (ops != [] ==>
          var n := |ops| - 1;
          && Answered(ops[..n], answers[..n], total)
          && answers[n] == AnswerTo(ops[n], |AcceptedBy(ops[..n], answers[..n])|, total))
  }

  ghost predicate EveryHandOffTaken(gone: bool, accepts: nat -> bool, asked: nat) {
    forall n :: 0 <= n < asked ==> IsTaken(gone, accepts, n)
  }

  /**
  Any calls in any order, with any hand-offs failing. The buffer answers that a hand-off failed
  exactly when one of those it asked for was refused. When none was, every answer is the one to its
  call, and once completed, what has gone out depends on the bytes taken in and on the chunk size
  alone. In any case nothing is missing of a completed file but what failed hand-offs dropped.
  */
  method Replay(total: nat, chunk: nat, ops: seq<Op>, gone: bool, accepts: nat -> bool)
    returns (emitted: seq<Piece>, answers: seq<Answer>, asked: nat, ghost dropped: nat)
    requires total <= U64_MAX
    ensures |answers| == |ops|
    ensures Completed(answers) ==> |ContentOf(emitted)| + dropped == total
    ensures NothingRefusedByOutput(answers) <==> EveryHandOffTaken(gone, accepts, asked)
    ensures EveryHandOffTaken(gone, accepts, asked) ==> dropped == 0 && Answered(ops, answers, total)
    ensures EveryHandOffTaken(gone, accepts, asked) && Completed(answers) ==>
      emitted == Canonical(AcceptedBy(ops, answers), RoundedUp(chunk))
  {
    var buffer := new BlockBuffer(total, chunk);
    var output := new Output(gone, accepts);
    answers := CallAll(buffer, output, ops);
    emitted, asked, dropped := output.emitted, output.calls, buffer.lost;
    EverythingAddsUp(buffer.kept, buffer.chunk, total);
  }

  /** What holds of a buffer and its output after these calls and their answers. */
  ghost predicate IsBehind(buffer: BlockBuffer, output: Output, ops: seq<Op>, answers: seq<Answer>)
    reads buffer, output
  {
    && |answers| == |ops|
    && buffer.Valid(output)
    && (Completed(answers) ==> buffer.completed)
    && (NothingRefusedByOutput(answers) <==> EveryHandOffTaken(output.gone, output.accepts, output.calls))
    && (NothingRefusedByOutput(answers) ==> buffer.lost == 0 && Brought(ops, answers, buffer.total, buffer.kept))
  }

  method CallAll(buffer: BlockBuffer, output: Output, ops: seq<Op>) returns (answers: seq<Answer>)
    requires buffer.Valid(output) && !buffer.completed && buffer.kept == [] && buffer.lost == output.calls == 0
    modifies buffer, output
    ensures IsBehind(buffer, output, ops, answers)
  {
    answers := [];
    assert ops[..0] == [];
    for i := 0 to |ops|
      invariant IsBehind(buffer, output, ops[..i], answers)
    {
      var answer := CallNext(buffer, output, ops[..i], answers, ops[i]);
      assert ops[..i + 1] == ops[..i] + [ops[i]];
      answers := answers + [answer];
    }
    assert ops[..|ops|] == ops;
  }

  method CallNext(buffer: BlockBuffer, output: Output, ghost ops: seq<Op>, ghost answers: seq<Answer>, op: Op)
    returns (answer: Answer)
    requires IsBehind(buffer, output, ops, answers)
    modifies buffer, output
    ensures IsBehind(buffer, output, ops + [op], answers + [answer])
  {
    ghost var kept, calls := buffer.kept, output.calls;
    answer := Call(buffer, output, op);
    if NothingRefusedByOutput(answers) && answer != Refused(HandOff) {
      OneMoreAnswer(ops, answers, buffer.total, kept, op, answer);
    }
    AnswerBehind(answers, answer);
    MoreHandOffs(output.gone, output.accepts, calls, output.calls, answer != Refused(HandOff));
  }

  lemma MoreHandOffs(gone: bool, accepts: nat -> bool, before: nat, after: nat, ok: bool)
    requires before <= after
    requires ok ==> forall n :: before <= n < after ==> IsTaken(gone, accepts, n)
    requires !ok ==> before < after && !IsTaken(gone, accepts, after - 1)
    ensures EveryHandOffTaken(gone, accepts, after) <==> EveryHandOffTaken(gone, accepts, before) && ok
  {
  }

  /** One call and its answer. */
  method Call(buffer: BlockBuffer, output: Output, op: Op) returns (answer: Answer)
    requires buffer.Valid(output)
    modifies buffer, output
    ensures buffer.Valid(output)
    ensures buffer.completed == (old(buffer.completed) || answer.Finished?)
    ensures output.Handed(answer != Refused(HandOff))
    ensures answer != Refused(HandOff) ==>
      && answer == AnswerTo(op, old(buffer.received), buffer.total)
      && buffer.lost == old(buffer.lost)
      && buffer.kept == old(buffer.kept) + CarriedBy(op, answer)
  {
    if op.TakeIn? {
      var r := buffer.Take(op.offset, op.data, output);
      answer := AnswerToTake(r);
      assert r.Failure? ==> CarriedBy(op, answer) == [];
    } else {
      var r := buffer.Complete(output);
      answer := AnswerToFinish(r);
      assert CarriedBy(op, answer) == [];
    }
  }

  function AnswerToTake(r: Result<(), BlockError>): Answer {
    if r.Success? then Taken else Refused(r.error)
  }

  function AnswerToFinish(r: Result<nat, BlockError>): Answer {
    if r.Success? then Finished(r.value) else Refused(r.error)
  }

  lemma EverythingAddsUp(kept: seq<Byte>, chunk: nat, total: nat)
    requires chunk > 0
    ensures ContentOf(if kept == [] && total != 0 then [] else Canonical(kept, chunk)) == kept
  {
    CanonicalIsProper(kept, chunk);
  }

  /** The calls so far brought these bytes, each with its own answer. */
  ghost predicate Brought(ops: seq<Op>, answers: seq<Answer>, total: nat, bytes: seq<Byte>) {
    Answered(ops, answers, total) && AcceptedBy(ops, answers) == bytes
  }

  lemma OneMoreAnswer(ops: seq<Op>, answers: seq<Answer>, total: nat, bytes: seq<Byte>, op: Op, answer: Answer)
    requires Brought(ops, answers, total, bytes) && answer == AnswerTo(op, |bytes|, total)
    ensures Brought(ops + [op], answers + [answer], total, bytes + CarriedBy(op, answer))
  {
    assert (ops + [op])[..|ops|] == ops && (answers + [answer])[..|ops|] == answers;
  }

  // ---- A file in pieces ----------------------------------------------------------------------------

  /** A file's pieces delivered in order. */
  function Deliveries(parts: seq<seq<Byte>>): (ops: seq<Op>)
    ensures |ops| == |parts|
  {
    if parts == [] then []
    else
      var front := parts[..|parts| - 1];
      Deliveries(front) + [TakeIn(|Joined(front)|, parts[|parts| - 1])]
  }

  lemma {:induction false} DeliveriesAreTaken(parts: seq<seq<Byte>>, answers: seq<Answer>, total: nat)
    requires Answered(Deliveries(parts), answers, total) && |Joined(parts)| <= total
    ensures AcceptedBy(Deliveries(parts), answers) == Joined(parts)
  {
    if parts != [] {
      var front, last, n := parts[..|parts| - 1], parts[|parts| - 1], |parts| - 1;
      assert Deliveries(parts)[..n] == Deliveries(front);
      DeliveriesAreTaken(front, answers[..n], total);
    }
  }

  lemma FinishAnswersTheTotal(parts: seq<seq<Byte>>, answers: seq<Answer>, total: nat)
    requires Answered(Deliveries(parts) + [Finish], answers, total) && |Joined(parts)| == total
    ensures answers[|parts|] == Finished(total)
    ensures AcceptedBy(Deliveries(parts) + [Finish], answers) == Joined(parts)
  {
    var ops := Deliveries(parts) + [Finish];
    assert ops[..|parts|] == Deliveries(parts);
    DeliveriesAreTaken(parts, answers[..|parts|], total);
    assert Joined(parts) + [] == Joined(parts);
  }

  /**
  A whole file, cut however the source writes it. On an output that takes every hand-off it is
  completed, and what has gone out is the canonical sequence of the file.
  */
  method HandOver(parts: seq<seq<Byte>>, chunk: nat, gone: bool, accepts: nat -> bool)
    returns (emitted: seq<Piece>, completed: bool)
    requires |Joined(parts)| <= U64_MAX
    ensures !gone && (forall n :: accepts(n)) ==>
      completed && emitted == Canonical(Joined(parts), RoundedUp(chunk))
  {
    ghost var total := |Joined(parts)|;
    var ops := Deliveries(parts) + [Finish];
    var answers, asked;
    ghost var dropped;
    emitted, answers, asked, dropped := Replay(|Joined(parts)|, chunk, ops, gone, accepts);
    completed := answers[|parts|].Finished?;
    if EveryHandOffTaken(gone, accepts, asked) { FinishAnswersTheTotal(parts, answers, total); }
  }

  lemma AnswerBehind(answers: seq<Answer>, answer: Answer)
    ensures NothingRefusedByOutput(answers + [answer]) <==>
      NothingRefusedByOutput(answers) && answer != Refused(HandOff)
    ensures Completed(answers + [answer]) <==> Completed(answers) || answer.Finished?
  {
    var more := answers + [answer];
    assert more[|answers|] == answer;
    assert forall k :: 0 <= k < |answers| ==> more[k] == answers[k];
  }

  /**
  A hand-off that failed does not keep `Complete` from answering Ok: with an output that never took
  a byte, a file of two chunks counts as handed over.
  */
  method FailedHandOffCompletesAllTheSame() returns (taken: Result<(), BlockError>, completed: Result<nat, BlockError>,
                                                     emitted: seq<Piece>)
    ensures taken == Failure(HandOff)
    ensures completed == Success(2 * ALIGNMENT)
    ensures emitted == []
  {
    var buffer := new BlockBuffer(2 * ALIGNMENT, ALIGNMENT);
    var output := new Output(true, _ => true);
    assert RoundedUp(ALIGNMENT) == ALIGNMENT;
    taken := buffer.Take(0, seq(2 * ALIGNMENT, _ => 0), output);
    assert buffer.sent < buffer.chunk;
    completed := buffer.Complete(output);
    emitted := output.emitted;
  }

  // ---- The range to report as failed -----------------------------------------------------------------

  const I64_MAX: int := 0x7FFF_FFFF_FFFF_FFFF

  function SaturatingAdd(a: int, b: int): int {
    Min(a + b, I64_MAX)
  }

  /** `length < 0` is the end of the file. */
  function ErrorDomain(offset: int, length: int, fileSize: int, sent: nat): Option<(int, int)> {
    if length == 0 then Some((Max(offset, 0), 0))
    else
      var end := if length < 0 then fileSize else SaturatingAdd(offset, length);
      var start := Max(Max(offset, Min(sent, I64_MAX)), 0);
      if end > start then Some((start, end - start)) else None
  }

  /** A byte is reported exactly when it was requested and has not been sent. */
  lemma ReportsWhatIsOpen(offset: int, length: int, fileSize: int, sent: nat, at: nat)
    requires length != 0 && sent <= I64_MAX
    ensures var end := if length < 0 then fileSize else SaturatingAdd(offset, length);
      var domain := ErrorDomain(offset, length, fileSize, sent);
      offset <= at < end && sent <= at
      <==> domain.Some? && domain.value.0 <= at < domain.value.0 + domain.value.1
  {
  }

  /**
  For an aligned request, with the buffer's own count of what was sent (aligned, or the whole file),
  the start is aligned except in one case: the ragged end of the file has been sent and the request
  reaches past it.
  */
  lemma ReportStartsAligned(offset: int, length: int, fileSize: nat, sent: nat)
    requires 0 <= offset <= I64_MAX && offset % ALIGNMENT == 0
    requires sent <= I64_MAX && (sent % ALIGNMENT == 0 || sent == fileSize)
    ensures var domain := ErrorDomain(offset, length, fileSize, sent);
      domain.Some? && domain.value.0 % ALIGNMENT != 0
      <==> sent % ALIGNMENT != 0 && length > 0 && offset < sent < SaturatingAdd(offset, length)
  {
  }
}
