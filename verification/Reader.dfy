/**
Reading frames from a socket that hands its bytes over as it likes. The socket follows an arbitrary
finite schedule of read calls; `ReadInbox` gives what the stream means (`Frame.Parse`), or stops
for a reason the schedule shows.
*/
module Reader {
  import opened Wrappers
  import opened Bytes
  import opened Frame

  /** Milliseconds one read call of the socket takes at most. */
  const TIME_SLICE: nat := 250

  /** What one read call does: `Ready` hands over at most `1 + extra` bytes, `Idle` is a time slice that passes. */
  datatype Call =
    | Ready(extra: nat, tick: nat)
    | Idle(cancelled: bool, tick: nat)
    | Interrupt(tick: nat)
    | Broken(tick: nat)

  /** The time the first `n` calls take. */
  function Ticks(calls: seq<Call>, n: nat): nat
    requires n <= |calls|
  {
    if n == 0 then 0 else Ticks(calls, n - 1) + calls[n - 1].tick
  }

  function Interrupts(calls: seq<Call>, n: nat): nat
    requires n <= |calls|
  {
    if n == 0 then 0 else Interrupts(calls, n - 1) + if calls[n - 1].Interrupt? then 1 else 0
  }

  function Readies(calls: seq<Call>, n: nat): nat
    requires n <= |calls|
  {
    if n == 0 then 0 else Readies(calls, n - 1) + if calls[n - 1].Ready? then 1 else 0
  }

  lemma {:induction false} TicksGrow(calls: seq<Call>, m: nat, n: nat)
    requires m <= n <= |calls|
    ensures Ticks(calls, m) <= Ticks(calls, n)
  {
    if m < n { TicksGrow(calls, m, n - 1); }
  }

  /**
  Until when a silence deadline of this duration runs after the calls from `from` to `to`: it stood
  at `before`, and every call that brought a byte sets it anew.
  */
  function Silenced(calls: seq<Call>, start: nat, from: nat, end: nat, duration: nat, before: nat): nat
    requires end <= |calls|
    decreases end
  {
    if end <= from then before
    else if calls[end - 1].Ready? then start + Ticks(calls, end) + duration
    else Silenced(calls, start, from, end - 1, duration, before)
  }

  lemma {:induction false} SilencedTwice(
    calls: seq<Call>, start: nat, from: nat, mid: nat, end: nat, duration: nat, before: nat)
    requires from <= mid <= end <= |calls|
    ensures Silenced(calls, start, mid, end, duration, Silenced(calls, start, from, mid, duration, before))
         == Silenced(calls, start, from, end, duration, before)
    decreases end
  {
    if mid < end { SilencedTwice(calls, start, from, mid, end - 1, duration, before); }
  }

  /** No cancellation and no error of the line in the first `m` calls. */
  ghost predicate Quiet(calls: seq<Call>, m: nat)
    requires m <= |calls|
  {
    forall i :: 0 <= i < m ==> !calls[i].Broken? && !(calls[i].Idle? && calls[i].cancelled)
  }

  /** How long after the first `n` calls no byte has come. */
  function SinceByte(calls: seq<Call>, n: nat): nat
    requires n <= |calls|
  {
    if n == 0 || calls[n - 1].Ready? then 0 else SinceByte(calls, n - 1) + calls[n - 1].tick
  }

  lemma {:induction false} SilencedIsSinceByte(calls: seq<Call>, start: nat, n: nat, duration: nat)
    requires n <= |calls|
    ensures Silenced(calls, start, 0, n, duration, start + duration) + SinceByte(calls, n)
         == start + Ticks(calls, n) + duration
  {
    if n > 0 { SilencedIsSinceByte(calls, start, n - 1, duration); }
  }

  lemma {:induction false} ReadiesGrow(calls: seq<Call>, m: nat, n: nat)
    requires m <= n <= |calls|
    ensures Readies(calls, m) <= Readies(calls, n)
  {
    if m < n { ReadiesGrow(calls, m, n - 1); }
  }

  /**
  The first `m` calls are enough for so many bytes: none is cancelled or broken, as many are ready,
  and the deadline does not pass. A fixed deadline holds for all of them, however they come; a
  silence deadline for each gap between two bytes, however long all of it takes.
  */
  ghost predicate Suffices(calls: seq<Call>, m: nat, bytes: nat, duration: nat, silence: bool) {
    && m <= |calls|
    && Quiet(calls, m)
    && bytes <= Readies(calls, m)
    && if silence then forall n :: 0 <= n <= m ==> SinceByte(calls, n) < duration
       else Ticks(calls, m) < duration
  }

  /** Some number of calls suffices for so many bytes. */
  ghost predicate IsEnough(calls: seq<Call>, bytes: nat, duration: nat, silence: bool) {
    exists m :: Suffices(calls, m, bytes, duration, silence)
  }

  ghost predicate InSlices(calls: seq<Call>) {
    forall i :: 0 <= i < |calls| ==> calls[i].tick <= TIME_SLICE
  }

  datatype Got = Bytes(count: nat) | WouldBlock(cancelled: bool) | Interrupted | Failed | Waiting

  /** A socket: what will ever arrive, and the calls still to come. */
  class Source {
    const stream: seq<Byte>
    const calls: seq<Call>
    const start: nat
    var taken: nat
    var at: nat

    constructor (stream: seq<Byte>, calls: seq<Call>, start: nat)
      ensures this.stream == stream && this.calls == calls && this.start == start
      ensures Valid() && taken == 0 && at == 0
    {
      this.stream, this.calls, this.start, taken, at := stream, calls, start, 0, 0;
    }

    predicate Valid()
      reads this
    {
      taken <= |stream| && at <= |calls|
    }

    function Rest(): seq<Byte>
      requires Valid()
      reads this
    {
      stream[taken..]
    }

    function Now(): nat
      requires Valid()
      reads this
    {
      start + Ticks(calls, at)
    }

    /** One read call into `buffer` from `from` on; 0 bytes is the end of the stream, `Waiting` that of the schedule. */
    method Read(buffer: array<Byte>, from: nat) returns (got: Got)
      requires Valid() && from < buffer.Length
      modifies this, buffer
      ensures Valid()
      ensures buffer[..from] == old(buffer[..from])
      ensures at == if got.Waiting? then old(at) else old(at) + 1
      ensures match got
        case Waiting => at == |calls|
        case Bytes(count) =>
          && calls[old(at)].Ready?
          && count == Min(1 + calls[old(at)].extra, Min(buffer.Length - from, |stream| - old(taken)))
          && buffer[from..from + count] == stream[old(taken)..old(taken) + count]
        case WouldBlock(cancelled) => calls[old(at)].Idle? && cancelled == calls[old(at)].cancelled
        case Interrupted => calls[old(at)].Interrupt?
        case Failed => calls[old(at)].Broken?
      ensures taken == old(taken) + if got.Bytes? then got.count else 0
    {
      if at == |calls| { return Waiting; }
      var call := calls[at];
      at := at + 1;
      match call
      case Ready(extra, _) =>
        var count := Min(1 + extra, Min(buffer.Length - from, |stream| - taken));
        forall i | 0 <= i < count { buffer[from + i] := stream[taken + i]; }
        taken := taken + count;
        got := Bytes(count);
      case Idle(cancelled, _) => got := WouldBlock(cancelled);
      case Interrupt(_) => got := Interrupted;
      case Broken(_) => got := Failed;
    }
  }

  class Deadline {
    const duration: nat
    const extending: bool
    var until: nat

    constructor Fixed(duration: nat, now: nat)
      ensures !extending && this.duration == duration && until == now + duration
    {
      this.duration, extending, until := duration, false, now + duration;
    }

    constructor Silence(duration: nat, now: nat)
      ensures extending && this.duration == duration && until == now + duration
    {
      this.duration, extending, until := duration, true, now + duration;
    }

    method Motion(now: nat)
      modifies this
      ensures until == if extending then now + duration else old(until)
    {
      if extending { until := now + duration; }
    }

    predicate Expired(now: nat)
      reads this
    {
      now >= until
    }
  }

  /** Why nothing arrived; `Pending` is the schedule ending while the reader still waits. */
  datatype ReadError =
    | Closed
    | PastDeadline
    | Cancelled
    | Log(breach: Breach)
    | Link
    | Pending
  {
    /** Not a word about the stream, only about the wait. */
    predicate Stops() { !Closed? && !Log? }
  }

  /** What the calls made and the clock must show when a read stops with this error, its deadline being `until`. */
  ghost predicate Cause(error: ReadError, source: Source, until: nat)
    requires source.Valid()
    reads source
  {
    var last := source.at - 1;
    match error
    case PastDeadline => source.Now() >= until
    case Cancelled => last >= 0 && source.calls[last].Idle? && source.calls[last].cancelled
    case Link => last >= 0 && source.calls[last].Broken?
    case Pending => source.at == |source.calls|
    case _ => true
  }

  ghost predicate Justified(error: ReadError, source: Source, deadline: Deadline)
    requires source.Valid()
    reads source, deadline
  {
    Cause(error, source, deadline.until)
  }

  /** Until when the deadline runs now that the calls from `from` on have been made. */
  ghost predicate RunsUntil(source: Source, deadline: Deadline, from: nat, before: nat, ended: bool)
    requires source.Valid() && (ended ==> source.at > 0)
    reads source, deadline
  {
    deadline.until ==
      if deadline.extending then
        Silenced(source.calls, source.start, from, if ended then source.at - 1 else source.at,
          deadline.duration, before)
      else before
  }

  /**
  How a read moves along: calls and bytes are only ever used up, and every ready call brought a
  byte, the one that found the stream `ended` apart.
  */
  twostate predicate Moved(source: Source, ended: bool)
    requires old(source.Valid())
    reads source
  {
    && source.Valid()
    && old(source.at) <= source.at
    && old(source.taken) <= source.taken
    && old(source.Now()) <= source.Now()
    && Interrupts(source.calls, old(source.at)) <= Interrupts(source.calls, source.at)
    && (ended ==> old(source.at) < source.at)
    && (!ended ==> Readies(source.calls, source.at) - Readies(source.calls, old(source.at))
                   <= source.taken - old(source.taken))
  }

  /** And its deadline with it: a silence deadline runs from the last byte on, a fixed one stands. */
  twostate predicate Advanced(source: Source, deadline: Deadline, ended: bool)
    requires old(source.Valid())
    reads source, deadline
  {
    Moved(source, ended) && RunsUntil(source, deadline, old(source.at), old(deadline.until), ended)
  }

  /** Something has stopped a read whose deadline is `until`. */
  ghost predicate HasStopped(source: Source, until: nat)
    requires source.Valid()
    reads source
  {
    exists error: ReadError :: error.Stops() && Cause(error, source, until)
  }

  /** Short of the bytes its schedule is enough for, nothing stops a read that started with it. */
  lemma NothingStops(source: Source, until: nat, bytes: nat, duration: nat, silence: bool)
    requires source.Valid() && IsEnough(source.calls, bytes, duration, silence)
    requires Readies(source.calls, source.at) < bytes
    requires until >= if silence then
                        Silenced(source.calls, source.start, 0, source.at, duration, source.start + duration)
                      else source.start + duration
    ensures !HasStopped(source, until)
  {
    var m :| Suffices(source.calls, m, bytes, duration, silence);
    if source.at >= m {
      ReadiesGrow(source.calls, m, source.at);
    } else {
      SilencedIsSinceByte(source.calls, source.start, source.at, duration);
      TicksGrow(source.calls, source.at, m);
    }
  }

  /**
  A fixed deadline can be overrun by `slices` time slices and one more per interrupted call, which
  looks at no deadline.
  */
  twostate predicate InTime(source: Source, deadline: Deadline, slices: nat)
    requires old(source.Valid()) && source.Valid()
    reads source, deadline
  {
    !deadline.extending && InSlices(source.calls) ==>
      source.Now() <= Max(old(source.Now()), deadline.until)
                    + TIME_SLICE * (slices + Interrupts(source.calls, source.at)
                                           - Interrupts(source.calls, old(source.at)))
  }

  lemma OneMoreCall(source: Source, before: nat)
    requires source.Valid() && before <= source.at <= before + 1
    ensures InSlices(source.calls) && source.at == before + 1 ==>
      Ticks(source.calls, source.at) <= Ticks(source.calls, before) + TIME_SLICE
    ensures source.at == before + 1 ==>
      Interrupts(source.calls, source.at)
      == Interrupts(source.calls, before) + if source.calls[before].Interrupt? then 1 else 0
  {
  }

  /** One round of the reading loop: how much of the buffer is filled after it, or why it ends here. */
  method ReadSome(source: Source, buffer: array<Byte>, filled: nat, deadline: Deadline)
    returns (r: Result<nat, ReadError>)
    requires source.Valid() && filled < buffer.Length
    modifies source, buffer, deadline
    ensures Advanced(source, deadline, r == Failure(Closed))
    ensures r.Success? ==> source.at == old(source.at) + 1
    ensures InTime(source, deadline, 1)
    ensures r.Success? && r.value < buffer.Length ==> InTime(source, deadline, 0)
    ensures r.Success? ==>
      && filled <= r.value <= buffer.Length
      && source.taken == old(source.taken) + r.value - filled
      && buffer[..r.value] == old(buffer[..filled]) + source.stream[old(source.taken)..source.taken]
    ensures r.Failure? ==> !r.error.Log? && source.taken < old(source.taken) + buffer.Length - filled
    ensures r == Failure(Closed) ==> source.taken == old(source.taken) == |source.stream|
    ensures r.Failure? ==> Justified(r.error, source, deadline)
  {
    var got := source.Read(buffer, filled);
    OneMoreCall(source, old(source.at));
    r := Success(filled);
    match got
    case Bytes(count) =>
      if count == 0 { return Failure(Closed); }
      assert buffer[..filled + count] == buffer[..filled] + buffer[filled..filled + count];
      deadline.Motion(source.Now());
      if filled + count < buffer.Length && deadline.Expired(source.Now()) { return Failure(PastDeadline); }
      return Success(filled + count);
    case Interrupted =>
    case WouldBlock(cancelled) =>
      if cancelled { return Failure(Cancelled); }
      if deadline.Expired(source.Now()) { return Failure(PastDeadline); }
    case Failed => return Failure(Link);
    case Waiting => return Failure(Pending);
  }

  /** A deadline that ran from one read on ran from the one before it on. */
  lemma StillRuns(source: Source, deadline: Deadline, from: nat, mid: nat, before: nat, until: nat, ended: bool)
    requires source.Valid() && from <= mid <= source.at && (ended ==> mid < source.at)
    requires until == if deadline.extending then
                        Silenced(source.calls, source.start, from, mid, deadline.duration, before)
                      else before
    requires RunsUntil(source, deadline, mid, until, ended)
    ensures RunsUntil(source, deadline, from, before, ended)
  {
    SilencedTwice(source.calls, source.start, from, mid, if ended then source.at - 1 else source.at,
      deadline.duration, before);
  }

  method ReadExactly(source: Source, buffer: array<Byte>, deadline: Deadline) returns (r: Result<(), ReadError>)
    requires source.Valid()
    modifies source, buffer, deadline
    ensures Advanced(source, deadline, r == Failure(Closed))
    ensures InTime(source, deadline, 1)
    ensures r.Success? ==>
      && source.taken == old(source.taken) + buffer.Length
      && buffer[..] == source.stream[old(source.taken)..source.taken]
    ensures r.Failure? ==> !r.error.Log? && source.taken < old(source.taken) + buffer.Length
    ensures r == Failure(Closed) ==> source.taken == |source.stream|
    ensures r.Failure? ==> Justified(r.error, source, deadline)
  {
    var filled: nat := 0;
    while filled < buffer.Length
      invariant filled <= buffer.Length
      invariant source.Valid() && source.taken == old(source.taken) + filled
      invariant buffer[..filled] == source.stream[old(source.taken)..source.taken]
      invariant Advanced(source, deadline, false)
      invariant InTime(source, deadline, if filled < buffer.Length then 0 else 1)
      decreases |source.calls| - source.at
    {
      ghost var mid, until := source.at, deadline.until;
      var some := ReadSome(source, buffer, filled, deadline);
      StillRuns(source, deadline, old(source.at), mid, old(deadline.until), until, some == Failure(Closed));
      if some.Failure? { return Failure(some.error); }
      OnePieceMore(source.stream, old(source.taken), old(source.taken) + filled, source.taken);
      filled := some.value;
    }
    return Success(());
  }

  method ReadHeader(source: Source, limit: Limit, deadline: Deadline, midMessage: bool)
    returns (r: Result<Header, ReadError>)
    requires source.Valid()
    modifies source, deadline
    ensures Advanced(source, deadline, r == Failure(Closed))
    ensures InTime(source, deadline, 1)
    ensures r.Success? || r.error.Log? ==>
      && source.taken == old(source.taken) + HEADER_BYTES
      && var checked := CheckHeader(old(source.Rest())[..HEADER_BYTES], limit, midMessage);
         r == if checked.Success? then Success(checked.value) else Failure(Log(checked.error))
    ensures r.Failure? && !r.error.Log? ==> source.taken < old(source.taken) + HEADER_BYTES
    ensures r == Failure(Closed) ==> source.taken == |source.stream|
    ensures r.Failure? ==> Justified(r.error, source, deadline)
  {
    var header := new Byte[HEADER_BYTES];
    var read := ReadExactly(source, header, deadline);
    if read.Failure? { return Failure(read.error); }
    assert header[..] == old(source.Rest())[..HEADER_BYTES];
    var checked := CheckHeader(header[..], limit, midMessage);
    r := if checked.Success? then Success(checked.value) else Failure(Log(checked.error));
  }

  /** What `ReadInbox` answers to a stream whose meaning is `p`. */
  function Answer(p: Parsed): Result<Inbox, ReadError> {
    match p.outcome
    case Success(inbox) => Success(inbox)
    case Failure(Ended) => Failure(Closed)
    case Failure(Breached(breach)) => Failure(Log(breach))
  }

  /** One frame off the line: a whole inbox, or a part with more to follow. */
  datatype Piece = Whole(inbox: Inbox) | Part(bytes: seq<Byte>)

  function UsedBy(step: Step): nat {
    match step
    case Settled(parsed) => parsed.used
    case More(part) => HEADER_BYTES + |part|
  }

  predicate StreamEnds(step: Step) {
    step.Settled? && step.parsed.outcome == Failure(Ended)
  }

  /** The frame read, or refused, is the frame of the grammar; a read that stopped took no more than it. */
  ghost predicate FrameRead(r: Result<Piece, ReadError>, step: Step, taken: nat) {
    match r
    case Success(Part(bytes)) => step == More(bytes) && taken == UsedBy(step)
    case Success(Whole(inbox)) => step.Settled? && Answer(step.parsed) == Success(inbox) && taken == UsedBy(step)
    case Failure(error) =>
      if error.Stops() then taken <= UsedBy(step) && (taken == UsedBy(step) ==> StreamEnds(step))
      else step.Settled? && Answer(step.parsed) == Failure(error) && taken == UsedBy(step)
  }

  /** The same for a whole inbox: its answer and its bytes, or a stop short of them. */
  ghost predicate InboxRead(r: Result<Inbox, ReadError>, p: Parsed, taken: nat) {
    if r.Failure? && r.error.Stops() then
      taken <= p.used && (taken == p.used ==> p.outcome == Failure(Ended))
    else r == Answer(p) && taken == p.used
  }

  method ReadFrame(source: Source, limit: Limit, deadline: Deadline, collected: seq<Byte>)
    returns (r: Result<Piece, ReadError>, peak: nat)
    requires source.Valid()
    modifies source, deadline
    ensures Advanced(source, deadline, r == Failure(Closed))
    ensures limit.message == 0 && !limit.data ==> InTime(source, deadline, 2)
    ensures FrameRead(r, ParseFrame(old(source.Rest()), limit, collected), source.taken - old(source.taken))
    ensures r.Failure? ==> Justified(r.error, source, deadline)
    ensures peak <= limit.Ceiling()
  {
    peak := HEADER_BYTES;
    ghost var stream := source.Rest();
    var header := ReadHeader(source, limit, deadline, collected != []);
    if header.Failure? { return Failure(header.error), peak; }
    ghost var mid, until := source.at, deadline.until;
    r, peak := ReadPayload(source, header.value, limit, deadline, collected, stream);
    StillRuns(source, deadline, old(source.at), mid, old(deadline.until), until, r == Failure(Closed));
  }

  /** What stands behind an admissible header that has been read off `stream`. */
  method ReadPayload(source: Source, header: Header, limit: Limit, deadline: Deadline, collected: seq<Byte>,
                     ghost stream: seq<Byte>)
    returns (r: Result<Piece, ReadError>, peak: nat)
    requires source.Valid() && |stream| >= HEADER_BYTES && source.Rest() == stream[HEADER_BYTES..]
    requires header.DataHeader? ==> limit.data && header.length <= MAX_DATA_CHUNK
    modifies source, deadline
    ensures Advanced(source, deadline, r == Failure(Closed))
    ensures !header.DataHeader? ==> InTime(source, deadline, 1)
    ensures FrameRead(r, ParsePayload(stream, header, limit, collected),
                      HEADER_BYTES + source.taken - old(source.taken))
    ensures r.Failure? ==> Justified(r.error, source, deadline)
    ensures peak <= limit.Ceiling()
  {
    if header.DataHeader? {
      r := ReadChunk(source, header.length, deadline, stream);
      return r, Max(HEADER_BYTES, header.length);
    }
    if |collected| + header.length > limit.Largest() { return Failure(Log(MessageTooLong)), HEADER_BYTES; }
    r := ReadJson(source, header, limit, deadline, collected, stream);
    peak := Max(HEADER_BYTES, |collected| + header.length);
  }

  /** The payload of a JSON frame or part whose header has been read off `stream`. */
  method ReadJson(source: Source, header: Header, limit: Limit, deadline: Deadline, collected: seq<Byte>,
                  ghost stream: seq<Byte>)
    returns (r: Result<Piece, ReadError>)
    requires source.Valid() && |stream| >= HEADER_BYTES && source.Rest() == stream[HEADER_BYTES..]
    requires !header.DataHeader? && |collected| + header.length <= limit.Largest()
    modifies source, deadline
    ensures Advanced(source, deadline, r == Failure(Closed)) && InTime(source, deadline, 1)
    ensures FrameRead(r, ParsePayload(stream, header, limit, collected),
                      HEADER_BYTES + source.taken - old(source.taken))
    ensures r.Failure? ==> Justified(r.error, source, deadline)
  {
    var part := new Byte[header.length];
    var read := ReadExactly(source, part, deadline);
    if read.Failure? { return Failure(read.error); }
    assert source.taken - old(source.taken) == header.length;
    assert part[..] == stream[HEADER_BYTES..][..header.length];
    assert part[..] == stream[HEADER_BYTES..HEADER_BYTES + header.length];
    r := Success(if header.JsonHeader? then Whole(Json(collected + part[..])) else Part(part[..]));
  }

  /** Bytes of what is left are the same bytes of the whole. */
  lemma SamePiece(stream: seq<Byte>, front: nat, whole: seq<Byte>, at: nat, k: nat, n: nat)
    requires front <= |stream| && at <= |whole| && stream[front..] == whole[at..] && at + k + n <= |whole|
    ensures front + k + n <= |stream|
    ensures stream[front + k..front + k + n] == whole[at + k..at + k + n]
  {
    var rest, ours, theirs := stream[front..], stream[front + k..front + k + n], whole[at + k..at + k + n];
    assert |rest| == |whole[at..]| == |whole| - at;
    assert forall i :: 0 <= i < n ==> ours[i] == rest[k + i];
    assert forall i :: 0 <= i < n ==> theirs[i] == whole[at..][k + i];
  }

  lemma OnePieceMore(s: seq<Byte>, a: nat, b: nat, c: nat)
    requires a <= b <= c <= |s|
    ensures s[a..b] + s[b..c] == s[a..c]
  {
  }

  /** The offset and the bytes of a data chunk whose header has been read off `stream`. */
  method ReadChunk(source: Source, length: nat, deadline: Deadline, ghost stream: seq<Byte>)
    returns (r: Result<Piece, ReadError>)
    requires source.Valid() && |stream| >= HEADER_BYTES && source.Rest() == stream[HEADER_BYTES..]
    modifies source, deadline
    ensures Advanced(source, deadline, r == Failure(Closed))
    ensures FrameRead(r, ParsePayload(stream, DataHeader(length), CONTENT, []),
                      HEADER_BYTES + source.taken - old(source.taken))
    ensures r.Failure? ==> Justified(r.error, source, deadline)
  {
    var offset := new Byte[OFFSET_BYTES];
    var read := ReadExactly(source, offset, deadline);
    if read.Failure? { return Failure(read.error); }
    ghost var mid, until := source.at, deadline.until;
    var bytes := new Byte[length];
    read := ReadExactly(source, bytes, deadline);
    StillRuns(source, deadline, old(source.at), mid, old(deadline.until), until, read == Failure(Closed));
    if read.Failure? { return Failure(read.error); }
    var start := HEADER_BYTES + OFFSET_BYTES;
    SamePiece(stream, HEADER_BYTES, source.stream, old(source.taken), 0, OFFSET_BYTES);
    SamePiece(stream, HEADER_BYTES, source.stream, old(source.taken), OFFSET_BYTES, length);
    assert offset[..] == stream[HEADER_BYTES..start];
    assert bytes[..] == stream[start..start + length];
    return Success(Whole(Data(FromBigEndian(offset[..]), bytes[..])));
  }

  /**
  Reads one inbox. Whatever the schedule, the answer is the meaning of the stream and exactly the
  bytes that meaning used are gone; or the read stopped, justified by the schedule, with no more
  than those bytes gone. `peak` is the largest buffer ever asked for.
  */
  method ReadInbox(source: Source, limit: Limit, deadline: Deadline)
    returns (r: Result<Inbox, ReadError>, peak: nat)
    requires source.Valid()
    modifies source, deadline
    ensures Advanced(source, deadline, r == Failure(Closed))
    ensures peak <= limit.Ceiling()
    ensures InboxRead(r, Parse(old(source.Rest()), limit), source.taken - old(source.taken))
    ensures r.Failure? ==> Justified(r.error, source, deadline)
    ensures limit.message == 0 && !limit.data ==> InTime(source, deadline, 2)
  {
    var collected: seq<Byte> := [];
    peak := HEADER_BYTES;
    while true
      invariant Advanced(source, deadline, false)
      invariant peak <= limit.Ceiling()
      invariant Parse(old(source.Rest()), limit)
             == Later(ParseFrom(source.Rest(), limit, collected), source.taken - old(source.taken))
      invariant limit.message == 0 ==> source.taken == old(source.taken) && InTime(source, deadline, 0)
      decreases |source.stream| - source.taken
    {
      ghost var stream, step := source.Rest(), ParseFrame(source.Rest(), limit, collected);
      ghost var mid, until := source.at, deadline.until;
      var piece, asked := ReadFrame(source, limit, deadline, collected);
      StillRuns(source, deadline, old(source.at), mid, old(deadline.until), until, piece == Failure(Closed));
      peak := Max(peak, asked);
      assert step.Settled? ==> ParseFrom(stream, limit, collected) == step.parsed;
      match piece
      case Failure(error) => return Failure(error), peak;
      case Success(Whole(inbox)) => return Success(inbox), peak;
      case Success(Part(part)) =>
        assert stream[HEADER_BYTES + |part|..] == source.Rest();
        collected := collected + part;
    }
  }
}
