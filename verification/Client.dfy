/** The extension's side of a content answer: frames come in, one gapless file goes to the sink. */
module Client {
  import opened Wrappers
  import opened Bytes
  import opened Frame
  import opened Reader
  import opened Messages

  /** Milliseconds without a byte after which the app counts as gone. */
  const READ_DEADLINE: nat := 90_000

  /** How a content answer ends, as far as the stream decides it. */
  datatype Ending =
    | Delivered(receipt: Receipt)
    | Incomplete(expected: nat, actual: nat)
    | Refused(error: SourceError)
    | TornOff
    | Broke(breach: Breach)
    | OutOfOrder(offset: nat)
    | Unreadable
    | Unexpected(notice: Notice)

  datatype Fetched = Fetched(contents: seq<Byte>, ending: Ending)

  /** What one inbox makes of the bytes `got` so far: it ends the matter, or there is more to come. */
  function Take(codec: Codec<Notice>, inbox: Inbox, got: seq<Byte>): Result<seq<Byte>, Ending> {
    match inbox
    case Data(offset, bytes) => if offset == |got| then Success(got + bytes) else Failure(OutOfOrder(offset))
    case Json(json) =>
      match codec.decode(json)
      case None => Failure(Unreadable)
      case Some(Progress(_, _)) => Success(got)
      case Some(End(receipt)) =>
        Failure(if receipt.size == |got| then Delivered(receipt) else Incomplete(receipt.size, |got|))
      case Some(Error(error)) => Failure(Refused(error))
      case Some(notice) => Failure(Unexpected(notice))
  }

  /** The meaning of a stream for a client that has `got` so far. */
  function Fetch(codec: Codec<Notice>, stream: seq<Byte>, got: seq<Byte>): Fetched
    decreases |stream|
  {
    var p := Parse(stream, CONTENT);
    match p.outcome
    case Failure(Ended) => Fetched(got, TornOff)
    case Failure(Breached(breach)) => Fetched(got, Broke(breach))
    case Success(inbox) =>
      match Take(codec, inbox, got)
      case Failure(ending) => Fetched(got, ending)
      case Success(more) => Fetch(codec, stream[p.used..], more)
  }

  /** Nothing that has been handed over is ever taken back. */
  lemma {:induction false} FetchOnlyAppends(codec: Codec<Notice>, stream: seq<Byte>, got: seq<Byte>)
    ensures got <= Fetch(codec, stream, got).contents
    decreases |stream|
  {
    var p := Parse(stream, CONTENT);
    if p.outcome.Success? {
      var taken := Take(codec, p.outcome.value, got);
      if taken.Success? { FetchOnlyAppends(codec, stream[p.used..], taken.value); }
    }
  }

  /** The caller's sink: it may refuse any write and ask to cancel at any moment. */
  class ClientSink {
    const accepts: nat -> bool
    const cancels: nat -> bool
    var asked: nat
    var writes: nat
    var contents: seq<Byte>

    constructor (accepts: nat -> bool, cancels: nat -> bool)
      ensures this.accepts == accepts && this.cancels == cancels && contents == [] && writes == 0 && asked == 0
    {
      this.accepts, this.cancels, asked, writes, contents := accepts, cancels, 0, 0, [];
    }

    method Cancelled() returns (cancelled: bool)
      modifies this
      ensures contents == old(contents) && writes == old(writes)
      ensures cancelled == cancels(old(asked)) && asked == old(asked) + 1
    {
      cancelled, asked := cancels(asked), asked + 1;
    }

    method Write(offset: nat, bytes: seq<Byte>) returns (ok: bool)
      requires offset == |contents|
      modifies this
      ensures contents == if ok then old(contents) + bytes else old(contents)
      ensures ok == accepts(old(writes)) && writes == old(writes) + 1 && asked == old(asked)
    {
      ok, writes := accepts(writes), writes + 1;
      if ok { contents := contents + bytes; }
    }
  }

  /** Why a transfer ended without the stream deciding it. */
  datatype Abort = ByCaller | BySink | ByLine(error: ReadError)

  /** What the transfer does with one inbox. */
  datatype Next = Continue(actual: nat) | Finish(ending: Ending) | SinkFull

  method TakeIn(codec: Codec<Notice>, inbox: Inbox, sink: ClientSink, actual: nat) returns (next: Next)
    requires actual == |sink.contents|
    modifies sink
    ensures match next
      case Continue(more) => Take(codec, inbox, old(sink.contents)) == Success(sink.contents) && more == |sink.contents|
      case Finish(ending) =>
        Take(codec, inbox, old(sink.contents)) == Failure(ending) && sink.contents == old(sink.contents)
      case SinkFull => sink.contents == old(sink.contents) && sink.writes > 0 && !sink.accepts(sink.writes - 1)
    ensures sink.asked == old(sink.asked)
  {
    match inbox
    case Data(offset, bytes) =>
      if offset != actual { return Finish(OutOfOrder(offset)); }
      assert bytes == [] ==> sink.contents + bytes == sink.contents;
      if bytes != [] {
        var ok := sink.Write(offset, bytes);
        if !ok { return SinkFull; }
      }
      next := Continue(actual + |bytes|);
    case Json(json) =>
      match codec.decode(json)
      case None => next := Finish(Unreadable);
      case Some(Progress(_, _)) => next := Continue(actual);
      case Some(End(receipt)) =>
        next := Finish(if receipt.size == actual then Delivered(receipt) else Incomplete(receipt.size, actual));
      case Some(Error(error)) => next := Finish(Refused(error));
      case Some(notice) => next := Finish(Unexpected(notice));
  }

  /** What must have happened for a transfer to be broken off; `from` is the call it began with. */
  ghost predicate BrokenOffFor(abort: Abort, source: Source, sink: ClientSink, from: nat, began: nat)
    requires source.Valid()
    reads source, sink
  {
    match abort
    case ByCaller => sink.asked > 0 && sink.cancels(sink.asked - 1)
    case BySink => sink.writes > 0 && !sink.accepts(sink.writes - 1)
    case ByLine(error) =>
      && error.Stops()
      && Cause(error, source,
               Silenced(source.calls, source.start, from, source.at, READ_DEADLINE, began + READ_DEADLINE))
  }

  /** A read that stopped has not read all of the stream, unless the stream ends too early. */
  ghost predicate StoppedShort(source: Source, fetched: Fetched)
    reads source
  {
    source.taken < |source.stream| || fetched.ending == TornOff
  }

  /**
  The transfer after the handshake. It ends as the stream says, with exactly the contents the
  stream carries; or it is broken off, for a reason, and the sink holds a prefix of them.
  */
  method FetchContent(codec: Codec<Notice>, source: Source, sink: ClientSink)
    returns (r: Result<Ending, Abort>)
    requires source.Valid() && sink.contents == []
    modifies source, sink
    ensures source.Valid()
    ensures var f := Fetch(codec, old(source.Rest()), []);
      && sink.contents <= f.contents
      && (r.Success? ==> f == Fetched(sink.contents, r.value))
      && (r.Failure? && r.error.ByLine? ==> StoppedShort(source, f))
    ensures r.Failure? ==> BrokenOffFor(r.error, source, sink, old(source.at), old(source.Now()))
    ensures r.Failure? && r.error.ByLine? ==> Moved(source, false)
  {
    var deadline := new Deadline.Silence(READ_DEADLINE, source.Now());
    ghost var from, until := source.at, deadline.until;
    var actual := 0;
    while true
      invariant Moved(source, false) && deadline.extending && deadline.duration == READ_DEADLINE
      invariant RunsUntil(source, deadline, from, until, false)
      invariant actual == |sink.contents|
      invariant Fetch(codec, old(source.Rest()), []) == Fetch(codec, source.Rest(), sink.contents)
      decreases |source.stream| - source.taken
    {
      ghost var stream, got, mid, before := source.Rest(), sink.contents, source.at, deadline.until;
      FetchOnlyAppends(codec, stream, got);
      FetchStep(codec, stream, got);
      var cancelled := sink.Cancelled();
      if cancelled { return Failure(ByCaller); }
      var inbox, _ := ReadInbox(source, CONTENT, deadline);
      StillRuns(source, deadline, from, mid, until, before, inbox == Failure(Closed));
      if inbox.Failure? {
        return match inbox.error
               case Closed => Success(TornOff)
               case Log(breach) => Success(Broke(breach))
               case error => Failure(ByLine(error));
      }
      assert stream[Parse(stream, CONTENT).used..] == source.Rest();
      var next := TakeIn(codec, inbox.value, sink, actual);
      match next
      case Continue(more) => actual := more;
      case Finish(ending) => return Success(ending);
      case SinkFull => return Failure(BySink);
    }
  }

  lemma FetchStep(codec: Codec<Notice>, stream: seq<Byte>, got: seq<Byte>)
    ensures var p := Parse(stream, CONTENT);
      p.outcome.Success? ==>
        var taken := Take(codec, p.outcome.value, got);
        Fetch(codec, stream, got) == if taken.Success? then Fetch(codec, stream[p.used..], taken.value)
                                     else Fetched(got, taken.error)
    ensures var p := Parse(stream, CONTENT);
      && (p.outcome == Failure(Ended) ==> Fetch(codec, stream, got) == Fetched(got, TornOff))
      && (p.outcome.Failure? && p.outcome.error.Breached? ==>
            Fetch(codec, stream, got) == Fetched(got, Broke(p.outcome.error.breach)))
  {
  }
}
