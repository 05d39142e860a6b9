/** The app's side of one connection: the sink the engine writes into, and the answers. */
module Server {
  import opened Wrappers
  import opened Bytes
  import opened Frame
  import opened Writer
  import opened Messages

  const CHECK_INTERVAL: nat := 25

  /** What the sink finds when it looks: is the app shutting down, what time is it, has the peer closed. */
  datatype Look = Look(halted: bool, now: nat, peerClosed: bool)

  ghost predicate HaltIsForGood(looks: nat -> Look) {
    forall i: nat, j: nat :: i <= j && looks(i).halted ==> looks(j).halted
  }

  predicate CalledOff(look: Look) {
    look.halted || look.peerClosed
  }

  /** The line has failed, in a write in which it would not take a whole frame. */
  predicate LineBroke(line: Line)
    reads line
  {
    line.failed && line.writes > 0 && line.takes(line.writes - 1) < LARGEST_FRAME
  }

  class RemoteSink {
    const line: Line
    const codec: Codec<Notice>
    const looks: nat -> Look
    var looked: nat
    var torn: bool
    var lastCheck: Option<nat>
    ghost var stopped: bool

    constructor (line: Line, codec: Codec<Notice>, looks: nat -> Look)
      requires !line.failed && HaltIsForGood(looks)
      ensures this.line == line && this.codec == codec && this.looks == looks
      ensures looked == 0 && !torn && !stopped && Valid()
    {
      this.line, this.codec, this.looks := line, codec, looks;
      looked, torn, lastCheck, stopped := 0, false, None, false;
    }

    /** Once stopped, for good: torn, or the app is going. A line that failed has stopped the sink. */
    ghost predicate Valid()
      reads this, line
    {
      && HaltIsForGood(looks)
      && (line.failed || torn ==> stopped)
      && (stopped ==> torn || looks(looked).halted)
      && (stopped ==> Excused())
    }

    /** There is a reason: the line broke, a look found app or peer gone, or a progress notice is too long. */
    ghost predicate Excused()
      reads this, line
    {
      || LineBroke(line)
      || (exists n :: 0 <= n < looked && CalledOff(looks(n)))
      || !ProgressFits(codec)
    }

    /** The peer is asked for again: not yet, or not for a while. */
    predicate IsDue(now: nat)
      reads this
    {
      lastCheck.None? || now - lastCheck.value >= CHECK_INTERVAL
    }

    /** This sink put `items` on the line, or stopped inside them; stopped before, it kept silent. */
    twostate predicate Put(items: seq<Item>)
      reads this, line
    {
      && Valid()
      && (line.late == old(line.late))
      && (old(stopped) ==> stopped && line.sent == old(line.sent))
      && (!stopped ==> line.sent == old(line.sent) + Wire(items))
      && old(line.sent) <= line.sent <= old(line.sent) + Wire(items)
    }

    method Cancelled() returns (cancelled: bool)
      requires Valid()
      modifies this
      ensures Put([])
      ensures cancelled <==> stopped
      ensures looks(old(looked)).halted ==> cancelled
      ensures looks(old(looked)).peerClosed && old(IsDue(looks(looked).now)) ==> cancelled
      ensures looked == old(looked) + 1
    {
      var look := looks(looked);
      var settled := torn || look.halted;
      stopped := stopped || settled;
      if !settled {
        if IsDue(look.now) {
          lastCheck := Some(look.now);
          torn := look.peerClosed;
          stopped := stopped || torn;
        }
      }
      looked := looked + 1;
      assert !old(stopped) && stopped ==> CalledOff(looks(looked - 1));
      assert line.sent + Wire([]) == line.sent;
      return settled || torn;
    }

    method Tell(loaded: nat, total: nat)
      requires Valid()
      modifies this, line
      ensures Put([Message(codec.encode(Progress(loaded, total)))])
    {
      ghost var items := [Message(codec.encode(Progress(loaded, total)))];
      WireOfOne(items[0]);
      var cancelled := Cancelled();
      if cancelled { return; }
      var written := WriteJson(line, codec.encode(Progress(loaded, total)));
      if written.Failure? { torn, stopped := true, true; }
    }

    method Write(offset: nat, data: seq<Byte>) returns (ok: bool)
      requires Valid()
      modifies this, line
      ensures Put(ChunksOf(offset, data))
      ensures ok <==> !stopped
    {
      ghost var items := ChunksOf(offset, data);
      var cancelled := Cancelled();
      if cancelled { return false; }
      var place: nat, rest := offset, data;
      ghost var before, done: seq<Item> := line.sent, [];
      assert done + items == items && before + Wire(done) == before;
      while rest != []
        invariant Valid() && !stopped && line.late == old(line.late)
        invariant items == done + ChunksOf(place, rest)
        invariant line.sent == before + Wire(done)
        decreases |rest|
      {
        var size: nat := Min(MAX_DATA_CHUNK, |rest|);
        ghost var chunk, after := Chunk(place, rest[..size]), ChunksOf(place + size, rest[size..]);
        FirstChunk(place, rest, size);
        assert done + ([chunk] + after) == done + [chunk] + after;
        ok := WriteChunk(place, rest[..size], before, done, after);
        if !ok { return; }
        place, rest, done := place + size, rest[size..], done + [chunk];
      }
      assert done + [] == done;
      return true;
    }

    /** One chunk of a write of which `done` is on the line and `after` is still to come. */
    method WriteChunk(place: nat, bytes: seq<Byte>, ghost before: seq<Byte>, ghost done: seq<Item>,
                      ghost after: seq<Item>)
      returns (ok: bool)
      requires Valid() && !stopped && |bytes| <= MAX_DATA_CHUNK && line.sent == before + Wire(done)
      modifies this, line
      ensures Valid() && line.late == old(line.late) && (ok <==> !stopped)
      ensures ok ==> line.sent == before + Wire(done + [Chunk(place, bytes)])
      ensures !ok ==> old(line.sent) <= line.sent <= before + Wire(done + ([Chunk(place, bytes)] + after))
    {
      OneItemFurther(before, done, Chunk(place, bytes), after);
      var written := WriteData(line, place, bytes);
      ok := written.Success?;
      if !ok { torn, stopped := true, true; }
    }
  }

  lemma FirstChunk(place: nat, rest: seq<Byte>, size: nat)
    requires rest != [] && size == Min(MAX_DATA_CHUNK, |rest|)
    ensures ChunksOf(place, rest) == [Chunk(place, rest[..size])] + ChunksOf(place + size, rest[size..])
  {
    assert size == |rest| ==> rest[..size] == rest && rest[size..] == [];
  }

  lemma OneItemFurther(before: seq<Byte>, done: seq<Item>, item: Item, after: seq<Item>)
    ensures before + Wire(done) + Encode(item) == before + Wire(done + [item])
    ensures before + Wire(done + [item]) <= before + Wire(done + ([item] + after))
    ensures done + ([item] + after) == done + [item] + after
  {
    WireOfOne(item);
    WireOfBoth(done, [item]);
    WireOfBoth(done + [item], after);
    assert done + ([item] + after) == done + [item] + after;
    Associates(before, Wire(done), Encode(item));
    Associates(before, Wire(done + [item]), Wire(after));
  }

  /** These items are on the line, or a prefix of them and the answer is not done. */
  twostate predicate Answered(line: Line, items: seq<Item>, done: bool)
    reads line
  {
    && (done ==> line.sent == old(line.sent) + Wire(items) && line.failed == old(line.failed))
    && old(line.sent) <= line.sent <= old(line.sent) + Wire(items)
    && (!old(line.failed) ==> line.late == old(line.late))
  }

  method Send(line: Line, codec: Codec<Notice>, notice: Notice) returns (ok: bool)
    modifies line
    ensures Answered(line, SentFor(codec, notice), ok)
    ensures !ok ==> LineBroke(line) || !Sendable(codec, notice)
  {
    var json := codec.encode(notice);
    assert line.sent + Wire([]) == line.sent;
    WireOfOne(Message(json));
    var written := WriteJson(line, json);
    if written.Success? { return true; }
    if written.error.TooLarge? {
      var error := codec.encode(Error(AnswerTooLarge(|json|)));
      WireOfOne(Message(error));
      written := WriteJson(line, error);
      return written.Success?;
    }
    return false;
  }

  /**
  Lets the engine run: an arbitrary engine, which makes `calls` on its sink, whatever the sink
  says, and ends with `result`.
  */
  method DeliverContent(line: Line, codec: Codec<Notice>, looks: nat -> Look,
                        calls: seq<SinkCall>, result: Result<Receipt, SourceError>)
    returns (ok: bool)
    requires !line.failed && HaltIsForGood(looks)
    modifies line
    ensures Answered(line, ContentItems(codec, calls, result), ok)
    ensures !ok ==> LineBroke(line) || (exists n :: CalledOff(looks(n))) || !ProgressFits(codec)
                    || !Sendable(codec, FinalNotice(result))
  {
    var sink := new RemoteSink(line, codec, looks);
    assert calls[..0] == [];
    assert line.sent + Wire([]) == line.sent;
    for i := 0 to |calls|
      invariant sink.Valid() && line.late == old(line.late)
      invariant !sink.stopped ==> line.sent == old(line.sent) + Wire(ItemsOf(codec, calls[..i]))
      invariant old(line.sent) <= line.sent <= old(line.sent) + Wire(ItemsOf(codec, calls[..i]))
    {
      OneCallFurther(codec, calls, i, old(line.sent));
      match calls[i]
      case Tell(loaded, total) => sink.Tell(loaded, total);
      case Write(offset, data) => var _ := sink.Write(offset, data);
      case AskCancelled => var _ := sink.Cancelled();
    }
    assert calls[..|calls|] == calls;
    var answer := SentFor(codec, FinalNotice(result));
    WireOfBoth(ItemsOf(codec, calls), answer);
    Associates(old(line.sent), Wire(ItemsOf(codec, calls)), Wire(answer));
    if sink.torn || looks(sink.looked).halted { return false; }
    ok := Send(line, codec, FinalNotice(result));
  }

  lemma OneCallFurther(codec: Codec<Notice>, calls: seq<SinkCall>, i: nat, before: seq<Byte>)
    requires i < |calls|
    ensures before + Wire(ItemsOf(codec, calls[..i])) + Wire(ItemsOfCall(codec, calls[i]))
         == before + Wire(ItemsOf(codec, calls[..i + 1]))
  {
    var done, next := ItemsOf(codec, calls[..i]), ItemsOfCall(codec, calls[i]);
    assert calls[..i + 1][..i] == calls[..i];
    WireOfBoth(done, next);
    Associates(before, Wire(done), Wire(next));
  }
}
