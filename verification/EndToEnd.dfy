/**
A content from the engine in the app to the sink in the extension: an arbitrary engine, a line that
may fail inside any write, a cut anywhere, an arbitrary schedule of reads, a sink that may refuse.
*/
module EndToEnd {
  import opened Wrappers
  import opened Bytes
  import opened Frame
  import opened Reader
  import opened Writer
  import opened Messages
  import opened Server
  import opened Client
  import opened Exchange

  ghost predicate IsProgress(codec: Codec<Notice>, item: Item) {
    item.Message? && codec.decode(item.json).Some? && codec.decode(item.json).value.Progress?
  }

  /** An END or an ERROR. */
  ghost predicate IsFinal(codec: Codec<Notice>, item: Item) {
    && item.Message? && codec.decode(item.json).Some?
    && (codec.decode(item.json).value.End? || codec.decode(item.json).value.Error?)
  }

  /** Data and progress, then at most one END or ERROR. */
  ghost predicate Orderly(codec: Codec<Notice>, items: seq<Item>) {
    && (forall i :: 0 <= i < |items| ==> items[i].Fits())
    && (forall i :: 0 <= i < |items| - 1 ==> items[i].Chunk? || IsProgress(codec, items[i]))
    && (items != [] ==>
          var last := items[|items| - 1];
          last.Chunk? || IsProgress(codec, last) || IsFinal(codec, last))
  }

  /** Data and progress, each fit to be sent. */
  ghost predicate IsBody(codec: Codec<Notice>, items: seq<Item>) {
    forall i :: 0 <= i < |items| ==> items[i].Fits() && (items[i].Chunk? || IsProgress(codec, items[i]))
  }

  /** The chunks stand one behind the other, from `at` on, as far as 64 bits can tell. */
  predicate Consecutive(items: seq<Item>, at: nat) {
    items == [] ||
    match items[0]
    case Message(_) => Consecutive(items[1..], at)
    case Chunk(offset, bytes) => offset % 0x1_0000_0000_0000_0000 == at && Consecutive(items[1..], at + |bytes|)
  }

  /** What a stream that starts with a whole item means, and what one cut inside it means. */
  lemma FirstItem(item: Item, tail: seq<Byte>)
    requires item.Fits()
    ensures Parse(Encode(item) + tail, CONTENT) == Parsed(Success(InboxOf(item)), |Encode(item)|)
    ensures (Encode(item) + tail)[|Encode(item)|..] == tail
  {
    match item
    case Message(json) => WholeMessage(json, tail, CONTENT);
    case Chunk(offset, bytes) => DataRoundTrip(offset, bytes, tail, CONTENT);
  }

  function InboxOf(item: Item): Inbox {
    match item
    case Message(json) => Json(json)
    case Chunk(offset, bytes) => Data(offset % 0x1_0000_0000_0000_0000, bytes)
  }

  lemma CutInsideFirst(item: Item, front: seq<Byte>)
    requires item.Fits() && front < Encode(item)
    ensures Parse(front, CONTENT).outcome == Failure(Ended)
  {
    var encoded := Encode(item);
    FirstItem(item, []);
    assert encoded + [] == encoded;
    ParseOfACut(encoded, |front|, CONTENT, []);
    assert encoded[..|front|] == front;
  }

  lemma WireOfFirst(items: seq<Item>)
    requires items != []
    ensures Wire(items) == Encode(items[0]) + Wire(items[1..])
  {
    WireOfBoth([items[0]], items[1..]);
    WireOfOne(items[0]);
    assert items == [items[0]] + items[1..];
  }

  /** Where the client stands after the first item, when all of it arrived. */
  lemma AfterFirst(codec: Codec<Notice>, item: Item, tail: seq<Byte>, got: seq<Byte>)
    requires item.Fits()
    ensures var taken := Take(codec, InboxOf(item), got);
      Fetch(codec, Encode(item) + tail, got)
      == if taken.Success? then Fetch(codec, tail, taken.value) else Fetched(got, taken.error)
  {
    FirstItem(item, tail);
    FetchStep(codec, Encode(item) + tail, got);
  }

  /** Whether the contents are a prefix of what was sent, and a receipt means all of it. */
  ghost predicate Sound(codec: Codec<Notice>, items: seq<Item>, whole: bool, got: seq<Byte>, f: Fetched) {
    && got <= f.contents <= got + DataOf(items)
    && (f.ending.Delivered? ==>
          && whole
          && items != []
          && items[|items| - 1].Message?
          && codec.decode(items[|items| - 1].json) == Some(End(f.ending.receipt))
          && f.contents == got + DataOf(items)
          && f.ending.receipt.size == |f.contents|)
  }

  lemma SoundInsideFirst(codec: Codec<Notice>, items: seq<Item>, front: seq<Byte>, got: seq<Byte>)
    requires items != [] && items[0].Fits() && front < Encode(items[0])
    ensures Sound(codec, items, false, got, Fetch(codec, front, got))
  {
    CutInsideFirst(items[0], front);
    FetchStep(codec, front, got);
  }

  lemma SoundAtTheFirst(codec: Codec<Notice>, items: seq<Item>, whole: bool, got: seq<Byte>)
    requires Orderly(codec, items) && items != []
    requires Take(codec, InboxOf(items[0]), got).Failure?
    requires |items| == 1 ==> whole
    ensures Sound(codec, items, whole, got, Fetched(got, Take(codec, InboxOf(items[0]), got).error))
  {
    if Take(codec, InboxOf(items[0]), got).error.Delivered? {
      assert |items| == 1;
      assert items[1..] == [];
    }
  }

  /** Whatever arrives of the items, the client is sound. */
  lemma {:induction false} FetchIsSound(codec: Codec<Notice>, items: seq<Item>, front: seq<Byte>, got: seq<Byte>)
    requires Orderly(codec, items)
    requires front <= Wire(items)
    ensures Sound(codec, items, front == Wire(items), got, Fetch(codec, front, got))
    decreases |items|, 1
  {
    if items == [] {
      FetchStep(codec, front, got);
    } else {
      var encoded := Encode(items[0]);
      WireOfFirst(items);
      if |front| < |encoded| {
        assert front < encoded && front != Wire(items);
        SoundInsideFirst(codec, items, front, got);
      } else {
        var tail := front[|encoded|..];
        assert front == encoded + tail && tail <= Wire(items[1..]);
        FetchPastWhole(codec, items, tail, got);
      }
    }
  }

  /** The first item has arrived whole, and `tail` behind it. */
  lemma {:induction false} FetchPastWhole(codec: Codec<Notice>, items: seq<Item>, tail: seq<Byte>, got: seq<Byte>)
    requires Orderly(codec, items) && items != [] && tail <= Wire(items[1..])
    ensures Sound(codec, items, tail == Wire(items[1..]), got, Fetch(codec, Encode(items[0]) + tail, got))
    decreases |items|, 0
  {
    AfterFirst(codec, items[0], tail, got);
    var taken := Take(codec, InboxOf(items[0]), got);
    if taken.Success? {
      FetchIsSound(codec, items[1..], tail, taken.value);
      StillSound(codec, items, tail == Wire(items[1..]), got, taken.value, Fetch(codec, tail, taken.value));
    } else {
      assert |items| == 1 ==> items[1..] == [];
      SoundAtTheFirst(codec, items, tail == Wire(items[1..]), got);
    }
  }

  lemma StillSound(codec: Codec<Notice>, items: seq<Item>, whole: bool, got: seq<Byte>, more: seq<Byte>, f: Fetched)
    requires items != []
    requires more == got + (if items[0].Chunk? then items[0].bytes else [])
    requires Sound(codec, items[1..], whole, more, f)
    ensures Sound(codec, items, whole, got, f)
  {
    var own := if items[0].Chunk? then items[0].bytes else [];
    Associates(got, own, DataOf(items[1..]));
  }

  /** A client that has `got` ends with a receipt when all of the items arrive. */
  predicate Delivers(codec: Codec<Notice>, items: seq<Item>, got: seq<Byte>) {
    Fetch(codec, Wire(items), got).ending.Delivered?
  }

  /** The receipt of a message that is an END. */
  function ReceiptOf(codec: Codec<Notice>, item: Item): Option<Receipt> {
    match item
    case Chunk(_, _) => None
    case Message(json) =>
      match codec.decode(json)
      case Some(End(receipt)) => Some(receipt)
      case _ => None
  }

  function Own(item: Item): seq<Byte> {
    if item.Chunk? then item.bytes else []
  }

  lemma TakeOfTheContent(codec: Codec<Notice>, item: Item, got: seq<Byte>)
    requires item.Chunk? || IsProgress(codec, item)
    ensures var taken := Take(codec, InboxOf(item), got);
      && (taken.Success? <==> (item.Chunk? ==> item.offset % 0x1_0000_0000_0000_0000 == |got|))
      && (taken.Success? ==> taken.value == got + Own(item))
      && (taken.Failure? ==> !taken.error.Delivered?)
  {
    assert got + [] == got;
  }

  lemma FetchOfTheLast(codec: Codec<Notice>, last: Item, got: seq<Byte>)
    requires last.Fits()
    ensures Delivers(codec, [last], got) <==>
       ReceiptOf(codec, last).Some? && ReceiptOf(codec, last).value.size == |got|
  {
    var encoded := Encode(last);
    WireOfOne(last);
    assert encoded + [] == encoded;
    AfterFirst(codec, last, [], got);
    var taken := Take(codec, InboxOf(last), got);
    if taken.Success? { FetchStep(codec, [], taken.value); }
  }

  /** The chunks are consecutive from `at` on, and the last message is an END that confirms their total. */
  predicate Confirmed(codec: Codec<Notice>, items: seq<Item>, last: Item, at: nat) {
    && Consecutive(items, at)
    && ReceiptOf(codec, last).Some?
    && ReceiptOf(codec, last).value.size == at + |DataOf(items)|
  }

  lemma ConfirmedBehind(codec: Codec<Notice>, items: seq<Item>, last: Item, at: nat)
    requires items != []
    ensures Confirmed(codec, items, last, at) <==>
      && (items[0].Chunk? ==> items[0].offset % 0x1_0000_0000_0000_0000 == at)
      && Confirmed(codec, items[1..], last, at + |Own(items[0])|)
  {
  }

  lemma FetchPastFirst(codec: Codec<Notice>, item: Item, rest: seq<Item>, got: seq<Byte>)
    requires item.Fits()
    ensures var taken := Take(codec, InboxOf(item), got);
      Fetch(codec, Wire([item] + rest), got)
      == if taken.Success? then Fetch(codec, Wire(rest), taken.value) else Fetched(got, taken.error)
  {
    WireOfFirst([item] + rest);
    assert ([item] + rest)[1..] == rest;
    AfterFirst(codec, item, Wire(rest), got);
  }

  lemma DeliveredBehind(codec: Codec<Notice>, item: Item, rest: seq<Item>, got: seq<Byte>)
    requires item.Fits() && (item.Chunk? || IsProgress(codec, item))
    ensures Delivers(codec, [item] + rest, got) <==>
      && (item.Chunk? ==> item.offset % 0x1_0000_0000_0000_0000 == |got|)
      && Delivers(codec, rest, got + Own(item))
  {
    FetchPastFirst(codec, item, rest, got);
    TakeOfTheContent(codec, item, got);
  }

  lemma WholeStep(codec: Codec<Notice>, item: Item, rest: seq<Item>, last: Item, got: seq<Byte>)
    requires item.Fits() && (item.Chunk? || IsProgress(codec, item))
    requires Delivers(codec, rest + [last], got + Own(item)) <==> Confirmed(codec, rest, last, |got + Own(item)|)
    ensures Delivers(codec, [item] + (rest + [last]), got) <==> Confirmed(codec, [item] + rest, last, |got|)
  {
    DeliveredBehind(codec, item, rest + [last], got);
    ConfirmedBehind(codec, [item] + rest, last, |got|);
    assert ([item] + rest)[1..] == rest;
  }

  /**
  When all of it arrives, the client ends with a receipt exactly when the chunks were consecutive
  from 0 and the last message confirms their total.
  */
  lemma {:induction false} FetchOfTheWhole(codec: Codec<Notice>, items: seq<Item>, last: Item, got: seq<Byte>)
    requires IsBody(codec, items)
    requires last.Fits()
    ensures Delivers(codec, items + [last], got) <==> Confirmed(codec, items, last, |got|)
    decreases |items|
  {
    if items == [] {
      assert items + [last] == [last];
      FetchOfTheLast(codec, last, got);
    } else {
      var item, rest := items[0], items[1..];
      FetchOfTheWhole(codec, rest, last, got + Own(item));
      WholeStep(codec, item, rest, last, got);
      assert items == [item] + rest && items + [last] == [item] + (rest + [last]);
    }
  }

  /** Named assumptions on the encoder: it can be read back, and a progress notice is a short message. */
  ghost predicate Usable(codec: Codec<Notice>) {
    Faithful(codec) && ProgressFits(codec)
  }

  lemma {:induction false} ContentIsBody(codec: Codec<Notice>, calls: seq<SinkCall>)
    requires Usable(codec)
    ensures IsBody(codec, ItemsOf(codec, calls))
  {
    if calls != [] {
      var before, call := calls[..|calls| - 1], calls[|calls| - 1];
      ContentIsBody(codec, before);
      CallIsBody(codec, call);
    }
  }

  lemma CallIsBody(codec: Codec<Notice>, call: SinkCall)
    requires Usable(codec)
    ensures IsBody(codec, ItemsOfCall(codec, call))
  {
    match call
    case Tell(loaded, total) => assert codec.decode(codec.encode(Progress(loaded, total))).Some?;
    case Write(offset, data) =>
      var items := ChunksOf(offset, data);
      forall i | 0 <= i < |items| ensures items[i].Chunk? && items[i].Fits() { assert items[i] in items; }
    case AskCancelled =>
  }

  /** The whole answer, and what its last message can confirm: the engine's own receipt. */
  lemma ContentIsOrderly(codec: Codec<Notice>, calls: seq<SinkCall>, result: Result<Receipt, SourceError>)
    requires Usable(codec)
    ensures var items := ContentItems(codec, calls, result);
      && Orderly(codec, items)
      && DataOf(items) == Written(calls)
      && (items != [] && ReceiptOf(codec, items[|items| - 1]).Some? ==>
            result == Success(ReceiptOf(codec, items[|items| - 1]).value))
  {
    var body, answer := ItemsOf(codec, calls), SentFor(codec, FinalNotice(result));
    ContentIsBody(codec, calls);
    ItemsCarryWhatWasWritten(codec, calls);
    DataOfBoth(body, answer);
    assert DataOf(answer) == [];
    assert codec.decode(codec.encode(FinalNotice(result))) == Some(FinalNotice(result));
    var size := |codec.encode(FinalNotice(result))|;
    assert codec.decode(codec.encode(Error(AnswerTooLarge(size)))) == Some(Error(AnswerTooLarge(size)));
  }

  // ---- And when nothing goes wrong -------------------------------------------------------------

  /** Every write of the engine starts where the one before ended; where an empty one starts is not seen. */
  ghost predicate Gapless(calls: seq<SinkCall>) {
    forall i :: 0 <= i < |calls| && calls[i].Write? && calls[i].data != [] ==>
      calls[i].offset == |Written(calls[..i])|
  }

  lemma {:induction false} ConsecutiveBoth(a: seq<Item>, b: seq<Item>, at: nat)
    ensures Consecutive(a + b, at) <==> Consecutive(a, at) && Consecutive(b, at + |DataOf(a)|)
    decreases |a|
  {
    if a == [] {
      assert a + b == b;
    } else {
      ConsecutiveBoth(a[1..], b, at + |Own(a[0])|);
      assert (a + b)[1..] == a[1..] + b;
    }
  }

  lemma {:induction false} ChunksAreConsecutive(offset: nat, data: seq<Byte>, at: nat)
    requires at + |data| < 0x1_0000_0000_0000_0000 && offset < 0x1_0000_0000_0000_0000
    ensures Consecutive(ChunksOf(offset, data), at) <==> data == [] || offset == at
    decreases |data|
  {
    if data != [] && offset == at {
      if |data| > MAX_DATA_CHUNK {
        ChunksAreConsecutive(offset + MAX_DATA_CHUNK, data[MAX_DATA_CHUNK..], at + MAX_DATA_CHUNK);
      }
    }
  }

  /** Files and offsets of 64 bits: the chunks are consecutive exactly when the writes were. */
  lemma {:induction false} GaplessIsConsecutive(codec: Codec<Notice>, calls: seq<SinkCall>)
    requires |Written(calls)| < 0x1_0000_0000_0000_0000
    requires forall i :: 0 <= i < |calls| && calls[i].Write? ==> calls[i].offset < 0x1_0000_0000_0000_0000
    ensures Consecutive(ItemsOf(codec, calls), 0) <==> Gapless(calls)
  {
    if calls != [] {
      var before, call := calls[..|calls| - 1], calls[|calls| - 1];
      GaplessIsConsecutive(codec, before);
      ItemsCarryWhatWasWritten(codec, before);
      ConsecutiveBoth(ItemsOf(codec, before), ItemsOfCall(codec, call), 0);
      if call.Write? { ChunksAreConsecutive(call.offset, call.data, |Written(before)|); }
      GaplessBoth(calls);
    }
  }

  lemma GaplessBoth(calls: seq<SinkCall>)
    requires calls != []
    ensures var before, call := calls[..|calls| - 1], calls[|calls| - 1];
      Gapless(calls) <==>
      Gapless(before) && (call.Write? && call.data != [] ==> call.offset == |Written(before)|)
  {
    var before := calls[..|calls| - 1];
    forall i | 0 <= i < |before| ensures before[..i] == calls[..i] {}
  }

  /**
  When the whole answer arrives, the client ends with a receipt exactly when the engine wrote
  ascending and without gaps and its receipt names the total.
  */
  lemma WholeAnswerIsDelivered(codec: Codec<Notice>, calls: seq<SinkCall>, result: Result<Receipt, SourceError>)
    requires Usable(codec)
    requires |codec.encode(FinalNotice(result))| <= MAX_MESSAGE
    requires |Written(calls)| < 0x1_0000_0000_0000_0000
    requires forall i :: 0 <= i < |calls| && calls[i].Write? ==> calls[i].offset < 0x1_0000_0000_0000_0000
    ensures Delivers(codec, ContentItems(codec, calls, result), []) <==>
      Gapless(calls) && result.Success? && result.value.size == |Written(calls)|
  {
    var body, last := ItemsOf(codec, calls), Message(codec.encode(FinalNotice(result)));
    ContentIsBody(codec, calls);
    FetchOfTheWhole(codec, body, last, []);
    GaplessIsConsecutive(codec, calls);
    ItemsCarryWhatWasWritten(codec, calls);
    assert codec.decode(codec.encode(FinalNotice(result))) == Some(FinalNotice(result));
  }

  // ---- Both ends together ----------------------------------------------------------------------

  /** What lies between an engine and a sink: the app's looks, the line, where it is cut, and how the client reads. */
  datatype Between = Between(
    looks: nat -> Look, takes: nat -> nat, cut: nat, schedule: seq<Call>, start: nat,
    accepts: nat -> bool, cancels: nat -> bool)
  {
    /** Nobody halts or hangs up, the line takes whole frames and is not cut, all comes in time, the sink takes it. */
    ghost predicate Undisturbed(bytes: nat) {
      && (forall n :: !CalledOff(looks(n)))
      && (forall n :: takes(n) >= LARGEST_FRAME)
      && bytes <= cut
      && IsEnough(schedule, bytes, READ_DEADLINE, true)
      && (forall n :: accepts(n)) && (forall n :: !cancels(n))
    }
  }

  /** Contents, offsets and a last message of sizes that the protocol can carry. */
  ghost predicate InRange(codec: Codec<Notice>, calls: seq<SinkCall>, result: Result<Receipt, SourceError>) {
    && |codec.encode(FinalNotice(result))| <= MAX_MESSAGE
    && |Written(calls)| < 0x1_0000_0000_0000_0000
    && forall i :: 0 <= i < |calls| && calls[i].Write? ==> calls[i].offset < 0x1_0000_0000_0000_0000
  }

  /**
  One content, end to end. Whatever the engine does, wherever the line breaks or is cut, however
  the bytes arrive and whatever the sink says: the sink holds a prefix of what the engine wrote,
  and a receipt means that it holds all of it and that the receipt is the engine's. Where nothing
  disturbs it, the transfer ends with a receipt exactly when the engine wrote ascending and without
  gaps and its receipt names the total.
  */
  method Transfer(codec: Codec<Notice>, calls: seq<SinkCall>, result: Result<Receipt, SourceError>, between: Between)
    returns (contents: seq<Byte>, r: Result<Ending, Abort>)
    requires Usable(codec) && HaltIsForGood(between.looks)
    ensures contents <= Written(calls)
    ensures r.Success? && r.value.Delivered? ==>
      && contents == Written(calls)
      && result == Success(r.value.receipt)
      && r.value.receipt.size == |contents|
    ensures between.Undisturbed(|Wire(ContentItems(codec, calls, result))|) && InRange(codec, calls, result) ==>
      (r.Success? && r.value.Delivered? <==>
       Gapless(calls) && result.Success? && result.value.size == |Written(calls)|)
  {
    ghost var items := ContentItems(codec, calls, result);
    var line := new Line(between.takes);
    var done := DeliverContent(line, codec, between.looks, calls, result);
    var stream := line.sent[..Min(between.cut, |line.sent|)];
    assert [] + Wire(items) == Wire(items);
    ContentIsOrderly(codec, calls, result);
    FetchIsSound(codec, items, stream, []);
    assert between.Undisturbed(|Wire(items)|) && InRange(codec, calls, result) ==> done && stream == Wire(items);
    contents, r := Collect(codec, stream, between);
    assert [] + Written(calls) == Written(calls);
    if between.Undisturbed(|Wire(items)|) && InRange(codec, calls, result) {
      WholeAnswerIsDelivered(codec, calls, result);
    }
  }

  /** The client's half, over whatever stream reaches it. */
  method Collect(codec: Codec<Notice>, stream: seq<Byte>, between: Between)
    returns (contents: seq<Byte>, r: Result<Ending, Abort>)
    ensures var f := Fetch(codec, stream, []);
      && contents <= f.contents
      && (r.Success? ==> f == Fetched(contents, r.value))
      && (between.Undisturbed(|stream|) && f.ending != TornOff ==> r.Success?)
  {
    var source := new Source(stream, between.schedule, between.start);
    var sink := new ClientSink(between.accepts, between.cancels);
    assert source.Rest() == stream;
    r := FetchContent(codec, source, sink);
    contents := sink.contents;
    if r.Failure? && between.Undisturbed(|stream|) && Fetch(codec, stream, []).ending != TornOff {
      NotBrokenOff(source, sink, r.error, between);
    }
  }

  /** Where nothing disturbs it, a transfer is not broken off short of the stream's end. */
  lemma NotBrokenOff(source: Source, sink: ClientSink, abort: Abort, between: Between)
    requires source.Valid() && source.calls == between.schedule && source.start == between.start
    requires sink.accepts == between.accepts && sink.cancels == between.cancels
    requires between.Undisturbed(|source.stream|)
    requires abort.ByLine? ==> Readies(source.calls, source.at) <= source.taken < |source.stream|
    ensures !BrokenOffFor(abort, source, sink, 0, source.start)
  {
    if abort.ByLine? && abort.error.Stops() {
      var until := Silenced(source.calls, source.start, 0, source.at, READ_DEADLINE, source.start + READ_DEADLINE);
      NothingStops(source, until, |source.stream|, READ_DEADLINE, true);
    }
  }
}
