/** The messages of the bridge and the frames a content answer is made of. */
module Messages {
  import opened Wrappers
  import opened Bytes
  import opened Frame

  /** What the engine confirms: the size, and whatever else the receipt carries. */
  datatype Receipt = Receipt(size: nat, mark: seq<Byte>)

  /** Why the engine did not deliver; `AnswerTooLarge` is the one the bridge adds itself. */
  datatype SourceError = Reported(code: nat) | AnswerTooLarge(bytes: nat) | NotUnderstood

  datatype Handshake = Hello(version: nat, secret: seq<bv8>)

  datatype Request = Listing(question: nat) | Content(identifier: nat)

  datatype Notice =
    | Welcome(version: nat)
    | Answer(body: seq<Byte>)
    | Progress(loaded: nat, total: nat)
    | End(receipt: Receipt)
    | Error(error: SourceError)

  /** Messages as JSON and back; the encoder itself is not part of this model. */
  datatype Codec<!M> = Codec(encode: M -> seq<Byte>, decode: seq<Byte> -> Option<M>)

  ghost predicate Faithful<M(!new)>(codec: Codec<M>) {
    forall m :: codec.decode(codec.encode(m)) == Some(m)
  }

  /** Every progress notice is short enough to be a message. */
  ghost predicate ProgressFits(codec: Codec<Notice>) {
    forall loaded: nat, total: nat :: |codec.encode(Progress(loaded, total))| <= MAX_MESSAGE
  }

  /** The notice, or the one that says it was too large, is short enough to be a message. */
  predicate Sendable(codec: Codec<Notice>, notice: Notice) {
    var json := codec.encode(notice);
    |json| <= MAX_MESSAGE || |codec.encode(Error(AnswerTooLarge(|json|)))| <= MAX_MESSAGE
  }

  /** One thing on the line: a message, or a data chunk. */
  datatype Item = Message(json: seq<Byte>) | Chunk(offset: nat, bytes: seq<Byte>) {
    predicate Fits() {
      match this
      case Message(json) => |json| <= MAX_MESSAGE
      case Chunk(_, bytes) => |bytes| <= MAX_DATA_CHUNK
    }
  }

  function Encode(item: Item): (s: seq<Byte>)
    ensures |s| >= HEADER_BYTES
  {
    match item
    case Message(json) => EncodeJson(json)
    case Chunk(offset, bytes) => EncodeData(offset, bytes)
  }

  function Frames(items: seq<Item>): seq<seq<Byte>> {
    seq(|items|, i requires 0 <= i < |items| => Encode(items[i]))
  }

  function Wire(items: seq<Item>): seq<Byte> {
    Joined(Frames(items))
  }

  /** The bytes the chunks among the items carry, in their order. */
  function DataOf(items: seq<Item>): seq<Byte> {
    if items == [] then []
    else (if items[0].Chunk? then items[0].bytes else []) + DataOf(items[1..])
  }

  lemma WireOfBoth(a: seq<Item>, b: seq<Item>)
    ensures Wire(a + b) == Wire(a) + Wire(b)
  {
    assert Frames(a + b) == Frames(a) + Frames(b);
    JoinedOfBoth(Frames(a), Frames(b));
  }

  lemma WireOfOne(item: Item)
    ensures Wire([item]) == Encode(item)
  {
    assert Frames([item]) == [Encode(item)];
    JoinedBehind([], Encode(item));
    assert [] + [Encode(item)] == [Encode(item)] && [] + Encode(item) == Encode(item);
  }

  lemma {:induction false} DataOfBoth(a: seq<Item>, b: seq<Item>)
    ensures DataOf(a + b) == DataOf(a) + DataOf(b)
  {
    if a == [] {
      assert a + b == b;
    } else {
      DataOfBoth(a[1..], b);
      assert (a + b)[1..] == a[1..] + b;
      Associates(if a[0].Chunk? then a[0].bytes else [], DataOf(a[1..]), DataOf(b));
    }
  }

  lemma Associates(a: seq<Byte>, b: seq<Byte>, c: seq<Byte>)
    ensures a + b + c == a + (b + c)
  {
  }

  /** `data` cut into chunks of exactly `MAX_DATA_CHUNK` bytes and a rest; nothing for no bytes. */
  function ChunksOf(offset: nat, data: seq<Byte>): (items: seq<Item>)
    ensures forall item :: item in items ==> item.Chunk? && item.Fits()
    decreases |data|
  {
    if data == [] then []
    else if |data| <= MAX_DATA_CHUNK then [Chunk(offset, data)]
    else [Chunk(offset, data[..MAX_DATA_CHUNK])] + ChunksOf(offset + MAX_DATA_CHUNK, data[MAX_DATA_CHUNK..])
  }

  lemma {:induction false} ChunksCarryTheData(offset: nat, data: seq<Byte>)
    ensures DataOf(ChunksOf(offset, data)) == data
    decreases |data|
  {
    if |data| > MAX_DATA_CHUNK {
      var first, after := data[..MAX_DATA_CHUNK], data[MAX_DATA_CHUNK..];
      var items := ChunksOf(offset + MAX_DATA_CHUNK, after);
      ChunksCarryTheData(offset + MAX_DATA_CHUNK, after);
      assert ([Chunk(offset, first)] + items)[1..] == items;
      assert first + after == data;
    } else if data != [] {
      assert [Chunk(offset, data)][1..] == [];
    }
  }

  /** What the engine does with its sink. */
  datatype SinkCall =
    | Tell(loaded: nat, total: nat)
    | Write(offset: nat, data: seq<Byte>)
    | AskCancelled

  function ItemsOfCall(codec: Codec<Notice>, call: SinkCall): seq<Item> {
    match call
    case Tell(loaded, total) => [Message(codec.encode(Progress(loaded, total)))]
    case Write(offset, data) => ChunksOf(offset, data)
    case AskCancelled => []
  }

  /** Everything a line that never fails would carry for these calls. */
  function ItemsOf(codec: Codec<Notice>, calls: seq<SinkCall>): seq<Item> {
    if calls == [] then [] else ItemsOf(codec, calls[..|calls| - 1]) + ItemsOfCall(codec, calls[|calls| - 1])
  }

  /** What the engine wrote, as one file. */
  function Written(calls: seq<SinkCall>): seq<Byte> {
    if calls == [] then []
    else Written(calls[..|calls| - 1]) + (if calls[|calls| - 1].Write? then calls[|calls| - 1].data else [])
  }

  lemma {:induction false} ItemsCarryWhatWasWritten(codec: Codec<Notice>, calls: seq<SinkCall>)
    ensures DataOf(ItemsOf(codec, calls)) == Written(calls)
  {
    if calls != [] {
      var before, call := calls[..|calls| - 1], calls[|calls| - 1];
      ItemsCarryWhatWasWritten(codec, before);
      DataOfBoth(ItemsOf(codec, before), ItemsOfCall(codec, call));
      if call.Write? { ChunksCarryTheData(call.offset, call.data); }
    }
  }

  /** What `send` puts on the line: the notice, or the error about its size. */
  function SentFor(codec: Codec<Notice>, notice: Notice): seq<Item> {
    var json := codec.encode(notice);
    if |json| <= MAX_MESSAGE then [Message(json)]
    else
      var error := codec.encode(Error(AnswerTooLarge(|json|)));
      if |error| <= MAX_MESSAGE then [Message(error)] else []
  }

  function FinalNotice(result: Result<Receipt, SourceError>): Notice {
    match result
    case Success(receipt) => End(receipt)
    case Failure(error) => Error(error)
  }

  /** A whole content answer. */
  function ContentItems(codec: Codec<Notice>, calls: seq<SinkCall>, result: Result<Receipt, SourceError>): seq<Item> {
    ItemsOf(codec, calls) + SentFor(codec, FinalNotice(result))
  }
}
