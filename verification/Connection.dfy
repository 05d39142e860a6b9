/** One connection on the app's side: a HELLO, at most one request, its answer. */
module Connection {
  import opened Wrappers
  import opened Bytes
  import opened Frame
  import opened Reader
  import opened Writer
  import opened Messages
  import opened Server

  const VERSION: nat := 1
  const HANDSHAKE_DEADLINE: nat := 10_000
  const REQUEST_DEADLINE: nat := 10_000

  /** The differing bits of the first `n` bytes, all of them looked at. */
  function Difference(a: seq<bv8>, b: seq<bv8>, n: nat): bv8
    requires n <= |a| && n <= |b|
  {
    if n == 0 then 0 else Difference(a, b, n - 1) | (a[n - 1] ^ b[n - 1])
  }

  predicate EqualInConstantTime(a: seq<bv8>, b: seq<bv8>) {
    |a| == |b| && Difference(a, b, |a|) == 0
  }

  lemma {:induction false} DifferenceShows(a: seq<bv8>, b: seq<bv8>, n: nat)
    requires n <= |a| && n <= |b|
    ensures Difference(a, b, n) == 0 <==> a[..n] == b[..n]
  {
    if n > 0 {
      DifferenceShows(a, b, n - 1);
      var d, x, y := Difference(a, b, n - 1), a[n - 1], b[n - 1];
      assert (d | (x ^ y)) == 0 <==> d == 0 && x == y;
      assert a[..n] == a[..n - 1] + [x] && b[..n] == b[..n - 1] + [y];
    }
  }

  lemma ConstantTimeIsEquality(a: seq<bv8>, b: seq<bv8>)
    ensures EqualInConstantTime(a, b) <==> a == b
  {
    if |a| == |b| {
      DifferenceShows(a, b, |a|);
      assert a[..|a|] == a && b[..|b|] == b;
    }
  }

  /** What the engine would do for a content request: the calls on its sink, and how it ends. */
  datatype Script = Script(calls: seq<SinkCall>, result: Result<Receipt, SourceError>)

  /** The app behind the line: its secret, its encoders, and an engine that may answer anything. */
  datatype App = App(
    secret: seq<bv8>,
    hello: Codec<Handshake>,
    request: Codec<Request>,
    notice: Codec<Notice>,
    listing: nat -> Notice,
    content: nat -> Script,
    looks: nat -> Look)

  /** The stream begins with the one HELLO this app lets in. */
  predicate Greets(app: App, stream: seq<Byte>) {
    match Parse(stream, HANDSHAKE).outcome
    case Success(Json(json)) => app.hello.decode(json) == Some(Hello(VERSION, app.secret))
    case _ => false
  }

  /** The items of the answer to one request. */
  function AnswerOf(app: App, json: seq<Byte>): seq<Item> {
    match app.request.decode(json)
    case None => SentFor(app.notice, Error(NotUnderstood))
    case Some(Listing(question)) => SentFor(app.notice, app.listing(question))
    case Some(Content(identifier)) =>
      var script := app.content(identifier);
      ContentItems(app.notice, script.calls, script.result)
  }

  /** What the app answers to the stream behind the HELLO: the items of at most one answer. */
  function AnswerTo(app: App, stream: seq<Byte>): seq<Item> {
    match Parse(stream, REQUEST).outcome
    case Success(Json(json)) => AnswerOf(app, json)
    case _ => []
  }

  /** The stream begins with a request this app understands. */
  predicate Asks(app: App, stream: seq<Byte>) {
    match Parse(stream, REQUEST).outcome
    case Success(Json(json)) => app.request.decode(json).Some?
    case _ => false
  }

  datatype Completion = Done | Refused | Torn | BrokeProtocol

  /** Nothing behind the greeting but a prefix of one answer, and all of it when the connection is done. */
  ghost predicate Conversation(app: App, before: seq<Byte>, after: seq<Byte>, stream: seq<Byte>,
                               completion: Completion)
  {
    var greeting := SentFor(app.notice, Welcome(VERSION));
    if !Greets(app, stream) then after == before && completion.Refused?
    else
      var answer := AnswerTo(app, stream[Parse(stream, HANDSHAKE).used..]);
      && before <= after <= before + Wire(greeting + answer)
      && (completion.Done? ==> after == before + Wire(greeting + answer))
  }

  /** Without a HELLO a place is held no longer than the deadline and two slices, plus one per interrupted call. */
  twostate predicate LetGoInTime(source: Source)
    requires old(source.Valid()) && source.Valid()
    reads source
  {
    InSlices(source.calls) ==>
      source.Now() <= old(source.Now()) + HANDSHAKE_DEADLINE
                    + TIME_SLICE * (2 + Interrupts(source.calls, source.at)
                                      - Interrupts(source.calls, old(source.at)))
  }

  /** A read of what the stream means stopped, short of it, for a reason its schedule shows. */
  twostate predicate StoppedIn(source: Source, duration: nat, p: Parsed)
    requires old(source.Valid())
    reads source
  {
    && Moved(source, false)
    && HasStopped(source, old(source.Now()) + duration)
    && (p.outcome.Success? ==> source.taken - old(source.taken) < p.used)
  }

  /** Everything this app may say is short enough to be said. */
  ghost predicate Speaks(app: App) {
    && ProgressFits(app.notice)
    && Sendable(app.notice, Welcome(VERSION)) && Sendable(app.notice, Error(NotUnderstood))
    && (forall question :: Sendable(app.notice, app.listing(question)))
    && (forall identifier :: Sendable(app.notice, FinalNotice(app.content(identifier).result)))
  }

  /** Something keeps this app from saying all it has to say. */
  ghost predicate Hindered(app: App, line: Line)
    reads line
  {
    LineBroke(line) || (exists n :: CalledOff(app.looks(n))) || !Speaks(app)
  }

  /** Nothing keeps it from it, and the client has asked in time. */
  ghost predicate IsFairTo(app: App, line: Line, source: Source)
    requires source.Valid()
    reads source
  {
    var greeted := Parse(source.Rest(), HANDSHAKE).used;
    && source.at == source.taken == 0
    && Greets(app, source.Rest()) && Asks(app, source.Rest()[greeted..])
    && IsEnough(source.calls, greeted + Parse(source.Rest()[greeted..], REQUEST).used, REQUEST_DEADLINE, false)
    && (forall n :: line.takes(n) >= LARGEST_FRAME)
    && (forall n :: !CalledOff(app.looks(n))) && Speaks(app)
  }

  /**
  One connection. Nothing is said before a HELLO of this version and secret, and one who brings it
  is refused only if the read was stopped. A client that asks in time is answered in full, if
  nothing keeps the app from it.
  */
  method Run(app: App, source: Source, line: Line) returns (completion: Completion)
    requires source.Valid() && HaltIsForGood(app.looks)
    requires !line.failed && !line.late
    modifies source, line
    ensures Conversation(app, old(line.sent), line.sent, old(source.Rest()), completion)
    ensures source.Valid() && (completion.Refused? ==> LetGoInTime(source))
    ensures completion.Refused? && Greets(app, old(source.Rest())) ==>
      StoppedIn(source, HANDSHAKE_DEADLINE, Parse(old(source.Rest()), HANDSHAKE))
    ensures old(IsFairTo(app, line, source)) ==> completion.Done?
    ensures !line.late
  {
    ghost var stream, fair := source.Rest(), IsFairTo(app, line, source);
    ghost var greeted := Parse(stream, HANDSHAKE).used;
    ghost var bytes := greeted + Parse(stream[greeted..], REQUEST).used;
    var welcome := Admit(app, source);
    if !welcome {
      if fair { NothingStops(source, old(source.Now()) + HANDSHAKE_DEADLINE, bytes, REQUEST_DEADLINE, false); }
      return Refused;
    }
    assert source.Rest() == stream[greeted..];
    label Greeted:
    completion := Serve(app, source, line);
    if fair && completion.Torn? {
      assert StoppedIn@Greeted(source, REQUEST_DEADLINE, Parse(stream[greeted..], REQUEST));
      NothingStops(source, old@Greeted(source.Now()) + REQUEST_DEADLINE, bytes, REQUEST_DEADLINE, false);
    }
  }

  /** Reads the HELLO, and says whether it is the right one. */
  method Admit(app: App, source: Source) returns (welcome: bool)
    requires source.Valid()
    modifies source
    ensures Moved(source, false) || !welcome
    ensures source.Valid()
    ensures welcome ==>
      && Greets(app, old(source.Rest()))
      && source.taken == old(source.taken) + Parse(old(source.Rest()), HANDSHAKE).used
    ensures !welcome ==> LetGoInTime(source)
    ensures !welcome && Greets(app, old(source.Rest())) ==>
      StoppedIn(source, HANDSHAKE_DEADLINE, Parse(old(source.Rest()), HANDSHAKE))
  {
    var deadline := new Deadline.Fixed(HANDSHAKE_DEADLINE, source.Now());
    var inbox, _ := ReadInbox(source, HANDSHAKE, deadline);
    if inbox.Failure? || inbox.value.Data? { return false; }
    match app.hello.decode(inbox.value.json)
    case None => return false;
    case Some(Hello(version, secret)) =>
      ConstantTimeIsEquality(secret, app.secret);
      return version == VERSION && EqualInConstantTime(secret, app.secret);
  }

  /** The connection behind a valid HELLO. */
  method Serve(app: App, source: Source, line: Line) returns (completion: Completion)
    requires source.Valid() && HaltIsForGood(app.looks)
    requires !line.failed && !line.late
    modifies source, line
    ensures var greeting, answer := SentFor(app.notice, Welcome(VERSION)), AnswerTo(app, old(source.Rest()));
      && old(line.sent) <= line.sent <= old(line.sent) + Wire(greeting + answer)
      && (completion.Done? ==> line.sent == old(line.sent) + Wire(greeting + answer))
    ensures source.Valid() && !completion.Refused?
    ensures completion.Torn? ==>
      Hindered(app, line) || StoppedIn(source, REQUEST_DEADLINE, Parse(old(source.Rest()), REQUEST))
    ensures completion.BrokeProtocol? ==> !Asks(app, old(source.Rest()))
    ensures !line.late
  {
    ghost var stream := source.Rest();
    ghost var greeting, answer := SentFor(app.notice, Welcome(VERSION)), AnswerTo(app, stream);
    WireOfBoth(greeting, answer);
    Associates(line.sent, Wire(greeting), Wire(answer));
    var greeted := Send(line, app.notice, Welcome(VERSION));
    if !greeted { return Torn; }
    var deadline := new Deadline.Fixed(REQUEST_DEADLINE, source.Now());
    var inbox, _ := ReadInbox(source, REQUEST, deadline);
    if inbox.Failure? {
      return match inbox.error
             case Closed => Done
             case Log(_) => BrokeProtocol
             case _ => Torn;
    }
    if inbox.value.Data? { return BrokeProtocol; }
    completion := Reply(app, inbox.value.json, line);
  }

  /** The answer to one request. */
  method Reply(app: App, json: seq<Byte>, line: Line) returns (completion: Completion)
    requires HaltIsForGood(app.looks) && !line.failed && !line.late
    modifies line
    ensures old(line.sent) <= line.sent <= old(line.sent) + Wire(AnswerOf(app, json))
    ensures completion.Done? ==> line.sent == old(line.sent) + Wire(AnswerOf(app, json))
    ensures !completion.Refused? && (completion.Torn? ==> Hindered(app, line))
    ensures completion.BrokeProtocol? <==> app.request.decode(json).None?
    ensures !line.late
  {
    var ok;
    match app.request.decode(json)
    case None =>
      ok := Send(line, app.notice, Error(NotUnderstood));
      return BrokeProtocol;
    case Some(Listing(question)) =>
      ok := Send(line, app.notice, app.listing(question));
      return if ok then Done else Torn;
    case Some(Content(identifier)) =>
      var script := app.content(identifier);
      ok := DeliverContent(line, app.notice, app.looks, script.calls, script.result);
      return if ok then Done else Torn;
  }
}
