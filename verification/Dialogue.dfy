/** The client's half of a connection, and the app and a client that share a secret, or do not, together. */
module Dialogue {
  import opened Wrappers
  import opened Bytes
  import opened Frame
  import opened Reader
  import opened Writer
  import opened Messages
  import opened Exchange
  import Server
  import Client
  import Connection

  /** Why there is no open connection. */
  datatype Reason =
    | HelloNotSent(unsent: WriteError)
    | NoGreeting(unread: ReadError)
    | NotWelcome(notice: Notice)
    | NoNotice
    | DataChunk

  datatype BridgeError =
    | Refused(reason: Reason)
    | WrongVersion(read: nat)
    | Timeout
    | Torn
    | Broke
    | StillWaiting

  // ---- The client's half ---------------------------------------------------------------------------

  /** What the first inbox says to a client that has sent its HELLO. */
  function Greeted(codec: Codec<Notice>, inbox: Result<Inbox, ReadError>): Result<(), BridgeError> {
    if inbox.Failure? then
      match inbox.error
      case PastDeadline => Failure(Timeout)
      case Pending => Failure(StillWaiting)
      case error => Failure(Refused(NoGreeting(error)))
    else if inbox.value.Data? then Failure(Refused(DataChunk))
    else
      match codec.decode(inbox.value.json)
      case None => Failure(Refused(NoNotice))
      case Some(Welcome(version)) =>
        if version == Connection.VERSION then Success(()) else Failure(WrongVersion(version))
      case Some(notice) => Failure(Refused(NotWelcome(notice)))
  }

  /** What one inbox says to a client that has asked. */
  function Told(codec: Codec<Notice>, inbox: Result<Inbox, ReadError>): Result<Notice, BridgeError> {
    if inbox.Failure? then
      match inbox.error
      case PastDeadline => Failure(Timeout)
      case Pending => Failure(StillWaiting)
      case Log(_) => Failure(Broke)
      case _ => Failure(Torn)
    else if inbox.value.Data? then Failure(Broke)
    else
      match codec.decode(inbox.value.json)
      case None => Failure(Broke)
      case Some(notice) => Success(notice)
  }

  /** The stream begins with the WELCOME of this version. */
  predicate Welcomes(codec: Codec<Notice>, stream: seq<Byte>) {
    Greeted(codec, Reader.Answer(Parse(stream, HANDSHAKE))).Success?
  }

  /** What the stream tells a client that asks behind its greeting. */
  function AnswerIn(codec: Codec<Notice>, stream: seq<Byte>): Result<Notice, BridgeError> {
    Told(codec, Reader.Answer(Parse(stream[Parse(stream, HANDSHAKE).used..], RESPONSE)))
  }

  /** A read of what the stream means, with a silence deadline of its own, stopped for this reason. */
  twostate predicate StoppedFor(error: ReadError, source: Source, p: Parsed)
    requires old(source.Valid())
    reads source
  {
    && error.Stops() && Moved(source, false)
    && (p.outcome.Success? ==> source.taken - old(source.taken) < p.used)
    && Cause(error, source, Silenced(source.calls, source.start, old(source.at), source.at, Client.READ_DEADLINE,
                                     old(source.Now()) + Client.READ_DEADLINE))
  }

  /** Reads one inbox with a silence deadline of its own. */
  method Listen(source: Source, limit: Limit) returns (inbox: Result<Inbox, ReadError>)
    requires source.Valid()
    modifies source
    ensures source.Valid()
    ensures var p := Parse(old(source.Rest()), limit);
      || (inbox == Reader.Answer(p) && source.taken == old(source.taken) + p.used
          && (inbox.Success? ==> Moved(source, false)))
      || (inbox.Failure? && StoppedFor(inbox.error, source, p))
  {
    var deadline := new Deadline.Silence(Client.READ_DEADLINE, source.Now());
    var read, _ := ReadInbox(source, limit, deadline);
    inbox := read;
  }

  /** Says HELLO and waits for the WELCOME; whatever else comes, nothing more is written. */
  method Open(hello: Codec<Handshake>, notice: Codec<Notice>, secret: seq<bv8>, line: Line, source: Source)
    returns (r: Result<(), BridgeError>)
    requires source.Valid()
    modifies line, source
    ensures source.Valid()
    ensures var json := hello.encode(Hello(Connection.VERSION, secret));
      var p := Parse(old(source.Rest()), HANDSHAKE);
      && old(line.sent) <= line.sent <= old(line.sent) + EncodeJson(json)
      && (r.Success? ==>
            && line.sent == old(line.sent) + EncodeJson(json)
            && Welcomes(notice, old(source.Rest()))
            && Moved(source, false) && source.taken == old(source.taken) + p.used)
      && (|| r == Greeted(notice, Reader.Answer(p))
          || (r == Failure(Refused(HelloNotSent(TooLarge(|json|)))) && |json| > MAX_MESSAGE)
          || (r == Failure(Refused(HelloNotSent(BrokenLine))) && FellShort(line))
          || (exists error :: StoppedFor(error, source, p) && r == Greeted(notice, Failure(error))))
  {
    var written := WriteJson(line, hello.encode(Hello(Connection.VERSION, secret)));
    if written.Failure? { return Failure(Refused(HelloNotSent(written.error))); }
    var inbox := Listen(source, HANDSHAKE);
    r := Greeted(notice, inbox);
  }

  /** A deadline that begins later passes no earlier. */
  lemma {:induction false} LaterIsNoEarlier(calls: seq<Call>, start: nat, from: nat, end: nat, duration: nat,
                                            before: nat, later: nat)
    requires from <= end <= |calls| && before <= later
    ensures Silenced(calls, start, from, end, duration, before) <= Silenced(calls, start, from, end, duration, later)
    decreases end
  {
    if from < end { LaterIsNoEarlier(calls, start, from, end - 1, duration, before, later); }
  }

  /** Behind calls that are enough for more, a second read does not stop either. */
  lemma NothingStopsLater(source: Source, mid: nat, bytes: nat, duration: nat)
    requires source.Valid() && mid <= source.at && IsEnough(source.calls, bytes, duration, true)
    requires Readies(source.calls, source.at) < bytes
    ensures !HasStopped(source, Silenced(source.calls, source.start, mid, source.at, duration,
                                         source.start + Ticks(source.calls, mid) + duration))
  {
    var calls, start := source.calls, source.start;
    var before := Silenced(calls, start, 0, mid, duration, start + duration);
    var later := start + Ticks(calls, mid) + duration;
    SilencedIsSinceByte(calls, start, mid, duration);
    LaterIsNoEarlier(calls, start, mid, source.at, duration, before, later);
    SilencedTwice(calls, start, 0, mid, source.at, duration, start + duration);
    NothingStops(source, Silenced(calls, start, mid, source.at, duration, later), bytes, duration, true);
  }

  /** Line and schedule let a client say and hear all of it: its two messages, and the two it waits for. */
  ghost predicate LetsThrough(notice: Codec<Notice>, first: seq<Byte>, second: seq<Byte>, takes: nat -> nat,
                              stream: seq<Byte>, calls: seq<Call>)
  {
    var used := Parse(stream, HANDSHAKE).used;
    var answer := Parse(stream[used..], RESPONSE);
    && |first| <= MAX_MESSAGE && |second| <= MAX_MESSAGE
    && (forall n :: takes(n) >= LARGEST_FRAME)
    && Welcomes(notice, stream) && answer.outcome.Success?
    && IsEnough(calls, used + answer.used, Client.READ_DEADLINE, true)
  }

  /**
  One question on a connection of its own. What comes back is what the stream says behind its
  WELCOME; the question is never written before that has come; and if the line takes both messages
  and the bytes come in time, the answer is told.
  */
  method Ask(hello: Codec<Handshake>, notice: Codec<Notice>, secret: seq<bv8>, question: seq<Byte>,
             line: Line, source: Source)
    returns (r: Result<Notice, BridgeError>)
    requires source.Valid()
    modifies line, source
    ensures var first := EncodeJson(hello.encode(Hello(Connection.VERSION, secret)));
      && old(line.sent) <= line.sent <= old(line.sent) + first + EncodeJson(question)
      && (r.Success? ==> line.sent == old(line.sent) + first + EncodeJson(question))
      && (!Welcomes(notice, old(source.Rest())) ==> line.sent <= old(line.sent) + first)
    ensures r.Success? ==> Welcomes(notice, old(source.Rest())) && r == AnswerIn(notice, old(source.Rest()))
    ensures var first := hello.encode(Hello(Connection.VERSION, secret));
      old(source.at == source.taken == 0)
        && LetsThrough(notice, first, question, line.takes, source.stream, source.calls) ==>
      r == AnswerIn(notice, source.stream)
  {
    ghost var first := hello.encode(Hello(Connection.VERSION, secret));
    ghost var stream := source.Rest();
    ghost var fair := source.at == source.taken == 0
                      && LetsThrough(notice, first, question, line.takes, source.stream, source.calls);
    ghost var used := Parse(stream, HANDSHAKE).used;
    ghost var answer := Parse(stream[used..], RESPONSE);
    var open := Open(hello, notice, secret, line, source);
    if open.Failure? {
      if fair { NothingStopsLater(source, 0, used + answer.used, Client.READ_DEADLINE); }
      return Failure(open.error);
    }
    assert source.Rest() == stream[used..];
    label Greeted:
    r := Query(notice, question, line, source);
    if fair && r != AnswerIn(notice, stream) {
      var error :| StoppedFor@Greeted(error, source, answer);
      NothingStopsLater(source, old@Greeted(source.at), used + answer.used, Client.READ_DEADLINE);
    }
  }

  /** The question behind the greeting, and what comes back. */
  method Query(notice: Codec<Notice>, question: seq<Byte>, line: Line, source: Source)
    returns (r: Result<Notice, BridgeError>)
    requires source.Valid()
    modifies line, source
    ensures source.Valid()
    ensures old(line.sent) <= line.sent <= old(line.sent) + EncodeJson(question)
    ensures r.Success? ==> line.sent == old(line.sent) + EncodeJson(question)
    ensures var p := Parse(old(source.Rest()), RESPONSE);
      || r == Told(notice, Reader.Answer(p))
      || (r == Failure(Broke) && |question| > MAX_MESSAGE)
      || (r == Failure(Torn) && FellShort(line))
      || (exists error :: StoppedFor(error, source, p) && r == Told(notice, Failure(error)))
  {
    var written := WriteJson(line, question);
    if written.Failure? { return Failure(if written.error.BrokenLine? then Torn else Broke); }
    var inbox := Listen(source, RESPONSE);
    r := Told(notice, inbox);
  }

  // ---- Both halves ---------------------------------------------------------------------------------

  /** What a client is told that is answered with this notice. */
  function Said(codec: Codec<Notice>, notice: Notice): Notice {
    var json := codec.encode(notice);
    if |json| <= MAX_MESSAGE then notice else Error(AnswerTooLarge(|json|))
  }

  /** Of a stream that begins with a message, or with a piece of one: the message, or that it ended. */
  lemma FirstMessage(json: seq<Byte>, stream: seq<Byte>, tail: seq<Byte>, limit: Limit)
    requires Admits(limit, json) && stream <= EncodeJson(json) + tail
    ensures Parse(stream, limit) == if EncodeJson(json) <= stream then Parsed(Success(Json(json)), |EncodeJson(json)|)
                                    else Parsed(Failure(Ended), |stream|)
    ensures EncodeJson(json) <= stream ==> stream[|EncodeJson(json)|..] <= tail
  {
    var n := |EncodeJson(json)|;
    if EncodeJson(json) <= stream {
      assert stream == EncodeJson(json) + stream[n..];
      WholeMessage(json, stream[n..], limit);
      assert (EncodeJson(json) + tail)[n..] == tail;
    } else {
      assert |stream| < n;
      BrokenMessage(json, stream, limit);
    }
  }

  /** One message alone, or a piece of it. */
  lemma OneMessage(json: seq<Byte>, stream: seq<Byte>, limit: Limit)
    requires Admits(limit, json) && stream <= EncodeJson(json)
    ensures Parse(stream, limit) == if stream == EncodeJson(json) then Parsed(Success(Json(json)), |stream|)
                                    else Parsed(Failure(Ended), |stream|)
  {
    assert EncodeJson(json) + [] == EncodeJson(json);
    FirstMessage(json, stream, [], limit);
  }

  /** A divided request is never read, not even its front. */
  lemma DividedIsNoRequest(json: seq<Byte>, stream: seq<Byte>)
    requires |json| > MAX_JSON_FRAME && stream <= EncodeJson(json)
    ensures Parse(stream, REQUEST).outcome.Failure?
  {
    var tail := EncodeJson(json)[|stream|..];
    assert stream + tail == EncodeJson(json) == EncodeJson(json) + [];
    SplitRequestIsRefused(json, [], REQUEST);
    if Parse(stream, REQUEST).outcome.Success? { ParseIgnoresTheTail(stream, tail, REQUEST, []); }
  }

  /** An app, and a client with a secret and a question. */
  datatype Meeting = Meeting(app: Connection.App, secret: seq<bv8>, question: nat) {
    function HelloText(): seq<Byte> { app.hello.encode(Hello(Connection.VERSION, secret)) }

    function QuestionText(): seq<Byte> { app.request.encode(Listing(question)) }

    /** All a client ever says. */
    function Words(): seq<Byte> { EncodeJson(HelloText()) + EncodeJson(QuestionText()) }

    function WelcomeText(): seq<Byte> { app.notice.encode(Welcome(Connection.VERSION)) }

    /** What the app answers to a question it reads. */
    function Reply(): seq<Item> { SentFor(app.notice, app.listing(question)) }

    /** What the app answers when this much of the client's words reaches it. */
    function AnswerTo(up: seq<Byte>): seq<Item> {
      if secret == app.secret && up == Words() && |QuestionText()| <= MAX_JSON_FRAME then Reply() else []
    }

    /** Both read what the other writes, and the two greetings are short, as secret and version are. */
    ghost predicate Valid() {
      && Faithful(app.hello) && Faithful(app.request) && Faithful(app.notice)
      && Server.HaltIsForGood(app.looks)
      && |HelloText()| <= MAX_HANDSHAKE && |WelcomeText()| <= MAX_HANDSHAKE
    }
  }

  lemma HelloIsJudged(m: Meeting, up: seq<Byte>)
    requires m.Valid() && up <= m.Words()
    ensures Connection.Greets(m.app, up) <==> m.secret == m.app.secret && EncodeJson(m.HelloText()) <= up
    ensures EncodeJson(m.HelloText()) <= up ==>
      && Parse(up, HANDSHAKE).used == |EncodeJson(m.HelloText())|
      && up[Parse(up, HANDSHAKE).used..] <= EncodeJson(m.QuestionText())
  {
    FirstMessage(m.HelloText(), up, EncodeJson(m.QuestionText()), HANDSHAKE);
    assert m.app.hello.decode(m.HelloText()) == Some(Hello(Connection.VERSION, m.secret));
  }

  lemma QuestionIsJudged(m: Meeting, rest: seq<Byte>)
    requires m.Valid() && rest <= EncodeJson(m.QuestionText())
    ensures var whole := rest == EncodeJson(m.QuestionText()) && |m.QuestionText()| <= MAX_JSON_FRAME;
      && Connection.AnswerTo(m.app, rest) == (if whole then m.Reply() else [])
      && (Connection.Asks(m.app, rest) <==> whole)
      && (whole ==> Parse(rest, REQUEST).used == |rest|)
  {
    assert m.app.request.decode(m.QuestionText()) == Some(Listing(m.question));
    if |m.QuestionText()| <= MAX_JSON_FRAME {
      OneMessage(m.QuestionText(), rest, REQUEST);
    } else {
      DividedIsNoRequest(m.QuestionText(), rest);
    }
  }

  /** What the client makes of what it hears of a greeting and an answer. */
  lemma AnswerIsHeard(m: Meeting, answer: seq<Item>, heard: seq<Byte>)
    requires m.Valid() && (answer == [] || answer == m.Reply())
    requires heard <= EncodeJson(m.WelcomeText()) + Wire(answer)
    ensures Welcomes(m.app.notice, heard) <==> EncodeJson(m.WelcomeText()) <= heard
    ensures Welcomes(m.app.notice, heard) ==>
      var used := Parse(heard, HANDSHAKE).used;
      && used == |EncodeJson(m.WelcomeText())|
      && AnswerIn(m.app.notice, heard)
         == (if answer != [] && heard == EncodeJson(m.WelcomeText()) + Wire(answer) then
               Success(Said(m.app.notice, m.app.listing(m.question)))
             else Failure(Torn))
      && Parse(heard[used..], RESPONSE).used == |heard| - used
  {
    FirstMessage(m.WelcomeText(), heard, Wire(answer), HANDSHAKE);
    assert m.app.notice.decode(m.WelcomeText()) == Some(Welcome(Connection.VERSION));
    if EncodeJson(m.WelcomeText()) <= heard {
      var rest := heard[|EncodeJson(m.WelcomeText())|..];
      assert heard == EncodeJson(m.WelcomeText()) + rest;
      ReplyIsHeard(m, answer, rest);
    }
  }

  lemma ReplyIsHeard(m: Meeting, answer: seq<Item>, rest: seq<Byte>)
    requires m.Valid() && (answer == [] || answer == m.Reply()) && rest <= Wire(answer)
    ensures Told(m.app.notice, Reader.Answer(Parse(rest, RESPONSE)))
         == (if answer != [] && rest == Wire(answer) then Success(Said(m.app.notice, m.app.listing(m.question)))
             else Failure(Torn))
    ensures Parse(rest, RESPONSE).used == |rest|
  {
    if answer == [] {
      assert Frames(answer) == [];
      assert rest == [];
    } else {
      var notice := Said(m.app.notice, m.app.listing(m.question));
      assert answer == [Message(m.app.notice.encode(notice))];
      WireOfOne(answer[0]);
      OneMessage(m.app.notice.encode(notice), rest, RESPONSE);
      assert m.app.notice.decode(m.app.notice.encode(notice)) == Some(notice);
    }
  }

  /** How the bytes travel: what each line takes, where what the app says is cut, and how each side reads. */
  datatype Net = Net(
    takesUp: nat -> nat, takesDown: nat -> nat, cut: nat, ofApp: seq<Call>, ofClient: seq<Call>, start: nat)
  {
    /** They share the secret, and nothing comes between them: all they have to say is said and read in time. */
    ghost predicate Undisturbed(m: Meeting, up: seq<Byte>) {
      var down := |EncodeJson(m.WelcomeText()) + Wire(m.Reply())|;
      && m.secret == m.app.secret && up == m.Words()
      && |m.QuestionText()| <= MAX_JSON_FRAME && Connection.Speaks(m.app)
      && (forall n :: !Server.CalledOff(m.app.looks(n)))
      && (forall n :: takesUp(n) >= LARGEST_FRAME) && (forall n :: takesDown(n) >= LARGEST_FRAME)
      && down <= cut && IsEnough(ofClient, down, Client.READ_DEADLINE, true)
      && IsEnough(ofApp, |m.Words()|, Connection.REQUEST_DEADLINE, false)
    }
  }

  /** What the app says to a client's words: nothing, or the greeting and what answers them. */
  lemma WhatIsSaid(m: Meeting, up: seq<Byte>, said: seq<Byte>, completion: Connection.Completion)
    requires m.Valid() && up <= m.Words() && Connection.Conversation(m.app, [], said, up, completion)
    ensures said <= EncodeJson(m.WelcomeText()) + Wire(m.AnswerTo(up))
    ensures m.secret != m.app.secret ==> said == []
    ensures m.AnswerTo(up) != [] && completion.Done? ==>
      said == EncodeJson(m.WelcomeText()) + Wire(m.AnswerTo(up))
  {
    HelloIsJudged(m, up);
    if Connection.Greets(m.app, up) {
      var rest, greeting := up[Parse(up, HANDSHAKE).used..], SentFor(m.app.notice, Welcome(Connection.VERSION));
      QuestionIsJudged(m, rest);
      RestOfTheWords(m, up, rest);
      WireOfBoth(greeting, m.AnswerTo(up));
      WireOfOne(Message(m.WelcomeText()));
      assert [] + Wire(greeting + m.AnswerTo(up)) == Wire(greeting + m.AnswerTo(up));
    }
  }

  lemma RestOfTheWords(m: Meeting, up: seq<Byte>, rest: seq<Byte>)
    requires up == EncodeJson(m.HelloText()) + rest
    ensures up == m.Words() <==> rest == EncodeJson(m.QuestionText())
  {
    var n := |EncodeJson(m.HelloText())|;
    assert up[n..] == rest && m.Words()[n..] == EncodeJson(m.QuestionText());
  }

  lemma FairWhenUndisturbed(m: Meeting, up: seq<Byte>, net: Net, line: Line, source: Source)
    requires m.Valid() && net.Undisturbed(m, up)
    requires source.stream == up && source.calls == net.ofApp && source.at == source.taken == 0
    requires line.takes == net.takesDown
    ensures Connection.IsFairTo(m.app, line, source) && m.AnswerTo(up) != []
  {
    assert source.Rest() == up;
    WordsAreHeard(m);
  }

  /** All of a client's words, brought with the right secret, are a HELLO and a request, and nothing else. */
  lemma WordsAreHeard(m: Meeting)
    requires m.Valid() && m.secret == m.app.secret && |m.QuestionText()| <= MAX_JSON_FRAME
    ensures var used := Parse(m.Words(), HANDSHAKE).used;
      && Connection.Greets(m.app, m.Words())
      && Connection.Asks(m.app, m.Words()[used..])
      && used + Parse(m.Words()[used..], REQUEST).used == |m.Words()|
  {
    var rest := m.Words()[|EncodeJson(m.HelloText())|..];
    assert m.Words() == EncodeJson(m.HelloText()) + rest;
    HelloIsJudged(m, m.Words());
    RestOfTheWords(m, m.Words(), rest);
    QuestionIsJudged(m, rest);
  }

  /** The app hears `up`, and what it says for it reaches the client up to the cut. */
  method AppSide(m: Meeting, up: seq<Byte>, net: Net) returns (heard: seq<Byte>)
    requires m.Valid() && up <= m.Words()
    ensures heard <= EncodeJson(m.WelcomeText()) + Wire(m.AnswerTo(up))
    ensures m.secret != m.app.secret ==> heard == []
    ensures net.Undisturbed(m, up) ==>
      m.AnswerTo(up) != [] && heard == EncodeJson(m.WelcomeText()) + Wire(m.AnswerTo(up))
  {
    var source := new Source(up, net.ofApp, net.start);
    var line := new Line(net.takesDown);
    assert source.Rest() == up;
    if net.Undisturbed(m, up) { FairWhenUndisturbed(m, up, net, line, source); }
    var completion := Connection.Run(m.app, source, line);
    WhatIsSaid(m, up, line.sent, completion);
    heard := line.sent[..Min(net.cut, |line.sent|)];
  }

  /**
  A client and an app. Whatever of the client's words reaches the app: with another secret it hears
  nothing and says nothing behind its HELLO; what it is told is the app's answer to its question,
  and the app has then heard all of it; and with the app's own secret, where nothing comes between
  the two, it is told.
  */
  method Meet(m: Meeting, up: seq<Byte>, net: Net)
    returns (r: Result<Notice, BridgeError>, heard: seq<Byte>, said: seq<Byte>)
    requires m.Valid() && up <= m.Words()
    ensures said <= m.Words()
    ensures m.secret != m.app.secret ==> heard == [] && r.Failure? && said <= EncodeJson(m.HelloText())
    ensures r.Success? ==>
      && m.secret == m.app.secret
      && r.value == Said(m.app.notice, m.app.listing(m.question))
      && up == said == m.Words()
    ensures net.Undisturbed(m, up) ==> r.Success?
  {
    heard := AppSide(m, up, net);
    r, said := ClientSide(m, heard, net);
    AnswerIsHeard(m, m.AnswerTo(up), heard);
    if net.Undisturbed(m, up) { ThroughWhenUndisturbed(m, up, heard, net); }
  }

  lemma ThroughWhenUndisturbed(m: Meeting, up: seq<Byte>, heard: seq<Byte>, net: Net)
    requires m.Valid() && net.Undisturbed(m, up) && m.AnswerTo(up) != []
    requires heard == EncodeJson(m.WelcomeText()) + Wire(m.AnswerTo(up))
    ensures LetsThrough(m.app.notice, m.HelloText(), m.QuestionText(), net.takesUp, heard, net.ofClient)
    ensures AnswerIn(m.app.notice, heard).Success?
  {
    AnswerIsHeard(m, m.AnswerTo(up), heard);
  }

  /** The client asks, and hears this much. */
  method ClientSide(m: Meeting, heard: seq<Byte>, net: Net) returns (r: Result<Notice, BridgeError>, said: seq<Byte>)
    ensures said <= m.Words() && (r.Success? ==> said == m.Words())
    ensures !Welcomes(m.app.notice, heard) ==> said <= EncodeJson(m.HelloText())
    ensures r.Success? ==> Welcomes(m.app.notice, heard) && r == AnswerIn(m.app.notice, heard)
    ensures LetsThrough(m.app.notice, m.HelloText(), m.QuestionText(), net.takesUp, heard, net.ofClient) ==>
      r == AnswerIn(m.app.notice, heard)
  {
    var source := new Source(heard, net.ofClient, net.start);
    var line := new Line(net.takesUp);
    assert source.Rest() == heard;
    assert [] + EncodeJson(m.HelloText()) == EncodeJson(m.HelloText());
    r := Ask(m.app.hello, m.app.notice, m.secret, m.QuestionText(), line, source);
    said := line.sent;
  }
}
