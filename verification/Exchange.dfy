/** One message over the whole line: written in frames, cut or not, read back on any schedule. */
module Exchange {
  import opened Wrappers
  import opened Bytes
  import opened Frame
  import opened Reader
  import opened Writer

  /** Reads one inbox off a fresh socket; a schedule that suffices for its bytes always brings it. */
  method Receive(stream: seq<Byte>, limit: Limit, calls: seq<Call>, start: nat, duration: nat, silence: bool)
    returns (r: Result<Inbox, ReadError>, left: seq<Byte>)
    ensures var p := Parse(stream, limit);
      r.Success? || !r.error.Stops() ==> r == Answer(p) && left == stream[p.used..]
    ensures var p := Parse(stream, limit);
      p.outcome.Success? && IsEnough(calls, p.used, duration, silence) ==> r.Success?
  {
    var source := new Source(stream, calls, start);
    var deadline;
    if silence { deadline := new Deadline.Silence(duration, start); }
    else { deadline := new Deadline.Fixed(duration, start); }
    assert source.Rest() == stream;
    var peak;
    r, peak := ReadInbox(source, limit, deadline);
    left := source.Rest();
    if r.Failure? && r.error.Stops() {
      StoppedForWant(source, r.error, deadline, Parse(stream, limit), silence);
    }
  }

  /** A read that stopped short of what the stream means had not calls enough. */
  lemma StoppedForWant(source: Source, error: ReadError, deadline: Deadline, p: Parsed, silence: bool)
    requires source.Valid() && Justified(error, source, deadline) && error.Stops()
    requires silence == deadline.extending
    requires RunsUntil(source, deadline, 0, source.start + deadline.duration, false)
    requires Readies(source.calls, source.at) <= source.taken <= p.used
    requires source.taken == p.used ==> p.outcome.Failure?
    ensures p.outcome.Success? ==> !IsEnough(source.calls, p.used, deadline.duration, silence)
  {
    if p.outcome.Success? && IsEnough(source.calls, p.used, deadline.duration, silence) {
      NothingStops(source, deadline.until, p.used, deadline.duration, silence);
    }
  }

  /**
  Writes `json`, puts `tail` behind it and reads one inbox. What comes back is the message and
  exactly the tail is left; or the line broke and the stream ended; or the read stopped for a
  reason its schedule shows. A line that takes whole frames and a schedule that suffices always
  deliver.
  */
  method SendAndReceive(json: seq<Byte>, tail: seq<Byte>, limit: Limit, takes: nat -> nat,
                        calls: seq<Call>, start: nat, duration: nat, silence: bool)
    returns (written: bool, r: Result<Inbox, ReadError>, left: seq<Byte>)
    requires |json| <= MAX_MESSAGE && Admits(limit, json)
    ensures r.Success? ==> written && r.value == Json(json) && left == tail
    ensures r.Failure? ==> r.error.Stops() || (!written && r.error == Closed)
    ensures (forall n :: takes(n) >= LARGEST_FRAME) ==> written
    ensures written && IsEnough(calls, |EncodeJson(json)|, duration, silence) ==> r.Success?
  {
    var line := new Line(takes);
    var sent := WriteJson(line, json);
    written := sent.Success?;
    assert [] + EncodeJson(json) == EncodeJson(json);
    if written {
      WholeMessage(json, tail, limit);
      r, left := Receive(line.sent + tail, limit, calls, start, duration, silence);
    } else {
      BrokenMessage(json, line.sent, limit);
      r, left := Receive(line.sent, limit, calls, start, duration, silence);
    }
  }

  /** The limit lets the message through: undivided, or in parts. */
  predicate Admits(limit: Limit, json: seq<Byte>) {
    if |json| <= MAX_JSON_FRAME then |json| <= limit.json
    else MAX_JSON_FRAME <= limit.json && |json| <= limit.message
  }

  lemma WholeMessage(json: seq<Byte>, tail: seq<Byte>, limit: Limit)
    requires Admits(limit, json)
    ensures Parse(EncodeJson(json) + tail, limit) == Parsed(Success(Json(json)), |EncodeJson(json)|)
    ensures (EncodeJson(json) + tail)[|EncodeJson(json)|..] == tail
  {
    JsonRoundTrip(json, tail, limit, []);
    assert [] + json == json;
  }

  /** A message that broke off is a stream that ended, never another message. */
  lemma BrokenMessage(json: seq<Byte>, sent: seq<Byte>, limit: Limit)
    requires Admits(limit, json)
    requires sent < EncodeJson(json)
    ensures Parse(sent, limit) == Parsed(Failure(Ended), |sent|)
  {
    var encoded := EncodeJson(json);
    WholeMessage(json, [], limit);
    assert encoded + [] == encoded;
    ParseOfACut(encoded, |sent|, limit, []);
    assert encoded[..|sent|] == sent;
  }
}
