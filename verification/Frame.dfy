/**
The frames of the bridge, `[length: u32 BE][kind: u8][payload: length - 1 bytes]`, as a grammar on
bytes: what a byte stream means (`ParseFrom`), independent of how it arrives, and what is put on it
(`EncodeJson`, `EncodeData`).
*/
module Frame {
  import opened Wrappers
  import opened Bytes

  const MAX_JSON_FRAME: nat := 0x10_0000
  const MAX_DATA_CHUNK: nat := 0x4_0000
  const MAX_MESSAGE: nat := 0x400_0000
  const MAX_HANDSHAKE: nat := 4096
  const HEADER_BYTES: nat := 5
  const OFFSET_BYTES: nat := 8

  const KIND_JSON: Byte := 0x4A
  const KIND_PART: Byte := 0x54
  const KIND_DATA: Byte := 0x44

  /** What may arrive at a place of the protocol; `message == 0` means: no parts. */
  datatype Limit = Limit(json: nat, message: nat, data: bool) {
    function Largest(): nat { Max(message, json) }

    /** The most bytes any one buffer of the reader may need. */
    function Ceiling(): nat {
      Max(HEADER_BYTES, Max(Largest(), if data then MAX_DATA_CHUNK else 0))
    }
  }

  const HANDSHAKE := Limit(MAX_HANDSHAKE, 0, false)
  const REQUEST := Limit(MAX_JSON_FRAME, 0, false)
  const RESPONSE := Limit(MAX_JSON_FRAME, MAX_MESSAGE, false)
  const CONTENT := Limit(MAX_JSON_FRAME, MAX_MESSAGE, true)

  datatype Inbox = Json(json: seq<Byte>) | Data(offset: nat, bytes: seq<Byte>)

  datatype Header = JsonHeader(length: nat) | PartHeader(length: nat) | DataHeader(length: nat)

  /** Which rule a frame breaks. */
  datatype Breach =
    | NoKind
    | FrameTooLong
    | NoSplitHere
    | NoDataHere
    | DataMidMessage
    | DataWithoutOffset
    | ChunkTooLong
    | UnknownKind
    | MessageTooLong

  function CheckHeader(header: seq<Byte>, limit: Limit, midMessage: bool): (r: Result<Header, Breach>)
    requires |header| == HEADER_BYTES
    ensures r.Success? && !r.value.DataHeader? ==> r.value.length <= limit.json
    ensures r.Success? && r.value.PartHeader? ==> limit.message > 0
    ensures r.Success? && r.value.DataHeader? ==> limit.data && !midMessage && r.value.length <= MAX_DATA_CHUNK
  {
    var length := FromBigEndian(header[..4]);
    var kind := header[4];
    if length == 0 then Failure(NoKind)
    else
      var payload := length - 1;
      if (kind == KIND_JSON || kind == KIND_PART) && payload > limit.json then Failure(FrameTooLong)
      else if kind == KIND_PART && limit.message == 0 then Failure(NoSplitHere)
      else if kind == KIND_JSON then Success(JsonHeader(payload))
      else if kind == KIND_PART then Success(PartHeader(payload))
      else if kind == KIND_DATA then
        if !limit.data then Failure(NoDataHere)
        else if midMessage then Failure(DataMidMessage)
        else if payload < OFFSET_BYTES then Failure(DataWithoutOffset)
        else if payload - OFFSET_BYTES > MAX_DATA_CHUNK then Failure(ChunkTooLong)
        else Success(DataHeader(payload - OFFSET_BYTES))
      else Failure(UnknownKind)
  }

  /** Why a byte stream yields no inbox: it ends too early, or it breaks a rule. */
  datatype Fault = Ended | Breached(breach: Breach)

  /** The first inbox of a stream, and how many bytes of it were looked at. */
  datatype Parsed = Parsed(outcome: Result<Inbox, Fault>, used: nat)

  /** One frame: it settles the matter, or it is a part with more to follow. */
  datatype Step = Settled(parsed: Parsed) | More(part: seq<Byte>)

  function ParseFrame(stream: seq<Byte>, limit: Limit, collected: seq<Byte>): (step: Step)
    ensures step.More? ==>
      && HEADER_BYTES + |step.part| <= |stream|
      && step.part == stream[HEADER_BYTES..HEADER_BYTES + |step.part|]
      && |collected + step.part| <= limit.Largest()
      && limit.message > 0
    ensures step.Settled? ==> step.parsed.used <= |stream|
    ensures step.Settled? ==>
      if step.parsed.outcome == Failure(Ended) then step.parsed.used == |stream|
      else step.parsed.used >= HEADER_BYTES
  {
    if |stream| < HEADER_BYTES then Settled(Parsed(Failure(Ended), |stream|))
    else
      var checked := CheckHeader(stream[..HEADER_BYTES], limit, collected != []);
      if checked.Failure? then Settled(Parsed(Failure(Breached(checked.error)), HEADER_BYTES))
      else ParsePayload(stream, checked.value, limit, collected)
  }

  /** What stands behind an admissible header. */
  function ParsePayload(stream: seq<Byte>, header: Header, limit: Limit, collected: seq<Byte>): Step
    requires HEADER_BYTES <= |stream|
  {
    var end := HEADER_BYTES + header.length;
    if header.DataHeader? then
      var start, stop := HEADER_BYTES + OFFSET_BYTES, end + OFFSET_BYTES;
      if |stream| < stop then Settled(Parsed(Failure(Ended), |stream|))
      else Settled(Parsed(Success(Data(FromBigEndian(stream[HEADER_BYTES..start]), stream[start..stop])), stop))
    else if |collected| + header.length > limit.Largest() then
      Settled(Parsed(Failure(Breached(MessageTooLong)), HEADER_BYTES))
    else if |stream| < end then Settled(Parsed(Failure(Ended), |stream|))
    else if header.JsonHeader? then Settled(Parsed(Success(Json(collected + stream[HEADER_BYTES..end])), end))
    else More(stream[HEADER_BYTES..end])
  }

  /** The meaning of `stream` when the JSON parts `collected` have gone before. */
  function ParseFrom(stream: seq<Byte>, limit: Limit, collected: seq<Byte>): (p: Parsed)
    ensures p.used <= |stream|
    ensures p.outcome == Failure(Ended) ==> p.used == |stream|
    ensures p.outcome != Failure(Ended) ==> p.used >= HEADER_BYTES
    decreases |stream|
  {
    match ParseFrame(stream, limit, collected)
    case Settled(parsed) => parsed
    case More(part) =>
      var end := HEADER_BYTES + |part|;
      Later(ParseFrom(stream[end..], limit, collected + part), end)
  }

  function Later(p: Parsed, skipped: nat): Parsed {
    p.(used := p.used + skipped)
  }

  function Parse(stream: seq<Byte>, limit: Limit): Parsed {
    ParseFrom(stream, limit, [])
  }

  // ---- Writing -------------------------------------------------------------------------------

  function EncodeFrame(kind: Byte, payload: seq<Byte>): (f: seq<Byte>)
    ensures |f| == HEADER_BYTES + |payload|
  {
    ToBigEndian(1 + |payload|, 4) + [kind] + payload
  }

  /** A JSON message: parts of exactly `MAX_JSON_FRAME` bytes, then the rest. */
  function EncodeJson(json: seq<Byte>): (s: seq<Byte>)
    ensures |s| >= HEADER_BYTES + |json|
    decreases |json|
  {
    if |json| > MAX_JSON_FRAME then
      EncodeFrame(KIND_PART, json[..MAX_JSON_FRAME]) + EncodeJson(json[MAX_JSON_FRAME..])
    else EncodeFrame(KIND_JSON, json)
  }

  function EncodeData(offset: nat, bytes: seq<Byte>): (s: seq<Byte>)
    ensures |s| == HEADER_BYTES + OFFSET_BYTES + |bytes|
  {
    EncodeFrame(KIND_DATA, ToBigEndian(offset, OFFSET_BYTES) + bytes)
  }

  // ---- What is read depends on what was used, and on nothing behind it -------------------------

  lemma FrameIgnoresTheTail(stream: seq<Byte>, tail: seq<Byte>, limit: Limit, collected: seq<Byte>)
    requires var step := ParseFrame(stream, limit, collected);
      step.More? || step.parsed.outcome != Failure(Ended)
    ensures ParseFrame(stream + tail, limit, collected) == ParseFrame(stream, limit, collected)
  {
    var whole := stream + tail;
    assert whole[..HEADER_BYTES] == stream[..HEADER_BYTES];
    var checked := CheckHeader(stream[..HEADER_BYTES], limit, collected != []);
    if checked.Success? {
      var start, end := HEADER_BYTES + OFFSET_BYTES, HEADER_BYTES + checked.value.length;
      if checked.value.DataHeader? {
        assert whole[HEADER_BYTES..start] == stream[HEADER_BYTES..start];
        assert whole[start..end + OFFSET_BYTES] == stream[start..end + OFFSET_BYTES];
      } else if |collected| + checked.value.length <= limit.Largest() {
        assert whole[HEADER_BYTES..end] == stream[HEADER_BYTES..end];
      }
    }
  }

  /** Whatever follows an inbox or a breach does not change it. */
  lemma {:induction false} ParseIgnoresTheTail(stream: seq<Byte>, tail: seq<Byte>, limit: Limit, collected: seq<Byte>)
    requires ParseFrom(stream, limit, collected).outcome != Failure(Ended)
    ensures ParseFrom(stream + tail, limit, collected) == ParseFrom(stream, limit, collected)
    decreases |stream|
  {
    FrameIgnoresTheTail(stream, tail, limit, collected);
    match ParseFrame(stream, limit, collected)
    case Settled(_) =>
    case More(part) =>
      var end := HEADER_BYTES + |part|;
      assert (stream + tail)[end..] == stream[end..] + tail;
      ParseIgnoresTheTail(stream[end..], tail, limit, collected + part);
  }

  lemma FrameOfACut(stream: seq<Byte>, cut: nat, limit: Limit, collected: seq<Byte>)
    requires cut <= |stream|
    requires var step := ParseFrame(stream, limit, collected);
      step == Settled(Parsed(Failure(Ended), |stream|))
      || (step.Settled? && cut < step.parsed.used)
      || (step.More? && cut < HEADER_BYTES + |step.part|)
    ensures ParseFrame(stream[..cut], limit, collected) == Settled(Parsed(Failure(Ended), cut))
  {
    assert cut >= HEADER_BYTES ==> stream[..cut][..HEADER_BYTES] == stream[..HEADER_BYTES];
  }

  /** A stream cut before the end of what was used is a stream that ended, never another message. */
  lemma {:induction false} ParseOfACut(stream: seq<Byte>, cut: nat, limit: Limit, collected: seq<Byte>)
    requires cut < ParseFrom(stream, limit, collected).used
    ensures ParseFrom(stream[..cut], limit, collected) == Parsed(Failure(Ended), cut)
    decreases |stream|
  {
    var step := ParseFrame(stream, limit, collected);
    if step.More? && HEADER_BYTES + |step.part| <= cut {
      var end := HEADER_BYTES + |step.part|;
      assert ParseFrame(stream[..cut], limit, collected) == step by {
        assert stream[..cut][..HEADER_BYTES] == stream[..HEADER_BYTES];
        assert stream[..cut][HEADER_BYTES..end] == stream[HEADER_BYTES..end];
      }
      assert stream[..cut][end..] == stream[end..][..cut - end];
      ParseOfACut(stream[end..], cut - end, limit, collected + step.part);
    } else {
      FrameOfACut(stream, cut, limit, collected);
    }
  }

  // ---- Round trips -----------------------------------------------------------------------------

  lemma HeaderOfAFrame(kind: Byte, payload: seq<Byte>, tail: seq<Byte>)
    requires |payload| <= MAX_JSON_FRAME
    ensures var s := EncodeFrame(kind, payload) + tail;
      && FromBigEndian(s[..HEADER_BYTES][..4]) == 1 + |payload|
      && s[..HEADER_BYTES][4] == kind
      && s[HEADER_BYTES..HEADER_BYTES + |payload|] == payload
      && s[HEADER_BYTES + |payload|..] == tail
  {
    var s := EncodeFrame(kind, payload) + tail;
    Widths();
    assert s[..HEADER_BYTES][..4] == ToBigEndian(1 + |payload|, 4);
    BigEndianRoundTrip(1 + |payload|, 4);
  }

  predicate Gives(stream: seq<Byte>, limit: Limit, collected: seq<Byte>, parsed: Parsed) {
    ParseFrom(stream, limit, collected) == parsed
  }

  lemma AfterAPart(part: seq<Byte>, tail: seq<Byte>, limit: Limit, collected: seq<Byte>, parsed: Parsed)
    requires |part| <= MAX_JSON_FRAME <= limit.json && limit.message > 0
    requires |collected| + |part| <= limit.Largest()
    requires Gives(tail, limit, collected + part, parsed)
    ensures Gives(EncodeFrame(KIND_PART, part) + tail, limit, collected, Later(parsed, HEADER_BYTES + |part|))
  {
    HeaderOfAFrame(KIND_PART, part, tail);
    assert ParseFrame(EncodeFrame(KIND_PART, part) + tail, limit, collected) == More(part);
  }

  lemma PartBefore(frame: seq<Byte>, part: seq<Byte>, after: seq<Byte>, encoded: seq<Byte>, tail: seq<Byte>,
                   limit: Limit, collected: seq<Byte>)
    requires |part| <= MAX_JSON_FRAME <= limit.json && limit.message > 0
    requires |collected| + |part| <= limit.Largest() && frame == EncodeFrame(KIND_PART, part)
    requires Gives(encoded + tail, limit, collected + part,
      Parsed(Success(Json(collected + part + after)), |encoded|))
    ensures Gives(frame + encoded + tail, limit, collected,
      Parsed(Success(Json(collected + (part + after))), HEADER_BYTES + |part| + |encoded|))
  {
    AfterAPart(part, encoded + tail, limit, collected, Parsed(Success(Json(collected + part + after)), |encoded|));
    assert frame + encoded + tail == frame + (encoded + tail);
    assert collected + (part + after) == collected + part + after;
  }

  lemma FrameOfAMessage(json: seq<Byte>, tail: seq<Byte>, limit: Limit, collected: seq<Byte>)
    requires |json| <= MAX_JSON_FRAME && |json| <= limit.json
    requires |collected| + |json| <= limit.Largest()
    ensures ParseFrom(EncodeFrame(KIND_JSON, json) + tail, limit, collected)
         == Parsed(Success(Json(collected + json)), HEADER_BYTES + |json|)
  {
    HeaderOfAFrame(KIND_JSON, json, tail);
  }

  /** A message that goes out undivided or in parts comes back as itself, and nothing behind it is touched. */
  lemma {:induction false} JsonRoundTrip(json: seq<Byte>, tail: seq<Byte>, limit: Limit, collected: seq<Byte>)
    requires |collected| + |json| <= limit.Largest()
    requires if |json| <= MAX_JSON_FRAME then |json| <= limit.json
             else MAX_JSON_FRAME <= limit.json && limit.message > 0
    ensures Gives(EncodeJson(json) + tail, limit, collected,
      Parsed(Success(Json(collected + json)), |EncodeJson(json)|))
    decreases |json|
  {
    if |json| > MAX_JSON_FRAME {
      var part, after := json[..MAX_JSON_FRAME], json[MAX_JSON_FRAME..];
      JsonRoundTrip(after, tail, limit, collected + part);
      PartBefore(EncodeFrame(KIND_PART, part), part, after, EncodeJson(after), tail, limit, collected);
      assert part + after == json;
    } else {
      FrameOfAMessage(json, tail, limit, collected);
    }
  }

  lemma DataRoundTrip(offset: nat, bytes: seq<Byte>, tail: seq<Byte>, limit: Limit)
    requires limit.data
    requires |bytes| <= MAX_DATA_CHUNK
    ensures Parse(EncodeData(offset, bytes) + tail, limit)
         == Parsed(Success(Data(offset % 0x1_0000_0000_0000_0000, bytes)), |EncodeData(offset, bytes)|)
  {
    var s := EncodeData(offset, bytes) + tail;
    var payload := ToBigEndian(offset, OFFSET_BYTES) + bytes;
    HeaderOfAFrame(KIND_DATA, payload, tail);
    var start := HEADER_BYTES + OFFSET_BYTES;
    assert s[HEADER_BYTES..start] == payload[..OFFSET_BYTES] == ToBigEndian(offset, OFFSET_BYTES);
    assert s[start..start + |bytes|] == payload[OFFSET_BYTES..] == bytes;
    BigEndianWraps(offset, OFFSET_BYTES);
    Widths();
  }

  lemma PartIsRefusedWithoutParts(stream: seq<Byte>, part: seq<Byte>, tail: seq<Byte>, limit: Limit)
    requires |part| <= MAX_JSON_FRAME <= limit.json && limit.message == 0
    requires stream == EncodeFrame(KIND_PART, part) + tail
    ensures Parse(stream, limit) == Parsed(Failure(Breached(NoSplitHere)), HEADER_BYTES)
  {
    HeaderOfAFrame(KIND_PART, part, tail);
  }

  lemma Regrouped(front: seq<Byte>, behind: seq<Byte>, tail: seq<Byte>)
    ensures (front + behind) + tail == front + (behind + tail)
  {
  }

  /** A divided message is refused where none is allowed, by its first header alone. */
  lemma SplitRequestIsRefused(json: seq<Byte>, tail: seq<Byte>, limit: Limit)
    requires |json| > MAX_JSON_FRAME && limit.message == 0 && limit.json >= MAX_JSON_FRAME
    ensures Parse(EncodeJson(json) + tail, limit) == Parsed(Failure(Breached(NoSplitHere)), HEADER_BYTES)
  {
    var part, behind := json[..MAX_JSON_FRAME], EncodeJson(json[MAX_JSON_FRAME..]);
    Regrouped(EncodeFrame(KIND_PART, part), behind, tail);
    PartIsRefusedWithoutParts(EncodeJson(json) + tail, part, behind + tail, limit);
  }

  // ---- Hostile streams ---------------------------------------------------------------------------

  /** What is handed on stays below the limit, on every stream there is. */
  lemma {:induction false} InboxIsBounded(stream: seq<Byte>, limit: Limit, collected: seq<Byte>)
    ensures match ParseFrom(stream, limit, collected).outcome
      case Success(Json(json)) => |json| <= limit.Largest()
      case Success(Data(_, bytes)) => limit.data && |bytes| <= MAX_DATA_CHUNK
      case Failure(_) => true
    decreases |stream|
  {
    match ParseFrame(stream, limit, collected)
    case Settled(_) =>
    case More(part) => InboxIsBounded(stream[HEADER_BYTES + |part|..], limit, collected + part);
  }

  /** Where no parts are allowed, at most one frame is ever looked at, and a refused one only by its header. */
  lemma OneFrameWithoutParts(stream: seq<Byte>, limit: Limit)
    requires limit.message == 0
    ensures var p := Parse(stream, limit);
      match p.outcome
      case Success(Json(json)) => p.used == HEADER_BYTES + |json| && stream[HEADER_BYTES..p.used] == json
      case Success(Data(_, bytes)) => p.used == HEADER_BYTES + OFFSET_BYTES + |bytes|
      case Failure(Breached(_)) => p.used == HEADER_BYTES
      case Failure(Ended) => |stream| < HEADER_BYTES + OFFSET_BYTES + limit.Ceiling()
  {
  }

  /**
  The header alone decides a refusal, even when the announced payload never comes: an announced
  length above the limit for JSON is refused whatever the other bytes are.
  */
  lemma OversizedHeaderIsRefused(length: nat, tail: seq<Byte>, limit: Limit)
    requires limit.json + 1 < length < 0x1_0000_0000
    ensures Parse(ToBigEndian(length, 4) + [KIND_JSON] + tail, limit)
         == Parsed(Failure(Breached(FrameTooLong)), HEADER_BYTES)
  {
    var s := ToBigEndian(length, 4) + [KIND_JSON] + tail;
    assert s[..HEADER_BYTES][..4] == ToBigEndian(length, 4);
    Widths();
    BigEndianRoundTrip(length, 4);
  }

  /** The frames that may stand behind `collected` bytes of parts. */
  predicate MayStand(kind: Byte, payload: nat, limit: Limit, collected: seq<Byte>) {
    if kind == KIND_JSON then payload <= limit.json && |collected| + payload <= limit.Largest()
    else if kind == KIND_PART then
      limit.message > 0 && payload <= limit.json && |collected| + payload <= limit.Largest()
    else if kind == KIND_DATA then
      limit.data && collected == [] && OFFSET_BYTES <= payload <= OFFSET_BYTES + MAX_DATA_CHUNK
    else false
  }

  ghost predicate IsRefused(step: Step) {
    step.Settled? && step.parsed.outcome.Failure? && step.parsed.outcome.error.Breached?
  }

  /** Every oversized or misplaced frame is refused, by its five header bytes alone, and no other frame is. */
  lemma HeaderAloneRefuses(stream: seq<Byte>, limit: Limit, collected: seq<Byte>)
    ensures IsRefused(ParseFrame(stream, limit, collected)) <==>
      && |stream| >= HEADER_BYTES
      && (FromBigEndian(stream[..4]) == 0
          || !MayStand(stream[4], FromBigEndian(stream[..4]) - 1, limit, collected))
    ensures IsRefused(ParseFrame(stream, limit, collected)) ==>
      ParseFrame(stream, limit, collected).parsed.used == HEADER_BYTES
  {
    if |stream| >= HEADER_BYTES { assert stream[..HEADER_BYTES][..4] == stream[..4]; }
  }

  function PartFrames(parts: seq<seq<Byte>>): seq<seq<Byte>> {
    seq(|parts|, i requires 0 <= i < |parts| => EncodeFrame(KIND_PART, parts[i]))
  }

  lemma PartIsItsFrame(stream: seq<Byte>, limit: Limit, collected: seq<Byte>)
    requires ParseFrame(stream, limit, collected).More?
    ensures var part := ParseFrame(stream, limit, collected).part;
      stream[..HEADER_BYTES + |part|] == EncodeFrame(KIND_PART, part)
  {
    var part := ParseFrame(stream, limit, collected).part;
    assert stream[..HEADER_BYTES][..4] == stream[..4];
    HeaderBack(stream[..4], 4, 1 + |part|);
    assert stream[..HEADER_BYTES + |part|] == stream[..4] + [stream[4]] + part;
  }

  lemma HeaderBack(bytes: seq<Byte>, width: nat, length: nat)
    requires |bytes| == width && FromBigEndian(bytes) == length
    ensures ToBigEndian(length, width) == bytes
  {
    BigEndianDecodes(bytes);
  }

  /** What stands in front of the frame that is refused: whole parts, and nothing of it but its header is used. */
  ghost predicate RefusedBehind(stream: seq<Byte>, limit: Limit, collected: seq<Byte>, parts: seq<seq<Byte>>,
                                used: nat) {
    var front := Joined(PartFrames(parts));
    && used == |front| + HEADER_BYTES <= |stream|
    && front <= stream
    && IsRefused(ParseFrame(stream[|front|..], limit, collected + Joined(parts)))
  }

  /** On every stream a refusal has used whole parts, and then exactly the header of the frame it refuses. */
  lemma {:induction false} BreachUsesPartsAndAHeader(stream: seq<Byte>, limit: Limit, collected: seq<Byte>)
    returns (parts: seq<seq<Byte>>)
    requires ParseFrom(stream, limit, collected).outcome.Failure?
    requires ParseFrom(stream, limit, collected).outcome.error.Breached?
    ensures RefusedBehind(stream, limit, collected, parts, ParseFrom(stream, limit, collected).used)
    decreases |stream|
  {
    HeaderAloneRefuses(stream, limit, collected);
    match ParseFrame(stream, limit, collected)
    case Settled(_) =>
      parts := [];
      assert PartFrames([]) == [] && collected + [] == collected && stream[0..] == stream;
    case More(part) =>
      var rest := stream[HEADER_BYTES + |part|..];
      var others := BreachUsesPartsAndAHeader(rest, limit, collected + part);
      PartIsItsFrame(stream, limit, collected);
      parts := [part] + others;
      PartInFront(stream, limit, collected, part, others, ParseFrom(rest, limit, collected + part).used);
  }

  lemma PartInFront(
    stream: seq<Byte>, limit: Limit, collected: seq<Byte>, part: seq<Byte>, others: seq<seq<Byte>>, used: nat)
    requires |stream| >= HEADER_BYTES + |part|
    requires stream[..HEADER_BYTES + |part|] == EncodeFrame(KIND_PART, part)
    requires RefusedBehind(stream[HEADER_BYTES + |part|..], limit, collected + part, others, used)
    ensures RefusedBehind(stream, limit, collected, [part] + others, used + HEADER_BYTES + |part|)
  {
    var frame, behind := EncodeFrame(KIND_PART, part), Joined(PartFrames(others));
    var rest := stream[HEADER_BYTES + |part|..];
    assert PartFrames([part] + others) == [frame] + PartFrames(others);
    JoinedOfBoth([frame], PartFrames(others));
    JoinedOfBoth([part], others);
    JoinedBehind([], frame);
    JoinedBehind([], part);
    assert [] + [frame] == [frame] && [] + [part] == [part] && [] + frame == frame && [] + part == part;
    assert stream == frame + rest && rest == behind + rest[|behind|..];
    assert stream[|frame + behind|..] == rest[|behind|..];
    assert collected + part + Joined(others) == collected + (part + Joined(others));
  }

  /**
  A data chunk after parts is refused as "mid message" exactly when the parts carried a byte: an
  empty part leaves nothing collected, and the chunk behind it passes.
  */
  lemma DataAfterAPart(part: seq<Byte>, offset: nat, bytes: seq<Byte>)
    requires |part| <= MAX_JSON_FRAME
    requires |bytes| <= MAX_DATA_CHUNK
    ensures var p := Parse(EncodeFrame(KIND_PART, part) + EncodeData(offset, bytes), CONTENT);
      && (p.outcome == Failure(Breached(DataMidMessage)) <==> part != [])
      && (p.outcome.Success? <==> part == [])
  {
    var data := EncodeData(offset, bytes);
    AfterAPart(part, data, CONTENT, [], ParseFrom(data, CONTENT, [] + part));
    assert [] + part == part;
    DataMidMessageIsRefused(offset, bytes, part);
    DataRoundTrip(offset, bytes, [], CONTENT);
    assert data + [] == data;
  }

  lemma DataMidMessageIsRefused(offset: nat, bytes: seq<Byte>, collected: seq<Byte>)
    requires |bytes| <= MAX_DATA_CHUNK
    ensures collected != []
      ==> ParseFrom(EncodeData(offset, bytes), CONTENT, collected).outcome == Failure(Breached(DataMidMessage))
  {
    var payload := ToBigEndian(offset, OFFSET_BYTES) + bytes;
    HeaderOfAFrame(KIND_DATA, payload, []);
    assert EncodeData(offset, bytes) + [] == EncodeData(offset, bytes);
  }
}
