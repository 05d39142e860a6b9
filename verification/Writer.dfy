/** Writing frames onto a line that may fail in the middle of any of them. */
module Writer {
  import opened Wrappers
  import opened Bytes
  import opened Frame
  import opened Reader

  /**
  A line on its sending side. `takes(n)` is how many bytes the n-th write gets out before it fails;
  a write no longer than that succeeds. A write after a failed one may succeed again, so that
  keeping silent after a failure is the sender's own doing: `late` says that it did not.
  */
  class Line {
    const takes: nat -> nat
    var writes: nat
    var sent: seq<Byte>
    var failed: bool
    ghost var late: bool

    constructor (takes: nat -> nat)
      ensures this.takes == takes && sent == [] && !failed && !late
    {
      this.takes, writes, sent, failed, late := takes, 0, [], false, false;
    }

    method WriteAll(bytes: seq<Byte>) returns (ok: bool)
      modifies this
      ensures ok ==> sent == old(sent) + bytes && failed == old(failed)
      ensures !ok ==> failed && old(sent) <= sent < old(sent) + bytes
      ensures late == (old(late) || old(failed))
      ensures ok <==> |bytes| <= takes(old(writes))
      ensures writes == old(writes) + 1
    {
      var n := Min(takes(writes), |bytes|);
      sent, writes, late := sent + bytes[..n], writes + 1, late || failed;
      assert n == |bytes| ==> bytes[..n] == bytes;
      ok := n == |bytes|;
      failed := failed || !ok;
    }
  }

  /** The longest frame either side ever writes. */
  const LARGEST_FRAME: nat := HEADER_BYTES + MAX_JSON_FRAME

  datatype WriteError = TooLarge(size: nat) | BrokenLine

  /** What is on the line after a write of `bytes`: all of it, or a proper prefix when the line broke. */
  twostate predicate Wrote(line: Line, bytes: seq<Byte>, ok: bool)
    reads line
  {
    && (if ok then line.sent == old(line.sent) + bytes && line.failed == old(line.failed)
        else line.failed && old(line.sent) <= line.sent < old(line.sent) + bytes)
    && (!old(line.failed) ==> line.late == old(line.late))
    && old(line.writes) <= line.writes
  }

  /** The last write was made since then, and the line would not take a whole frame in it. */
  twostate predicate FellShort(line: Line)
    reads line
  {
    old(line.writes) < line.writes && line.takes(line.writes - 1) < LARGEST_FRAME
  }

  method WriteFrame(line: Line, kind: Byte, payload: seq<Byte>) returns (r: Result<(), WriteError>)
    requires |payload| < 0xFFFF_FFFF
    modifies line
    ensures r.Success? || r.error.BrokenLine?
    ensures line.writes == old(line.writes) + 1
    ensures r.Success? <==> HEADER_BYTES + |payload| <= line.takes(old(line.writes))
    ensures Wrote(line, EncodeFrame(kind, payload), r.Success?)
  {
    var ok := line.WriteAll(ToBigEndian(1 + |payload|, 4) + [kind] + payload);
    r := if ok then Success(()) else Failure(BrokenLine);
  }

  method WriteJson(line: Line, json: seq<Byte>) returns (r: Result<(), WriteError>)
    modifies line
    ensures r == Failure(TooLarge(|json|)) <==> |json| > MAX_MESSAGE
    ensures r.Failure? && r.error.TooLarge? ==> |json| > MAX_MESSAGE && unchanged(line)
    ensures |json| <= MAX_MESSAGE ==> Wrote(line, EncodeJson(json), r.Success?)
    ensures r == Failure(BrokenLine) ==> FellShort(line)
  {
    if |json| > MAX_MESSAGE { return Failure(TooLarge(|json|)); }
    var rest := json;
    ghost var done: seq<Byte> := [];
    while |rest| > MAX_JSON_FRAME
      invariant |rest| <= |json|
      invariant done + EncodeJson(rest) == EncodeJson(json)
      invariant Wrote(line, done, true)
    {
      ghost var frame, after := EncodeFrame(KIND_PART, rest[..MAX_JSON_FRAME]), EncodeJson(rest[MAX_JSON_FRAME..]);
      OneFrameFurther(old(line.sent), done, frame, after);
      r := WriteFrame(line, KIND_PART, rest[..MAX_JSON_FRAME]);
      if r.Failure? { return; }
      rest, done := rest[MAX_JSON_FRAME..], done + frame;
    }
    OneFrameFurther(old(line.sent), done, EncodeJson(rest), []);
    r := WriteFrame(line, KIND_JSON, rest);
  }

  lemma OneFrameFurther(before: seq<Byte>, done: seq<Byte>, frame: seq<Byte>, after: seq<Byte>)
    ensures before + done + frame == before + (done + frame)
    ensures done + (frame + after) == done + frame + after
    ensures before + (done + frame) <= before + (done + (frame + after))
    ensures after == [] ==> frame + after == frame
  {
  }

  method WriteData(line: Line, offset: nat, data: seq<Byte>) returns (r: Result<(), WriteError>)
    modifies line
    ensures r.Failure? && r.error.TooLarge? <==> |data| > MAX_DATA_CHUNK
    ensures |data| > MAX_DATA_CHUNK ==> unchanged(line)
    ensures |data| <= MAX_DATA_CHUNK ==> Wrote(line, EncodeData(offset, data), r.Success?)
    ensures r == Failure(BrokenLine) ==> FellShort(line)
  {
    if |data| > MAX_DATA_CHUNK { return Failure(TooLarge(|data|)); }
    r := WriteFrame(line, KIND_DATA, ToBigEndian(offset, OFFSET_BYTES) + data);
  }
}
