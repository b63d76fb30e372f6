/** Length-prefixed IPC frames over byte streams that may break or end anywhere. */
module Framing {
  import opened Basics
  import opened Protocol
  import BigEndian
  import Order
  import Network

  const MAX_IPC_FRAME_BYTES: nat := 6 * 1024 * 1024

  datatype FramingError = Io | Refused(error: ProtocolError) | Closed

  /** The writing half of a connection: what got through, and how many more bytes will. */
  datatype SinkState = SinkState(written: Bytes, room: nat)

  function Accept(s: SinkState, data: Bytes): SinkState {
    if |data| <= s.room then SinkState(s.written + data, s.room - |data|)
    else SinkState(s.written + data[..s.room], 0)
  }

  predicate Fits(payload: Bytes) {
    0 < |payload| <= MAX_IPC_FRAME_BYTES
  }

  function Frame(payload: Bytes): Bytes {
    BigEndian.ToBytes(|payload|, 4) + payload
  }

  function WriteResult(s: SinkState, payload: Bytes): Result<(), FramingError> {
    if |payload| > MAX_IPC_FRAME_BYTES then Err(Refused(FrameTooLarge(MAX_IPC_FRAME_BYTES, |payload|)))
    else if |Frame(payload)| <= s.room then Ok(())
    else Err(Io)
  }

  function AfterWrite(s: SinkState, payload: Bytes): SinkState {
    if |payload| > MAX_IPC_FRAME_BYTES then s else Accept(s, Frame(payload))
  }

  class ByteSink {
    var written: Bytes
    var room: nat   // unknown to the program: bytes the peer takes before the connection breaks

    constructor (room: nat)
      ensures State() == SinkState([], room)
    {
      written, this.room := [], room;
    }

    ghost function State(): SinkState
      reads this
    {
      SinkState(written, room)
    }

    method WriteAll(data: Bytes) returns (ok: bool)
      modifies this
      ensures State() == Accept(old(State()), data)
      ensures ok <==> |data| <= old(room)
    {
      ok := |data| <= room;
      var taken := if ok then |data| else room;
      assert ok ==> data[..taken] == data;
      written := written + data[..taken];
      room := room - taken;
    }
  }

  class ByteSource {
    var rest: Bytes

    constructor (bytes: Bytes)
      ensures rest == bytes
    {
      rest := bytes;
    }

    /** Takes exactly `n` bytes, or runs into the end of the stream. */
    method ReadExact(n: nat) returns (r: Option<Bytes>)
      modifies this
      ensures |old(rest)| < n ==> r == None && rest == []
      ensures |old(rest)| >= n ==> r == Some(old(rest)[..n]) && rest == old(rest)[n..]
    {
      if |rest| < n {
        rest := [];
        return None;
      }
      r := Some(rest[..n]);
      rest := rest[n..];
    }
  }

  method WriteFrame(w: ByteSink, payload: Bytes) returns (r: Result<(), FramingError>)
    modifies w
    ensures r == WriteResult(old(w.State()), payload)
    ensures w.State() == AfterWrite(old(w.State()), payload)
  {
    if |payload| > MAX_IPC_FRAME_BYTES {
      return Err(Refused(FrameTooLarge(MAX_IPC_FRAME_BYTES, |payload|)));
    }
    ghost var s0 := w.State();
    var header := BigEndian.ToBytes(|payload|, 4);
    var ok := w.WriteAll(header);
    if ok {
      ok := w.WriteAll(payload);
    }
    AcceptTwice(s0, header, payload);
    return if ok then Ok(()) else Err(Io);
  }

  lemma {:induction false} AcceptTwice(s: SinkState, a: Bytes, b: Bytes)
    ensures Accept(s, a + b) == if |a| <= s.room then Accept(Accept(s, a), b) else Accept(s, a)
  {
    if |a| <= s.room {
      if |a + b| > s.room {
        assert (a + b)[..s.room] == a + b[..s.room - |a|];
      }
      assert s.written + (a + b) == (s.written + a) + b;
    } else {
      assert (a + b)[..s.room] == a[..s.room];
    }
  }

  /** What one read gives on the bytes of a stream, and what it leaves. */
  function ReadOne(b: Bytes): (Result<Bytes, FramingError>, Bytes) {
    if |b| < 4 then (Err(Closed), [])
    else
      var len := Network.DecodeLengthPrefix(b[..4], MAX_IPC_FRAME_BYTES);
      if len.Err? then (Err(Refused(len.error)), b[4..])
      else if |b| - 4 < len.value then (Err(Io), [])
      else (Ok(b[4..4 + len.value]), b[4 + len.value..])
  }

  method ReadFrame(src: ByteSource) returns (r: Result<Bytes, FramingError>)
    modifies src
    ensures (r, src.rest) == ReadOne(old(src.rest))
  {
    var header := src.ReadExact(4);
    if header.None? {
      return Err(Closed);
    }
    var len := Network.DecodeLengthPrefix(header.value, MAX_IPC_FRAME_BYTES);
    if len.Err? {
      return Err(Refused(len.error));
    }
    var body := src.ReadExact(len.value);
    if body.None? {
      return Err(Io);
    }
    assert old(src.rest)[4..][..len.value] == old(src.rest)[4..4 + len.value];
    assert old(src.rest)[4..][len.value..] == old(src.rest)[4 + len.value..];
    return Ok(body.value);
  }

  /** Reading frame after frame until the first error, as both read loops do. */
  function ReadAll(b: Bytes): seq<Bytes>
    decreases |b|
  {
    var (r, rest) := ReadOne(b);
    if r.Err? then [] else [r.value] + ReadAll(rest)
  }

  function Frames(payloads: seq<Bytes>): Bytes {
    if payloads == [] then [] else Frame(payloads[0]) + Frames(payloads[1..])
  }

  ghost predicate AllFit(payloads: seq<Bytes>) {
    forall i :: 0 <= i < |payloads| ==> Fits(payloads[i])
  }

  /** `p` is the beginning of some frame, short of its end. */
  ghost predicate Partial(p: Bytes) {
    exists payload :: PartOf(p, payload)
  }

  ghost predicate PartOf(p: Bytes, payload: Bytes) {
    Fits(payload) && |p| < |Frame(payload)| && p == Frame(payload)[..|p|]
  }

  lemma {:induction false} ReadOneFrame(payload: Bytes, more: Bytes)
    requires Fits(payload)
    ensures ReadOne(Frame(payload) + more) == (Ok(payload), more)
  {
    hide BigEndian.ToBytes, BigEndian.FromBytes;
    BigEndian.Limits();
    BigEndian.RoundTrip(|payload|, 4);
    var b := Frame(payload) + more;
    assert b[..4] == BigEndian.ToBytes(|payload|, 4);
    assert b[4..4 + |payload|] == payload;
    assert b[4 + |payload|..] == more;
  }

  lemma {:induction false} PartialGivesNothing(p: Bytes)
    requires Partial(p)
    ensures ReadOne(p).0.Err? && ReadAll(p) == []
  {
    hide BigEndian.ToBytes, BigEndian.FromBytes;
    var payload :| PartOf(p, payload);
    BigEndian.Limits();
    BigEndian.RoundTrip(|payload|, 4);
    if |p| >= 4 {
      assert p[..4] == BigEndian.ToBytes(|payload|, 4);
    }
  }

  /** Reading back a stream of whole frames and a torn one gives exactly the whole ones. */
  lemma {:induction false} ReadBack(payloads: seq<Bytes>, tail: Bytes)
    requires AllFit(payloads) && Partial(tail)
    ensures ReadAll(Frames(payloads) + tail) == payloads
  {
    hide Frame, ReadOne;
    if payloads == [] {
      PartialGivesNothing(tail);
      assert Frames(payloads) + tail == tail;
    } else {
      var more := Frames(payloads[1..]) + tail;
      assert Frames(payloads) + tail == Frame(payloads[0]) + more;
      ReadOneFrame(payloads[0], more);
      ReadBack(payloads[1..], tail);
    }
  }

  lemma {:induction false} EmptyIsPartial()
    ensures Partial([])
  {
    assert PartOf([], [0]);
  }

  /** Cutting such a stream anywhere leaves a stream of the same shape. */
  lemma {:induction false} CutStream(payloads: seq<Bytes>, tail: Bytes, k: nat) returns (n: nat, tail': Bytes)
    requires AllFit(payloads) && Partial(tail)
    requires k <= |Frames(payloads) + tail|
    ensures n <= |payloads| && Partial(tail')
    ensures (Frames(payloads) + tail)[..k] == Frames(payloads[..n]) + tail'
  {
    hide Frame;
    if payloads == [] {
      var payload :| PartOf(tail, payload);
      n, tail' := 0, tail[..k];
      assert PartOf(tail', payload) by { ShorterPart(tail, payload, k); }
      assert (Frames(payloads) + tail)[..k] == Frames(payloads[..0]) + tail';
    } else {
      var first, more := Frame(payloads[0]), Frames(payloads[1..]) + tail;
      assert Frames(payloads) + tail == first + more;
      if k < |first| {
        n, tail' := 0, first[..k];
        assert PartOf(tail', payloads[0]);
        assert (first + more)[..k] == Frames(payloads[..0]) + tail';
      } else {
        var m;
        m, tail' := CutStream(payloads[1..], tail, k - |first|);
        n := m + 1;
        assert payloads[..n][1..] == payloads[1..][..m];
        assert (first + more)[..k] == first + more[..k - |first|];
      }
    }
  }

  lemma {:induction false} ShorterPart(tail: Bytes, payload: Bytes, k: nat)
    requires PartOf(tail, payload) && k <= |tail|
    ensures PartOf(tail[..k], payload)
  {}

  /** Any prefix of the stream reads as a prefix of the payloads. */
  lemma {:induction false} PrefixReadsPrefix(payloads: seq<Bytes>, tail: Bytes, k: nat)
    requires AllFit(payloads) && Partial(tail)
    requires k <= |Frames(payloads) + tail|
    ensures ReadAll((Frames(payloads) + tail)[..k]) <= payloads
  {
    var n, tail' := CutStream(payloads, tail, k);
    ReadBack(payloads[..n], tail');
  }

  lemma {:induction false} FramesAppend(payloads: seq<Bytes>, p: Bytes)
    ensures Frames(payloads + [p]) == Frames(payloads) + Frame(p)
  {
    hide Frame;
    if payloads == [] {
      assert Frames([p]) == Frame(p);
    } else {
      FramesAppend(payloads[1..], p);
      assert (payloads + [p])[1..] == payloads[1..] + [p];
    }
  }

  /** Each way in which a read fails, and exactly when: a stream that ends within the header, a length of
      zero, a length over the limit (none of its body is read), a stream that ends within the body. */
  lemma {:induction false} ReadRefusals(b: Bytes)
    ensures ReadOne(b).0 == Err(Closed) <==> |b| < 4
    ensures ReadOne(b).0 == Err(Refused(EmptyFrame)) <==> |b| >= 4 && b[..4] == [0, 0, 0, 0]
    ensures |b| >= 4 && Order.LexLess(BigEndian.ToBytes(MAX_IPC_FRAME_BYTES, 4), b[..4]) ==>
              ReadOne(b).0.Err? && ReadOne(b).0.error.Refused? && ReadOne(b).1 == b[4..]
    ensures ReadOne(b).0 == Err(Io) ==> |b| >= 4 && |b| - 4 < BigEndian.FromBytes(b[..4]) <= MAX_IPC_FRAME_BYTES
    ensures ReadOne(b).0.Ok? ==>
              b[..4] == BigEndian.ToBytes(|ReadOne(b).0.value|, 4) && b == b[..4] + ReadOne(b).0.value + ReadOne(b).1
  {
    hide Order.LexLess, BigEndian.ToBytes, BigEndian.FromBytes;
    if |b| >= 4 {
      Network.LengthPrefixRefusals(b[..4], MAX_IPC_FRAME_BYTES);
      var len := Network.DecodeLengthPrefix(b[..4], MAX_IPC_FRAME_BYTES);
      if len.Ok? && |b| - 4 >= len.value {
        assert b == b[..4] + b[4..4 + len.value] + b[4 + len.value..];
      }
    }
  }
}
