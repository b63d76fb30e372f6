/** Wire envelopes between daemons: the Postcard layout of all eight bodies, the length-prefixed
    frame and its two size limits. */
module Network {
  import opened Basics
  import opened Postcard
  import opened Protocol
  import BigEndian
  import Order
  import Utf8

  const MAX_TEXT_BYTES: nat := 5 * 1024 * 1024
  const MAX_WIRE_FRAME_BYTES: nat := 6 * 1024 * 1024

  datatype NetworkBody =
    | Text(messageId: Uuid, senderEndpointId: string, sentAt: Int64, text: string)
    | Ack(ackedId: Uuid, acknowledged: bool, ackError: Option<string>)
    | Ping
    | Pong
    | PairRequest(inviteSecret: Bytes32, joinerEndpointId: string, joinerDisplayName: string,
                  joinerDeviceName: string, joinerNonce: Bytes32)
    | PairDecision(accepted: bool, inviterNonce: Bytes32, inviterDisplayName: string,
                   inviterDeviceName: string, errorCode: Option<string>)
    | PairConfirm(confirmed: bool)
    | Error(code: string, message: string)

  datatype Envelope = Envelope(version: U16, requestId: Uuid, body: NetworkBody)

  // ----------------------------------------------------------------------------------- the layout

  function PutBody(v: NetworkBody, rest: Bytes): Bytes {
    match v
    case Text(id, from, at, text) => [0] + PutUuid(id, PutString(from, PutI64(at, PutString(text, rest))))
    case Ack(id, ok, error) => [1] + PutUuid(id, PutBool(ok, PutOptionalString(error, rest)))
    case Ping => [2] + rest
    case Pong => [3] + rest
    case PairRequest(secret, id, name, device, nonce) =>
      [4] + (secret + PutString(id, PutString(name, PutString(device, nonce + rest))))
    case PairDecision(ok, nonce, name, device, error) =>
      [5] + PutBool(ok, nonce + PutString(name, PutString(device, PutOptionalString(error, rest))))
    case PairConfirm(ok) => [6] + PutBool(ok, rest)
    case Error(code, message) => [7] + PutString(code, PutString(message, rest))
  }

  function GetText(b: Bytes): Parse<NetworkBody> {
    var (id, b) :- GetUuid(b);
    var (from, b) :- GetString(b);
    var (at, b) :- GetI64(b);
    var (text, b) :- GetString(b);
    Good(Text(id, from, at, text), b)
  }

  function GetAck(b: Bytes): Parse<NetworkBody> {
    var (id, b) :- GetUuid(b);
    var (ok, b) :- GetBool(b);
    var (error, b) :- GetOptionalString(b);
    Good(Ack(id, ok, error), b)
  }

  function GetPairRequest(b: Bytes): Parse<NetworkBody> {
    var (secret, b) :- Get32(b);
    var (id, b) :- GetString(b);
    var (name, b) :- GetString(b);
    var (device, b) :- GetString(b);
    var (nonce, b) :- Get32(b);
    Good(PairRequest(secret, id, name, device, nonce), b)
  }

  function GetPairDecision(b: Bytes): Parse<NetworkBody> {
    var (ok, b) :- GetBool(b);
    var (nonce, b) :- Get32(b);
    var (name, b) :- GetString(b);
    var (device, b) :- GetString(b);
    var (error, b) :- GetOptionalString(b);
    Good(PairDecision(ok, nonce, name, device, error), b)
  }

  function GetPairConfirm(b: Bytes): Parse<NetworkBody> {
    var (ok, b) :- GetBool(b);
    Good(PairConfirm(ok), b)
  }

  function GetError(b: Bytes): Parse<NetworkBody> {
    var (code, b) :- GetString(b);
    var (message, b) :- GetString(b);
    Good(Error(code, message), b)
  }

  function GetBody(b: Bytes): Parse<NetworkBody> {
    var (tag, b) :- GetU32(b);
    match tag
    case 0 => GetText(b)
    case 1 => GetAck(b)
    case 2 => Good(Ping, b)
    case 3 => Good(Pong, b)
    case 4 => GetPairRequest(b)
    case 5 => GetPairDecision(b)
    case 6 => GetPairConfirm(b)
    case 7 => GetError(b)
    case _ => Bad
  }

  function PutEnvelope(e: Envelope, rest: Bytes): Bytes {
    PutVarint(e.version, PutUuid(e.requestId, PutBody(e.body, rest)))
  }

  function GetEnvelope(b: Bytes): Parse<Envelope> {
    VersionInRange(b);
    var (version, b) :- GetU16(b);
    var (id, b) :- GetUuid(b);
    var (body, b) :- GetBody(b);
    Good(Envelope(version, id, body), b)
  }

  lemma {:induction false} VersionInRange(b: Bytes)
    ensures GetU16(b).Good? ==> GetU16(b).value < 0x1_0000
  {
    Limits();
    if GetU16(b).Good? { VarintInRange(b, 3, 3); }
  }

  // ------------------------------------------------------------------------------------- the frame

  function Contents(e: Envelope): Bytes {
    PutEnvelope(e, [])
  }

  function Framed(e: Envelope): Result<Bytes, ProtocolError> {
    var body := Contents(e);
    if |body| > MAX_WIRE_FRAME_BYTES then Err(FrameTooLarge(MAX_WIRE_FRAME_BYTES, |body|))
    else Ok(BigEndian.ToBytes(|body|, 4) + body)
  }

  method EncodeFramed(e: Envelope) returns (r: Result<Bytes, ProtocolError>)
    ensures r == Framed(e)
  {
    hide PutEnvelope, BigEndian.ToBytes;
    var body := PutEnvelope(e, []);
    if |body| > MAX_WIRE_FRAME_BYTES {
      return Err(FrameTooLarge(MAX_WIRE_FRAME_BYTES, |body|));
    }
    var framed: Bytes := [];
    framed := framed + BigEndian.ToBytes(|body|, 4);
    framed := framed + body;
    assert framed == BigEndian.ToBytes(|body|, 4) + body;
    return Ok(framed);
  }

  function DecodeBody(b: Bytes): Result<Envelope, ProtocolError> {
    if b == [] then Err(EmptyFrame)
    else if |b| > MAX_WIRE_FRAME_BYTES then Err(FrameTooLarge(MAX_WIRE_FRAME_BYTES, |b|))
    else
      var parsed := GetEnvelope(b);
      if parsed.Bad? then Err(MalformedFrame)
      else if parsed.value.version != NETWORK_PROTOCOL_VERSION then
        Err(UnsupportedVersion(parsed.value.version, NETWORK_PROTOCOL_VERSION))
      else Ok(parsed.value)
  }

  function DecodeLengthPrefix(header: Bytes, max: nat): Result<nat, ProtocolError>
    requires |header| == 4
  {
    var len := BigEndian.FromBytes(header);
    if len == 0 then Err(EmptyFrame)
    else if len > max then Err(FrameTooLarge(max, len))
    else Ok(len)
  }

  function ValidateTextLen(text: string): Result<(), ProtocolError> {
    var len := |Utf8.Encode(text)|;
    if len > MAX_TEXT_BYTES then Err(TextTooLarge(MAX_TEXT_BYTES, len)) else Ok(())
  }

  /** Why a stream could not give an envelope: it ended early, or its bytes were refused. */
  datatype ReadError = StreamEnded | Refused(error: ProtocolError)

  /** `read_envelope` on the bytes of a stream, with the bytes it leaves unread. */
  function ReadEnvelope(stream: Bytes): Result<(Envelope, Bytes), ReadError> {
    if |stream| < 4 then Err(StreamEnded)
    else
      var len := DecodeLengthPrefix(stream[..4], MAX_WIRE_FRAME_BYTES);
      if len.Err? then Err(Refused(len.error))
      else if |stream| - 4 < len.value then Err(StreamEnded)
      else
        var e := DecodeBody(stream[4..4 + len.value]);
        if e.Err? then Err(Refused(e.error)) else Ok((e.value, stream[4 + len.value..]))
  }

  // ----------------------------------------------------------------------------- sizes of the bodies

  function BodySize(v: NetworkBody): nat {
    match v
    case Text(_, from, at, text) => 18 + StringSize(from) + |PutVarint(ZigZag(at), [])| + StringSize(text)
    case Ack(_, _, error) => 19 + OptionalSize(error)
    case Ping => 1
    case Pong => 1
    case PairRequest(_, id, name, device, _) => 65 + StringSize(id) + StringSize(name) + StringSize(device)
    case PairDecision(_, _, name, device, error) => 34 + StringSize(name) + StringSize(device) + OptionalSize(error)
    case PairConfirm(_) => 2
    case Error(code, message) => 1 + StringSize(code) + StringSize(message)
  }

  lemma {:induction false} BodyLength(v: NetworkBody, rest: Bytes)
    ensures |PutBody(v, rest)| == BodySize(v) + |rest|
  {
    hide PutString, StringSize, PutVarint, PutUuid, PutOptionalString, OptionalSize;
    match v
    case Text(id, from, at, text) =>
      var r3 := PutString(text, rest);
      var r2 := PutI64(at, r3);
      StringLength(text, rest);
      VarintLength(ZigZag(at), r3);
      StringLength(from, r2);
      UuidLength(id, PutString(from, r2));
    case Ack(id, ok, error) =>
      OptionalLength(error, rest);
      UuidLength(id, PutBool(ok, PutOptionalString(error, rest)));
    case Ping =>
    case Pong =>
    case PairRequest(secret, id, name, device, nonce) =>
      var r2 := PutString(device, nonce + rest);
      StringLength(device, nonce + rest);
      StringLength(name, r2);
      StringLength(id, PutString(name, r2));
    case PairDecision(ok, nonce, name, device, error) =>
      var r2 := PutOptionalString(error, rest);
      OptionalLength(error, rest);
      StringLength(device, r2);
      StringLength(name, PutString(device, r2));
    case PairConfirm(ok) =>
    case Error(code, message) =>
      StringLength(message, rest);
      StringLength(code, PutString(message, rest));
  }

  lemma {:induction false} EnvelopeLength(e: Envelope, rest: Bytes)
    ensures |PutEnvelope(e, rest)| == |PutVarint(e.version, [])| + 17 + BodySize(e.body) + |rest|
    ensures |PutEnvelope(e, rest)| > 0
  {
    hide PutUuid, BodySize, PutBody;
    BodyLength(e.body, rest);
    UuidLength(e.requestId, PutBody(e.body, rest));
    VarintLength(e.version, PutUuid(e.requestId, PutBody(e.body, rest)));
  }

  // -------------------------------------------------------------------------------- reading back

  ghost predicate Short(s: string) {
    |Utf8.Encode(s)| < U64_LIMIT
  }

  ghost predicate ShortStrings(v: NetworkBody) {
    match v
    case Text(_, from, _, text) => Short(from) && Short(text)
    case Ack(_, _, error) => error.Some? ==> Short(error.value)
    case Ping => true
    case Pong => true
    case PairRequest(_, id, name, device, _) => Short(id) && Short(name) && Short(device)
    case PairDecision(_, _, name, device, error) => Short(name) && Short(device) && (error.Some? ==> Short(error.value))
    case PairConfirm(_) => true
    case Error(code, message) => Short(code) && Short(message)
  }

  lemma {:induction false} SmallBodiesHaveShortStrings(v: NetworkBody)
    requires BodySize(v) < U64_LIMIT
    ensures ShortStrings(v)
  {
    hide StringSize;
    forall s: string ensures StringSize(s) > |Utf8.Encode(s)| { StringLength(s, []); }
  }

  lemma {:induction false} TagRoundTrip(tag: nat, rest: Bytes)
    requires tag < 8
    ensures GetU32([tag] + rest) == Good(tag, rest)
  {
    Limits();
    assert PutVarint(tag, rest) == [tag] + rest;
    VarintRoundTrip(tag, 5, 15, rest);
  }

  lemma {:induction false} ArrayRoundTrip(a: Bytes32, rest: Bytes)
    ensures Get32(a + rest) == Good(a, rest)
  {
    assert (a + rest)[..32] == a && (a + rest)[32..] == rest;
  }

  lemma {:induction false} BoolRoundTrip(v: bool, rest: Bytes)
    ensures GetBool(PutBool(v, rest)) == Good(v, rest)
  {
    assert PutBool(v, rest)[1..] == rest;
  }

  lemma {:induction false} GetPutPairRequest(secret: Bytes32, id: string, name: string, device: string, nonce: Bytes32,
                                             rest: Bytes)
    requires Short(id) && Short(name) && Short(device)
    ensures GetPairRequest(secret + PutString(id, PutString(name, PutString(device, nonce + rest)))) ==
            Good(PairRequest(secret, id, name, device, nonce), rest)
  {
    hide PutString, GetString, Get32;
    var r3 := PutString(device, nonce + rest);
    var r2 := PutString(name, r3);
    ArrayRoundTrip(secret, PutString(id, r2));
    StringRoundTrip(id, r2);
    StringRoundTrip(name, r3);
    StringRoundTrip(device, nonce + rest);
    ArrayRoundTrip(nonce, rest);
  }

  lemma {:induction false} GetPutPairDecision(ok: bool, nonce: Bytes32, name: string, device: string,
                                              error: Option<string>, rest: Bytes)
    requires Short(name) && Short(device) && (error.Some? ==> Short(error.value))
    ensures GetPairDecision(PutBool(ok, nonce + PutString(name, PutString(device, PutOptionalString(error, rest))))) ==
            Good(PairDecision(ok, nonce, name, device, error), rest)
  {
    hide PutString, GetString, PutOptionalString, GetOptionalString, Get32, GetBool, PutBool;
    var r4 := PutOptionalString(error, rest);
    var r3 := PutString(device, r4);
    var r2 := PutString(name, r3);
    BoolRoundTrip(ok, nonce + r2);
    ArrayRoundTrip(nonce, r2);
    StringRoundTrip(name, r3);
    StringRoundTrip(device, r4);
    OptionalStringRoundTrip(error, rest);
  }

  lemma {:induction false} GetPutBody(v: NetworkBody, rest: Bytes)
    requires ShortStrings(v)
    ensures GetBody(PutBody(v, rest)) == Good(v, rest)
  {
    hide PutString, GetString, PutI64, GetI64, PutUuid, GetUuid, PutOptionalString, GetOptionalString, GetU32, GetBool,
         PutBool, GetPairRequest, GetPairDecision;
    match v
    case Text(id, from, at, text) =>
      var r3 := PutString(text, rest);
      var r2 := PutI64(at, r3);
      var r1 := PutString(from, r2);
      TagRoundTrip(0, PutUuid(id, r1));
      UuidRoundTrip(id, r1);
      StringRoundTrip(from, r2);
      I64RoundTrip(at, r3);
      StringRoundTrip(text, rest);
    case Ack(id, ok, error) =>
      var r2 := PutOptionalString(error, rest);
      TagRoundTrip(1, PutUuid(id, PutBool(ok, r2)));
      UuidRoundTrip(id, PutBool(ok, r2));
      BoolRoundTrip(ok, r2);
      OptionalStringRoundTrip(error, rest);
    case Ping => TagRoundTrip(2, rest);
    case Pong => TagRoundTrip(3, rest);
    case PairRequest(secret, id, name, device, nonce) =>
      TagRoundTrip(4, secret + PutString(id, PutString(name, PutString(device, nonce + rest))));
      GetPutPairRequest(secret, id, name, device, nonce, rest);
    case PairDecision(ok, nonce, name, device, error) =>
      TagRoundTrip(5, PutBool(ok, nonce + PutString(name, PutString(device, PutOptionalString(error, rest)))));
      GetPutPairDecision(ok, nonce, name, device, error, rest);
    case PairConfirm(ok) =>
      TagRoundTrip(6, PutBool(ok, rest));
      BoolRoundTrip(ok, rest);
    case Error(code, message) =>
      TagRoundTrip(7, PutString(code, PutString(message, rest)));
      StringRoundTrip(code, PutString(message, rest));
      StringRoundTrip(message, rest);
  }

  lemma {:induction false} GetPutEnvelope(e: Envelope, rest: Bytes)
    requires ShortStrings(e.body)
    ensures GetEnvelope(PutEnvelope(e, rest)) == Good(e, rest)
  {
    hide PutBody, GetBody, PutUuid, GetUuid, PutVarint;
    Limits();
    var r1 := PutUuid(e.requestId, PutBody(e.body, rest));
    VarintRoundTrip(e.version, 3, 3, r1);
    UuidRoundTrip(e.requestId, PutBody(e.body, rest));
    GetPutBody(e.body, rest);
  }

  /** Decoding the contents of any envelope whose frame fits gives the envelope back, or its
      version when that is not the one spoken. */
  lemma {:induction false} DecodeContents(e: Envelope)
    requires |Contents(e)| <= MAX_WIRE_FRAME_BYTES
    ensures DecodeBody(Contents(e)) ==
            if e.version == NETWORK_PROTOCOL_VERSION then Ok(e)
            else Err(UnsupportedVersion(e.version, NETWORK_PROTOCOL_VERSION))
  {
    hide PutEnvelope, GetEnvelope, BodySize;
    EnvelopeLength(e, []);
    SmallBodiesHaveShortStrings(e.body);
    GetPutEnvelope(e, []);
  }

  /** Framing succeeds exactly up to 6 MiB. The frame's own prefix then announces the rest of it,
      and a reader that finds the frame at the front of its stream takes it off whole. */
  lemma {:induction false} FrameRoundTrip(e: Envelope, more: Bytes)
    requires e.version == NETWORK_PROTOCOL_VERSION
    ensures Framed(e).Ok? <==> |Contents(e)| <= MAX_WIRE_FRAME_BYTES
    ensures Framed(e).Ok? ==>
              var frame := Framed(e).value;
              && |frame| >= 4
              && DecodeLengthPrefix(frame[..4], MAX_WIRE_FRAME_BYTES) == Ok(|frame| - 4)
              && DecodeBody(frame[4..]) == Ok(e)
              && ReadEnvelope(frame + more) == Ok((e, more))
  {
    hide PutEnvelope, BigEndian.ToBytes, BigEndian.FromBytes, DecodeBody;
    if Framed(e).Ok? {
      var body, frame := Contents(e), Framed(e).value;
      EnvelopeLength(e, []);
      BigEndian.Limits();
      BigEndian.RoundTrip(|body|, 4);
      assert frame[..4] == BigEndian.ToBytes(|body|, 4) && frame[4..] == body;
      DecodeContents(e);
      assert (frame + more)[..4] == frame[..4] && (frame + more)[4..|frame|] == body;
      assert (frame + more)[|frame|..] == more;
    }
  }

  /** A reader never makes an envelope out of part of a frame. */
  lemma {:induction false} PartialFramesGiveNothing(e: Envelope, cut: nat)
    requires Framed(e).Ok? && cut < |Framed(e).value|
    ensures ReadEnvelope(Framed(e).value[..cut]) == Err(StreamEnded)
  {
    hide PutEnvelope, BigEndian.ToBytes, BigEndian.FromBytes, DecodeBody;
    var body, frame := Contents(e), Framed(e).value;
    EnvelopeLength(e, []);
    BigEndian.Limits();
    BigEndian.RoundTrip(|body|, 4);
    if cut >= 4 {
      assert frame[..cut][..4] == BigEndian.ToBytes(|body|, 4);
    }
  }

  /** A text that passes the length check, from a sender with a 64-character id, always fits. */
  lemma {:induction false} ValidTextAlwaysFits(e: Envelope)
    requires e.body.Text? && e.version == NETWORK_PROTOCOL_VERSION
    requires ValidateTextLen(e.body.text).Ok?
    requires |e.body.senderEndpointId| == 64
    ensures Framed(e).Ok?
  {
    hide PutVarint;
    EnvelopeLength(e, []);
    PrefixLength(e.version);
    PrefixLength(ZigZag(e.body.sentAt));
    TextSize(e.body.senderEndpointId);
    TextSize(e.body.text);
  }

  /** The length check lets an empty text through, whatever its comment says. */
  lemma {:induction false} EmptyTextPasses()
    ensures ValidateTextLen("").Ok?
  {}

  lemma {:induction false} TextSize(s: string)
    ensures |Utf8.Encode(s)| < 0x1000_0000 ==> StringSize(s) <= |Utf8.Encode(s)| + 4
  {
    PrefixLength(|Utf8.Encode(s)|);
    VarintLength(|Utf8.Encode(s)|, Utf8.Encode(s) + []);
  }

  // ------------------------------------------------------------------- whatever spelling was accepted

  lemma {:induction false} TextShortest(b: Bytes)
    requires GetText(b).Good?
    ensures Shortest(PutBody(GetText(b).value, GetText(b).rest), [0] + b)
  {
    hide PutString, GetString, PutI64, GetI64, PutUuid, GetUuid;
    var (id, b1) := GetUuid(b).Extract();
    var (from, b2) := GetString(b1).Extract();
    var (at, b3) := GetI64(b2).Extract();
    var (text, b4) := GetString(b3).Extract();
    StringShortest(b3);
    I64Then(b2, PutString(text, b4));
    StringThen(b1, PutI64(at, PutString(text, b4)));
    UuidThen(b, PutString(from, PutI64(at, PutString(text, b4))));
  }

  lemma {:induction false} AckShortest(b: Bytes)
    requires GetAck(b).Good?
    ensures Shortest(PutBody(GetAck(b).value, GetAck(b).rest), [1] + b)
  {
    hide PutOptionalString, GetOptionalString, PutUuid, GetUuid, PutBool, GetBool;
    var (id, b1) := GetUuid(b).Extract();
    var (ok, b2) := GetBool(b1).Extract();
    var (error, b3) := GetOptionalString(b2).Extract();
    OptionalShortest(b2);
    BoolThen(b1, PutOptionalString(error, b3));
    UuidThen(b, PutBool(ok, PutOptionalString(error, b3)));
  }

  lemma {:induction false} PairRequestShortest(b: Bytes)
    requires GetPairRequest(b).Good?
    ensures Shortest(PutBody(GetPairRequest(b).value, GetPairRequest(b).rest), [4] + b)
  {
    hide PutString, GetString;
    var b1 := b[32..];
    var (id, b2) := GetString(b1).Extract();
    var (name, b3) := GetString(b2).Extract();
    var (device, b4) := GetString(b3).Extract();
    var nonce, rest := b4[..32], b4[32..];
    assert nonce + rest == b4;
    StringShortest(b3);
    StringThen(b2, PutString(device, nonce + rest));
    StringThen(b1, PutString(name, PutString(device, nonce + rest)));
    ArrayThen(b, PutString(id, PutString(name, PutString(device, nonce + rest))));
  }

  lemma {:induction false} PairDecisionShortest(b: Bytes)
    requires GetPairDecision(b).Good?
    ensures Shortest(PutBody(GetPairDecision(b).value, GetPairDecision(b).rest), [5] + b)
  {
    hide PutString, GetString, PutOptionalString, GetOptionalString, PutBool, GetBool;
    var (ok, b1) := GetBool(b).Extract();
    var nonce, b2 := b1[..32], b1[32..];
    var (name, b3) := GetString(b2).Extract();
    var (device, b4) := GetString(b3).Extract();
    var (error, b5) := GetOptionalString(b4).Extract();
    OptionalShortest(b4);
    StringThen(b3, PutOptionalString(error, b5));
    StringThen(b2, PutString(device, PutOptionalString(error, b5)));
    ArrayThen(b1, PutString(name, PutString(device, PutOptionalString(error, b5))));
    BoolThen(b, nonce + PutString(name, PutString(device, PutOptionalString(error, b5))));
  }

  lemma {:induction false} PairConfirmShortest(b: Bytes)
    requires GetPairConfirm(b).Good?
    ensures Shortest(PutBody(GetPairConfirm(b).value, GetPairConfirm(b).rest), [6] + b)
  {
    BoolThen(b, GetBool(b).rest);
  }

  lemma {:induction false} ErrorShortest(b: Bytes)
    requires GetError(b).Good?
    ensures Shortest(PutBody(GetError(b).value, GetError(b).rest), [7] + b)
  {
    hide PutString, GetString;
    var (code, b1) := GetString(b).Extract();
    var (message, b2) := GetString(b1).Extract();
    StringShortest(b1);
    StringThen(b, PutString(message, b2));
  }

  lemma {:induction false} BodyShortest(b: Bytes)
    requires GetBody(b).Good?
    ensures Shortest(PutBody(GetBody(b).value, GetBody(b).rest), b)
  {
    hide GetText, GetAck, GetPairRequest, GetPairDecision, GetPairConfirm, GetError, PutBody, PutVarint;
    var (tag, rest) := GetU32(b).Extract();
    VarintShortest(b, 5, 15);
    TaggedShortest(b);
    match tag
    case 0 => TextShortest(rest);
    case 1 => AckShortest(rest);
    case 2 => EmptyBodies(rest);
    case 3 => EmptyBodies(rest);
    case 4 => PairRequestShortest(rest);
    case 5 => PairDecisionShortest(rest);
    case 6 => PairConfirmShortest(rest);
    case 7 => ErrorShortest(rest);
    case _ =>
  }

  lemma {:induction false} EmptyBodies(rest: Bytes)
    ensures PutBody(Ping, rest) == [2] + rest && PutBody(Pong, rest) == [3] + rest
  {}

  lemma {:induction false} TaggedShortest(b: Bytes)
    requires GetU32(b).Good? && GetU32(b).value < 128
    ensures Shortest([GetU32(b).value] + GetU32(b).rest, b)
  {
    VarintShortest(b, 5, 15);
  }

  lemma {:induction false} EnvelopeShortest(b: Bytes)
    requires GetEnvelope(b).Good?
    ensures Shortest(PutEnvelope(GetEnvelope(b).value, GetEnvelope(b).rest), b)
  {
    hide GetBody, PutBody, PutVarint, GetU16, GetUuid, PutUuid;
    var (version, b1) := GetU16(b).Extract();
    var (id, b2) := GetUuid(b1).Extract();
    var (body, b3) := GetBody(b2).Extract();
    BodyShortest(b2);
    UuidThen(b1, PutBody(body, b3));
    VersionThen(b, PutUuid(id, PutBody(body, b3)));
  }

  lemma {:induction false} VersionThen(b: Bytes, written: Bytes)
    requires GetU16(b).Good? && Shortest(written, GetU16(b).rest)
    ensures Shortest(PutVarint(GetU16(b).value, written), b)
  {
    VarintThen(b, 3, 3, written);
  }

  /** Whatever bytes a daemon accepts as an envelope, it can frame that envelope itself, in no more
      bytes, and reads the same envelope back from its own frame. Its own spelling is the only one
      of that length. */
  lemma {:induction false} DecodedEnvelopesReencode(b: Bytes)
    requires DecodeBody(b).Ok?
    ensures var e := DecodeBody(b).value;
            && e.version == NETWORK_PROTOCOL_VERSION
            && |Contents(e)| <= |b|
            && (b == Contents(e) <==> |b| == |Contents(e)|)
            && Framed(e).Ok? && DecodeBody(Framed(e).value[4..]) == Ok(e)
  {
    hide PutEnvelope, GetEnvelope, BodySize, BigEndian.ToBytes;
    var e := DecodeBody(b).value;
    EnvelopeShortest(b);
    EnvelopeLength(e, []);
    EnvelopeLength(e, GetEnvelope(b).rest);
    FrameRoundTrip(e, []);
  }

  lemma {:induction false} PairRequestAppend(v: NetworkBody, a: Bytes, b: Bytes)
    requires v.PairRequest?
    ensures PutBody(v, a + b) == PutBody(v, a) + b
  {
    hide PutString;
    var last := v.joinerNonce + a;
    assert last + b == v.joinerNonce + (a + b);
    StringAppend(v.joinerDeviceName, last, b);
    StringAppend(v.joinerDisplayName, PutString(v.joinerDeviceName, last), b);
    var names := PutString(v.joinerDisplayName, PutString(v.joinerDeviceName, last));
    StringAppend(v.joinerEndpointId, names, b);
    var ids := PutString(v.joinerEndpointId, names);
    assert [4] + (v.inviteSecret + (ids + b)) == [4] + (v.inviteSecret + ids) + b;
  }

  lemma {:induction false} PairDecisionAppend(v: NetworkBody, a: Bytes, b: Bytes)
    requires v.PairDecision?
    ensures PutBody(v, a + b) == PutBody(v, a) + b
  {
    hide PutString, PutOptionalString;
    var last := PutOptionalString(v.errorCode, a);
    OptionalAppend(v.errorCode, a, b);
    StringAppend(v.inviterDeviceName, last, b);
    StringAppend(v.inviterDisplayName, PutString(v.inviterDeviceName, last), b);
    var names := PutString(v.inviterDisplayName, PutString(v.inviterDeviceName, last));
    assert [5] + PutBool(v.accepted, v.inviterNonce + (names + b)) == [5] + PutBool(v.accepted, v.inviterNonce + names) + b;
  }

  lemma {:induction false} TextAppend(v: NetworkBody, a: Bytes, b: Bytes)
    requires v.Text?
    ensures PutBody(v, a + b) == PutBody(v, a) + b
  {
    hide PutString, PutI64, PutUuid;
    var text := PutString(v.text, a);
    StringAppend(v.text, a, b);
    I64Append(v.sentAt, text, b);
    StringAppend(v.senderEndpointId, PutI64(v.sentAt, text), b);
    UuidAppend(v.messageId, PutString(v.senderEndpointId, PutI64(v.sentAt, text)), b);
  }

  lemma {:induction false} AckAppend(v: NetworkBody, a: Bytes, b: Bytes)
    requires v.Ack?
    ensures PutBody(v, a + b) == PutBody(v, a) + b
  {
    hide PutUuid, PutOptionalString;
    var last := PutOptionalString(v.ackError, a);
    OptionalAppend(v.ackError, a, b);
    assert PutBool(v.acknowledged, last + b) == PutBool(v.acknowledged, last) + b;
    UuidAppend(v.ackedId, PutBool(v.acknowledged, last), b);
  }

  lemma {:induction false} ShortBodyAppend(v: NetworkBody, a: Bytes, b: Bytes)
    requires v.Ping? || v.Pong? || v.PairConfirm? || v.Error?
    ensures PutBody(v, a + b) == PutBody(v, a) + b
  {
    hide PutString;
    if v.Error? {
      StringAppend(v.message, a, b);
      StringAppend(v.code, PutString(v.message, a), b);
    }
  }

  lemma {:induction false} BodyAppend(v: NetworkBody, a: Bytes, b: Bytes)
    ensures PutBody(v, a + b) == PutBody(v, a) + b
  {
    hide PutBody;
    match v
    case Text(_, _, _, _) => TextAppend(v, a, b);
    case Ack(_, _, _) => AckAppend(v, a, b);
    case PairRequest(_, _, _, _, _) => PairRequestAppend(v, a, b);
    case PairDecision(_, _, _, _, _) => PairDecisionAppend(v, a, b);
    case _ => ShortBodyAppend(v, a, b);
  }

  lemma {:induction false} EnvelopeAppend(e: Envelope, extra: Bytes)
    ensures PutEnvelope(e, extra) == Contents(e) + extra
  {
    hide PutBody, PutUuid, PutVarint;
    assert [] + extra == extra;
    BodyAppend(e.body, [], extra);
    UuidAppend(e.requestId, PutBody(e.body, []), extra);
    VarintAppend(e.version, PutUuid(e.requestId, PutBody(e.body, [])), extra);
  }

  lemma {:induction false} LongVersion(e: Envelope)
    requires e.version == NETWORK_PROTOCOL_VERSION && ShortStrings(e.body)
    ensures |Contents(e)| >= 1 && Contents(e)[0] == 1
    ensures GetEnvelope([129, 0] + Contents(e)[1..]) == Good(e, [])
  {
    hide PutBody, GetBody, PutUuid, GetUuid;
    var r := PutUuid(e.requestId, PutBody(e.body, []));
    assert Contents(e) == [1] + r;
    assert Contents(e)[1..] == r;
    var b := [129, 0] + r;
    assert b[1..] == [0] + r && b[1..][1..] == r;
    assert GetVarint([0] + r, 2, 3) == Good(0, r);
    assert GetU16(b) == Good(1, r);
    UuidRoundTrip(e.requestId, PutBody(e.body, []));
    GetPutBody(e.body, []);
  }

  /** Two ways to spell an envelope differently: with bytes after it, and with its version in two
      bytes. Both are read as the same envelope. */
  lemma {:induction false} OtherSpellings(e: Envelope, extra: Bytes)
    requires e.version == NETWORK_PROTOCOL_VERSION
    requires |Contents(e)| + |extra| <= MAX_WIRE_FRAME_BYTES
    ensures DecodeBody(Contents(e) + extra) == Ok(e)
    ensures |Contents(e)| < MAX_WIRE_FRAME_BYTES ==>
              DecodeBody([129, 0] + Contents(e)[1..]) == Ok(e) && [129, 0] + Contents(e)[1..] != Contents(e)
  {
    hide BodySize, GetBody, PutBody, GetUuid, PutUuid;
    EnvelopeLength(e, []);
    EnvelopeLength(e, extra);
    SmallBodiesHaveShortStrings(e.body);
    GetPutEnvelope(e, extra);
    EnvelopeAppend(e, extra);
    LongVersion(e);
  }

  /** The envelope has a single spelling exactly when it fills a frame to the last byte. */
  lemma {:induction false} OneSpellingIff(e: Envelope)
    requires e.version == NETWORK_PROTOCOL_VERSION && |Contents(e)| <= MAX_WIRE_FRAME_BYTES
    ensures (forall b :: DecodeBody(b) == Ok(e) ==> b == Contents(e)) <==> |Contents(e)| == MAX_WIRE_FRAME_BYTES
  {
    hide PutEnvelope, GetEnvelope;
    if |Contents(e)| < MAX_WIRE_FRAME_BYTES {
      OtherSpellings(e, [0]);
    } else {
      forall b | DecodeBody(b) == Ok(e) ensures b == Contents(e) {
        DecodedEnvelopesReencode(b);
      }
    }
  }

  // ------------------------------------------------------------------- the layout, field by field

  lemma {:induction false} OneLetter(s: string, rest: Bytes)
    requires |s| == 1 && s[0] as int < 0x80
    ensures PutString(s, rest) == [1, s[0] as int] + rest
  {
    assert Utf8.Encode(s) == [s[0] as int] by { assert s[1..] == ""; assert Utf8.Encode("") == []; }
    hide Utf8.Encode;
    assert PutVarint(1, [s[0] as int] + rest) == [1] + ([s[0] as int] + rest);
  }

  /** Tags in the order of declaration, fields in theirs. */
  lemma {:induction false} TextAndAckLayout(id: Uuid)
    ensures var u := [16] + BigEndian.ToBytes(id, 16);
            && PutBody(Text(id, "a", -1, "b"), []) == [0] + u + [1, 0x61, 1, 1, 0x62]
            && PutBody(Ack(id, true, Some("a")), []) == [1] + u + [1, 1, 1, 0x61]
            && PutBody(Ack(id, false, None), []) == [1] + u + [0, 0]
  {
    OneLetter("b", []);
    OneLetter("a", []);
    OneLetter("a", [1, 1, 0x62]);
    assert PutI64(-1, [1, 0x62]) == [1, 1, 0x62];
    UuidLayout(id, [1, 0x61, 1, 1, 0x62]);
    UuidLayout(id, [1, 1, 1, 0x61]);
    UuidLayout(id, [0, 0]);
    hide PutString, PutI64, PutUuid, BigEndian.ToBytes;
    assert PutString("a", PutI64(-1, PutString("b", []))) == [1, 0x61, 1, 1, 0x62];
    assert PutBool(true, PutOptionalString(Some("a"), [])) == [1, 1, 1, 0x61];
    assert PutBool(false, PutOptionalString(None, [])) == [0, 0];
  }

  lemma {:induction false} PairRequestLayout(secret: Bytes32, nonce: Bytes32)
    ensures PutBody(PairRequest(secret, "a", "b", "c", nonce), []) == [4] + secret + [1, 0x61, 1, 0x62, 1, 0x63] + nonce
  {
    hide PutString;
    var c := PutString("c", nonce + []);
    OneLetter("c", nonce + []);
    var b := PutString("b", c);
    OneLetter("b", c);
    OneLetter("a", b);
    assert c == [1, 0x63] + nonce && b == [1, 0x62, 1, 0x63] + nonce;
    assert PutString("a", b) == [1, 0x61, 1, 0x62, 1, 0x63] + nonce;
  }

  lemma {:induction false} PairDecisionLayout(nonce: Bytes32)
    ensures PutBody(PairDecision(true, nonce, "a", "b", Some("c")), []) == [5, 1] + nonce + [1, 0x61, 1, 0x62, 1, 1, 0x63]
    ensures PutBody(PairDecision(false, nonce, "a", "b", None), []) == [5, 0] + nonce + [1, 0x61, 1, 0x62, 0]
  {
    hide PutString;
    OneLetter("c", []);
    var some, none := PutOptionalString(Some("c"), []), PutOptionalString(None, []);
    var b, b' := PutString("b", some), PutString("b", none);
    OneLetter("b", some);
    OneLetter("b", none);
    OneLetter("a", b);
    OneLetter("a", b');
    assert some == [1, 1, 0x63] && none == [0];
    assert b == [1, 0x62, 1, 1, 0x63] && b' == [1, 0x62, 0];
    assert PutString("a", b) == [1, 0x61, 1, 0x62, 1, 1, 0x63] && PutString("a", b') == [1, 0x61, 1, 0x62, 0];
  }

  lemma {:induction false} ShortLayouts(id: Uuid)
    ensures PutBody(PairConfirm(true), []) == [6, 1] && PutBody(PairConfirm(false), []) == [6, 0]
    ensures PutBody(Error("a", "b"), []) == [7, 1, 0x61, 1, 0x62]
    ensures Contents(Envelope(1, id, Ping)) == [1, 16] + BigEndian.ToBytes(id, 16) + [2]
    ensures Contents(Envelope(300, id, Pong)) == [0xAC, 2, 16] + BigEndian.ToBytes(id, 16) + [3]
  {
    hide PutString, PutUuid, BigEndian.ToBytes;
    var b := PutString("b", []);
    OneLetter("b", []);
    OneLetter("a", b);
    assert b == [1, 0x62];
    UuidLayout(id, [2]);
    UuidLayout(id, [3]);
    assert [2] + [] == [2] && [3] + [] == [3];
    var r := PutUuid(id, [3]);
    assert PutVarint(2, r) == [2] + r;
    assert PutVarint(300, r) == [0xAC] + PutVarint(2, r);
  }

  // ----------------------------------------------------------------------------------- the refusals

  /** A length prefix is refused exactly when it is all zeros, or when its bytes are greater than
      those of the limit. */
  lemma {:induction false} LengthPrefixRefusals(header: Bytes, max: nat)
    requires |header| == 4 && max < 0x1_0000_0000
    ensures DecodeLengthPrefix(header, max) == Err(EmptyFrame) <==> header == [0, 0, 0, 0]
    ensures (exists n :: DecodeLengthPrefix(header, max) == Err(FrameTooLarge(max, n))) <==>
            Order.LexLess(BigEndian.ToBytes(max, 4), header)
    ensures DecodeLengthPrefix(header, max).Ok? ==>
              BigEndian.ToBytes(DecodeLengthPrefix(header, max).value, 4) == header
  {
    BigEndian.Limits();
    BigEndian.RoundTrip(max, 4);
    BigEndian.Canonical(header);
    BigEndian.OrderOfBytes(BigEndian.ToBytes(max, 4), header);
    assert BigEndian.ToBytes(0, 4) == [0, 0, 0, 0] by { assert BigEndian.ToBytes(0, 2) == [0, 0]; }
    BigEndian.RoundTrip(0, 4);
    hide BigEndian.ToBytes, BigEndian.FromBytes, Order.LexLess;
  }

  /** What is too short or too long is refused before its contents are looked at. */
  lemma {:induction false} BodyRefusals(b: Bytes)
    ensures DecodeBody([]) == Err(EmptyFrame)
    ensures |b| > MAX_WIRE_FRAME_BYTES ==> DecodeBody(b) == Err(FrameTooLarge(MAX_WIRE_FRAME_BYTES, |b|))
    ensures DecodeBody([9]) == Err(MalformedFrame)
  {}

  /** The limit on texts in bytes: so many ASCII letters pass and one more does not; characters of two
      bytes count twice. */
  lemma {:induction false} TextLimit(text: string)
    requires Utf8.Ascii(text)
    ensures ValidateTextLen(text) == if |text| <= 5_242_880 then Ok(()) else Err(TextTooLarge(5_242_880, |text|))
  {
    Utf8.AsciiLength(text);
  }

  /** A stream whose header announces nothing is refused, whatever follows; one that ends within its
      header or within what the header announces gives nothing. */
  lemma {:induction false} StreamRefusals(rest: Bytes, stream: Bytes)
    ensures ReadEnvelope([0, 0, 0, 0] + rest) == Err(Refused(EmptyFrame))
    ensures |stream| < 4 ==> ReadEnvelope(stream) == Err(StreamEnded)
    ensures (|stream| >= 4 && DecodeLengthPrefix(stream[..4], MAX_WIRE_FRAME_BYTES).Ok?
             && |stream| - 4 < BigEndian.FromBytes(stream[..4])) ==> ReadEnvelope(stream) == Err(StreamEnded)
  {
    LengthPrefixRefusals([0, 0, 0, 0], MAX_WIRE_FRAME_BYTES);
    assert ([0, 0, 0, 0] + rest)[..4] == [0, 0, 0, 0];
    hide DecodeBody, BigEndian.FromBytes;
  }
}
