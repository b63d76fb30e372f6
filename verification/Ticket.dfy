/** Pairing tickets: Postcard, then Base64url without padding, then a prefix. */
module Ticket {
  import opened Basics
  import opened Postcard
  import opened Protocol
  import Base64Url
  import Network
  import Utf8

  const TICKET_PREFIX: string := "lcp1_"
  const CURRENT_TICKET_VERSION: byte := 1
  const MAX_TICKET_TEXT_BYTES: nat := 8192

  datatype PairingTicket = PairingTicket(
    version: byte,
    endpointTicket: string,
    inviteSecret: Bytes32,
    expiresAt: Int64,
    displayName: string,
    deviceName: string)

  function Put(t: PairingTicket, rest: Bytes): Bytes {
    [t.version] + PutString(t.endpointTicket,
      t.inviteSecret + PutI64(t.expiresAt, PutString(t.displayName, PutString(t.deviceName, rest))))
  }

  function Get(b: Bytes): Parse<PairingTicket> {
    var (version, b) :- GetByte(b);
    var (endpointTicket, b) :- GetString(b);
    var (secret, b) :- Get32(b);
    var (expiresAt, b) :- GetI64(b);
    var (displayName, b) :- GetString(b);
    var (deviceName, b) :- GetString(b);
    Good(PairingTicket(version, endpointTicket, secret, expiresAt, displayName, deviceName), b)
  }

  function Contents(t: PairingTicket): Bytes {
    Put(t, [])
  }

  function Encode(t: PairingTicket): string {
    TICKET_PREFIX + Base64Url.Encode(Contents(t))
  }

  function Decode(text: string): Result<PairingTicket, ProtocolError> {
    if |Utf8.Encode(text)| > MAX_TICKET_TEXT_BYTES then Err(InvalidTicket(TextTooLong))
    else if !(TICKET_PREFIX <= text) then Err(InvalidTicket(MissingPrefix))
    else
      var bytes := Base64Url.Decode(text[|TICKET_PREFIX|..]);
      if bytes.None? then Err(InvalidTicket(InvalidBase64))
      else
        var parsed := Get(bytes.value);
        if parsed.Bad? then Err(InvalidTicket(MalformedContents))
        else if parsed.value.version != CURRENT_TICKET_VERSION then
          Err(InvalidTicket(UnsupportedTicketVersion(parsed.value.version)))
        else Ok(parsed.value)
  }

  // ------------------------------------------------------------------------------------- theorems

  ghost predicate Representable(t: PairingTicket) {
    && |Utf8.Encode(t.endpointTicket)| < U64_LIMIT
    && |Utf8.Encode(t.displayName)| < U64_LIMIT
    && |Utf8.Encode(t.deviceName)| < U64_LIMIT
  }

  lemma {:induction false} PutLength(t: PairingTicket, rest: Bytes)
    ensures |Put(t, rest)| == 33 + StringSize(t.endpointTicket) + |PutVarint(ZigZag(t.expiresAt), [])|
                              + StringSize(t.displayName) + StringSize(t.deviceName) + |rest|
    ensures |Put(t, rest)| > |Utf8.Encode(t.endpointTicket)| + |Utf8.Encode(t.displayName)| + |Utf8.Encode(t.deviceName)|
  {
    hide PutString, StringSize, PutVarint;
    var r4 := PutString(t.deviceName, rest);
    var r3 := PutString(t.displayName, r4);
    var r2 := PutI64(t.expiresAt, r3);
    StringLength(t.deviceName, rest);
    StringLength(t.displayName, r4);
    VarintLength(ZigZag(t.expiresAt), r3);
    StringLength(t.endpointTicket, t.inviteSecret + r2);
  }

  lemma {:induction false} GetPut(t: PairingTicket, rest: Bytes)
    requires Representable(t)
    ensures Get(Put(t, rest)) == Good(t, rest)
  {
    hide PutString, GetString, PutI64, GetI64;
    var r5 := PutString(t.deviceName, rest);
    var r4 := PutString(t.displayName, r5);
    var r3 := PutI64(t.expiresAt, r4);
    var r2 := t.inviteSecret + r3;
    var r1 := PutString(t.endpointTicket, r2);
    assert Put(t, rest) == [t.version] + r1;
    assert ([t.version] + r1)[1..] == r1;
    StringRoundTrip(t.endpointTicket, r2);
    assert r2[..32] == t.inviteSecret && r2[32..] == r3;
    I64RoundTrip(t.expiresAt, r4);
    StringRoundTrip(t.displayName, r5);
    StringRoundTrip(t.deviceName, rest);
  }

  lemma {:induction false} PrefixedLength(bytes: Bytes)
    ensures |Utf8.Encode(TICKET_PREFIX + Base64Url.Encode(bytes))| == 5 + (4 * |bytes| + 2) / 3
  {
    var payload := Base64Url.Encode(bytes);
    var text := TICKET_PREFIX + payload;
    Base64Url.EncodingIsAscii(bytes);
    assert Utf8.Ascii(text) by {
      forall c | c in text ensures c as int < 0x80 {
        assert c in TICKET_PREFIX || c in payload;
      }
    }
    Utf8.AsciiLength(text);
  }

  lemma {:induction false} TextLength(t: PairingTicket)
    ensures |Utf8.Encode(Encode(t))| == 5 + (4 * |Contents(t)| + 2) / 3
    ensures |Utf8.Encode(Encode(t))| <= MAX_TICKET_TEXT_BYTES <==> |Contents(t)| <= 6140
  {
    PrefixedLength(Contents(t));
  }

  /** What decoding makes of an encoded ticket: the size of the contents decides first, then the
      version, and a ticket that passes both comes back unchanged. */
  lemma {:induction false} DecodeOfEncode(t: PairingTicket)
    ensures Decode(Encode(t)) ==
            if |Contents(t)| > 6140 then Err(InvalidTicket(TextTooLong))
            else if t.version != CURRENT_TICKET_VERSION then Err(InvalidTicket(UnsupportedTicketVersion(t.version)))
            else Ok(t)
  {
    hide Put, Get;
    TextLength(t);
    if |Contents(t)| <= 6140 {
      PutLength(t, []);
      var payload := Base64Url.Encode(Contents(t));
      assert (TICKET_PREFIX + payload)[|TICKET_PREFIX|..] == payload;
      Base64Url.RoundTrip(Contents(t));
      GetPut(t, []);
    }
  }

  /** A version-1 ticket survives the round trip exactly when its contents take at most 6140 bytes. */
  lemma {:induction false} RoundTripIff(t: PairingTicket)
    requires t.version == CURRENT_TICKET_VERSION
    ensures Decode(Encode(t)) == Ok(t) <==> |Contents(t)| <= 6140
    ensures |Contents(t)| > 6140 <==> Decode(Encode(t)) == Err(InvalidTicket(TextTooLong))
  {
    DecodeOfEncode(t);
  }

  /** Creating an invite checks nothing about lengths; this much text is always safe. */
  lemma {:induction false} ShortFieldsSurvive(t: PairingTicket)
    requires t.version == CURRENT_TICKET_VERSION
    requires |Utf8.Encode(t.endpointTicket)| + |Utf8.Encode(t.displayName)| + |Utf8.Encode(t.deviceName)| <= 6091
    ensures Decode(Encode(t)) == Ok(t)
  {
    PutLength(t, []);
    StringLength(t.endpointTicket, []);
    StringLength(t.displayName, []);
    StringLength(t.deviceName, []);
    PrefixLength(ZigZag(t.expiresAt));
    FieldSize(t.endpointTicket);
    FieldSize(t.displayName);
    FieldSize(t.deviceName);
    DecodeOfEncode(t);
  }

  lemma {:induction false} FieldSize(s: string)
    ensures |Utf8.Encode(s)| < 0x4000 ==> StringSize(s) <= |Utf8.Encode(s)| + 2
  {
    PrefixLength(|Utf8.Encode(s)|);
    VarintLength(|Utf8.Encode(s)|, Utf8.Encode(s) + []);
  }

  /** Long fields are never safe, and nothing stops an inviter from having them: a display name of
      6140 letters makes a ticket that every joiner refuses. */
  lemma {:induction false} LongFieldsAreRefused(t: PairingTicket)
    requires |Utf8.Encode(t.endpointTicket)| + |Utf8.Encode(t.displayName)| + |Utf8.Encode(t.deviceName)| >= 6140
    ensures Decode(Encode(t)) == Err(InvalidTicket(TextTooLong))
  {
    PutLength(t, []);
    DecodeOfEncode(t);
  }

  lemma {:induction false} OversizeTicket(t: PairingTicket)
    requires t.displayName == seq(6140, _ => 'a')
    ensures Decode(Encode(t)) == Err(InvalidTicket(TextTooLong))
  {
    Utf8.AsciiLength(t.displayName);
    LongFieldsAreRefused(t);
  }

  lemma {:induction false} GetShortest(b: Bytes)
    requires Get(b).Good?
    ensures Shortest(Put(Get(b).value, Get(b).rest), b)
  {
    hide PutString, GetString, PutI64, GetI64;
    var (endpointTicket, b2) := GetString(b[1..]).Extract();
    var secret, b3 := b2[..32], b2[32..];
    var (expiresAt, b4) := GetI64(b3).Extract();
    var (displayName, b5) := GetString(b4).Extract();
    var (deviceName, b6) := GetString(b5).Extract();
    StringShortest(b5);
    StringThen(b4, PutString(deviceName, b6));
    I64Then(b3, PutString(displayName, PutString(deviceName, b6)));
    ArrayThen(b2, PutI64(expiresAt, PutString(displayName, PutString(deviceName, b6))));
    StringThen(b[1..], secret + PutI64(expiresAt, PutString(displayName, PutString(deviceName, b6))));
    assert b == [b[0]] + b[1..];
  }

  /** Every text that decodes, in whatever spelling, yields a ticket whose own encoding decodes to
      the same ticket and is no longer than the text; it is the only spelling of its length. */
  lemma {:induction false} DecodedTicketsReencode(text: string)
    requires Decode(text).Ok?
    ensures var t := Decode(text).value;
            && Decode(Encode(t)) == Ok(t) && |Encode(t)| <= |text|
            && (text == Encode(t) <==> |text| == |Encode(t)|)
  {
    hide Put, Get;
    var t := Decode(text).value;
    var payload := text[|TICKET_PREFIX|..];
    var bytes := Base64Url.Decode(payload).value;
    Base64Url.Canonical(payload);
    GetShortest(bytes);
    PutLength(t, []);
    PutLength(t, Get(bytes).rest);
    assert |Contents(t)| <= |bytes|;
    assert |text| == 5 + (4 * |bytes| + 2) / 3;
    assert |Encode(t)| == 5 + (4 * |Contents(t)| + 2) / 3;
    assert text == TICKET_PREFIX + payload;
    DecodeOfEncode(t);
  }

  /** Contents followed by more bytes spell the same ticket as long as they fit. */
  lemma {:induction false} TrailingBytesIgnored(t: PairingTicket, extra: Bytes)
    requires t.version == CURRENT_TICKET_VERSION && |Contents(t)| + |extra| <= 6140
    ensures Decode(TICKET_PREFIX + Base64Url.Encode(Contents(t) + extra)) == Ok(t)
  {
    hide Put, Get;
    var bytes := Contents(t) + extra;
    var payload := Base64Url.Encode(bytes);
    var text := TICKET_PREFIX + payload;
    assert text[|TICKET_PREFIX|..] == payload;
    Base64Url.RoundTrip(bytes);
    PrefixedLength(bytes);
    PutLength(t, []);
    PutAppend(t, extra);
    GetPut(t, extra);
  }

  lemma {:induction false} PutAppend(t: PairingTicket, extra: Bytes)
    ensures Put(t, extra) == Contents(t) + extra
  {
    hide PutString, PutI64;
    assert [] + extra == extra;
    StringAppend(t.deviceName, [], extra);
    StringAppend(t.displayName, PutString(t.deviceName, []), extra);
    var names := PutString(t.displayName, PutString(t.deviceName, []));
    I64Append(t.expiresAt, names, extra);
    var dated := PutI64(t.expiresAt, names);
    assert t.inviteSecret + dated + extra == t.inviteSecret + (dated + extra);
    StringAppend(t.endpointTicket, t.inviteSecret + dated, extra);
  }

  /** The ticket has a single spelling exactly when its contents take all of the 6140 bytes. */
  lemma {:induction false} OneSpellingIff(t: PairingTicket)
    requires t.version == CURRENT_TICKET_VERSION && |Contents(t)| <= 6140
    ensures (forall text :: Decode(text) == Ok(t) ==> text == Encode(t)) <==> |Contents(t)| == 6140
  {
    hide Put, Get;
    if |Contents(t)| < 6140 {
      TrailingBytesIgnored(t, [0]);
      var other := TICKET_PREFIX + Base64Url.Encode(Contents(t) + [0]);
      Base64Url.RoundTrip(Contents(t));
      Base64Url.RoundTrip(Contents(t) + [0]);
      assert other[|TICKET_PREFIX|..] == Base64Url.Encode(Contents(t) + [0]);
      assert Encode(t)[|TICKET_PREFIX|..] == Base64Url.Encode(Contents(t));
      assert Decode(other) == Ok(t) && other != Encode(t);
    } else {
      forall text | Decode(text) == Ok(t) ensures text == Encode(t) {
        DecodedTicketsReencode(text);
        assert |text| <= |Utf8.Encode(text)|;
        TextLength(t);
      }
    }
  }

  /** The layout: version, dialing information, secret, expiry, names, each in its place. */
  lemma {:induction false} Layout(secret: Bytes32)
    ensures Contents(PairingTicket(1, "a", secret, -1, "b", "c")) == [1, 1, 0x61] + secret + [1, 1, 0x62, 1, 0x63]
    ensures Encode(PairingTicket(1, "a", secret, -1, "b", "c")) ==
            "lcp1_" + Base64Url.Encode([1, 1, 0x61] + secret + [1, 1, 0x62, 1, 0x63])
  {
    hide PutString;
    var c := PutString("c", []);
    Network.OneLetter("c", []);
    var b := PutString("b", c);
    Network.OneLetter("b", c);
    assert c == [1, 0x63] && b == [1, 0x62, 1, 0x63];
    assert PutI64(-1, b) == [1] + b;
    hide PutI64;
    Network.OneLetter("a", secret + PutI64(-1, b));
    assert PutI64(-1, b) == [1, 1, 0x62, 1, 0x63];
  }

  /** Each refusal before the contents, and exactly when. */
  lemma {:induction false} Refusals(text: string)
    ensures Decode(text) == Err(InvalidTicket(TextTooLong)) <==> |Utf8.Encode(text)| > 8192
    ensures Decode(text) == Err(InvalidTicket(MissingPrefix)) <==> |Utf8.Encode(text)| <= 8192 && !("lcp1_" <= text)
    ensures Decode(text) == Err(InvalidTicket(InvalidBase64)) <==>
              |Utf8.Encode(text)| <= 8192 && "lcp1_" <= text && forall b: Bytes :: text != "lcp1_" + Base64Url.Encode(b)
  {
    hide Get, Utf8.Encode;
    if "lcp1_" <= text {
      var payload := text[5..];
      assert text == "lcp1_" + payload;
      if Base64Url.Decode(payload).Some? { Base64Url.Canonical(payload); }
      forall b: Bytes | text == "lcp1_" + Base64Url.Encode(b) ensures Base64Url.Decode(payload) == Some(b) {
        assert ("lcp1_" + Base64Url.Encode(b))[5..] == Base64Url.Encode(b);
        Base64Url.RoundTrip(b);
      }
    }
    hide Base64Url.Encode, Base64Url.Decode;
  }
}
