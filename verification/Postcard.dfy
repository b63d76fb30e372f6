/** The Postcard wire format for the types the protocol sends. A writer `PutX(v, rest)` puts the
    bytes of `v` in front of `rest`; a reader `GetX` takes a value off the front. Readers accept
    integers that are not written in their shortest form, so one value may have several spellings,
    of which the writer's is the shortest. */
module Postcard {
  import opened Basics
  import BigEndian
  import Utf8

  datatype Parse<+T> = Bad | Good(value: T, rest: Bytes) {
    predicate IsFailure() {
      Bad?
    }

    function PropagateFailure<U>(): Parse<U>
      requires Bad?
    {
      Bad
    }

    function Extract(): (T, Bytes)
      requires Good?
    {
      (value, rest)
    }
  }

  const I64_LIMIT: int := 0x8000_0000_0000_0000
  const U64_LIMIT: int := 0x1_0000_0000_0000_0000

  type Int64 = x: int | -I64_LIMIT <= x < I64_LIMIT

  type U16 = x: int | 0 <= x < 0x1_0000

  // ------------------------------------------------------------------------------------ integers

  /** LEB128: seven bits a byte, least significant first, high bit set on all but the last. */
  function PutVarint(n: nat, rest: Bytes): Bytes {
    if n < 128 then [n] + rest else [n % 128 + 128] + PutVarint(n / 128, rest)
  }

  /** At most `k` bytes, of which the k-th may not exceed `top`. */
  function GetVarint(b: Bytes, k: nat, top: nat): Parse<nat>
    decreases k
  {
    if k == 0 || b == [] then Bad
    else if b[0] < 128 then
      if k == 1 && b[0] > top then Bad else Good(b[0], b[1..])
    else
      var (high, rest) :- GetVarint(b[1..], k - 1, top);
      Good(b[0] - 128 + 128 * high, rest)
  }

  function VarintLimit(k: nat, top: nat): nat {
    if k == 0 then 0 else if k == 1 then top + 1 else 128 * VarintLimit(k - 1, top)
  }

  function GetU16(b: Bytes): Parse<nat> { GetVarint(b, 3, 3) }

  function GetU32(b: Bytes): Parse<nat> { GetVarint(b, 5, 15) }

  function GetU64(b: Bytes): Parse<nat> { GetVarint(b, 10, 1) }

  function ZigZag(x: Int64): nat {
    if x >= 0 then 2 * x else -2 * x - 1
  }

  function UnZigZag(n: nat): int {
    if n % 2 == 0 then n / 2 else -(n / 2) - 1
  }

  function PutI64(x: Int64, rest: Bytes): Bytes {
    PutVarint(ZigZag(x), rest)
  }

  function GetI64(b: Bytes): (r: Parse<Int64>)
  {
    var (n, rest) :- GetU64(b);
    VarintInRange(b, 10, 1);
    Limits();
    Good(UnZigZag(n), rest)
  }

  // ------------------------------------------------------------------- bytes, strings and options

  function GetByte(b: Bytes): Parse<byte> {
    if b == [] then Bad else Good(b[0], b[1..])
  }

  function GetBool(b: Bytes): Parse<bool> {
    if b == [] || b[0] > 1 then Bad else Good(b[0] == 1, b[1..])
  }

  function PutBool(v: bool, rest: Bytes): Bytes {
    [if v then 1 else 0] + rest
  }

  function Get32(b: Bytes): Parse<Bytes32> {
    if |b| < 32 then Bad else Good(b[..32], b[32..])
  }

  function GetCounted(b: Bytes): Parse<Bytes> {
    var (n, rest) :- GetU64(b);
    if n > |rest| then Bad else Good(rest[..n], rest[n..])
  }

  function PutCounted(s: Bytes, rest: Bytes): Bytes {
    PutVarint(|s|, s + rest)
  }

  function PutUuid(u: Uuid, rest: Bytes): Bytes {
    PutCounted(BigEndian.ToBytes(u, 16), rest)
  }

  function GetUuid(b: Bytes): Parse<Uuid> {
    var (s, rest) :- GetCounted(b);
    if |s| != 16 then Bad
    else
      BigEndian.Canonical(s);
      BigEndian.Limits();
      Good(BigEndian.FromBytes(s), rest)
  }

  function PutString(s: string, rest: Bytes): Bytes {
    PutCounted(Utf8.Encode(s), rest)
  }

  function GetString(b: Bytes): Parse<string> {
    var (s, rest) :- GetCounted(b);
    var text := Utf8.Decode(s);
    if text.None? then Bad else Good(text.value, rest)
  }

  function PutOptionalString(s: Option<string>, rest: Bytes): Bytes {
    match s
    case None => [0] + rest
    case Some(v) => [1] + PutString(v, rest)
  }

  function GetOptionalString(b: Bytes): Parse<Option<string>> {
    var (some, rest) :- GetBool(b);
    if !some then Good(None, rest)
    else
      var (v, rest) :- GetString(rest);
      Good(Some(v), rest)
  }

  // ------------------------------------------------------------------------ reading what is written

  lemma {:induction false} Limits()
    ensures VarintLimit(3, 3) == 0x1_0000
    ensures VarintLimit(5, 15) == 0x1_0000_0000
    ensures VarintLimit(10, 1) == U64_LIMIT
  {
    assert VarintLimit(2, 3) == 512;
    assert VarintLimit(2, 15) == 2048;
    assert VarintLimit(3, 15) == 0x4_0000;
    assert VarintLimit(4, 15) == 0x200_0000;
    assert VarintLimit(2, 1) == 256;
    assert VarintLimit(3, 1) == 0x8000;
    assert VarintLimit(4, 1) == 0x40_0000;
    assert VarintLimit(5, 1) == 0x2000_0000;
    assert VarintLimit(6, 1) == 0x10_0000_0000;
    assert VarintLimit(7, 1) == 0x800_0000_0000;
    assert VarintLimit(8, 1) == 0x4_0000_0000_0000;
    assert VarintLimit(9, 1) == 0x200_0000_0000_0000;
  }

  lemma {:induction false} VarintRoundTrip(n: nat, k: nat, top: nat, rest: Bytes)
    requires n < VarintLimit(k, top) && top < 128
    ensures GetVarint(PutVarint(n, rest), k, top) == Good(n, rest)
    decreases k
  {
    if n >= 128 {
      VarintRoundTrip(n / 128, k - 1, top, rest);
      assert PutVarint(n, rest)[1..] == PutVarint(n / 128, rest);
    }
  }

  lemma {:induction false} VarintInRange(b: Bytes, k: nat, top: nat)
    requires GetVarint(b, k, top).Good? && top < 128
    ensures GetVarint(b, k, top).value < VarintLimit(k, top)
    decreases k
  {
    if b[0] >= 128 {
      VarintInRange(b[1..], k - 1, top);
    } else if k > 1 {
      LimitIsLarge(k, top);
    }
  }

  lemma {:induction false} LimitIsLarge(k: nat, top: nat)
    requires k > 1
    ensures VarintLimit(k, top) >= 128
    decreases k
  {
    if k > 2 { LimitIsLarge(k - 1, top); }
  }

  lemma {:induction false} VarintLength(n: nat, rest: Bytes)
    ensures |PutVarint(n, rest)| == |PutVarint(n, [])| + |rest|
  {
    if n >= 128 { VarintLength(n / 128, rest); }
  }

  /** `written` is a spelling of what was read from `b`: no longer, and as long only when it is `b`. */
  ghost predicate Shortest(written: Bytes, b: Bytes) {
    |written| <= |b| && (|written| == |b| ==> written == b)
  }

  /** The writer's spelling is the one shortest spelling the reader accepts. */
  lemma {:induction false} VarintShortest(b: Bytes, k: nat, top: nat)
    requires GetVarint(b, k, top).Good?
    ensures var r := GetVarint(b, k, top); Shortest(PutVarint(r.value, r.rest), b)
    decreases k
  {
    if b[0] >= 128 {
      VarintShortest(b[1..], k - 1, top);
      var (high, rest) := GetVarint(b[1..], k - 1, top).Extract();
      var n := b[0] - 128 + 128 * high;
      assert n / 128 == high;
      if n < 128 { VarintLength(0, rest); }
    }
  }

  lemma {:induction false} I64RoundTrip(x: Int64, rest: Bytes)
    ensures GetI64(PutI64(x, rest)) == Good(x, rest)
  {
    Limits();
    VarintRoundTrip(ZigZag(x), 10, 1, rest);
  }

  lemma {:induction false} CountedRoundTrip(s: Bytes, rest: Bytes)
    requires |s| < U64_LIMIT
    ensures GetCounted(PutCounted(s, rest)) == Good(s, rest)
  {
    Limits();
    VarintRoundTrip(|s|, 10, 1, s + rest);
  }

  lemma {:induction false} UuidRoundTrip(u: Uuid, rest: Bytes)
    ensures GetUuid(PutUuid(u, rest)) == Good(u, rest)
  {
    BigEndian.Limits();
    BigEndian.RoundTrip(u, 16);
    CountedRoundTrip(BigEndian.ToBytes(u, 16), rest);
  }

  lemma {:induction false} StringRoundTrip(s: string, rest: Bytes)
    requires |Utf8.Encode(s)| < U64_LIMIT
    ensures GetString(PutString(s, rest)) == Good(s, rest)
  {
    Utf8.RoundTrip(s);
    CountedRoundTrip(Utf8.Encode(s), rest);
  }

  lemma {:induction false} OptionalStringRoundTrip(s: Option<string>, rest: Bytes)
    requires s.Some? ==> |Utf8.Encode(s.value)| < U64_LIMIT
    ensures GetOptionalString(PutOptionalString(s, rest)) == Good(s, rest)
  {
    if s.Some? {
      StringRoundTrip(s.value, rest);
      assert ([1] + PutString(s.value, rest))[1..] == PutString(s.value, rest);
    } else {
      assert ([0] + rest)[1..] == rest;
    }
  }

  // ----------------------------------------------------------------------- lengths and shortest forms

  function StringSize(s: string): nat {
    |PutString(s, [])|
  }

  function OptionalSize(s: Option<string>): nat {
    if s.None? then 1 else 1 + StringSize(s.value)
  }

  lemma {:induction false} StringLength(s: string, rest: Bytes)
    ensures |PutString(s, rest)| == StringSize(s) + |rest|
    ensures StringSize(s) > |Utf8.Encode(s)|
  {
    VarintLength(|Utf8.Encode(s)|, Utf8.Encode(s) + rest);
    VarintLength(|Utf8.Encode(s)|, Utf8.Encode(s) + []);
  }

  lemma {:induction false} UuidLength(u: Uuid, rest: Bytes)
    ensures |PutUuid(u, rest)| == 17 + |rest|
  {}

  lemma {:induction false} I64Length(x: Int64, rest: Bytes)
    ensures |PutI64(x, rest)| == |PutVarint(ZigZag(x), [])| + |rest|
  {
    VarintLength(ZigZag(x), rest);
  }

  lemma {:induction false} OptionalLength(s: Option<string>, rest: Bytes)
    ensures |PutOptionalString(s, rest)| == OptionalSize(s) + |rest|
  {
    if s.Some? { StringLength(s.value, rest); }
  }

  lemma {:induction false} CountedShortest(b: Bytes)
    requires GetCounted(b).Good?
    ensures var r := GetCounted(b); Shortest(PutCounted(r.value, r.rest), b)
  {
    VarintShortest(b, 10, 1);
    var (n, rest) := GetU64(b).Extract();
    assert rest[..n] + rest[n..] == rest;
  }

  lemma {:induction false} UuidShortest(b: Bytes)
    requires GetUuid(b).Good?
    ensures var r := GetUuid(b); Shortest(PutUuid(r.value, r.rest), b)
  {
    CountedShortest(b);
    BigEndian.Canonical(GetCounted(b).value);
  }

  lemma {:induction false} StringShortest(b: Bytes)
    requires GetString(b).Good?
    ensures var r := GetString(b); Shortest(PutString(r.value, r.rest), b)
  {
    CountedShortest(b);
    Utf8.Canonical(GetCounted(b).value);
  }

  lemma {:induction false} OptionalShortest(b: Bytes)
    requires GetOptionalString(b).Good?
    ensures var r := GetOptionalString(b); Shortest(PutOptionalString(r.value, r.rest), b)
  {
    if b[0] == 1 { StringShortest(b[1..]); }
  }

  lemma {:induction false} ZigZagInverse(n: nat)
    requires n < U64_LIMIT
    ensures ZigZag(UnZigZag(n)) == n
  {}

  lemma {:induction false} I64Shortest(b: Bytes)
    requires GetI64(b).Good?
    ensures var r := GetI64(b); Shortest(PutI64(r.value, r.rest), b)
  {
    VarintInRange(b, 10, 1);
    Limits();
    ZigZagInverse(GetU64(b).value);
    VarintShortest(b, 10, 1);
  }

  lemma {:induction false} VarintLengthBound(n: nat, k: nat)
    requires n < VarintLimit(k, 127)
    ensures |PutVarint(n, [])| <= k
    decreases k
  {
    if n >= 128 { VarintLengthBound(n / 128, k - 1); }
  }

  /** How many bytes a length prefix can take: at most two below 2^14 and four below 2^28. */
  lemma {:induction false} PrefixLength(n: nat)
    ensures n < 0x4000 ==> |PutVarint(n, [])| <= 2
    ensures n < 0x1000_0000 ==> |PutVarint(n, [])| <= 4
    ensures n < U64_LIMIT ==> |PutVarint(n, [])| <= 10
  {
    assert VarintLimit(2, 127) == 0x4000;
    assert VarintLimit(3, 127) == 0x20_0000;
    assert VarintLimit(4, 127) == 0x1000_0000;
    assert VarintLimit(5, 127) == 0x8_0000_0000;
    assert VarintLimit(6, 127) == 0x400_0000_0000;
    assert VarintLimit(7, 127) == 0x2_0000_0000_0000;
    assert VarintLimit(8, 127) == 0x100_0000_0000_0000;
    assert VarintLimit(9, 127) == 0x8000_0000_0000_0000;
    assert VarintLimit(10, 127) >= U64_LIMIT;
    if n < 0x4000 { VarintLengthBound(n, 2); }
    if n < 0x1000_0000 { VarintLengthBound(n, 4); }
    if n < U64_LIMIT { VarintLengthBound(n, 10); }
  }

  // ------------------------------------------------------- what follows a value is written after it

  lemma {:induction false} VarintAppend(n: nat, a: Bytes, b: Bytes)
    ensures PutVarint(n, a + b) == PutVarint(n, a) + b
  {
    if n >= 128 { VarintAppend(n / 128, a, b); }
  }

  lemma {:induction false} I64Append(x: Int64, a: Bytes, b: Bytes)
    ensures PutI64(x, a + b) == PutI64(x, a) + b
  {
    VarintAppend(ZigZag(x), a, b);
  }

  lemma {:induction false} CountedAppend(s: Bytes, a: Bytes, b: Bytes)
    ensures PutCounted(s, a + b) == PutCounted(s, a) + b
  {
    VarintAppend(|s|, s + a, b);
    assert s + a + b == s + (a + b);
  }

  lemma {:induction false} OptionalAppend(s: Option<string>, a: Bytes, b: Bytes)
    ensures PutOptionalString(s, a + b) == PutOptionalString(s, a) + b
  {
    if s.Some? { CountedAppend(Utf8.Encode(s.value), a, b); }
  }

  lemma {:induction false} StringAppend(s: string, a: Bytes, b: Bytes)
    ensures PutString(s, a + b) == PutString(s, a) + b
  {
    CountedAppend(Utf8.Encode(s), a, b);
  }

  lemma {:induction false} UuidAppend(u: Uuid, a: Bytes, b: Bytes)
    ensures PutUuid(u, a + b) == PutUuid(u, a) + b
  {
    CountedAppend(BigEndian.ToBytes(u, 16), a, b);
  }

  // ------------------------------------------------- shortest spellings, one field in front of others

  lemma {:induction false} VarintThen(b: Bytes, k: nat, top: nat, written: Bytes)
    requires GetVarint(b, k, top).Good? && Shortest(written, GetVarint(b, k, top).rest)
    ensures Shortest(PutVarint(GetVarint(b, k, top).value, written), b)
  {
    VarintShortest(b, k, top);
    VarintLength(GetVarint(b, k, top).value, GetVarint(b, k, top).rest);
    VarintLength(GetVarint(b, k, top).value, written);
  }

  lemma {:induction false} StringThen(b: Bytes, written: Bytes)
    requires GetString(b).Good? && Shortest(written, GetString(b).rest)
    ensures Shortest(PutString(GetString(b).value, written), b)
  {
    hide PutString, GetString, StringSize;
    StringShortest(b);
    StringLength(GetString(b).value, GetString(b).rest);
    StringLength(GetString(b).value, written);
  }

  lemma {:induction false} UuidThen(b: Bytes, written: Bytes)
    requires GetUuid(b).Good? && Shortest(written, GetUuid(b).rest)
    ensures Shortest(PutUuid(GetUuid(b).value, written), b)
  {
    hide PutUuid, GetUuid;
    UuidShortest(b);
    UuidLength(GetUuid(b).value, GetUuid(b).rest);
    UuidLength(GetUuid(b).value, written);
  }

  lemma {:induction false} I64Then(b: Bytes, written: Bytes)
    requires GetI64(b).Good? && Shortest(written, GetI64(b).rest)
    ensures Shortest(PutI64(GetI64(b).value, written), b)
  {
    hide PutI64, GetI64, PutVarint;
    I64Shortest(b);
    I64Length(GetI64(b).value, GetI64(b).rest);
    I64Length(GetI64(b).value, written);
  }

  lemma {:induction false} ArrayThen(b: Bytes, written: Bytes)
    requires |b| >= 32 && Shortest(written, b[32..])
    ensures Shortest(b[..32] + written, b)
  {}

  lemma {:induction false} BoolThen(b: Bytes, written: Bytes)
    requires GetBool(b).Good? && Shortest(written, GetBool(b).rest)
    ensures Shortest(PutBool(GetBool(b).value, written), b)
  {
    assert b == [b[0]] + b[1..];
  }

  // --------------------------------------------------------------------------- what the bytes mean

  /** The number that groups of seven bits spell, the least significant group first. */
  function GroupsOfSeven(b: Bytes): nat {
    if b == [] then 0 else b[0] % 128 + 128 * GroupsOfSeven(b[1..])
  }

  /** The groups of a varint spell its number, and the high bit is set on all bytes but the last. */
  lemma {:induction false} VarintMeans(n: nat)
    ensures var b := PutVarint(n, []);
            && GroupsOfSeven(b) == n && b != [] && b[|b| - 1] < 128
            && forall i :: 0 <= i < |b| - 1 ==> b[i] >= 128
  {
    if n >= 128 { VarintMeans(n / 128); }
  }

  function Magnitude(x: int): nat {
    if x < 0 then -x else x
  }

  /** Zigzag numbers the integers by magnitude, the negative one first. */
  lemma {:induction false} ZigZagOrder(x: Int64, y: Int64)
    ensures ZigZag(0) == 0 && ZigZag(-1) == 1 && ZigZag(1) == 2
    ensures ZigZag(x) < ZigZag(y) <==> Magnitude(x) < Magnitude(y) || (x < 0 && y > 0 && Magnitude(x) == Magnitude(y))
  {}

  /** Flags and option tags are one byte, strings their length and their bytes. */
  lemma {:induction false} Layouts(rest: Bytes)
    ensures PutBool(false, rest) == [0] + rest && PutBool(true, rest) == [1] + rest
    ensures PutString("A", rest) == [1, 0x41] + rest
    ensures PutString("\U{391}", rest) == [2, 0xCE, 0x91] + rest
    ensures PutOptionalString(None, rest) == [0] + rest
    ensures PutOptionalString(Some("A"), rest) == [1, 1, 0x41] + rest
  {
    Utf8.CharLengths('A');
    hide Utf8.Encode;
    assert PutVarint(1, [0x41] + rest) == [1] + ([0x41] + rest);
    assert PutVarint(2, [0xCE, 0x91] + rest) == [2] + ([0xCE, 0x91] + rest);
  }

  /** A UUID is a counted array of its sixteen big-endian bytes. */
  lemma {:induction false} UuidLayout(u: Uuid, rest: Bytes)
    ensures PutUuid(u, rest) == [16] + BigEndian.ToBytes(u, 16) + rest
  {}

  /** The sixteen bytes of two small UUIDs. */
  lemma {:induction false} SmallUuids()
    ensures BigEndian.ToBytes(0, 16) == [0, 0, 0, 0, 0, 0, 0, 0, 0, 0, 0, 0, 0, 0, 0, 0]
    ensures BigEndian.ToBytes(258, 16) == [0, 0, 0, 0, 0, 0, 0, 0, 0, 0, 0, 0, 0, 0, 1, 2]
  {
    assert BigEndian.ToBytes(0, 4) == [0, 0, 0, 0];
    assert BigEndian.ToBytes(0, 8) == [0, 0, 0, 0, 0, 0, 0, 0];
    assert BigEndian.ToBytes(0, 12) == [0, 0, 0, 0, 0, 0, 0, 0, 0, 0, 0, 0];
    assert BigEndian.ToBytes(0, 14) == [0, 0, 0, 0, 0, 0, 0, 0, 0, 0, 0, 0, 0, 0];
    assert BigEndian.ToBytes(0, 16) == [0, 0, 0, 0, 0, 0, 0, 0, 0, 0, 0, 0, 0, 0, 0, 0];
    assert BigEndian.ToBytes(1, 15) == [0, 0, 0, 0, 0, 0, 0, 0, 0, 0, 0, 0, 0, 0, 1];
  }
}
