/** The URL-safe Base64 alphabet without padding, trailing bits required to be zero
    (sections 3.2, 3.5 and 5 of RFC 4648). */
module Base64Url {
  import opened Basics
  import Utf8

  type Sextet = x: int | 0 <= x < 64

  function Symbol(v: Sextet): (c: char)
    ensures c as int < 0x80
  {
    if v < 26 then ('A' as int + v) as char
    else if v < 52 then ('a' as int + v - 26) as char
    else if v < 62 then ('0' as int + v - 52) as char
    else if v == 62 then '-'
    else '_'
  }

  function Value(c: char): Option<Sextet> {
    if 'A' <= c <= 'Z' then Some(c as int - 'A' as int)
    else if 'a' <= c <= 'z' then Some(c as int - 'a' as int + 26)
    else if '0' <= c <= '9' then Some(c as int - '0' as int + 52)
    else if c == '-' then Some(62)
    else if c == '_' then Some(63)
    else None
  }

  // The four sextets of three bytes, and the three bytes of four sextets.

  function V0(b0: byte): Sextet { b0 / 4 }

  function V1(b0: byte, b1: byte): Sextet { b0 % 4 * 16 + b1 / 16 }

  function V2(b1: byte, b2: byte): Sextet { b1 % 16 * 4 + b2 / 64 }

  function V3(b2: byte): Sextet { b2 % 64 }

  function B0(v0: Sextet, v1: Sextet): byte { v0 * 4 + v1 / 16 }

  function B1(v1: Sextet, v2: Sextet): byte { v1 % 16 * 16 + v2 / 4 }

  function B2(v2: Sextet, v3: Sextet): byte { v2 % 4 * 64 + v3 }

  lemma {:induction false} RegroupBytes(b0: byte, b1: byte, b2: byte)
    ensures B0(V0(b0), V1(b0, b1)) == b0
    ensures B1(V1(b0, b1), V2(b1, b2)) == b1
    ensures B2(V2(b1, b2), V3(b2)) == b2
  {}

  lemma {:induction false} RegroupSextets(v0: Sextet, v1: Sextet, v2: Sextet, v3: Sextet)
    ensures V0(B0(v0, v1)) == v0
    ensures V1(B0(v0, v1), B1(v1, v2)) == v1
    ensures V2(B1(v1, v2), B2(v2, v3)) == v2
    ensures V3(B2(v2, v3)) == v3
  {}

  function Encode(b: Bytes): (s: string)
    ensures |s| == (4 * |b| + 2) / 3
  {
    if b == [] then []
    else if |b| == 1 then [Symbol(V0(b[0])), Symbol(V1(b[0], 0))]
    else if |b| == 2 then [Symbol(V0(b[0])), Symbol(V1(b[0], b[1])), Symbol(V2(b[1], 0))]
    else [Symbol(V0(b[0])), Symbol(V1(b[0], b[1])), Symbol(V2(b[1], b[2])), Symbol(V3(b[2]))] + Encode(b[3..])
  }

  predicate AllSymbols(s: string, n: nat)
    requires n <= |s|
  {
    forall i :: 0 <= i < n ==> Value(s[i]).Some?
  }

  function Decode(s: string): Option<Bytes> {
    if s == [] then Some([])
    else if |s| == 1 then None
    else if |s| == 2 then
      if !AllSymbols(s, 2) || Value(s[1]).value % 16 != 0 then None
      else Some([B0(Value(s[0]).value, Value(s[1]).value)])
    else if |s| == 3 then
      if !AllSymbols(s, 3) || Value(s[2]).value % 4 != 0 then None
      else Some([B0(Value(s[0]).value, Value(s[1]).value), B1(Value(s[1]).value, Value(s[2]).value)])
    else
      var rest := Decode(s[4..]);
      if !AllSymbols(s, 4) || rest.None? then None
      else Some([B0(Value(s[0]).value, Value(s[1]).value), B1(Value(s[1]).value, Value(s[2]).value),
                 B2(Value(s[2]).value, Value(s[3]).value)] + rest.value)
  }

  lemma {:induction false} SymbolValue(v: Sextet)
    ensures Value(Symbol(v)) == Some(v)
  {}

  lemma {:induction false} ValueSymbol(c: char)
    requires Value(c).Some?
    ensures Symbol(Value(c).value) == c
  {}

  lemma {:induction false} EncodeBlock(b0: byte, b1: byte, b2: byte, rest: Bytes)
    ensures Encode([b0, b1, b2] + rest) ==
            [Symbol(V0(b0)), Symbol(V1(b0, b1)), Symbol(V2(b1, b2)), Symbol(V3(b2))] + Encode(rest)
  {
    hide Symbol, V0, V1, V2, V3;
    assert ([b0, b1, b2] + rest)[3..] == rest;
  }

  lemma {:induction false} DecodeBlock(c0: char, c1: char, c2: char, c3: char, rest: string)
    requires Value(c0).Some? && Value(c1).Some? && Value(c2).Some? && Value(c3).Some?
    requires Decode(rest).Some?
    ensures Decode([c0, c1, c2, c3] + rest) ==
            Some([B0(Value(c0).value, Value(c1).value), B1(Value(c1).value, Value(c2).value),
                  B2(Value(c2).value, Value(c3).value)] + Decode(rest).value)
  {
    hide Value, B0, B1, B2;
    assert ([c0, c1, c2, c3] + rest)[4..] == rest;
  }

  lemma {:induction false} TrailingBits(b0: byte, b1: byte, v1: Sextet, v2: Sextet)
    ensures V1(b0, 0) % 16 == 0 && V2(b1, 0) % 4 == 0
    ensures v1 % 16 == 0 ==> B1(v1, 0) == 0
    ensures v2 % 4 == 0 ==> B2(v2, 0) == 0
  {}

  lemma {:induction false} RoundTripTail(b: Bytes)
    requires |b| < 3
    ensures Decode(Encode(b)) == Some(b)
  {
    hide Symbol, Value, V0, V1, V2, V3, B0, B1, B2;
    if |b| == 1 {
      var s := [Symbol(V0(b[0])), Symbol(V1(b[0], 0))];
      assert Encode(b) == s;
      SymbolValue(V0(b[0]));
      SymbolValue(V1(b[0], 0));
      TrailingBits(b[0], 0, 0, 0);
      RegroupBytes(b[0], 0, 0);
      assert Decode(s) == Some([b[0]]);
      assert b == [b[0]];
    } else if |b| == 2 {
      var s := [Symbol(V0(b[0])), Symbol(V1(b[0], b[1])), Symbol(V2(b[1], 0))];
      assert Encode(b) == s;
      SymbolValue(V0(b[0]));
      SymbolValue(V1(b[0], b[1]));
      SymbolValue(V2(b[1], 0));
      TrailingBits(b[0], b[1], 0, 0);
      RegroupBytes(b[0], b[1], 0);
      assert Decode(s) == Some([b[0], b[1]]);
      assert b == [b[0], b[1]];
    }
  }

  /** Decoding undoes encoding. */
  lemma {:induction false} RoundTrip(b: Bytes)
    ensures Decode(Encode(b)) == Some(b)
  {
    hide Decode, Encode, Symbol, Value, V0, V1, V2, V3, B0, B1, B2;
    if |b| < 3 {
      RoundTripTail(b);
    } else {
      var b0, b1, b2, rest := b[0], b[1], b[2], b[3..];
      assert b == [b0, b1, b2] + rest;
      RoundTrip(rest);
      EncodeBlock(b0, b1, b2, rest);
      SymbolValue(V0(b0));
      SymbolValue(V1(b0, b1));
      SymbolValue(V2(b1, b2));
      SymbolValue(V3(b2));
      DecodeBlock(Symbol(V0(b0)), Symbol(V1(b0, b1)), Symbol(V2(b1, b2)), Symbol(V3(b2)), Encode(rest));
      RegroupBytes(b0, b1, b2);
    }
  }

  lemma {:induction false} CanonicalTail(s: string)
    requires |s| < 4 && Decode(s).Some?
    ensures Encode(Decode(s).value) == s
  {
    hide Symbol, Value, V0, V1, V2, V3, B0, B1, B2;
    if |s| >= 2 {
      ValueSymbol(s[0]);
      ValueSymbol(s[1]);
      var v0, v1 := Value(s[0]).value, Value(s[1]).value;
      if |s| == 2 {
        TrailingBits(0, 0, v1, 0);
        RegroupSextets(v0, v1, 0, 0);
        assert Encode([B0(v0, v1)]) == [s[0], s[1]];
      } else {
        ValueSymbol(s[2]);
        var v2 := Value(s[2]).value;
        TrailingBits(0, 0, v1, v2);
        RegroupSextets(v0, v1, v2, 0);
        assert Encode([B0(v0, v1), B1(v1, v2)]) == [s[0], s[1], s[2]];
      }
    }
  }

  /** Only encodings are accepted: each byte string has exactly one text. */
  lemma {:induction false} Canonical(s: string)
    requires Decode(s).Some?
    ensures Encode(Decode(s).value) == s
  {
    hide Encode, Symbol, Value, V0, V1, V2, V3, B0, B1, B2;
    if |s| < 4 {
      CanonicalTail(s);
    } else {
      var rest := s[4..];
      assert s == [s[0], s[1], s[2], s[3]] + rest;
      Canonical(rest);
      DecodeBlock(s[0], s[1], s[2], s[3], rest);
      var v0, v1, v2, v3 := Value(s[0]).value, Value(s[1]).value, Value(s[2]).value, Value(s[3]).value;
      EncodeBlock(B0(v0, v1), B1(v1, v2), B2(v2, v3), Decode(rest).value);
      RegroupSextets(v0, v1, v2, v3);
      ValueSymbol(s[0]);
      ValueSymbol(s[1]);
      ValueSymbol(s[2]);
      ValueSymbol(s[3]);
    }
  }

  lemma {:induction false} EncodingIsAscii(b: Bytes)
    ensures Utf8.Ascii(Encode(b))
  {
    hide V0, V1, V2, V3;
    if |b| >= 3 {
      EncodingIsAscii(b[3..]);
    }
  }

  /** Sextets carry the bits of the bytes in their order, a last group filled up with zeros. */
  lemma {:induction false} SameBits(b0: byte, b1: byte, b2: byte)
    ensures ((V0(b0) * 64 + V1(b0, b1)) * 64 + V2(b1, b2)) * 64 + V3(b2) == (b0 * 256 + b1) * 256 + b2
    ensures (V0(b0) * 64 + V1(b0, b1)) * 64 + V2(b1, 0) == (b0 * 256 + b1) * 4
    ensures V0(b0) * 64 + V1(b0, 0) == b0 * 16
  {}

  /** The alphabet of table 2 of RFC 4648, range by range. */
  lemma {:induction false} UpperCase(i: nat)
    requires i < 26
    ensures Symbol(i) == "ABCDEFGHIJKLMNOPQRSTUVWXYZ"[i]
  {}

  lemma {:induction false} LowerCase(i: nat)
    requires i < 26
    ensures Symbol(26 + i) == "abcdefghijklmnopqrstuvwxyz"[i]
  {}

  lemma {:induction false} DigitsAndMarks(i: nat)
    requires i < 12
    ensures Symbol(52 + i) == "0123456789-_"[i]
  {}

  /** Test vectors of section 10 of RFC 4648, and one for the two symbols that differ from Base64. */
  lemma {:induction false} TestVectors()
    ensures Encode([]) == ""
    ensures Encode([0x66]) == "Zg"
    ensures Encode([0x66, 0x6F]) == "Zm8"
    ensures Encode([0xFB, 0xFF]) == "-_8"
    ensures Encode([0x66, 0x6F, 0x6F, 0x62, 0x61, 0x72]) == "Zm9vYmFy"
  {
    var foobar := [0x66, 0x6F, 0x6F, 0x62, 0x61, 0x72];
    assert foobar[3..] == [0x62, 0x61, 0x72] && [0x62, 0x61, 0x72][3..] == [];
  }
}
