/** UTF-8 as Rust strings use it: every scalar value in its shortest form (section 3 of RFC 3629). */
module Utf8 {
  import opened Basics

  function EncodeChar(c: char): (r: Bytes)
    ensures 1 <= |r| <= 4
    ensures c as int < 0x80 ==> r == [c as int]
  {
    var n := c as int;
    if n < 0x80 then [n]
    else if n < 0x800 then [0xC0 + n / 0x40, 0x80 + n % 0x40]
    else if n < 0x10000 then [0xE0 + n / 0x1000, 0x80 + n / 0x40 % 0x40, 0x80 + n % 0x40]
    else [0xF0 + n / 0x40000, 0x80 + n / 0x1000 % 0x40, 0x80 + n / 0x40 % 0x40, 0x80 + n % 0x40]
  }

  function Encode(s: string): (r: Bytes)
    ensures |s| <= |r| <= 4 * |s|
  {
    if s == [] then [] else EncodeChar(s[0]) + Encode(s[1..])
  }

  predicate Continues(b: Bytes, k: nat) {
    k < |b| && 0x80 <= b[k] < 0xC0
  }

  function Low(b: Bytes, k: nat): int
    requires Continues(b, k)
  {
    b[k] - 0x80
  }

  /** The scalar value in front of `b` and the number of bytes it takes. */
  function DecodeChar(b: Bytes): Option<(char, nat)> {
    if b == [] then None
    else if b[0] < 0x80 then Some((b[0] as char, 1))
    else if 0xC2 <= b[0] < 0xE0 && Continues(b, 1) then
      Some((((b[0] - 0xC0) * 0x40 + Low(b, 1)) as char, 2))
    else if 0xE0 <= b[0] < 0xF0 && Continues(b, 1) && Continues(b, 2) then
      var n := (b[0] - 0xE0) * 0x1000 + Low(b, 1) * 0x40 + Low(b, 2);
      if n < 0x800 || 0xD800 <= n < 0xE000 then None else Some((n as char, 3))
    else if 0xF0 <= b[0] < 0xF5 && Continues(b, 1) && Continues(b, 2) && Continues(b, 3) then
      var n := (b[0] - 0xF0) * 0x40000 + Low(b, 1) * 0x1000 + Low(b, 2) * 0x40 + Low(b, 3);
      if n < 0x10000 || 0x110000 <= n then None else Some((n as char, 4))
    else None
  }

  function Decode(b: Bytes): Option<string> {
    if b == [] then Some([])
    else
      var first := DecodeChar(b);
      if first.None? || first.value.1 > |b| || first.value.1 == 0 then None
      else
        var rest := Decode(b[first.value.1..]);
        if rest.None? then None else Some([first.value.0] + rest.value)
  }

  lemma {:induction false} SumOfDigits64(n: nat)
    ensures n == n / 0x1000 * 0x1000 + n / 0x40 % 0x40 * 0x40 + n % 0x40
    ensures n / 0x1000 == n / 0x40000 * 0x40 + n / 0x1000 % 0x40
  {}

  lemma {:induction false} CharRoundTrip(c: char, rest: Bytes)
    ensures DecodeChar(EncodeChar(c) + rest) == Some((c, |EncodeChar(c)|))
  {
    var b, e := EncodeChar(c) + rest, EncodeChar(c);
    assert b[0] == e[0];
    assert |e| > 1 ==> b[1] == e[1];
    assert |e| > 2 ==> b[2] == e[2];
    assert |e| > 3 ==> b[3] == e[3];
    SumOfDigits64(c as int);
  }

  lemma {:induction false} Digits64(a: nat, b: nat, c: nat)
    requires b < 0x40 && c < 0x40
    ensures (a * 0x1000 + b * 0x40 + c) % 0x40 == c
    ensures (a * 0x1000 + b * 0x40 + c) / 0x40 == a * 0x40 + b
    ensures (a * 0x1000 + b * 0x40 + c) / 0x40 % 0x40 == b
    ensures (a * 0x1000 + b * 0x40 + c) / 0x1000 == a
  {}

  lemma {:induction false} FourDigits64(x: nat, y: nat, z: nat, w: nat)
    requires y < 0x40 && z < 0x40 && w < 0x40
    ensures var n := x * 0x40000 + y * 0x1000 + z * 0x40 + w;
            n / 0x40000 == x && n / 0x1000 % 0x40 == y && n / 0x40 % 0x40 == z && n % 0x40 == w
  {
    var n := x * 0x40000 + y * 0x1000 + z * 0x40 + w;
    assert n == (x * 0x40 + y) * 0x1000 + z * 0x40 + w;
    Digits64(x * 0x40 + y, z, w);
    assert n / 0x1000 == x * 0x40 + y;
  }

  lemma {:induction false} FourBytesCanonical(b0: byte, b1: byte, b2: byte, b3: byte, c: char)
    requires 0xF0 <= b0 && 0x80 <= b1 < 0xC0 && 0x80 <= b2 < 0xC0 && 0x80 <= b3 < 0xC0
    requires c as int == (b0 - 0xF0) * 0x40000 + (b1 - 0x80) * 0x1000 + (b2 - 0x80) * 0x40 + (b3 - 0x80) >= 0x10000
    ensures EncodeChar(c) == [b0, b1, b2, b3]
  {
    FourDigits64(b0 - 0xF0, b1 - 0x80, b2 - 0x80, b3 - 0x80);
  }

  lemma {:induction false} ThreeBytesCanonical(b0: byte, b1: byte, b2: byte, c: char)
    requires 0xE0 <= b0 < 0xF0 && 0x80 <= b1 < 0xC0 && 0x80 <= b2 < 0xC0
    requires c as int == (b0 - 0xE0) * 0x1000 + (b1 - 0x80) * 0x40 + (b2 - 0x80) >= 0x800
    ensures EncodeChar(c) == [b0, b1, b2]
  {
    Digits64(b0 - 0xE0, b1 - 0x80, b2 - 0x80);
  }

  lemma {:induction false} CharIsCanonical(b: Bytes)
    requires DecodeChar(b).Some?
    ensures var (c, k) := DecodeChar(b).value;
            0 < k <= |b| && b[..k] == EncodeChar(c)
  {
    var (c, k) := DecodeChar(b).value;
    if k == 2 {
      Digits64(0, b[0] - 0xC0, Low(b, 1));
    } else if k == 3 {
      ThreeBytesCanonical(b[0], b[1], b[2], c);
    } else if k == 4 {
      FourBytesCanonical(b[0], b[1], b[2], b[3], c);
    }
  }

  lemma {:induction false} RoundTrip(s: string)
    ensures Decode(Encode(s)) == Some(s)
  {
    if s != [] {
      var first, rest := EncodeChar(s[0]), Encode(s[1..]);
      CharRoundTrip(s[0], rest);
      assert (first + rest)[|first|..] == rest;
      RoundTrip(s[1..]);
      assert Decode(first + rest) == Some([s[0]] + s[1..]);
      assert [s[0]] + s[1..] == s;
    }
  }

  lemma {:induction false} Canonical(b: Bytes)
    requires Decode(b).Some?
    ensures Encode(Decode(b).value) == b
  {
    hide DecodeChar, EncodeChar;
    if b != [] {
      CharIsCanonical(b);
      var (c, k) := DecodeChar(b).value;
      Canonical(b[k..]);
      var rest := Decode(b[k..]).value;
      assert Decode(b).value == [c] + rest;
      assert ([c] + rest)[1..] == rest;
      assert b == b[..k] + b[k..];
    }
  }

  ghost predicate Ascii(s: string) {
    forall c :: c in s ==> c as int < 0x80
  }

  lemma {:induction false} AsciiLength(s: string)
    requires Ascii(s)
    ensures |Encode(s)| == |s|
  {
    if s != [] {
      assert s[0] in s;
      forall c | c in s[1..] ensures c in s {}
      AsciiLength(s[1..]);
    }
  }

  /** How many bytes a scalar value takes, and one character of each length (section 7 of RFC 3629). */
  lemma {:induction false} CharLengths(c: char)
    ensures |EncodeChar(c)| == if c as int < 0x80 then 1 else if c as int < 0x800 then 2 else if c as int < 0x1_0000 then 3 else 4
    ensures Encode("A") == [0x41]
    ensures Encode("\U{391}") == [0xCE, 0x91]
    ensures Encode("\U{2262}") == [0xE2, 0x89, 0xA2]
    ensures Encode("\U{233B4}") == [0xF0, 0xA3, 0x8E, 0xB4]
  {}
}
