/** Big-endian numbers: the length prefix of every frame and the bytes of a UUID. */
module BigEndian {
  import opened Basics
  import Order

  function Pow256(k: nat): (r: nat)
    ensures r > 0
  {
    if k == 0 then 1 else 256 * Pow256(k - 1)
  }

  function ToBytes(n: nat, k: nat): (b: Bytes)
    ensures |b| == k
    decreases k
  {
    if k == 0 then [] else ToBytes(n / 256, k - 1) + [n % 256]
  }

  function FromBytes(b: Bytes): nat {
    if b == [] then 0 else FromBytes(b[..|b| - 1]) * 256 + b[|b| - 1]
  }

  lemma {:induction false} RoundTrip(n: nat, k: nat)
    requires n < Pow256(k)
    ensures FromBytes(ToBytes(n, k)) == n
    decreases k
  {
    if k > 0 {
      RoundTrip(n / 256, k - 1);
      assert ToBytes(n, k)[..k - 1] == ToBytes(n / 256, k - 1);
    }
  }

  lemma {:induction false} Canonical(b: Bytes)
    ensures FromBytes(b) < Pow256(|b|)
    ensures ToBytes(FromBytes(b), |b|) == b
  {
    if b != [] {
      var front, last: int := b[..|b| - 1], b[|b| - 1];
      Canonical(front);
      assert FromBytes(b) == FromBytes(front) * 256 + last && Pow256(|b|) == 256 * Pow256(|front|);
      assert FromBytes(b) / 256 == FromBytes(front) && FromBytes(b) % 256 == last;
      assert b == front + [last];
    }
  }

  lemma {:induction false} Limits()
    ensures Pow256(4) == 0x1_0000_0000
    ensures Pow256(16) == UUID_LIMIT
  {
    assert Pow256(1) == 0x100;
    assert Pow256(2) == 0x1_0000;
    assert Pow256(3) == 0x100_0000;
    assert Pow256(4) == 0x1_0000_0000;
    assert Pow256(5) == 256 * 0x1_0000_0000;
    assert Pow256(6) == 0x1_0000_0000_0000;
    assert Pow256(7) == 256 * 0x1_0000_0000_0000;
    assert Pow256(8) == 0x1_0000_0000_0000_0000;
    assert Pow256(9) == 256 * 0x1_0000_0000_0000_0000;
    assert Pow256(10) == 0x1_0000_0000_0000_0000_0000;
    assert Pow256(11) == 256 * 0x1_0000_0000_0000_0000_0000;
    assert Pow256(12) == 0x1_0000_0000_0000_0000_0000_0000;
    assert Pow256(13) == 256 * 0x1_0000_0000_0000_0000_0000_0000;
    assert Pow256(14) == 0x1_0000_0000_0000_0000_0000_0000_0000;
    assert Pow256(15) == 256 * 0x1_0000_0000_0000_0000_0000_0000_0000;
  }

  lemma {:induction false} FirstByteCountsMost(b: Bytes)
    requires b != []
    ensures FromBytes(b) == b[0] * Pow256(|b| - 1) + FromBytes(b[1..])
  {
    if |b| > 1 {
      var front := b[..|b| - 1];
      FirstByteCountsMost(front);
      assert front[1..] == b[1..][..|b| - 2];
      assert b[0] * Pow256(|b| - 2) * 256 == b[0] * Pow256(|b| - 1) by { Regroup(b[0], Pow256(|b| - 2)); }
    }
  }

  lemma {:induction false} Regroup(x: nat, unit: nat)
    ensures x * unit * 256 == x * (256 * unit)
  {}

  lemma {:induction false} LeadingDigit(x: nat, y: nat, unit: nat, p: nat, q: nat)
    requires p < unit && q < unit
    ensures x * unit + p < y * unit + q <==> x < y || (x == y && p < q)
  {
    if x < y {
      AtLeastOnce(y - x, unit);
      assert y * unit == x * unit + (y - x) * unit by { Distribute(x, y - x, unit); }
    } else if x > y {
      AtLeastOnce(x - y, unit);
      assert x * unit == y * unit + (x - y) * unit by { Distribute(y, x - y, unit); }
    }
  }

  lemma {:induction false} AtLeastOnce(d: nat, unit: nat)
    requires d >= 1
    ensures d * unit >= unit
  {
    Distribute(1, d - 1, unit);
  }

  lemma {:induction false} Distribute(x: nat, d: nat, unit: nat)
    ensures (x + d) * unit == x * unit + d * unit
  {}

  /** Big-endian means that numbers are ordered as their bytes are, the first byte first. */
  lemma {:induction false} OrderOfBytes(a: Bytes, b: Bytes)
    requires |a| == |b|
    ensures FromBytes(a) < FromBytes(b) <==> Order.LexLess(a, b)
  {
    if a != [] {
      FirstByteCountsMost(a);
      FirstByteCountsMost(b);
      OrderOfBytes(a[1..], b[1..]);
      Canonical(a[1..]);
      Canonical(b[1..]);
      LeadingDigit(a[0], b[0], Pow256(|a| - 1), FromBytes(a[1..]), FromBytes(b[1..]));
      hide FromBytes, Pow256;
    }
  }
}
