/** The human-checkable verification string of a pairing session. BLAKE3 is any digest to 32 bytes. */
module VerificationString {
  import opened Basics
  import Order
  import Utf8
  import BigEndian

  datatype Hash = Hash(digest: Bytes -> Bytes32)

  const PAIRING_CONTEXT: string := "lcp-pairing-v1"

  // The 64 words, eight to a row.
  const ROW_0: seq<string> := ["mango", "river", "pencil", "orbit", "cedar", "flame", "cobalt", "harbor"]
  const ROW_1: seq<string> := ["meadow", "quartz", "silver", "timber", "violet", "amber", "canyon", "delta"]
  const ROW_2: seq<string> := ["ember", "frost", "granite", "hollow", "ivory", "jungle", "kernel", "lagoon"]
  const ROW_3: seq<string> := ["marble", "nectar", "opal", "prairie", "quiver", "ridge", "summit", "tundra"]
  const ROW_4: seq<string> := ["umber", "valley", "willow", "xenon", "yonder", "zephyr", "anchor", "basalt"]
  const ROW_5: seq<string> := ["cinder", "dune", "echo", "fable", "glacier", "haven", "island", "jasper"]
  const ROW_6: seq<string> := ["knoll", "lumen", "mesa", "nimbus", "onyx", "pebble", "quill", "raven"]
  const ROW_7: seq<string> := ["shard", "thicket", "unity", "vapor", "wisp", "yarrow", "zenith", "arbor"]

  function Row(r: nat): (row: seq<string>)
    requires r < 8
    ensures |row| == 8
  {
    match r
    case 0 => ROW_0
    case 1 => ROW_1
    case 2 => ROW_2
    case 3 => ROW_3
    case 4 => ROW_4
    case 5 => ROW_5
    case 6 => ROW_6
    case _ => ROW_7
  }

  function WordAt(i: nat): string
    requires i < 64
  {
    Row(i / 8)[i % 8]
  }

  ghost predicate InList(w: string) {
    exists i :: 0 <= i < 64 && w == WordAt(i)
  }

  function FirstId(a: string, b: string): string {
    if !Order.Less(b, a) then a else b
  }

  function SecondId(a: string, b: string): string {
    if !Order.Less(b, a) then b else a
  }

  function FirstNonce(a: Bytes32, b: Bytes32): Bytes32 {
    if !Order.LexLess(b, a) then a else b
  }

  function SecondNonce(a: Bytes32, b: Bytes32): Bytes32 {
    if !Order.LexLess(b, a) then b else a
  }

  function HashInput(idA: string, idB: string, secret: Bytes32, nonceA: Bytes32, nonceB: Bytes32): Bytes {
    Utf8.Encode(PAIRING_CONTEXT) + Utf8.Encode(FirstId(idA, idB)) + Utf8.Encode(SecondId(idA, idB))
    + secret + FirstNonce(nonceA, nonceB) + SecondNonce(nonceA, nonceB)
  }

  function Digit(n: nat): char
    requires n < 10
  {
    ('0' as int + n) as char
  }

  function FourDigits(n: nat): string
    requires n < 10000
  {
    [Digit(n / 1000), Digit(n / 100 % 10), Digit(n / 10 % 10), Digit(n % 10)]
  }

  function Word(b: byte): string {
    WordAt(b % 64)
  }

  /** The fourth and fifth byte as a big-endian `u16`. */
  function Number(h: Bytes32): nat {
    var high: int, low: int := h[3], h[4];
    high * 256 + low
  }

  function Render(h: Bytes32): string {
    Word(h[0]) + "-" + Word(h[1]) + "-" + Word(h[2]) + "-" + FourDigits(Number(h) % 10000)
  }

  function Derive(hash: Hash, idA: string, idB: string, secret: Bytes32, nonceA: Bytes32, nonceB: Bytes32): string {
    Render(hash.digest(HashInput(idA, idB, secret, nonceA, nonceB)))
  }

  /** The string does not depend on who is who, nor on whose nonce is whose. */
  lemma {:induction false} DeriveIsSymmetric(hash: Hash, idA: string, idB: string, secret: Bytes32,
                                             nonceA: Bytes32, nonceB: Bytes32)
    ensures Derive(hash, idA, idB, secret, nonceA, nonceB) == Derive(hash, idB, idA, secret, nonceA, nonceB)
    ensures Derive(hash, idA, idB, secret, nonceA, nonceB) == Derive(hash, idA, idB, secret, nonceB, nonceA)
    ensures Derive(hash, idA, idB, secret, nonceA, nonceB) == Derive(hash, idB, idA, secret, nonceB, nonceA)
  {
    Order.Trichotomy(idA, idB);
    Order.LexTrichotomy(nonceA, nonceB);
    hide Order.Less, Order.LexLess, Render, Utf8.Encode;
  }

  ghost predicate SamePair<T(!new)>(a: T, b: T, a': T, b': T) {
    (a == a' && b == b') || (a == b' && b == a')
  }

  /** Sorting forgets the order of a pair and nothing else. */
  lemma {:induction false} SortedIdsBind(a: string, b: string, a': string, b': string)
    ensures FirstId(a, b) == FirstId(a', b') && SecondId(a, b) == SecondId(a', b') <==> SamePair(a, b, a', b')
  {
    Order.Trichotomy(a, b);
    Order.Trichotomy(a', b');
    hide Order.Less;
  }

  lemma {:induction false} SortedNoncesBind(a: Bytes32, b: Bytes32, a': Bytes32, b': Bytes32)
    ensures FirstNonce(a, b) == FirstNonce(a', b') && SecondNonce(a, b) == SecondNonce(a', b') <==> SamePair(a, b, a', b')
  {
    Order.LexTrichotomy(a, b);
    Order.LexTrichotomy(a', b');
    hide Order.LexLess;
  }

  /** Concatenations of pieces of the same lengths are equal only piece by piece. */
  lemma {:induction false} SamePieces(a: Bytes, b: Bytes, a': Bytes, b': Bytes)
    requires |a| == |a'|
    ensures a + b == a' + b' <==> a == a' && b == b'
  {
    assert a == (a + b)[..|a|] && b == (a + b)[|a|..];
    assert a' == (a' + b')[..|a|] && b' == (a' + b')[|a|..];
  }

  lemma {:induction false} SameSixPieces(c: Bytes, i: Bytes, j: Bytes, s: Bytes, n: Bytes, m: Bytes,
                                         i': Bytes, j': Bytes, s': Bytes, n': Bytes, m': Bytes)
    requires |i| == |i'| && |j| == |j'| && |s| == |s'| && |n| == |n'|
    ensures c + i + j + s + n + m == c + i' + j' + s' + n' + m' <==> i == i' && j == j' && s == s' && n == n' && m == m'
  {
    SamePieces(c, i, c, i');
    SamePieces(c + i, j, c + i', j');
    SamePieces(c + i + j, s, c + i' + j', s');
    SamePieces(c + i + j + s, n, c + i' + j' + s', n');
    SamePieces(c + i + j + s + n, m, c + i' + j' + s' + n', m');
  }

  /** What is hashed pins everything down: with endpoint ids of one length, as they are, two sessions
      feed the hash the same bytes exactly when their unordered pair of ids, their secret and their
      unordered pair of nonces are the same. */
  lemma {:induction false} HashInputBinds(idA: string, idB: string, secret: Bytes32, nonceA: Bytes32, nonceB: Bytes32,
                                          idA': string, idB': string, secret': Bytes32, nonceA': Bytes32, nonceB': Bytes32,
                                          n: nat)
    requires |Utf8.Encode(idA)| == n && |Utf8.Encode(idB)| == n && |Utf8.Encode(idA')| == n && |Utf8.Encode(idB')| == n
    ensures HashInput(idA, idB, secret, nonceA, nonceB) == HashInput(idA', idB', secret', nonceA', nonceB') <==>
              SamePair(idA, idB, idA', idB') && secret == secret' && SamePair(nonceA, nonceB, nonceA', nonceB')
  {
    hide Utf8.Encode, Utf8.Decode, SamePair, Order.Less, Order.LexLess;
    SameSixPieces(Utf8.Encode(PAIRING_CONTEXT),
      Utf8.Encode(FirstId(idA, idB)), Utf8.Encode(SecondId(idA, idB)), secret,
      FirstNonce(nonceA, nonceB), SecondNonce(nonceA, nonceB),
      Utf8.Encode(FirstId(idA', idB')), Utf8.Encode(SecondId(idA', idB')), secret',
      FirstNonce(nonceA', nonceB'), SecondNonce(nonceA', nonceB'));
    SortedIdsBind(idA, idB, idA', idB');
    SortedNoncesBind(nonceA, nonceB, nonceA', nonceB');
    Utf8.RoundTrip(FirstId(idA, idB));
    Utf8.RoundTrip(FirstId(idA', idB'));
    Utf8.RoundTrip(SecondId(idA, idB));
    Utf8.RoundTrip(SecondId(idA', idB'));
  }

  /** The pieces of `s` between dashes. */
  function Split(s: string): (parts: seq<string>)
    ensures |parts| >= 1
  {
    if s == [] then [[]]
    else
      var rest := Split(s[1..]);
      if s[0] == '-' then [[]] + rest else [[s[0]] + rest[0]] + rest[1..]
  }

  predicate Undashed(s: string) {
    forall i :: 0 <= i < |s| ==> s[i] != '-'
  }

  lemma {:induction false} SplitFirst(w: string, rest: string)
    requires Undashed(w)
    ensures Split(w + "-" + rest) == [w] + Split(rest)
  {
    var s := w + "-" + rest;
    if w == [] {
      assert s[1..] == rest;
    } else {
      SplitFirst(w[1..], rest);
      assert s[1..] == w[1..] + "-" + rest;
      assert [w[0]] + w[1..] == w;
    }
  }

  lemma {:induction false} SplitLast(w: string)
    requires Undashed(w)
    ensures Split(w) == [w]
  {
    if w != [] {
      SplitLast(w[1..]);
      assert [w[0]] + w[1..] == w;
    }
  }

  ghost predicate UndashedRow(row: seq<string>) {
    forall i :: 0 <= i < |row| ==> Undashed(row[i])
  }

  lemma {:induction false} UpperRowsAreUndashed()
    ensures UndashedRow(ROW_0) && UndashedRow(ROW_1) && UndashedRow(ROW_2) && UndashedRow(ROW_3)
  {}

  lemma {:induction false} LowerRowsAreUndashed()
    ensures UndashedRow(ROW_4) && UndashedRow(ROW_5) && UndashedRow(ROW_6) && UndashedRow(ROW_7)
  {}

  lemma {:induction false} WordsAreUndashed(i: nat)
    requires i < 64
    ensures Undashed(WordAt(i))
  {
    UpperRowsAreUndashed();
    LowerRowsAreUndashed();
    hide Undashed;
    assert UndashedRow(Row(i / 8));
  }

  lemma {:induction false} SplitFour(w0: string, w1: string, w2: string, d: string)
    requires Undashed(w0) && Undashed(w1) && Undashed(w2) && Undashed(d)
    ensures Split(w0 + "-" + w1 + "-" + w2 + "-" + d) == [w0, w1, w2, d]
  {
    hide Split, Undashed;
    SplitLast(d);
    SplitFirst(w2, d);
    SplitFirst(w1, w2 + "-" + d);
    SplitFirst(w0, w1 + "-" + (w2 + "-" + d));
    assert w0 + "-" + w1 + "-" + w2 + "-" + d == w0 + "-" + (w1 + "-" + (w2 + "-" + d));
  }

  lemma {:induction false} RenderShape(h: Bytes32)
    ensures Split(Render(h)) == [Word(h[0]), Word(h[1]), Word(h[2]), FourDigits(Number(h) % 10000)]
    ensures InList(Word(h[0])) && InList(Word(h[1])) && InList(Word(h[2]))
  {
    WordsAreUndashed(h[0] % 64);
    WordsAreUndashed(h[1] % 64);
    WordsAreUndashed(h[2] % 64);
    assert Undashed(FourDigits(Number(h) % 10000));
    hide Split, WordAt, FourDigits;
    SplitFour(Word(h[0]), Word(h[1]), Word(h[2]), FourDigits(Number(h) % 10000));
  }

  lemma {:induction false} FourDigitsAreDigits(n: nat)
    requires n < 10000
    ensures |FourDigits(n)| == 4
    ensures forall i :: 0 <= i < 4 ==> '0' <= FourDigits(n)[i] <= '9'
  {}

  /** Every string splits at its dashes into three words of the list and four decimal digits. */
  lemma {:induction false} DeriveShape(hash: Hash, idA: string, idB: string, secret: Bytes32,
                                       nonceA: Bytes32, nonceB: Bytes32)
    ensures var parts := Split(Derive(hash, idA, idB, secret, nonceA, nonceB));
            && |parts| == 4
            && InList(parts[0]) && InList(parts[1]) && InList(parts[2])
            && |parts[3]| == 4 && forall i :: 0 <= i < 4 ==> '0' <= parts[3][i] <= '9'
  {
    hide Render, Split, InList, WordAt, FourDigits, HashInput;
    var h := hash.digest(HashInput(idA, idB, secret, nonceA, nonceB));
    RenderShape(h);
    FourDigitsAreDigits(Number(h) % 10000);
    assert Split(Derive(hash, idA, idB, secret, nonceA, nonceB))
           == [Word(h[0]), Word(h[1]), Word(h[2]), FourDigits(Number(h) % 10000)];
  }

  // -------------------------------------------------------------------- what the string tells

  /** The first four letters of a word as one number; they tell the words of the list apart. */
  function Letters(w: string): int {
    if |w| < 4 then 0
    else ((w[0] as int * 0x100 + w[1] as int) * 0x100 + w[2] as int) * 0x100 + w[3] as int
  }

  /** The place in the list of the word that begins with these letters. */
  function PlaceOf(letters: int): int {
    match letters
    case 0x6D616E67 => 0   // mang
    case 0x72697665 => 1   // rive
    case 0x70656E63 => 2   // penc
    case 0x6F726269 => 3   // orbi
    case 0x63656461 => 4   // ceda
    case 0x666C616D => 5   // flam
    case 0x636F6261 => 6   // coba
    case 0x68617262 => 7   // harb
    case 0x6D656164 => 8   // mead
    case 0x71756172 => 9   // quar
    case 0x73696C76 => 10   // silv
    case 0x74696D62 => 11   // timb
    case 0x76696F6C => 12   // viol
    case 0x616D6265 => 13   // ambe
    case 0x63616E79 => 14   // cany
    case 0x64656C74 => 15   // delt
    case 0x656D6265 => 16   // embe
    case 0x66726F73 => 17   // fros
    case 0x6772616E => 18   // gran
    case 0x686F6C6C => 19   // holl
    case 0x69766F72 => 20   // ivor
    case 0x6A756E67 => 21   // jung
    case 0x6B65726E => 22   // kern
    case 0x6C61676F => 23   // lago
    case 0x6D617262 => 24   // marb
    case 0x6E656374 => 25   // nect
    case 0x6F70616C => 26   // opal
    case 0x70726169 => 27   // prai
    case 0x71756976 => 28   // quiv
    case 0x72696467 => 29   // ridg
    case 0x73756D6D => 30   // summ
    case 0x74756E64 => 31   // tund
    case 0x756D6265 => 32   // umbe
    case 0x76616C6C => 33   // vall
    case 0x77696C6C => 34   // will
    case 0x78656E6F => 35   // xeno
    case 0x796F6E64 => 36   // yond
    case 0x7A657068 => 37   // zeph
    case 0x616E6368 => 38   // anch
    case 0x62617361 => 39   // basa
    case 0x63696E64 => 40   // cind
    case 0x64756E65 => 41   // dune
    case 0x6563686F => 42   // echo
    case 0x6661626C => 43   // fabl
    case 0x676C6163 => 44   // glac
    case 0x68617665 => 45   // have
    case 0x69736C61 => 46   // isla
    case 0x6A617370 => 47   // jasp
    case 0x6B6E6F6C => 48   // knol
    case 0x6C756D65 => 49   // lume
    case 0x6D657361 => 50   // mesa
    case 0x6E696D62 => 51   // nimb
    case 0x6F6E7978 => 52   // onyx
    case 0x70656262 => 53   // pebb
    case 0x7175696C => 54   // quil
    case 0x72617665 => 55   // rave
    case 0x73686172 => 56   // shar
    case 0x74686963 => 57   // thic
    case 0x756E6974 => 58   // unit
    case 0x7661706F => 59   // vapo
    case 0x77697370 => 60   // wisp
    case 0x79617272 => 61   // yarr
    case 0x7A656E69 => 62   // zeni
    case 0x6172626F => 63   // arbo
    case _ => -1
  }

  lemma {:induction false} PlacesInRow0(k: nat)
    requires k < 8
    ensures PlaceOf(Letters(ROW_0[k])) == 0 + k
  {
    var row := ROW_0;
    assert Letters(row[0]) == 0x6D616E67;
    assert Letters(row[1]) == 0x72697665;
    assert Letters(row[2]) == 0x70656E63;
    assert Letters(row[3]) == 0x6F726269;
    assert Letters(row[4]) == 0x63656461;
    assert Letters(row[5]) == 0x666C616D;
    assert Letters(row[6]) == 0x636F6261;
    assert Letters(row[7]) == 0x68617262;
  }

  lemma {:induction false} PlacesInRow1(k: nat)
    requires k < 8
    ensures PlaceOf(Letters(ROW_1[k])) == 8 + k
  {
    var row := ROW_1;
    assert Letters(row[0]) == 0x6D656164;
    assert Letters(row[1]) == 0x71756172;
    assert Letters(row[2]) == 0x73696C76;
    assert Letters(row[3]) == 0x74696D62;
    assert Letters(row[4]) == 0x76696F6C;
    assert Letters(row[5]) == 0x616D6265;
    assert Letters(row[6]) == 0x63616E79;
    assert Letters(row[7]) == 0x64656C74;
  }

  lemma {:induction false} PlacesInRow2(k: nat)
    requires k < 8
    ensures PlaceOf(Letters(ROW_2[k])) == 16 + k
  {
    var row := ROW_2;
    assert Letters(row[0]) == 0x656D6265;
    assert Letters(row[1]) == 0x66726F73;
    assert Letters(row[2]) == 0x6772616E;
    assert Letters(row[3]) == 0x686F6C6C;
    assert Letters(row[4]) == 0x69766F72;
    assert Letters(row[5]) == 0x6A756E67;
    assert Letters(row[6]) == 0x6B65726E;
    assert Letters(row[7]) == 0x6C61676F;
  }

  lemma {:induction false} PlacesInRow3(k: nat)
    requires k < 8
    ensures PlaceOf(Letters(ROW_3[k])) == 24 + k
  {
    var row := ROW_3;
    assert Letters(row[0]) == 0x6D617262;
    assert Letters(row[1]) == 0x6E656374;
    assert Letters(row[2]) == 0x6F70616C;
    assert Letters(row[3]) == 0x70726169;
    assert Letters(row[4]) == 0x71756976;
    assert Letters(row[5]) == 0x72696467;
    assert Letters(row[6]) == 0x73756D6D;
    assert Letters(row[7]) == 0x74756E64;
  }

  lemma {:induction false} PlacesInRow4(k: nat)
    requires k < 8
    ensures PlaceOf(Letters(ROW_4[k])) == 32 + k
  {
    var row := ROW_4;
    assert Letters(row[0]) == 0x756D6265;
    assert Letters(row[1]) == 0x76616C6C;
    assert Letters(row[2]) == 0x77696C6C;
    assert Letters(row[3]) == 0x78656E6F;
    assert Letters(row[4]) == 0x796F6E64;
    assert Letters(row[5]) == 0x7A657068;
    assert Letters(row[6]) == 0x616E6368;
    assert Letters(row[7]) == 0x62617361;
  }

  lemma {:induction false} PlacesInRow5(k: nat)
    requires k < 8
    ensures PlaceOf(Letters(ROW_5[k])) == 40 + k
  {
    var row := ROW_5;
    assert Letters(row[0]) == 0x63696E64;
    assert Letters(row[1]) == 0x64756E65;
    assert Letters(row[2]) == 0x6563686F;
    assert Letters(row[3]) == 0x6661626C;
    assert Letters(row[4]) == 0x676C6163;
    assert Letters(row[5]) == 0x68617665;
    assert Letters(row[6]) == 0x69736C61;
    assert Letters(row[7]) == 0x6A617370;
  }

  lemma {:induction false} PlacesInRow6(k: nat)
    requires k < 8
    ensures PlaceOf(Letters(ROW_6[k])) == 48 + k
  {
    var row := ROW_6;
    assert Letters(row[0]) == 0x6B6E6F6C;
    assert Letters(row[1]) == 0x6C756D65;
    assert Letters(row[2]) == 0x6D657361;
    assert Letters(row[3]) == 0x6E696D62;
    assert Letters(row[4]) == 0x6F6E7978;
    assert Letters(row[5]) == 0x70656262;
    assert Letters(row[6]) == 0x7175696C;
    assert Letters(row[7]) == 0x72617665;
  }

  lemma {:induction false} PlacesInRow7(k: nat)
    requires k < 8
    ensures PlaceOf(Letters(ROW_7[k])) == 56 + k
  {
    var row := ROW_7;
    assert Letters(row[0]) == 0x73686172;
    assert Letters(row[1]) == 0x74686963;
    assert Letters(row[2]) == 0x756E6974;
    assert Letters(row[3]) == 0x7661706F;
    assert Letters(row[4]) == 0x77697370;
    assert Letters(row[5]) == 0x79617272;
    assert Letters(row[6]) == 0x7A656E69;
    assert Letters(row[7]) == 0x6172626F;
  }

  lemma {:induction false} PlaceOfWord(i: nat)
    requires i < 64
    ensures PlaceOf(Letters(WordAt(i))) == i
  {
    hide PlaceOf, Letters;
    match i / 8
    case 0 => PlacesInRow0(i % 8);
    case 1 => PlacesInRow1(i % 8);
    case 2 => PlacesInRow2(i % 8);
    case 3 => PlacesInRow3(i % 8);
    case 4 => PlacesInRow4(i % 8);
    case 5 => PlacesInRow5(i % 8);
    case 6 => PlacesInRow6(i % 8);
    case _ => PlacesInRow7(i % 8);
  }

  /** No word stands twice in the list. */
  lemma {:induction false} WordsDiffer(i: nat, j: nat)
    requires i < 64 && j < 64
    ensures WordAt(i) == WordAt(j) <==> i == j
  {
    PlaceOfWord(i);
    PlaceOfWord(j);
    hide WordAt, PlaceOf, Letters;
  }

  lemma {:induction false} DigitsSpell(n: nat)
    requires n < 10000
    ensures Numeral(FourDigits(n)) == n
  {
    var d := FourDigits(n);
    var a, b, c, e := n / 1000, n / 100 % 10, n / 10 % 10, n % 10;
    assert d == [Digit(a), Digit(b), Digit(c), Digit(e)];
    hide FourDigits;
    assert d[..3] == [Digit(a), Digit(b), Digit(c)] && d[..3][..2] == [Digit(a), Digit(b)];
    assert d[..3][..2][..1] == [Digit(a)] && d[..3][..2][..1][..0] == "";
    assert Numeral([Digit(a)]) == a;
    assert Numeral([Digit(a), Digit(b)]) == 10 * a + b;
    assert Numeral([Digit(a), Digit(b), Digit(c)]) == 10 * (10 * a + b) + c;
    assert Numeral(d) == 10 * (10 * (10 * a + b) + c) + e;
    DecimalPlaces(n);
  }

  lemma {:induction false} DecimalPlaces(n: nat)
    requires n < 10000
    ensures n == 10 * (10 * (10 * (n / 1000) + n / 100 % 10) + n / 10 % 10) + n % 10
  {
    assert n / 100 == 10 * (n / 1000) + n / 100 % 10;
    assert n / 10 == 10 * (n / 100) + n / 10 % 10;
  }

  /** The string is read off the digest: three words by its first three bytes modulo 64, and a decimal
      number, the next two bytes, most significant first, modulo 10000. */
  lemma {:induction false} StringReadsDigest(hash: Hash, idA: string, idB: string, secret: Bytes32,
                                             nonceA: Bytes32, nonceB: Bytes32)
    ensures var h := hash.digest(HashInput(idA, idB, secret, nonceA, nonceB));
            var parts := Split(Derive(hash, idA, idB, secret, nonceA, nonceB));
            && |parts| == 4
            && (forall k :: 0 <= k < 3 ==> parts[k] == WordAt(h[k] % 64))
            && Numeral(parts[3]) == BigEndian.FromBytes(h[3..5]) % 10000
  {
    hide Render, Split, WordAt, FourDigits, HashInput, Numeral;
    var h := hash.digest(HashInput(idA, idB, secret, nonceA, nonceB));
    RenderShape(h);
    DigitsSpell(Number(h) % 10000);
    TwoBytes(h[3], h[4]);
    assert h[3..5] == [h[3], h[4]];
  }

  lemma {:induction false} TwoBytes(high: byte, low: byte)
    ensures BigEndian.FromBytes([high, low]) == high * 256 + low
  {
    assert [high, low][..1] == [high];
    assert BigEndian.FromBytes([high]) == high;
  }

  /** What is read off a digest: six bits of each of three bytes, and a number below 10000. */
  ghost predicate SameReading(h: Bytes32, h': Bytes32) {
    && (forall k :: 0 <= k < 3 ==> h[k] % 64 == h'[k] % 64)
    && BigEndian.FromBytes(h[3..5]) % 10000 == BigEndian.FromBytes(h'[3..5]) % 10000
  }

  /** Two sessions show the same string exactly when their digests read the same. */
  lemma {:induction false} SameStringIff(hash: Hash, idA: string, idB: string, secret: Bytes32, nonceA: Bytes32, nonceB: Bytes32,
                                         idA': string, idB': string, secret': Bytes32, nonceA': Bytes32, nonceB': Bytes32)
    ensures Derive(hash, idA, idB, secret, nonceA, nonceB) == Derive(hash, idA', idB', secret', nonceA', nonceB') <==>
            SameReading(hash.digest(HashInput(idA, idB, secret, nonceA, nonceB)),
                        hash.digest(HashInput(idA', idB', secret', nonceA', nonceB')))
  {
    var h, h' := hash.digest(HashInput(idA, idB, secret, nonceA, nonceB)),
                 hash.digest(HashInput(idA', idB', secret', nonceA', nonceB'));
    SameRendering(h, h');
    hide Render, SameReading, HashInput;
  }

  lemma {:induction false} SameRendering(h: Bytes32, h': Bytes32)
    ensures Render(h) == Render(h') <==> SameReading(h, h')
  {
    hide Split, WordAt, FourDigits, Numeral;
    RenderShape(h);
    RenderShape(h');
    WordsDiffer(h[0] % 64, h'[0] % 64);
    WordsDiffer(h[1] % 64, h'[1] % 64);
    WordsDiffer(h[2] % 64, h'[2] % 64);
    DigitsSpell(Number(h) % 10000);
    DigitsSpell(Number(h') % 10000);
    TwoBytes(h[3], h[4]);
    TwoBytes(h'[3], h'[4]);
    assert h[3..5] == [h[3], h[4]] && h'[3..5] == [h'[3], h'[4]];
  }

  /** A few places of the list, and leading zeros. */
  lemma {:induction false} Anchors()
    ensures Word(0) == "mango" && Word(1) == "river" && Word(66) == "pencil" && Word(255) == "arbor"
    ensures FourDigits(7) == "0007" && FourDigits(4821) == "4821"
  {}

  /** The order of what is hashed: the context, the smaller id, the larger id, the secret, the smaller
      nonce, the larger nonce. */
  lemma {:induction false} HashInputOrder(idA: string, idB: string, secret: Bytes32, nonceA: Bytes32, nonceB: Bytes32)
    requires Order.Less(idA, idB) && Order.LexLess(nonceA, nonceB)
    ensures HashInput(idA, idB, secret, nonceA, nonceB) ==
            Utf8.Encode("lcp-pairing-v1") + Utf8.Encode(idA) + Utf8.Encode(idB) + secret + nonceA + nonceB
  {
    Order.Trichotomy(idA, idB);
    Order.LexTrichotomy(nonceA, nonceB);
    hide Order.Less, Order.LexLess, Utf8.Encode;
  }
}
