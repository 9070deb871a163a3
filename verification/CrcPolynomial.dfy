/**
 What the checksum is: the remainder of the message, as a polynomial over the field of two
 elements, under division by the generator of section 8.1.1.6.2 of ITU-T V.42.  A polynomial is
 the list of its coefficients, highest power first; every byte is sent lowest bit first.
 */
module CrcPolynomial {
  import opened Crc32

  type Polynomial = seq<bool>

  const EXPONENTS := {32, 26, 23, 22, 16, 12, 11, 10, 8, 7, 5, 4, 2, 1, 0}

  const DEGREE := 32

  /** The coefficients below the leading one. */
  function Generator(): (g: Polynomial)
    ensures |g| == DEGREE && forall i | 0 <= i < DEGREE :: g[i] <==> DEGREE - 1 - i in EXPONENTS
  {
    seq(DEGREE, i => DEGREE - 1 - i in EXPONENTS)
  }

  function Differ(a: bool, b: bool): bool { a != b }

  /** The sum: `b` added to the first coefficients of `a`. */
  function Plus(a: Polynomial, b: Polynomial): (c: Polynomial)
    requires |b| <= |a|
    ensures |c| == |a|
    ensures forall i | 0 <= i < |a| :: c[i] <==> if i < |b| then Differ(a[i], b[i]) else a[i]
  {
    seq(|a|, i requires 0 <= i < |a| => if i < |b| then Differ(a[i], b[i]) else a[i])
  }

  /** Long division: while there is a power to take away, the generator is subtracted below it or not. */
  function Remainder(m: Polynomial): (r: Polynomial)
    requires |m| >= DEGREE
    ensures |r| == DEGREE
    decreases |m|
  {
    if |m| == DEGREE then m
    else Remainder(if m[0] then Plus(m[1..], Generator()) else m[1..])
  }

  function Coefficients(n: nat, bit: bool): (p: Polynomial)
    ensures |p| == n && forall i | 0 <= i < n :: p[i] == bit
  {
    seq(n, i => bit)
  }

  /** A byte as it is sent, lowest bit first. */
  function ByteBits(b: bv8): (p: Polynomial)
    ensures |p| == 8
  {
    [b & 1 != 0, b & 2 != 0, b & 4 != 0, b & 8 != 0, b & 16 != 0, b & 32 != 0, b & 64 != 0, b & 128 != 0]
  }

  function MessageBits(data: seq<bv8>): (p: Polynomial)
    ensures |p| == 8 * |data|
  {
    if data == [] then [] else ByteBits(data[0]) + MessageBits(data[1..])
  }

  /** The message times the power of the degree, with its first coefficients preset. */
  function Preset(data: seq<bv8>, front: Polynomial): (p: Polynomial)
    requires |front| == DEGREE
    ensures |p| == 8 * |data| + DEGREE
  {
    Plus(MessageBits(data) + Coefficients(DEGREE, false), front)
  }

  // ------------------------------------------------------------ words as polynomials

  function LowBit(w: bv32): bool { w & 1 != 0 }

  /** The lowest `n` bits of a word, lowest first. */
  function LowBits(w: bv32, n: nat): (p: Polynomial)
    ensures |p| == n
  {
    if n == 0 then [] else [LowBit(w)] + LowBits(Half(w), n - 1)
  }

  function WordBits(w: bv32): (p: Polynomial)
    ensures |p| == DEGREE
  {
    LowBits(w, DEGREE)
  }

  /** A word after `n` bits were dropped. */
  function Dropped(w: bv32, n: nat): bv32 {
    if n == 0 then w else Dropped(Half(w), n - 1)
  }

  lemma {:induction false} DropMore(w: bv32, m: nat, n: nat)
    ensures Dropped(Dropped(w, m), n) == Dropped(w, m + n)
    decreases m
  {
    hide Half;
    if m > 0 {
      DropMore(Half(w), m - 1, n);
    }
  }

  lemma EightHalved(w: bv32)
    ensures Crc32.EightHalves(w) == DropByte(w)
  {}

  lemma FourDropped(w: bv32)
    ensures Dropped(w, 4) == Half(Half(Half(Half(w))))
  {
    hide Half;
    var h := Half(Half(w));
    assert Dropped(w, 4) == Dropped(h, 2) == Dropped(Half(h), 1);
    assert Dropped(Half(h), 1) == Dropped(Half(Half(h)), 0);
  }

  lemma ByteDropped(w: bv32)
    ensures Dropped(w, 8) == DropByte(w)
  {
    EightHalved(w);
    hide Half, DropByte;
    FourDropped(w);
    FourDropped(Half(Half(Half(Half(w)))));
    DropMore(w, 4, 4);
  }

  lemma FourBytes(w: bv32)
    ensures DropByte(DropByte(DropByte(DropByte(w)))) == 0
  {}

  lemma AllDropped(w: bv32)
    ensures Dropped(w, DEGREE) == 0
  {
    FourBytes(w);
    hide DropByte;
    var w1 := DropByte(w);
    var w2 := DropByte(w1);
    ByteDropped(w);
    ByteDropped(w1);
    ByteDropped(w2);
    ByteDropped(DropByte(w2));
    hide Dropped;
    DropMore(w, 8, 8);
    DropMore(w, 16, 8);
    DropMore(w, 24, 8);
  }

  lemma {:induction false} BitsSplit(w: bv32, m: nat, n: nat)
    ensures LowBits(w, m + n) == LowBits(w, m) + LowBits(Dropped(w, m), n)
    decreases m
  {
    hide Half, LowBit;
    if m > 0 {
      BitsSplit(Half(w), m - 1, n);
    }
  }

  // ------------------------------------------------------------ exclusive or is the sum

  lemma HalfOfXor(a: bv32, b: bv32)
    ensures LowBit(Xor(a, b)) == Differ(LowBit(a), LowBit(b)) && Half(Xor(a, b)) == Xor(Half(a), Half(b))
  {}

  lemma {:induction false} XorIsSum(a: bv32, b: bv32, n: nat)
    ensures LowBits(Xor(a, b), n) == Plus(LowBits(a, n), LowBits(b, n))
    decreases n
  {
    if n > 0 {
      HalfOfXor(a, b);
      hide Half, LowBit, Xor;
      XorIsSum(Half(a), Half(b), n - 1);
      SumInFront(LowBit(a), LowBit(b), LowBits(Half(a), n - 1), LowBits(Half(b), n - 1));
    }
  }

  lemma {:induction false} ZeroBits(n: nat)
    ensures LowBits(0, n) == Coefficients(n, false)
    decreases n
  {
    if n > 0 {
      assert LowBit(0) == false && Half(0) == 0;
      ZeroBits(n - 1);
    }
  }

  lemma SumInFront(a: bool, b: bool, p: Polynomial, q: Polynomial)
    requires |p| == |q|
    ensures Plus([a] + p, [b] + q) == [Differ(a, b)] + Plus(p, q)
  {}

  // ------------------------------------------------------------ the bits of bytes and words

  predicate IsSet(w: bv32, mask: bv32) { w & mask != 0 }

  /** The lowest eight bits of a word. */
  function Eight(w: bv32): (p: Polynomial)
    ensures |p| == 8
  {
    LowFour(w) + HighFour(w)
  }

  function LowFour(w: bv32): (p: Polynomial)
    ensures |p| == 4
  {
    [IsSet(w, 1), IsSet(w, 2), IsSet(w, 4), IsSet(w, 8)]
  }

  function HighFour(w: bv32): (p: Polynomial)
    ensures |p| == 4
  {
    [IsSet(w, 16), IsSet(w, 32), IsSet(w, 64), IsSet(w, 128)]
  }

  lemma HalfSet(w: bv32, mask: bv32)
    requires mask & 0x80000000 == 0
    ensures IsSet(Half(w), mask) == IsSet(w, mask << 1)
  {}

  lemma HalfIsSet(w: bv32)
    ensures LowBit(w) == IsSet(w, 1) && IsSet(Half(w), 1) == IsSet(w, 2) && IsSet(Half(w), 2) == IsSet(w, 4)
    ensures IsSet(Half(w), 4) == IsSet(w, 8) && IsSet(Half(w), 8) == IsSet(w, 16)
    ensures IsSet(Half(w), 16) == IsSet(w, 32) && IsSet(Half(w), 32) == IsSet(w, 64)
    ensures IsSet(Half(w), 64) == IsSet(w, 128)
  {
    HalfSet(w, 1);
    HalfSet(w, 2);
    HalfSet(w, 4);
    HalfSet(w, 8);
    HalfSet(w, 16);
    HalfSet(w, 32);
    HalfSet(w, 64);
    hide Half;
  }

  lemma LowHalved(w: bv32)
    ensures LowFour(w) == FourBits(w)
  {
    HalfIsSet(w);
    HalfIsSet(Half(w));
    HalfIsSet(Half(Half(w)));
    HalfIsSet(Half(Half(Half(w))));
    hide IsSet, LowBit, Half;
  }

  lemma HighHalved(w: bv32)
    ensures HighFour(w) == LowFour(Half(Half(Half(Half(w)))))
  {
    HalfIsSet(w);
    HalfIsSet(Half(w));
    HalfIsSet(Half(Half(w)));
    HalfIsSet(Half(Half(Half(w))));
    hide IsSet, LowBit, Half;
  }

  lemma FourLow(w: bv32)
    ensures LowBits(w, 4) == FourBits(w)
  {
    hide Half, LowBit;
    var h := Half(Half(w));
    assert LowBits(h, 2) == [LowBit(h)] + LowBits(Half(h), 1) == [LowBit(h), LowBit(Half(h))];
    assert LowBits(Half(w), 3) == [LowBit(Half(w))] + LowBits(h, 2);
  }

  function FourBits(w: bv32): (p: Polynomial)
    ensures |p| == 4
  {
    [LowBit(w), LowBit(Half(w)), LowBit(Half(Half(w))), LowBit(Half(Half(Half(w))))]
  }

  lemma EightLow(w: bv32)
    ensures LowBits(w, 8) == Eight(w)
  {
    HighHalved(w);
    LowHalved(w);
    LowHalved(Half(Half(Half(Half(w)))));
    FourLow(w);
    FourLow(Half(Half(Half(Half(w)))));
    FourDropped(w);
    BitsSplit(w, 4, 4);
    hide Half, LowFour, HighFour, FourBits, LowBits;
  }

  /** A word, eight bits at a time. */
  function FourEights(w: bv32): (p: Polynomial)
    ensures |p| == DEGREE
  {
    Eight(w) + Eight(w >> 8) + Eight(w >> 16) + Eight(w >> 24)
  }

  lemma DropsAre(w: bv32)
    ensures DropByte(w) == w >> 8 && DropByte(DropByte(w)) == w >> 16 && DropByte(DropByte(DropByte(w))) == w >> 24
  {}

  lemma WordInEights(w: bv32)
    ensures WordBits(w) == FourEights(w)
  {
    DropsAre(w);
    hide DropByte, Eight;
    var w1 := DropByte(w);
    var w2 := DropByte(w1);
    var w3 := DropByte(w2);
    EightLow(w);
    EightLow(w1);
    EightLow(w2);
    EightLow(w3);
    ByteDropped(w);
    ByteDropped(w1);
    ByteDropped(w2);
    hide LowBits, Dropped;
    BitsSplit(w, 8, 24);
    BitsSplit(w1, 8, 16);
    BitsSplit(w2, 8, 8);
  }

  function Complement(p: Polynomial): (q: Polynomial)
    ensures |q| == |p| && forall i | 0 <= i < |p| :: q[i] == !p[i]
  {
    seq(|p|, i requires 0 <= i < |p| => !p[i])
  }

  lemma NotIsXor(w: bv32)
    ensures Not(w) == Xor(w, ONES)
  {}

  const ONES: bv32 := 0xFFFFFFFF

  lemma OnesAreSet()
    ensures WordBits(ONES) == Coefficients(DEGREE, true)
  {
    WordInEights(ONES);
  }

  lemma NotIsComplement(w: bv32)
    ensures WordBits(Not(w)) == Complement(WordBits(w))
  {
    NotIsXor(w);
    OnesAreSet();
    hide Not, Xor;
    XorIsSum(w, ONES, DEGREE);
    hide LowBits;
  }

  /** The constant of the program is the generator. */
  lemma PolynomialIsGenerator()
    ensures WordBits(POLYNOMIAL) == Generator()
  {
    WordInEights(POLYNOMIAL);
  }

  lemma ByteInWord(b: bv8)
    ensures LowFour(b as bv32) == [b & 1 != 0, b & 2 != 0, b & 4 != 0, b & 8 != 0]
    ensures HighFour(b as bv32) == [b & 16 != 0, b & 32 != 0, b & 64 != 0, b & 128 != 0]
    ensures (b as bv32) >> 8 == 0 && (b as bv32) >> 16 == 0 && (b as bv32) >> 24 == 0
  {}

  lemma NothingSet()
    ensures Eight(0) == Coefficients(8, false)
  {}

  lemma ByteIsWord(b: bv8)
    ensures WordBits(b as bv32) == ByteBits(b) + Coefficients(24, false)
  {
    WordInEights(b as bv32);
    ByteInWord(b);
    NothingSet();
    hide LowFour, HighFour, WordBits;
  }

  // ------------------------------------------------------------ one shift is one step of the division

  lemma HalfBits(w: bv32)
    ensures WordBits(Half(w)) == WordBits(w)[1..] + [false]
  {
    AllDropped(w);
    BitsSplit(w, DEGREE, 1);
    assert LowBits(0, 1) == [false];
    hide Half, LowBit, Dropped;
    var one, all := [LowBit(w)], WordBits(w);
    assert all + [false] == LowBits(w, DEGREE + 1) == one + WordBits(Half(w));
    assert WordBits(Half(w)) == (one + WordBits(Half(w)))[1..] == (all + [false])[1..];
  }

  lemma FirstBit(w: bv32)
    ensures WordBits(w)[0] == LowBit(w)
  {
    hide Half, LowBit;
  }

  lemma ShiftIs(w: bv32)
    ensures ShiftBit(w) == if LowBit(w) then Xor(Half(w), POLYNOMIAL) else Half(w)
  {}

  lemma SumAssociates(a: Polynomial, b: Polynomial, c: Polynomial)
    requires |c| == |b| <= |a|
    ensures Plus(Plus(a, b), c) == Plus(a, Plus(b, c))
  {}

  lemma SumBehind(rest: Polynomial, b: Polynomial, h: Polynomial)
    requires |b| == DEGREE && |rest| >= DEGREE && h == b[1..] + [false]
    ensures Plus([false] + rest, b)[0] == b[0] && Plus([false] + rest, b)[1..] == Plus(rest, h)
  {
    var m := Plus([false] + rest, b);
    forall i | 0 <= i < |rest|
      ensures m[1..][i] == Plus(rest, h)[i]
    {
      assert m[1..][i] == m[i + 1] && ([false] + rest)[i + 1] == rest[i];
    }
  }

  lemma ShiftDivides(w: bv32, rest: Polynomial)
    requires |rest| >= DEGREE
    ensures Remainder(Plus([false] + rest, WordBits(w))) == Remainder(Plus(rest, WordBits(ShiftBit(w))))
  {
    HalfBits(w);
    FirstBit(w);
    ShiftIs(w);
    SumBehind(rest, WordBits(w), WordBits(Half(w)));
    PolynomialIsGenerator();
    hide Half, LowBit, Xor, ShiftBit, LowBits, Plus;
    XorIsSum(Half(w), POLYNOMIAL, DEGREE);
    SumAssociates(rest, WordBits(Half(w)), Generator());
  }

  lemma {:induction false} ShiftFirst(w: bv32, n: nat)
    ensures ShiftBits(ShiftBit(w), n) == ShiftBits(w, n + 1)
  {
    hide ShiftBit;
    if n > 0 {
      ShiftFirst(w, n - 1);
    } else {
      assert ShiftBits(w, 0) == w;
    }
  }

  lemma {:induction false} ShiftsDivide(w: bv32, n: nat, rest: Polynomial)
    requires |rest| >= DEGREE
    ensures Remainder(Plus(Coefficients(n, false) + rest, WordBits(w)))
         == Remainder(Plus(rest, WordBits(ShiftBits(w, n))))
    decreases n
  {
    hide WordBits, Plus, Remainder, ShiftBit;
    if n == 0 {
      assert Coefficients(0, false) + rest == rest;
    } else {
      var more := Coefficients(n - 1, false) + rest;
      assert Coefficients(n, false) + rest == [false] + more;
      ShiftDivides(w, more);
      ShiftsDivide(ShiftBit(w), n - 1, rest);
      ShiftFirst(w, n - 1);
    }
  }

  lemma ByteIsAdded(q: bv32, b: bv8, rest: Polynomial)
    requires |rest| >= DEGREE
    ensures Plus(ByteBits(b) + rest, WordBits(q)) == Plus(Coefficients(8, false) + rest, WordBits(Xor(q, b as bv32)))
  {
    ByteIsWord(b);
    XorOfWords(q, b as bv32);
    hide ByteBits, Xor, WordBits, Plus;
    AddedInFront(ByteBits(b), rest, WordBits(q));
  }

  lemma XorOfWords(a: bv32, b: bv32)
    ensures WordBits(Xor(a, b)) == Plus(WordBits(a), WordBits(b))
  {
    XorIsSum(a, b, DEGREE);
    hide LowBits, Xor;
  }

  /** Adding eight coefficients to the message or to what is added to it. */
  lemma AddedInFront(p: Polynomial, rest: Polynomial, w: Polynomial)
    requires |p| == 8 && |w| == DEGREE && |rest| >= DEGREE
    ensures Plus(p + rest, w) == Plus(Coefficients(8, false) + rest, Plus(w, p + Coefficients(24, false)))
  {
    var l, r := Plus(p + rest, w), Plus(Coefficients(8, false) + rest, Plus(w, p + Coefficients(24, false)));
    forall i | 0 <= i < |l|
      ensures l[i] == r[i]
    {
      if i >= 8 {
        assert (p + rest)[i] == rest[i - 8] == (Coefficients(8, false) + rest)[i];
      }
    }
  }

  lemma ByteDivides(q: bv32, b: bv8, rest: Polynomial)
    requires |rest| >= DEGREE
    ensures Remainder(Plus(ByteBits(b) + rest, WordBits(q))) == Remainder(Plus(rest, WordBits(FeedByte(q, b))))
  {
    ByteIsAdded(q, b, rest);
    hide WordBits, Plus, Remainder, ByteBits, Xor, ShiftBits;
    ShiftsDivide(Xor(q, b as bv32), 8, rest);
  }

  /** The register holds the remainder of what went in. */
  lemma {:induction false} FeedDivides(q: bv32, data: seq<bv8>)
    ensures Remainder(Preset(data, WordBits(q))) == WordBits(Feed(q, data))
    decreases |data|
  {
    hide WordBits, FeedByte, ByteBits;
    var zeros := Coefficients(DEGREE, false);
    if data == [] {
      assert MessageBits([]) + zeros == zeros;
      assert Plus(zeros, WordBits(q)) == WordBits(q);
    } else {
      hide Plus, Remainder;
      var rest := MessageBits(data[1..]) + zeros;
      assert MessageBits(data) + zeros == ByteBits(data[0]) + rest;
      ByteDivides(q, data[0], rest);
      FeedDivides(FeedByte(q, data[0]), data[1..]);
      FeedConcat(q, [data[0]], data[1..]);
      assert [data[0]] + data[1..] == data;
      assert Feed(q, [data[0]]) == FeedByte(q, data[0]) by { FedOne(q, data[0]); }
    }
  }

  lemma FedOne(q: bv32, b: bv8)
    ensures Feed(q, [b]) == FeedByte(q, b)
  {
    assert [b][..0] == [];
    assert Feed(q, []) == q;
  }

  /** The checksum is the complement of the remainder, continued from the complement of the one before. */
  lemma ContinuedIsRemainder(data: seq<bv8>, previous: bv32)
    ensures WordBits(Checksum(data, previous))
         == Complement(Remainder(Preset(data, Complement(WordBits(previous)))))
  {
    hide WordBits, Remainder, Not, Feed;
    NotIsComplement(previous);
    FeedDivides(Not(previous), data);
    NotIsComplement(Feed(Not(previous), data));
  }

  /** The checksum of data: bit `i` of the word is the complement of coefficient `31 - i` of the remainder. */
  lemma ChecksumIsRemainder(data: seq<bv8>)
    ensures WordBits(Checksum(data, 0)) == Complement(Remainder(Preset(data, Coefficients(DEGREE, true))))
  {
    ContinuedIsRemainder(data, 0);
    ZeroBits(DEGREE);
    hide Checksum, Remainder, LowBits;
    assert Complement(Coefficients(DEGREE, false)) == Coefficients(DEGREE, true);
  }

  // ------------------------------------------------------------ the check value

  /** One byte more, with what the register holds before and after. */
  lemma FedTo(q: bv32, data: seq<bv8>, was: bv32, b: bv8, now: bv32)
    requires Feed(q, data) == was && EightShifts(Xor(was, b as bv32)) == now
    ensures Feed(q, data + [b]) == now
  {
    assert (data + [b])[..|data|] == data;
    EightBits(Xor(was, b as bv32));
    hide ShiftBit, ShiftBits, Xor;
  }

  /** The nine digits from 1 to 9 have the checksum by which implementations of this code are checked. */
  lemma CheckValue()
    ensures Checksum([0x31, 0x32, 0x33, 0x34, 0x35, 0x36, 0x37, 0x38, 0x39], 0) == 0xCBF43926
  {
    var d0: seq<bv8> := [];
    var d1 := d0 + [0x31];
    FedTo(ONES, d0, 0xFFFFFFFF, 0x31, 0x7C231048);
    var d2 := d1 + [0x32];
    FedTo(ONES, d1, 0x7C231048, 0x32, 0xB0ACBB32);
    var d3 := d2 + [0x33];
    FedTo(ONES, d2, 0xB0ACBB32, 0x33, 0x77B79C2D);
    var d4 := d3 + [0x34];
    FedTo(ONES, d3, 0x77B79C2D, 0x34, 0x641C1F5C);
    var d5 := d4 + [0x35];
    FedTo(ONES, d4, 0x641C1F5C, 0x35, 0x340AC5E3);
    var d6 := d5 + [0x36];
    FedTo(ONES, d5, 0x340AC5E3, 0x36, 0xF68D2C9E);
    var d7 := d6 + [0x37];
    FedTo(ONES, d6, 0xF68D2C9E, 0x37, 0xAFFC9660);
    var d8 := d7 + [0x38];
    FedTo(ONES, d7, 0xAFFC9660, 0x38, 0x651F2550);
    var d9 := d8 + [0x39];
    FedTo(ONES, d8, 0x651F2550, 0x39, 0x340BC6D9);
    assert d9 == [0x31, 0x32, 0x33, 0x34, 0x35, 0x36, 0x37, 0x38, 0x39];
  }
}
