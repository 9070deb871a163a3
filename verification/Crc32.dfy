/**
 CRC-32 as the client computes it twice: one bit at a time when an archive is
 loaded, sixteen bytes at a time when a download is checked.  The reference is the
 shift register itself, fed one byte at a time; both loops are proved to compute it.

 Exclusive or goes by the name `Xor` in statements, so that the solver can replace
 equals by equals in it.
 */
module Crc32 {
  const POLYNOMIAL: bv32 := 0xEDB88320
  const MAX_SLICE := 16
  const UNROLL := 4
  const BYTES_AT_ONCE := 16 * UNROLL

  // ------------------------------------------------------------ the shift register

  function Xor(a: bv32, b: bv32): bv32 { a ^ b }

  function Not(a: bv32): bv32 { !a }

  function ShiftBit(q: bv32): bv32 {
    if q & 1 != 0 then (q >> 1) ^ POLYNOMIAL else q >> 1
  }

  function ShiftBits(q: bv32, n: nat): bv32 {
    if n == 0 then q else ShiftBit(ShiftBits(q, n - 1))
  }

  function ShiftByte(q: bv32): bv32 { ShiftBits(q, 8) }

  /** `n` whole bytes of shifting. */
  function Shift(q: bv32, n: nat): bv32 {
    if n == 0 then q else ShiftByte(Shift(q, n - 1))
  }

  function FeedByte(q: bv32, b: bv8): bv32 {
    ShiftByte(Xor(q, b as bv32))
  }

  /** The register after `data` went in, first byte first. */
  function Feed(q: bv32, data: seq<bv8>): bv32 {
    if data == [] then q else FeedByte(Feed(q, data[..|data| - 1]), data[|data| - 1])
  }

  /** The checksum of `data`, continued from the checksum `previous` of what came before it. */
  function Checksum(data: seq<bv8>, previous: bv32): bv32 {
    Not(Feed(Not(previous), data))
  }

  // ------------------------------------------------------------ the register is linear over XOR

  lemma LowBit(a: bv32)
    ensures a & 1 == 0 || a & 1 == 1
  {}

  lemma LinearEvenEven(a: bv32, b: bv32)
    requires a & 1 == 0 && b & 1 == 0
    ensures ShiftBit(a ^ b) == ShiftBit(a) ^ ShiftBit(b)
  {}

  lemma LinearEvenOdd(a: bv32, b: bv32)
    requires a & 1 == 0 && b & 1 == 1
    ensures ShiftBit(a ^ b) == ShiftBit(a) ^ ShiftBit(b)
  {}

  lemma LinearOddOdd(a: bv32, b: bv32)
    requires a & 1 == 1 && b & 1 == 1
    ensures ShiftBit(a ^ b) == ShiftBit(a) ^ ShiftBit(b)
  {}

  lemma XorCommutes(a: bv32, b: bv32)
    ensures Xor(a, b) == Xor(b, a)
  {}

  lemma ShiftBitLinear(a: bv32, b: bv32)
    ensures ShiftBit(Xor(a, b)) == Xor(ShiftBit(a), ShiftBit(b))
  {
    LowBit(a);
    LowBit(b);
    if a & 1 == 0 {
      if b & 1 == 0 { LinearEvenEven(a, b); } else { LinearEvenOdd(a, b); }
    } else if b & 1 == 0 {
      XorCommutes(a, b);
      XorCommutes(ShiftBit(a), ShiftBit(b));
      LinearEvenOdd(b, a);
    } else {
      LinearOddOdd(a, b);
    }
  }

  lemma {:induction false} ShiftBitsLinear(a: bv32, b: bv32, n: nat)
    ensures ShiftBits(Xor(a, b), n) == Xor(ShiftBits(a, n), ShiftBits(b, n))
  {
    if n > 0 {
      ShiftBitsLinear(a, b, n - 1);
      ShiftBitLinear(ShiftBits(a, n - 1), ShiftBits(b, n - 1));
    }
  }

  /** Shifting whole bytes distributes over exclusive or. */
  lemma {:induction false} ShiftLinear(a: bv32, b: bv32, n: nat)
    ensures Shift(Xor(a, b), n) == Xor(Shift(a, n), Shift(b, n))
  {
    if n > 0 {
      ShiftLinear(a, b, n - 1);
      ShiftBitsLinear(Shift(a, n - 1), Shift(b, n - 1), 8);
    }
  }

  lemma {:induction false} ShiftAdds(q: bv32, m: nat, n: nat)
    ensures Shift(Shift(q, m), n) == Shift(q, m + n)
  {
    if n > 0 {
      ShiftAdds(q, m, n - 1);
    }
  }

  // ------------------------------------------------------------ bytes above the lowest one

  function EightShifts(q: bv32): bv32 {
    ShiftBit(ShiftBit(ShiftBit(ShiftBit(ShiftBit(ShiftBit(ShiftBit(ShiftBit(q))))))))
  }

  lemma EightBits(q: bv32)
    ensures ShiftByte(q) == EightShifts(q)
  {
    assert ShiftBits(q, 1) == ShiftBit(q);
    assert ShiftBits(q, 3) == ShiftBit(ShiftBit(ShiftBits(q, 1)));
    assert ShiftBits(q, 5) == ShiftBit(ShiftBit(ShiftBits(q, 3)));
    assert ShiftBits(q, 7) == ShiftBit(ShiftBit(ShiftBits(q, 5)));
  }

  function Half(w: bv32): bv32 { w >> 1 }

  predicate IsEven(w: bv32) { w & 1 == 0 }

  lemma ShiftEven(w: bv32)
    requires IsEven(w)
    ensures ShiftBit(w) == Half(w)
  {}

  function EightHalves(w: bv32): bv32 { Half(Half(Half(Half(Half(Half(Half(Half(w)))))))) }

  lemma LowByteClear(w: bv32)
    requires w & 0xFF == 0
    ensures IsEven(w) && IsEven(Half(w)) && IsEven(Half(Half(w))) && IsEven(Half(Half(Half(w))))
    ensures var h := Half(Half(Half(Half(w))));
            IsEven(h) && IsEven(Half(h)) && IsEven(Half(Half(h))) && IsEven(Half(Half(Half(h))))
    ensures EightHalves(w) == w >> 8
  {}

  function LowByte(q: bv32): bv32 { q & 0xFF }

  function HighBytes(q: bv32): bv32 { q & 0xFFFFFF00 }

  function DropByte(q: bv32): bv32 { q >> 8 }

  lemma SplitLow(q: bv32)
    ensures q == Xor(LowByte(q), HighBytes(q))
    ensures HighBytes(q) & 0xFF == 0 && DropByte(HighBytes(q)) == DropByte(q)
    ensures LowByte(q) as int < 256
  {}

  /** Bytes above the lowest one only move down. */
  lemma ShiftMovesDown(w: bv32)
    requires w & 0xFF == 0
    ensures ShiftByte(w) == DropByte(w)
  {
    LowByteClear(w);
    EightBits(w);
    hide ShiftBit, IsEven, Half;
    var h := Half(Half(Half(Half(w))));
    ShiftEven(w);
    ShiftEven(Half(w));
    ShiftEven(Half(Half(w)));
    ShiftEven(Half(Half(Half(w))));
    ShiftEven(h);
    ShiftEven(Half(h));
    ShiftEven(Half(Half(h)));
    ShiftEven(Half(Half(Half(h))));
  }

  /** The standard table step: the low byte is looked up, the rest moves down. */
  lemma ShiftByteSplits(q: bv32)
    ensures ShiftByte(q) == Xor(DropByte(q), ShiftByte(LowByte(q)))
  {
    SplitLow(q);
    ShiftBitsLinear(LowByte(q), HighBytes(q), 8);
    ShiftMovesDown(HighBytes(q));
    XorCommutes(ShiftByte(LowByte(q)), DropByte(q));
  }

  // ------------------------------------------------------------ the lookup table

  /** Row `s` of the table follows from row `s - 1` by the recurrence. */
  ghost predicate RowFollows(t: seq<seq<bv32>>, s: int)
    requires 1 <= s < |t| && |t[0]| == |t[s - 1]| == |t[s]| == 256
  {
    forall i | 0 <= i < 256 ::
      t[s][i] == Xor(DropByte(t[s - 1][i]), t[0][LowByte(t[s - 1][i]) as int])
  }

  /** The recurrence that defines the sixteen slices of the table. */
  ghost predicate IsLookupTable(t: seq<seq<bv32>>) {
    && |t| == MAX_SLICE
    && (forall s | 0 <= s < MAX_SLICE :: |t[s]| == 256)
    && (forall i | 0 <= i < 256 :: t[0][i] == ShiftByte(i as bv32))
    && forall s | 1 <= s < MAX_SLICE :: RowFollows(t, s)
  }

  lemma FirstSlice(t: seq<seq<bv32>>, y: bv32)
    requires IsLookupTable(t) && y as int < 256
    ensures t[0][y as int] == ShiftByte(y)
  {
    assert (y as int) as bv32 == y;
  }

  lemma NextSlice(t: seq<seq<bv32>>, s: nat, i: nat)
    requires IsLookupTable(t) && 1 <= s < MAX_SLICE && i < 256
    ensures t[s][i] == ShiftByte(t[s - 1][i])
  {
    assert RowFollows(t, s);
    var e := t[s - 1][i];
    SplitLow(e);
    FirstSlice(t, LowByte(e));
    ShiftByteSplits(e);
  }

  /** Slice `s` holds what a byte has become after `s + 1` byte shifts. */
  lemma {:induction false} SliceIsShift(t: seq<seq<bv32>>, s: nat, w: bv32)
    requires IsLookupTable(t) && s < MAX_SLICE
    ensures t[s][LowByte(w) as int] == Shift(LowByte(w), s + 1)
  {
    SplitLow(w);
    if s == 0 {
      SplitLow(w);
      FirstSlice(t, LowByte(w));
      assert Shift(LowByte(w), 0) == LowByte(w);
    } else {
      SliceIsShift(t, s - 1, w);
      NextSlice(t, s, LowByte(w) as int);
    }
  }

  // ------------------------------------------------------------ four bytes at a time

  /** Four bytes of the buffer as the little-endian word the machine loads. */
  function LittleLong(b0: bv8, b1: bv8, b2: bv8, b3: bv8): bv32 {
    (b0 as bv32) | ((b1 as bv32) << 8) | ((b2 as bv32) << 16) | ((b3 as bv32) << 24)
  }

  lemma LittleLongBytes(b0: bv8, b1: bv8, b2: bv8, b3: bv8)
    ensures var w := LittleLong(b0, b1, b2, b3);
            && LowByte(w) == b0 as bv32
            && LowByte(DropByte(w)) == b1 as bv32
            && LowByte(DropByte(DropByte(w))) == b2 as bv32
            && LowByte(DropByte(DropByte(DropByte(w)))) == b3 as bv32
  {}

  lemma FourDropsLeaveNothing(w: bv32)
    ensures DropByte(DropByte(DropByte(DropByte(w)))) == 0
  {}

  lemma XorZero(a: bv32)
    ensures Xor(a, 0) == a && Xor(0, a) == a
  {}

  lemma XorRotates(a: bv32, b: bv32, c: bv32)
    ensures Xor(a, Xor(b, c)) == Xor(Xor(a, c), b)
  {}

  /** Feeding the low byte of a pending word leaves its other bytes pending. */
  lemma FeedLow(q: bv32, w: bv32, b: bv8)
    requires LowByte(w) == b as bv32
    ensures ShiftByte(Xor(q, w)) == Xor(FeedByte(q, b), DropByte(w))
  {
    ShiftBitsLinear(q, w, 8);
    ShiftByteSplits(w);
    ShiftBitsLinear(q, b as bv32, 8);
    XorRotates(ShiftByte(q), DropByte(w), ShiftByte(b as bv32));
  }

  lemma ShiftFour(q: bv32)
    ensures Shift(q, 4) == ShiftByte(ShiftByte(ShiftByte(ShiftByte(q))))
  {
    assert Shift(q, 0) == q;
    assert Shift(q, 2) == ShiftByte(ShiftByte(Shift(q, 0)));
  }

  /** Four bytes fed one by one are one word fed at once. */
  lemma FeedWord(q: bv32, b0: bv8, b1: bv8, b2: bv8, b3: bv8)
    ensures FeedByte(FeedByte(FeedByte(FeedByte(q, b0), b1), b2), b3)
         == Shift(Xor(q, LittleLong(b0, b1, b2, b3)), 4)
  {
    var w := LittleLong(b0, b1, b2, b3);
    LittleLongBytes(b0, b1, b2, b3);
    var w1 := DropByte(w);
    var w2 := DropByte(w1);
    var w3 := DropByte(w2);
    var q1 := FeedByte(q, b0);
    var q2 := FeedByte(q1, b1);
    var q3 := FeedByte(q2, b2);
    FeedLow(q, w, b0);
    FeedLow(q1, w1, b1);
    FeedLow(q2, w2, b2);
    FeedLow(q3, w3, b3);
    FourDropsLeaveNothing(w);
    XorZero(FeedByte(q3, b3));
    ShiftFour(Xor(q, w));
  }

  /** What one word contributes when `k` bytes come after it: four table entries. */
  function Column(w: bv32, k: nat): bv32 {
    Xor(Xor(Xor(Shift(LowByte(DropByte(DropByte(DropByte(w)))), k + 1),
                Shift(LowByte(DropByte(DropByte(w))), k + 2)),
            Shift(LowByte(DropByte(w)), k + 3)),
        Shift(LowByte(w), k + 4))
  }

  lemma ShiftPeels(w: bv32, n: nat)
    ensures Shift(w, n + 1) == Xor(Shift(DropByte(w), n), Shift(LowByte(w), n + 1))
  {
    ShiftAdds(w, 1, n);
    ShiftAdds(LowByte(w), 1, n);
    ShiftByteSplits(w);
    assert Shift(w, 0) == w && Shift(LowByte(w), 0) == LowByte(w);
    ShiftLinear(DropByte(w), ShiftByte(LowByte(w)), n);
  }

  lemma {:induction false} ShiftZero(n: nat)
    ensures Shift(0, n) == 0
  {
    if n > 0 {
      ShiftZero(n - 1);
      ShiftMovesDown(0);
    }
  }

  lemma WordIsColumn(w: bv32, k: nat)
    ensures Shift(w, k + 4) == Column(w, k)
  {
    var w1 := DropByte(w);
    var w2 := DropByte(w1);
    var w3 := DropByte(w2);
    ShiftPeels(w, k + 3);
    ShiftPeels(w1, k + 2);
    ShiftPeels(w2, k + 1);
    ShiftPeels(w3, k);
    FourDropsLeaveNothing(w);
    ShiftZero(k);
    XorZero(Shift(LowByte(w3), k + 1));
  }

  // ------------------------------------------------------------ sixteen bytes at a time

  function Lookup(t: seq<seq<bv32>>, s: nat, w: bv32): bv32
    requires s < |t| && |t[s]| == 256
  {
    SplitLow(w);
    t[s][LowByte(w) as int]
  }

  function Four(a: bv32, b: bv32, c: bv32, d: bv32): bv32 {
    Xor(Xor(Xor(a, b), c), d)
  }

  function FourMore(x: bv32, a: bv32, b: bv32, c: bv32, d: bv32): bv32 {
    Xor(Xor(Xor(Xor(x, a), b), c), d)
  }

  /** The unrolled step: sixteen lookups, one per byte, combined from left to right. */
  function SliceStep(t: seq<seq<bv32>>, one: bv32, two: bv32, three: bv32, four: bv32): bv32
    requires |t| == MAX_SLICE && forall s | 0 <= s < MAX_SLICE :: |t[s]| == 256
  {
    FourMore(FourMore(FourMore(
      Four(Lookup(t, 0, four >> 24), Lookup(t, 1, four >> 16), Lookup(t, 2, four >> 8), Lookup(t, 3, four)),
      Lookup(t, 4, three >> 24), Lookup(t, 5, three >> 16), Lookup(t, 6, three >> 8), Lookup(t, 7, three)),
      Lookup(t, 8, two >> 24), Lookup(t, 9, two >> 16), Lookup(t, 10, two >> 8), Lookup(t, 11, two)),
      Lookup(t, 12, one >> 24), Lookup(t, 13, one >> 16), Lookup(t, 14, one >> 8), Lookup(t, 15, one))
  }

  lemma XorAssociates(a: bv32, b: bv32, c: bv32)
    ensures Xor(Xor(a, b), c) == Xor(a, Xor(b, c))
  {}

  lemma ByteOfWord(w: bv32)
    ensures LowByte(w >> 24) == LowByte(DropByte(DropByte(DropByte(w))))
    ensures LowByte(w >> 16) == LowByte(DropByte(DropByte(w)))
    ensures LowByte(w >> 8) == LowByte(DropByte(w))
  {}

  lemma FourLookups(t: seq<seq<bv32>>, k: nat, w: bv32)
    requires IsLookupTable(t) && k + 3 < MAX_SLICE
    ensures Four(Lookup(t, k, w >> 24), Lookup(t, k + 1, w >> 16), Lookup(t, k + 2, w >> 8), Lookup(t, k + 3, w))
         == Shift(w, k + 4)
  {
    ByteOfWord(w);
    SliceIsShift(t, k, w >> 24);
    SliceIsShift(t, k + 1, w >> 16);
    SliceIsShift(t, k + 2, w >> 8);
    SliceIsShift(t, k + 3, w);
    WordIsColumn(w, k);
  }

  lemma FourMoreLookups(t: seq<seq<bv32>>, x: bv32, k: nat, w: bv32)
    requires IsLookupTable(t) && k + 3 < MAX_SLICE
    ensures FourMore(x, Lookup(t, k, w >> 24), Lookup(t, k + 1, w >> 16), Lookup(t, k + 2, w >> 8), Lookup(t, k + 3, w))
         == Xor(x, Shift(w, k + 4))
  {
    hide Xor, Lookup, Shift;
    var a, b, c, d := Lookup(t, k, w >> 24), Lookup(t, k + 1, w >> 16), Lookup(t, k + 2, w >> 8), Lookup(t, k + 3, w);
    XorAssociates(x, a, b);
    XorAssociates(x, Xor(a, b), c);
    XorAssociates(x, Xor(Xor(a, b), c), d);
    FourLookups(t, k, w);
  }

  lemma SliceStepByWords(t: seq<seq<bv32>>, one: bv32, two: bv32, three: bv32, four: bv32)
    requires IsLookupTable(t)
    ensures SliceStep(t, one, two, three, four)
         == Four(Shift(one, 16), Shift(two, 12), Shift(three, 8), Shift(four, 4))
  {
    hide Xor, Lookup, FourMore, Shift;
    var d, c, b, a := Shift(four, 4), Shift(three, 8), Shift(two, 12), Shift(one, 16);
    FourLookups(t, 0, four);
    FourMoreLookups(t, d, 4, three);
    FourMoreLookups(t, Xor(d, c), 8, two);
    FourMoreLookups(t, Xor(Xor(d, c), b), 12, one);
    XorCommutes(d, c);
    XorCommutes(Xor(c, d), b);
    XorAssociates(b, c, d);
    XorCommutes(Xor(Xor(b, c), d), a);
    XorAssociates(a, b, c);
    XorAssociates(a, Xor(b, c), d);
  }

  function FeedLong(q: bv32, w: bv32): bv32 {
    Shift(Xor(q, w), 4)
  }

  lemma FeedTwoLongs(q: bv32, one: bv32, two: bv32)
    ensures FeedLong(FeedLong(q, one), two) == Xor(Shift(Xor(q, one), 8), Shift(two, 4))
  {
    ShiftLinear(FeedLong(q, one), two, 4);
    ShiftAdds(Xor(q, one), 4, 4);
  }

  lemma FeedThreeLongs(q: bv32, one: bv32, two: bv32, three: bv32)
    ensures FeedLong(FeedLong(FeedLong(q, one), two), three)
         == Xor(Xor(Shift(Xor(q, one), 12), Shift(two, 8)), Shift(three, 4))
  {
    FeedTwoLongs(q, one, two);
    var a, b := Shift(Xor(q, one), 8), Shift(two, 4);
    ShiftLinear(Xor(a, b), three, 4);
    ShiftLinear(a, b, 4);
    ShiftAdds(Xor(q, one), 8, 4);
    ShiftAdds(two, 4, 4);
  }

  lemma FeedFourLongs(q: bv32, one: bv32, two: bv32, three: bv32, four: bv32)
    ensures FeedLong(FeedLong(FeedLong(FeedLong(q, one), two), three), four)
         == Four(Shift(Xor(q, one), 16), Shift(two, 12), Shift(three, 8), Shift(four, 4))
  {
    FeedThreeLongs(q, one, two, three);
    var a, b, c := Shift(Xor(q, one), 12), Shift(two, 8), Shift(three, 4);
    ShiftLinear(Xor(Xor(a, b), c), four, 4);
    ShiftLinear(Xor(a, b), c, 4);
    ShiftLinear(a, b, 4);
    ShiftAdds(Xor(q, one), 12, 4);
    ShiftAdds(two, 8, 4);
    ShiftAdds(three, 4, 4);
  }

  /** One unrolled step is four words fed in order. */
  lemma SliceStepFeeds(t: seq<seq<bv32>>, q: bv32, one: bv32, two: bv32, three: bv32, four: bv32)
    requires IsLookupTable(t)
    ensures SliceStep(t, Xor(one, q), two, three, four)
         == FeedLong(FeedLong(FeedLong(FeedLong(q, one), two), three), four)
  {
    XorCommutes(one, q);
    SliceStepByWords(t, Xor(q, one), two, three, four);
    FeedFourLongs(q, one, two, three, four);
  }

  // ------------------------------------------------------------ whole buffers

  lemma FeedNext(q: bv32, data: seq<bv8>, i: nat)
    requires i < |data|
    ensures Feed(q, data[..i + 1]) == FeedByte(Feed(q, data[..i]), data[i])
  {
    assert data[..i + 1][..i] == data[..i];
  }

  /** Feeding a buffer is feeding its first part and then the rest. */
  lemma {:induction false} FeedConcat(q: bv32, a: seq<bv8>, b: seq<bv8>)
    ensures Feed(q, a + b) == Feed(Feed(q, a), b)
  {
    if b == [] {
      assert a + b == a;
    } else {
      var b' := b[..|b| - 1];
      assert (a + b)[..|a + b| - 1] == a + b';
      FeedConcat(q, a, b');
    }
  }

  lemma NotNot(q: bv32)
    ensures Not(Not(q)) == q
  {}

  /** A checksum carried from chunk to chunk is the checksum of the whole. */
  lemma ChecksumConcat(a: seq<bv8>, b: seq<bv8>, previous: bv32)
    ensures Checksum(a + b, previous) == Checksum(b, Checksum(a, previous))
  {
    FeedConcat(Not(previous), a, b);
    NotNot(Feed(Not(previous), a));
  }

  /** The word the machine loads from four bytes of the buffer. */
  function WordAt(data: seq<bv8>, p: nat): bv32
    requires p + 4 <= |data|
  {
    LittleLong(data[p], data[p + 1], data[p + 2], data[p + 3])
  }

  lemma FeedWordAt(q: bv32, data: seq<bv8>, p: nat)
    requires p + 4 <= |data|
    ensures Feed(q, data[..p + 4]) == FeedLong(Feed(q, data[..p]), WordAt(data, p))
  {
    FeedNext(q, data, p);
    FeedNext(q, data, p + 1);
    FeedNext(q, data, p + 2);
    FeedNext(q, data, p + 3);
    FeedWord(Feed(q, data[..p]), data[p], data[p + 1], data[p + 2], data[p + 3]);
  }

  /** One pass of the unrolled loop feeds the next sixteen bytes of the buffer. */
  lemma FeedSixteen(t: seq<seq<bv32>>, q: bv32, crc: bv32, data: seq<bv8>, p: nat)
    requires IsLookupTable(t) && p + 16 <= |data| && crc == Feed(q, data[..p])
    ensures SliceStep(t, Xor(WordAt(data, p), crc), WordAt(data, p + 4), WordAt(data, p + 8), WordAt(data, p + 12))
         == Feed(q, data[..p + 16])
  {
    hide Xor, FeedLong, WordAt, Feed;
    FeedWordAt(q, data, p);
    FeedWordAt(q, data, p + 4);
    FeedWordAt(q, data, p + 8);
    FeedWordAt(q, data, p + 12);
    SliceStepFeeds(t, crc, WordAt(data, p), WordAt(data, p + 4), WordAt(data, p + 8), WordAt(data, p + 12));
  }

  /** The byte loop's table step feeds one byte. */
  lemma TableStepFeeds(t: seq<seq<bv32>>, crc: bv32, b: bv8)
    requires IsLookupTable(t)
    ensures Xor(DropByte(crc), Lookup(t, 0, Xor(LowByte(crc), b as bv32))) == FeedByte(crc, b)
  {
    var w := Xor(crc, b as bv32);
    ByteXor(crc, b);
    SplitLow(w);
    FirstSlice(t, LowByte(w));
    ShiftByteSplits(w);
  }

  lemma ByteXor(crc: bv32, b: bv8)
    ensures LowByte(Xor(LowByte(crc), b as bv32)) == LowByte(Xor(crc, b as bv32))
    ensures DropByte(Xor(crc, b as bv32)) == DropByte(crc)
  {}

  lemma TableBit(crc: bv32)
    ensures Xor(Half(crc), (crc & 1) * POLYNOMIAL) == ShiftBit(crc)
  {
    LowBit(crc);
  }

  // ------------------------------------------------------------ what the checksum detects

  lemma OnlyZeroShiftsToZero(x: bv32)
    requires ShiftBit(x) == 0
    ensures x == 0
  {}

  lemma XorIsZero(a: bv32, b: bv32)
    ensures Xor(a, b) == 0 <==> a == b
  {}

  lemma ShiftBitInjective(a: bv32, b: bv32)
    requires ShiftBit(a) == ShiftBit(b)
    ensures a == b
  {
    ShiftBitLinear(a, b);
    XorIsZero(ShiftBit(a), ShiftBit(b));
    OnlyZeroShiftsToZero(Xor(a, b));
    XorIsZero(a, b);
  }

  lemma {:induction false} ShiftBitsInjective(a: bv32, b: bv32, n: nat)
    requires ShiftBits(a, n) == ShiftBits(b, n)
    ensures a == b
  {
    if n > 0 {
      ShiftBitInjective(ShiftBits(a, n - 1), ShiftBits(b, n - 1));
      ShiftBitsInjective(a, b, n - 1);
    }
  }

  lemma XorCancels(q: bv32, a: bv32, b: bv32)
    requires Xor(q, a) == Xor(q, b)
    ensures a == b
  {}

  /** The same bytes take different registers to different registers. */
  lemma {:induction false} FeedInjective(p: bv32, q: bv32, data: seq<bv8>)
    requires Feed(p, data) == Feed(q, data)
    ensures p == q
  {
    if data != [] {
      var rest, last := data[..|data| - 1], data[|data| - 1] as bv32;
      ShiftBitsInjective(Xor(Feed(p, rest), last), Xor(Feed(q, rest), last), 8);
      XorCommutes(Feed(p, rest), last);
      XorCommutes(Feed(q, rest), last);
      XorCancels(last, Feed(p, rest), Feed(q, rest));
      FeedInjective(p, q, rest);
    }
  }

  lemma FeedLongInjective(q: bv32, v: bv32, w: bv32)
    requires FeedLong(q, v) == FeedLong(q, w)
    ensures v == w
  {
    ShiftFour(Xor(q, v));
    ShiftFour(Xor(q, w));
    var x, y := Xor(q, v), Xor(q, w);
    ShiftBitsInjective(ShiftByte(ShiftByte(ShiftByte(x))), ShiftByte(ShiftByte(ShiftByte(y))), 8);
    ShiftBitsInjective(ShiftByte(ShiftByte(x)), ShiftByte(ShiftByte(y)), 8);
    ShiftBitsInjective(ShiftByte(x), ShiftByte(y), 8);
    ShiftBitsInjective(x, y, 8);
    XorCancels(q, v, w);
  }

  lemma LittleLongInjective(a0: bv8, a1: bv8, a2: bv8, a3: bv8, b0: bv8, b1: bv8, b2: bv8, b3: bv8)
    requires LittleLong(a0, a1, a2, a3) == LittleLong(b0, b1, b2, b3)
    ensures a0 == b0 && a1 == b1 && a2 == b2 && a3 == b3
  {}

  /** Damage confined to four consecutive bytes never goes unnoticed. */
  lemma BurstIsDetected(head: seq<bv8>, a: seq<bv8>, b: seq<bv8>, tail: seq<bv8>, previous: bv32)
    requires |a| == 4 && |b| == 4 && a != b
    ensures Checksum(head + a + tail, previous) != Checksum(head + b + tail, previous)
  {
    var q := Feed(Not(previous), head);
    var v, w := WordAt(a, 0), WordAt(b, 0);
    if v == w {
      LittleLongInjective(a[0], a[1], a[2], a[3], b[0], b[1], b[2], b[3]);
      assert false;
    }
    FeedBurst(q, a);
    FeedBurst(q, b);
    FeedConcat(Not(previous), head, a);
    FeedConcat(Not(previous), head, b);
    FeedConcat(Not(previous), head + a, tail);
    FeedConcat(Not(previous), head + b, tail);
    var fa, fb := Feed(q, a), Feed(q, b);
    if Checksum(head + a + tail, previous) == Checksum(head + b + tail, previous) {
      NotNot(Feed(fa, tail));
      NotNot(Feed(fb, tail));
      FeedInjective(fa, fb, tail);
      FeedLongInjective(q, v, w);
    }
  }

  lemma FeedBurst(q: bv32, a: seq<bv8>)
    requires |a| == 4
    ensures Feed(q, a) == FeedLong(q, WordAt(a, 0))
  {
    FeedWordAt(q, a, 0);
    assert a[..4] == a;
  }

  // ------------------------------------------------------------ the loops

  /** The bit-at-a-time checksum. */
  method BlockChecksumKey32(buffer: array<bv8>, length: nat, key: bv32) returns (r: bv32)
    requires length <= buffer.Length
    ensures r == Checksum(buffer[..length], key)
  {
    var q := Not(key);
    ghost var data := buffer[..length];
    for i := 0 to length
      invariant q == Feed(Not(key), data[..i])
    {
      hide ShiftBit, Xor;
      FeedNext(Not(key), data, i);
      q := Xor(q, buffer[i] as bv32);
      ghost var start := q;
      for j := 0 to 8
        invariant q == ShiftBits(start, j)
      {
        q := ShiftBit(q);
      }
    }
    assert data[..length] == data;
    r := Not(q);
  }

  /** The first slice's entry for one byte. */
  method TableByte(i: nat) returns (crc: bv32)
    requires i < 256
    ensures crc == ShiftByte(i as bv32)
  {
    crc := i as bv32;
    ghost var start := crc;
    for j := 0 to 8
      invariant crc == ShiftBits(start, j)
    {
      hide ShiftBit;
      TableBit(crc);
      crc := Xor(Half(crc), (crc & 1) * POLYNOMIAL);
    }
  }

  /** The sixteen slices of the lookup table, from their recurrence. */
  method BuildLookup() returns (t: seq<seq<bv32>>)
    ensures IsLookupTable(t)
  {
    var row := new bv32[256];
    for i := 0 to 256
      invariant forall k | 0 <= k < i :: row[k] == ShiftByte(k as bv32)
    {
      var crc := TableByte(i);
      row[i] := crc;
    }
    t := [row[..]];
    for slice := 1 to MAX_SLICE
      invariant |t| == slice && (forall s | 0 <= s < slice :: |t[s]| == 256)
      invariant forall i | 0 <= i < 256 :: t[0][i] == ShiftByte(i as bv32)
      invariant forall s | 1 <= s < slice :: RowFollows(t, s)
    {
      var next := new bv32[256];
      for i := 0 to 256
        invariant forall k | 0 <= k < i ::
          next[k] == Xor(DropByte(t[slice - 1][k]), t[0][LowByte(t[slice - 1][k]) as int])
      {
        SplitLow(t[slice - 1][i]);
        next[i] := Xor(DropByte(t[slice - 1][i]), t[0][LowByte(t[slice - 1][i]) as int]);
      }
      ghost var before := t;
      t := t + [next[..]];
      forall s | 1 <= s < slice + 1
        ensures RowFollows(t, s)
      {
        if s < slice { assert RowFollows(before, s); }
      }
    }
  }

  /** The body of the unrolled loop: four words loaded, sixteen lookups. */
  method NextSixteen(t: seq<seq<bv32>>, data: array<bv8>, length: nat, current: nat, previous: bv32, crc: bv32)
    returns (next: bv32)
    requires IsLookupTable(t) && current + 16 <= length <= data.Length
    requires crc == Feed(Not(previous), data[..length][..current])
    ensures next == Feed(Not(previous), data[..length][..current + 16])
  {
    hide Xor, LittleLong, SliceStep;
    var one := LittleLong(data[current], data[current + 1], data[current + 2], data[current + 3]);
    var two := LittleLong(data[current + 4], data[current + 5], data[current + 6], data[current + 7]);
    var three := LittleLong(data[current + 8], data[current + 9], data[current + 10], data[current + 11]);
    var four := LittleLong(data[current + 12], data[current + 13], data[current + 14], data[current + 15]);
    FeedSixteen(t, Not(previous), crc, data[..length], current);
    next := SliceStep(t, Xor(one, crc), two, three, four);
  }

  /** The slicing-by-16 checksum: 64 bytes a turn, then the rest byte by byte. */
  method Crc32SixteenBytes(t: seq<seq<bv32>>, data: array<bv8>, length: nat, previous: bv32) returns (r: bv32)
    requires IsLookupTable(t)
    requires length <= data.Length
    ensures r == Checksum(data[..length], previous)
  {
    hide Xor, LowByte, DropByte, FeedByte;
    var crc := Not(previous);
    var current, left := 0, length;
    ghost var buffer := data[..length];
    while left >= BYTES_AT_ONCE
      invariant 0 <= current <= length && current + left == length
      invariant crc == Feed(Not(previous), buffer[..current])
    {
      for unrolling := 0 to UNROLL
        invariant current == length - left + 16 * unrolling
        invariant crc == Feed(Not(previous), buffer[..current])
      {
        crc := NextSixteen(t, data, length, current, previous, crc);
        current := current + 16;
      }
      left := left - BYTES_AT_ONCE;
    }
    while left != 0
      invariant 0 <= current <= length && current + left == length
      invariant crc == Feed(Not(previous), buffer[..current])
    {
      TableStepFeeds(t, crc, data[current]);
      FeedNext(Not(previous), buffer, current);
      crc := Xor(DropByte(crc), Lookup(t, 0, Xor(LowByte(crc), data[current] as bv32)));
      current, left := current + 1, left - 1;
    }
    assert buffer[..length] == buffer;
    r := Not(crc);
  }

}
