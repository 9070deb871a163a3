/**
 What stands in the buffer: the bytes of numbers, strings, commands and gamestates, written out.
 */
module WireFormat {
  import opened Common
  import opened Message
  import opened Netchan
  import opened ReliableChannel
  import opened CommandMessage
  import opened GameState
  import opened GameStateMessage

  // ------------------------------------------------------------ numbers and strings

  /** A long takes four bytes, the lowest first. */
  lemma LongBytes(v: nat)
    requires v < 0x1_0000_0000
    ensures LittleEndian(v, 4) == [v % 256, v / 256 % 256, v / 65536 % 256, v / 16777216]
  {
    assert v / 256 / 256 == v / 65536 && v / 65536 / 256 == v / 16777216;
    assert LittleEndian(v / 16777216, 1) == [v / 16777216];
    assert LittleEndian(v / 65536, 2) == [v / 65536 % 256, v / 16777216];
  }

  lemma ShortBytes(v: nat)
    requires v < 0x1_0000
    ensures LittleEndian(v, 2) == [v % 256, v / 256]
  {
    assert LittleEndian(v / 256, 1) == [v / 256];
  }

  /** A string takes its characters and a zero. */
  lemma TextBytes(s: CString)
    ensures |StringBytes(s)| == |s| + 1 && StringBytes(s)[|s|] == 0
    ensures forall i | 0 <= i < |s| :: StringBytes(s)[i] as char == s[i]
  {}

  // ------------------------------------------------------------ bits

  /** The first bit of a byte opens it, at the end of what is there. */
  lemma FirstBit(w: Writer, v: bool)
    requires WriterOk(w) && w.bit % 8 == 0
    ensures WriteBit(w, v) == Writer(w.data + [if v then 1 else 0], 8 * |w.data| + 1)
  {
    var o := OpenByte(w);
    assert o.data[o.bit / 8 := 1] == w.data + [1];
  }

  /** A writer whose next bit is bit `k` of byte `p`, which is `b` so far. */
  function Open(d: seq<Byte>, p: nat, k: nat, b: Byte): Writer
    requires p < |d|
  {
    Writer(d[p := b], 8 * p + k)
  }

  lemma Position(p: nat, k: nat)
    requires k < 8
    ensures (8 * p + k) % 8 == k && (8 * p + k) / 8 == p
  {}

  lemma Twice(d: seq<Byte>, p: nat, a: Byte, b: Byte)
    requires p < |d|
    ensures d[p := a][p := b] == d[p := b]
  {}

  /** The others go into it from the lowest up, wherever it is. */
  lemma NextBit(d: seq<Byte>, p: nat, k: nat, b: Byte, v: bool)
    requires p < |d| && 1 <= k < 8 && b < Pow2(k)
    ensures WriterOk(Open(d, p, k, b)) && b + Pow2(k) < 256
    ensures WriteBit(Open(d, p, k, b), v) == Open(d, p, k + 1, if v then b + Pow2(k) else b)
  {
    Position(p, k);
    SmallByte(b, k);
    SetBitFits(b, k);
    Twice(d, p, b, b + Pow2(k));
    hide Pow2;
  }

  lemma NoBits(w: Writer, v: nat)
    requires WriterOk(w)
    ensures WriteBits(w, v, 0) == w
  {}

  lemma FirstOf(w: Writer, v: nat, n: nat)
    requires WriterOk(w) && n > 0
    ensures WriterOk(WriteBit(w, v % 2 == 1))
    ensures WriteBits(w, v, n) == WriteBits(WriteBit(w, v % 2 == 1), v / 2, n - 1)
  {
    WriteBitOk(w, v % 2 == 1);
    hide WriteBit;
  }

  /** A byte with a number added `k` bits up. */
  function Placed(low: nat, k: nat, v: nat): nat
    requires k <= 8
  {
    match k
    case 0 => low + v case 1 => low + 2 * v case 2 => low + 4 * v
    case 3 => low + 8 * v case 4 => low + 16 * v case 5 => low + 32 * v
    case 6 => low + 64 * v case 7 => low + 128 * v case 8 => low + 256 * v
  }

  /** The lowest bit of a number goes into the open byte. */
  lemma LowestIn(d: seq<Byte>, p: nat, k: nat, b: Byte, v: nat, n: nat)
    requires p < |d| && 1 <= k < 8 && b < Pow2(k) && n > 0
    ensures WriterOk(Open(d, p, k, b)) && Placed(b, k, v % 2) < 256
    ensures WriterOk(Open(d, p, k + 1, Placed(b, k, v % 2)))
    ensures WriteBits(Open(d, p, k, b), v, n) == WriteBits(Open(d, p, k + 1, Placed(b, k, v % 2)), v / 2, n - 1)
  {
    NextBit(d, p, k, b, v % 2 == 1);
    PlacedBit(b, k, v);
    hide Open, WriterOk, WriteBit, Pow2, Placed;
    FirstOf(Open(d, p, k, b), v, n);
  }

  lemma PlacedBit(b: Byte, k: nat, v: nat)
    requires k < 8
    ensures Placed(b, k, v % 2) == if v % 2 == 1 then b + Pow2(k) else b
  {
    var r := v % 2;
    assert r == 0 || r == 1;
    match k
    case 0 => case 1 => case 2 => case 3 => case 4 => case 5 => case 6 => case 7 =>
  }

  lemma PlacedLower(low: nat, k: nat, v: nat, n: nat)
    requires k + n <= 8 && n > 0 && low < Pow2(k) && v < Pow2(n)
    ensures v / 2 < Pow2(n - 1) && Placed(low, k, v % 2) < Pow2(k + 1) <= 256
    ensures Placed(Placed(low, k, v % 2), k + 1, v / 2) == Placed(low, k, v)
    ensures n == 1 ==> v % 2 == v
  {
    var r, h := v % 2, v / 2;
    assert v == r + 2 * h && r < 2;
    assert Pow2(n) == 2 * Pow2(n - 1);
    match k
    case 0 => case 1 => case 2 => case 3 => case 4 => case 5 => case 6 => case 7 =>
  }

  /** A number that still fits into the open byte is added to it, as many bits up as are taken. */
  lemma {:induction false} IntoOpenByte(d: seq<Byte>, p: nat, k: nat, b: Byte, v: nat, n: nat)
    requires p < |d| && 1 <= k && k + n <= 8 && n > 0 && b < Pow2(k) && v < Pow2(n)
    ensures Placed(b, k, v) < 256 && WriterOk(Open(d, p, k, b))
    ensures WriteBits(Open(d, p, k, b), v, n) == Open(d, p, k + n, Placed(b, k, v))
    decreases n, 1
  {
    LowestIn(d, p, k, b, v, n);
    PlacedLower(b, k, v, n);
    hide *;
    Rest(d, p, k, b, Placed(b, k, v % 2), v, v / 2, n);
  }

  lemma {:induction false} Rest(d: seq<Byte>, p: nat, k: nat, b: Byte, c: Byte, v: nat, h: nat, n: nat)
    requires p < |d| && 1 <= k && k + n <= 8 && n > 0 && h < Pow2(n - 1) && c < Pow2(k + 1)
    requires WriterOk(Open(d, p, k, b)) && WriterOk(Open(d, p, k + 1, c))
    requires WriteBits(Open(d, p, k, b), v, n) == WriteBits(Open(d, p, k + 1, c), h, n - 1)
    requires Placed(c, k + 1, h) == Placed(b, k, v)
    requires n == 1 ==> c == Placed(b, k, v)
    ensures Placed(b, k, v) < 256
    ensures WriteBits(Open(d, p, k, b), v, n) == Open(d, p, k + n, Placed(b, k, v))
    decreases n, 0
  {
    hide *;
    if n == 1 {
      NoBits(Open(d, p, k + 1, c), h);
    } else {
      IntoOpenByte(d, p, k + 1, c, h, n - 1);
    }
  }

  /** A byte is opened with a zero. */
  lemma Opened(w: Writer, v: nat, n: nat)
    requires WriterOk(w) && w.bit % 8 == 0 && n > 0 && v % 2 == 0
    ensures WriterOk(Open(w.data + [0], |w.data|, 1, 0))
    ensures WriteBits(w, v, n) == WriteBits(Open(w.data + [0], |w.data|, 1, 0), v / 2, n - 1)
  {
    FirstBit(w, false);
    assert (w.data + [0])[|w.data| := 0] == w.data + [0];
    FirstOf(w, v, n);
  }

  lemma Powers()
    ensures Pow2(1) == 2 && Pow2(2) == 4 && Pow2(3) == 8 && Pow2(5) == 32 && Pow2(6) == 64
    ensures Placed(0, 1, 0) == 0 && Placed(0, 1, 1) == 2 && Placed(1, 2, 5) == 0x15 && Placed(2, 3, 3) == 0x1A
  {}

  lemma LastIs(d: seq<Byte>, k: nat, b: Byte)
    ensures Open(d + [0], |d|, k, b) == Writer(d + [b], 8 * |d| + k)
  {
    assert (d + [0])[|d| := b] == d + [b];
  }

  // ------------------------------------------------------------ commands

  lemma Operation(w: Writer)
    requires WriterOk(w) && w.bit % 8 == 0
    ensures WriteBits(w, CLIENT_COMMAND, 3) == Writer(w.data + [2], 8 * |w.data| + 3)
  {
    Powers();
    LastIs(w.data, 3, 2);
    Opened(w, 2, 3);
    hide *;
    IntoOpenByte(w.data + [0], |w.data|, 1, 0, 1, 2);
  }

  lemma EndMark(w: Writer)
    requires WriterOk(w) && w.bit == 3 && |w.data| > 0 && w.data[0] == 2
    ensures WriteBits(w, END_OF_MESSAGE, 3).data == w.data[0 := 0x1A]
  {
    Powers();
    assert w == Open(w.data, 0, 3, 2);
    DataOf(w.data, 0, 6, 0x1A);
    hide *;
    IntoOpenByte(w.data, 0, 3, 2, 3, 3);
  }

  /** One command alone: the two marks in one byte, its number, its text and a zero. */
  lemma CommandBytes(c: Command)
    requires 0 <= c.sequence < 0x1_0000_0000
    ensures var n := c.sequence;
            WriteMessage(Writer([], 0), [c]).data ==
              [0x1A, n % 256, n / 256 % 256, n / 65536 % 256, n / 16777216] + StringBytes(Chars(c.text))
  {
    var empty := Writer([], 0);
    var w := WriteCommand(empty, c);
    CommandAlone(c);
    EndMark(w);
    LongBytes(c.sequence);
    hide *;
    OneWritten(empty, c);
    FirstMarked(LittleEndian(c.sequence, 4) + StringBytes(Chars(c.text)));
  }

  lemma FirstMarked(rest: seq<Byte>)
    ensures ([2] + rest)[0 := 26] == [26] + rest
  {}

  lemma CommandAlone(c: Command)
    requires 0 <= c.sequence < 0x1_0000_0000
    ensures WriteCommand(Writer([], 0), c)
         == Writer([2] + (LittleEndian(c.sequence, 4) + StringBytes(Chars(c.text))), 3)
  {
    AsLongKeeps(c.sequence);
    Operation(Writer([], 0));
    assert [] + [2] == [2];
    hide WriteBits, LittleEndian, StringBytes, Chars, AsLong, WriterOk;
    var number, text := LittleEndian(c.sequence, 4), StringBytes(Chars(c.text));
    assert [2] + number + text == [2] + (number + text);
  }

  lemma OneWritten(w: Writer, c: Command)
    requires WriterOk(w)
    ensures WriteMessage(w, [c]) == WriteBits(WriteCommand(w, c), END_OF_MESSAGE, 3)
  {
    hide WriteCommand, WriteBits, WriterOk;
    var w1 := WriteCommand(w, c);
    assert [c][1..] == [] && WriteCommands(w1, []) == w1 && WriteCommands(w, [c]) == w1;
  }

  // ------------------------------------------------------------ gamestates

  /** What is left of a number when its lowest `m` bits are taken. */
  function HighPart(v: nat, m: nat): nat
    decreases m
  {
    if m == 0 then v else HighPart(v / 2, m - 1)
  }

  lemma {:induction false} BitsSplit(w: Writer, v: nat, m: nat, n: nat)
    requires WriterOk(w)
    ensures WriteBits(w, v, m + n) == WriteBits(WriteBits(w, v, m), HighPart(v, m), n)
    decreases m
  {
    hide WriteBit, WriterOk;
    if m > 0 {
      WriteBitOk(w, v % 2 == 1);
      BitsSplit(WriteBit(w, v % 2 == 1), v / 2, m - 1, n);
    }
  }

  lemma HighPartOfFive()
    ensures HighPart(5, 6) == 0
  {
    assert HighPart(5, 6) == HighPart(1, 4) == HighPart(0, 2) == 0;
  }

  /** An index behind another one by more than one: a zero, and twelve bits. */
  lemma FiveBits(d: seq<Byte>, p: nat)
    requires p < |d|
    ensures WriterOk(Open(d, p, 1, 1)) && WriterOk(WriteBit(Open(d, p, 1, 1), false))
    ensures WriteBits(WriteBit(Open(d, p, 1, 1), false), 5, 12).data == d[p := 0x15] + [0]
  {
    Powers();
    NextBit(d, p, 1, 1, false);
    hide *;
    IntoOpenByte(d, p, 2, 1, 5, 6);
    FullByte(d, p, 0x15);
    HighPartOfFive();
    BitsSplit(Open(d, p, 2, 1), 5, 6, 6);
    SixZeros(Open(d, p, 8, 0x15));
  }

  lemma FullByte(d: seq<Byte>, p: nat, b: Byte)
    requires p < |d|
    ensures var w := Open(d, p, 8, b); WriterOk(w) && w.bit % 8 == 0 && w.data == d[p := b]
  {
    Position(p + 1, 0);
  }

  lemma DataOf(d: seq<Byte>, p: nat, k: nat, b: Byte)
    requires p < |d|
    ensures Open(d, p, k, b).data == d[p := b]
  {}

  lemma SixZeros(w: Writer)
    requires WriterOk(w) && w.bit % 8 == 0
    ensures WriteBits(w, 0, 6).data == w.data + [0]
  {
    Powers();
    LastIs(w.data, 6, 0);
    Opened(w, 0, 6);
    hide *;
    IntoOpenByte(w.data + [0], |w.data|, 1, 0, 0, 5);
  }

  /** Two strings at the indices 0 and 5: in the legacy format, the index bits of both begin in one byte. */
  lemma LegacyBytes(s: CString, t: CString)
    requires |s| < BIG_INFO_STRING && |t| < BIG_INFO_STRING
    ensures WriteEntries(Legacy, WriteCount(Legacy, Writer([], 0), 2), -1, [Entry(0, s), Entry(5, t)]).data
         == [2, 0, 0x15] + StringBytes(s) + [0] + StringBytes(t)
  {
    var a, b := Entry(0, s), Entry(5, t);
    var w := WriteCount(Legacy, Writer([], 0), 2);
    var w1 := WriteEntry(Legacy, w, -1, a);
    CountBytes();
    FirstEntry(w, a);
    SecondEntry(w1.data, b);
    hide *;
    TwoEntries(Legacy, w, a, b);
    assert ([2, 0, 1] + StringBytes(s))[2 := 0x15] == [2, 0, 0x15] + StringBytes(s);
  }

  lemma CountBytes()
    ensures WriteCount(Legacy, Writer([], 0), 2) == Writer([2, 0], 0)
  {
    ShortBytes(2);
    hide LittleEndian;
    assert [] + [2, 0] == [2, 0];
  }

  lemma FirstEntry(w: Writer, a: Entry)
    requires w == Writer([2, 0], 0) && a.index == 0 && |a.text| < BIG_INFO_STRING
    ensures WriterOk(w) && WriteEntry(Legacy, w, -1, a) == Writer([2, 0, 1] + StringBytes(a.text), 17)
  {
    hide StringBytes;
    FirstBit(w, true);
    assert w.data + [1] == [2, 0, 1];
  }

  lemma KeptWhole(s: CString)
    requires |s| < BIG_INFO_STRING
    ensures GameStateMessage.Kept(s) == s
  {}

  lemma StringBehind(w: Writer, s: CString)
    requires WriterOk(w)
    ensures WriteString(w, s).data == w.data + StringBytes(s)
  {}

  lemma SecondEntry(d: seq<Byte>, b: Entry)
    requires |d| > 2 && d[2] == 1 && b.index == 5 && |b.text| < BIG_INFO_STRING
    ensures WriterOk(Writer(d, 17))
    ensures WriteEntry(Legacy, Writer(d, 17), 0, b).data == d[2 := 0x15] + [0] + StringBytes(b.text)
  {
    IndexFive(d);
    KeptWhole(b.text);
    hide StringBytes, WriteIndex, WriterOk, WriteString, GameStateMessage.Kept;
    StringBehind(WriteIndex(Legacy, Writer(d, 17), 0, 5), b.text);
  }

  lemma IndexFive(d: seq<Byte>)
    requires |d| > 2 && d[2] == 1
    ensures WriterOk(Writer(d, 17)) && WriteIndex(Legacy, Writer(d, 17), 0, 5).data == d[2 := 0x15] + [0]
  {
    FiveBits(d, 2);
    assert Open(d, 2, 1, 1) == Writer(d, 17) by { assert d[2 := 1] == d; }
    hide WriteBit, WriteBits, Open, WriterOk;
  }

  /** In the extended format everything is whole bytes. */
  lemma ExtendedBytes(s: CString, i: Index, t: CString)
    requires |s| < BIG_INFO_STRING && |t| < BIG_INFO_STRING && 0 < i
    ensures WriteEntries(Extended, WriteCount(Extended, Writer([], 0), 2), -1, [Entry(0, s), Entry(i, t)]).data
         == [2, 0, 0, 0] + [0, 0, 0, 0] + StringBytes(s) + [i % 256, i / 256, 0, 0] + StringBytes(t)
  {
    var w, a, b := WriteCount(Extended, Writer([], 0), 2), Entry(0, s), Entry(i, t);
    LongBytes(2);
    assert w.data == [2, 0, 0, 0] by { hide LittleEndian; }
    var w1 := WriteEntry(Extended, w, -1, a);
    LongEntry(w, -1, a);
    LongEntry(w1, 0, b);
    hide *;
    TwoEntries(Extended, w, a, b);
  }

  lemma LongEntry(w: Writer, previous: int, e: Entry)
    requires WriterOk(w) && |e.text| < BIG_INFO_STRING
    ensures WriterOk(WriteEntry(Extended, w, previous, e))
    ensures WriteEntry(Extended, w, previous, e).data
         == w.data + [e.index % 256, e.index / 256, 0, 0] + StringBytes(e.text)
  {
    LongBytes(e.index);
    KeptWhole(e.text);
    hide LittleEndian, StringBytes, WriterOk, GameStateMessage.Kept;
  }

  lemma TwoEntries(f: Format, w: Writer, a: Entry, b: Entry)
    requires WriterOk(w)
    ensures WriterOk(WriteEntry(f, w, -1, a))
    ensures WriteEntries(f, w, -1, [a, b]) == WriteEntry(f, WriteEntry(f, w, -1, a), a.index, b)
  {
    hide WriteEntry;
    var w1 := WriteEntry(f, w, -1, a);
    assert [a, b][1..] == [b] && [b][1..] == [];
    assert WriteEntries(f, w1, a.index, [b]) == WriteEntries(f, WriteEntry(f, w1, a.index, b), b.index, []);
  }
}
