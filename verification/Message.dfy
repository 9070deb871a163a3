/**
 Message buffers with whole bytes and single bits interleaved: bits are collected in a
 byte that is set aside when the first of them is written, and bytes written meanwhile
 go behind it.  The reader keeps the same two positions, and reading what was written,
 in the same order of kinds, gives back the same values.
 */
module Message {
  import opened Common

  import opened Arithmetic

  type Byte = b: int | 0 <= b < 256

  /** A C string: characters of one byte, none of them zero. */
  type CString = s: string | forall i | 0 <= i < |s| :: 0 < s[i] as int < 256 witness ""

  // ------------------------------------------------------------ bits of a byte

  function Pow2(k: nat): (p: nat)
    requires k <= 8
    ensures p > 0
  {
    match k
    case 0 => 1 case 1 => 2 case 2 => 4 case 3 => 8 case 4 => 16
    case 5 => 32 case 6 => 64 case 7 => 128 case 8 => 256
  }

  predicate GetBit(b: Byte, k: nat)
    requires k < 8
  {
    b / Pow2(k) % 2 == 1
  }

  function SetBit(b: Byte, k: nat): Byte
    requires k < 8
  {
    if GetBit(b, k) then b
    else
      SetBitFits(b, k);
      b + Pow2(k)
  }

  lemma SetBitFits(b: Byte, k: nat)
    requires k < 8 && !GetBit(b, k)
    ensures b + Pow2(k) < 256
  {
    match k
    case 0 => case 1 => case 2 => case 3 => case 4 => case 5 => case 6 => case 7 =>
  }

  // ------------------------------------------------------------ writing

  datatype Writer = Writer(data: seq<Byte>, bit: nat)

  /** An open bit byte exists, and nothing is set in it beyond the position. */
  ghost predicate WriterOk(w: Writer) {
    w.bit % 8 != 0 ==> w.bit / 8 < |w.data| && w.data[w.bit / 8] < Pow2(w.bit % 8)
  }

  function OpenByte(w: Writer): Writer {
    if w.bit % 8 == 0 then Writer(w.data + [0], 8 * |w.data|) else w
  }

  function WriteBit(w: Writer, v: bool): Writer
    requires WriterOk(w)
  {
    var o := OpenByte(w);
    Writer(if v then o.data[o.bit / 8 := SetBit(o.data[o.bit / 8], o.bit % 8)] else o.data, o.bit + 1)
  }

  lemma WriteBitOk(w: Writer, v: bool)
    requires WriterOk(w)
    ensures WriterOk(WriteBit(w, v))
  {
    match w.bit % 8
    case 0 => case 1 => case 2 => case 3 => case 4 => case 5 => case 6 => case 7 =>
  }

  function WriteBits(w: Writer, v: nat, n: nat): (w': Writer)
    requires WriterOk(w)
    ensures WriterOk(w')
    decreases n
  {
    if n == 0 then w
    else
      WriteBitOk(w, v % 2 == 1);
      WriteBits(WriteBit(w, v % 2 == 1), v / 2, n - 1)
  }

  function WriteBytes(w: Writer, bytes: seq<Byte>): (w': Writer)
    requires WriterOk(w)
    ensures WriterOk(w')
  {
    w.(data := w.data + bytes)
  }

  function LittleEndian(v: nat, n: nat): (bytes: seq<Byte>)
    ensures |bytes| == n
    decreases n
  {
    if n == 0 then [] else [v % 256] + LittleEndian(v / 256, n - 1)
  }

  function StringBytes(s: CString): (bytes: seq<Byte>)
    ensures |bytes| == |s| + 1
  {
    seq(|s| + 1, i requires 0 <= i <= |s| => if i < |s| then s[i] as int else 0)
  }

  function WriteString(w: Writer, s: CString): (w': Writer)
    requires WriterOk(w)
    ensures WriterOk(w')
  {
    WriteBytes(w, StringBytes(s))
  }

  // ------------------------------------------------------------ reading

  datatype Reader = Reader(data: seq<Byte>, readcount: nat, bit: nat)

  ghost predicate ReaderOk(r: Reader) {
    r.bit % 8 != 0 ==> r.bit / 8 < |r.data|
  }

  /** One bit, or -1 when the message is exhausted. */
  function ReadBit(r: Reader): (int, Reader)
    requires ReaderOk(r)
  {
    if r.bit % 8 == 0 && r.readcount >= |r.data| then (-1, r)
    else
      var o := if r.bit % 8 == 0 then Reader(r.data, r.readcount + 1, 8 * r.readcount) else r;
      (if GetBit(o.data[o.bit / 8], o.bit % 8) then 1 else 0, o.(bit := o.bit + 1))
  }

  /** `n` bits, lowest first, or -1. */
  function ReadBits(r: Reader, n: nat): (int, Reader)
    requires ReaderOk(r)
    decreases n
  {
    if n == 0 then (0, r)
    else
      var (b, r1) := ReadBit(r);
      if b < 0 then (-1, r1)
      else
        var (rest, r2) := ReadBits(r1, n - 1);
        (if rest < 0 then -1 else b + 2 * rest, r2)
  }

  function ReadByte(r: Reader): (int, Reader) {
    if r.readcount >= |r.data| then (-1, r)
    else
      var c: int := r.data[r.readcount];
      (c, r.(readcount := r.readcount + 1))
  }

  function FromLittleEndian(bytes: seq<Byte>): nat {
    if bytes == [] then 0 else bytes[0] + 256 * FromLittleEndian(bytes[1..])
  }

  /** A signed number of `n` bytes, or -1 when the message is too short. */
  function ReadNumber(r: Reader, n: nat, modulus: nat): (int, Reader) {
    if r.readcount + n > |r.data| then (-1, r)
    else
      var v := FromLittleEndian(r.data[r.readcount..r.readcount + n]);
      (if 2 * v < modulus then v else v - modulus, r.(readcount := r.readcount + n))
  }

  function ReadShort(r: Reader): (int, Reader) { ReadNumber(r, 2, 0x1_0000) }

  function ReadLong(r: Reader): (int, Reader) { ReadNumber(r, 4, 0x1_0000_0000) }

  /** Format characters are defused on the way in. */
  function Defused(c: char): char { if c == '%' then '.' else c }

  function Clean(s: CString): (t: CString)
    ensures |t| == |s| && forall i | 0 <= i < |s| :: t[i] == if s[i] == '%' then '.' else s[i]
  {
    seq(|s|, i requires 0 <= i < |s| => Defused(s[i]))
  }

  /** Reads on to the terminator of a string that did not fit. */
  function SkipString(r: Reader): Reader
    decreases |r.data| - r.readcount
  {
    var (c, r') := ReadByte(r);
    if c <= 0 then r' else SkipString(r')
  }

  /** The reading loop: at least one character, then while fewer than `len - 1` are stored. */
  function ReadChars(r: Reader, got: CString, len: int): (CString, Reader)
    decreases |r.data| - r.readcount
  {
    var (c, r') := ReadByte(r);
    if c <= 0 then (got, r')
    else
      var got' := got + [Defused(c as char)];
      if |got'| < len - 1 then ReadChars(r', got', len) else (got', SkipString(r'))
  }

  function ReadString(r: Reader, len: int): (CString, Reader) {
    ReadChars(r, "", len)
  }

  // ------------------------------------------------------------ readers stay well formed

  /** `r'` goes on in the same message, not before `r`. */
  predicate Behind(r: Reader, r': Reader) { r'.data == r.data && r'.readcount >= r.readcount }

  lemma {:induction false} ReadBitsOk(r: Reader, n: nat)
    requires ReaderOk(r)
    ensures ReaderOk(ReadBits(r, n).1) && ReadBits(r, n).0 >= -1 && Behind(r, ReadBits(r, n).1)
    decreases n
  {
    if n > 0 && ReadBit(r).0 >= 0 {
      ReadBitsOk(ReadBit(r).1, n - 1);
    }
  }

  lemma {:induction false} SkipStringOk(r: Reader)
    requires ReaderOk(r)
    ensures ReaderOk(SkipString(r)) && Behind(r, SkipString(r))
    decreases |r.data| - r.readcount
  {
    if ReadByte(r).0 > 0 {
      SkipStringOk(ReadByte(r).1);
    }
  }

  lemma {:induction false} ReadCharsOk(r: Reader, got: CString, len: int)
    requires ReaderOk(r)
    ensures ReaderOk(ReadChars(r, got, len).1) && Behind(r, ReadChars(r, got, len).1)
    decreases |r.data| - r.readcount
  {
    var (c, r') := ReadByte(r);
    if c > 0 {
      var got' := got + [Defused(c as char)];
      if |got'| < len - 1 { ReadCharsOk(r', got', len); } else { SkipStringOk(r'); }
    }
  }

  lemma ReadStringOk(r: Reader, len: int)
    requires ReaderOk(r)
    ensures ReaderOk(ReadString(r, len).1) && Behind(r, ReadString(r, len).1)
  {
    ReadCharsOk(r, "", len);
  }

  // ------------------------------------------------------------ reading what was written

  /** `data` agrees with everything `w` has settled: whole bytes, and the written bits of the open one. */
  ghost predicate Extends(w: Writer, data: seq<Byte>)
    requires WriterOk(w)
  {
    && |w.data| <= |data|
    && (forall j | 0 <= j < |w.data| && (w.bit % 8 == 0 || j != w.bit / 8) :: data[j] == w.data[j])
    && (w.bit % 8 != 0 ==> data[w.bit / 8] % Pow2(w.bit % 8) == w.data[w.bit / 8])
  }

  lemma ExtendsSelf(w: Writer)
    requires WriterOk(w)
    ensures Extends(w, w.data)
  {}

  /** The reader that has read exactly what `w` had written. */
  function At(w: Writer, data: seq<Byte>): Reader {
    Reader(data, |w.data|, w.bit)
  }

  lemma ExtendsReader(w: Writer, data: seq<Byte>)
    requires WriterOk(w) && Extends(w, data)
    ensures ReaderOk(At(w, data))
  {}

  lemma HalfSplits(b: nat, p: nat, h: nat, t: nat, r: nat)
    requires p > 0 && b == h * (2 * p) + t * p + r && t < 2 && r < p
    ensures b % (2 * p) == t * p + r && b / p % 2 == t && b % p == r
  {
    assert b == h * (2 * p) + (t * p + r);
    assert t * p + r < 2 * p;
    DivMod(b, 2 * p, h, t * p + r);
    assert b == (2 * h + t) * p + r;
    DivMod(b, p, 2 * h + t, r);
  }

  lemma ModByteSplits(b: Byte, k: nat)
    requires k < 8
    ensures b % Pow2(k + 1) == b % Pow2(k) + if GetBit(b, k) then Pow2(k) else 0
  {
    var p := Pow2(k);
    var q := b / p;
    assert b == q * p + b % p;
    assert q == 2 * (q / 2) + q % 2;
    assert b == (q / 2) * (2 * p) + (q % 2) * p + b % p;
    HalfSplits(b, p, q / 2, q % 2, b % p);
    assert Pow2(k + 1) == 2 * p;
  }

  lemma SmallByte(b: Byte, k: nat)
    requires k < 8 && b < Pow2(k)
    ensures !GetBit(b, k) && SetBit(b, k) == b + Pow2(k)
  {
    match k
    case 0 => case 1 => case 2 => case 3 => case 4 => case 5 => case 6 => case 7 =>
  }

  /** One bit: what is read is what was written, and earlier bits stay settled. */
  lemma BitReadsBack(w: Writer, v: bool, data: seq<Byte>)
    requires WriterOk(w) && WriterOk(WriteBit(w, v)) && Extends(WriteBit(w, v), data)
    ensures Extends(w, data) && ReaderOk(At(w, data))
    ensures ReadBit(At(w, data)) == (if v then 1 else 0, At(WriteBit(w, v), data))
  {
    var o := OpenByte(w);
    var w' := WriteBit(w, v);
    var p, k := o.bit / 8, o.bit % 8;
    SmallByte(o.data[p], k);
    if k == 7 {
      assert data[p] == w'.data[p];
    } else {
      assert w'.bit % 8 == k + 1 && w'.bit / 8 == p;
      assert data[p] % Pow2(k + 1) == w'.data[p];
    }
    assert data[p] % Pow2(k) == o.data[p] && GetBit(data[p], k) == v by {
      BitOfSum(data[p], k, o.data[p], v);
    }
  }

  lemma BitOfSum(b: Byte, k: nat, low: nat, v: bool)
    requires k < 8 && low < Pow2(k)
    requires b % Pow2(k + 1) == low + if v then Pow2(k) else 0
    ensures b % Pow2(k) == low && GetBit(b, k) == v
  {
    ModByteSplits(b, k);
  }

  /** A field of `n` bits holds any number below the power of two. */
  lemma {:induction false} BitsReadBack(w: Writer, v: nat, n: nat, data: seq<Byte>)
    requires WriterOk(w) && Extends(WriteBits(w, v, n), data) && v < Exp2(n)
    ensures Extends(w, data) && ReaderOk(At(w, data))
    ensures ReadBits(At(w, data), n) == (v, At(WriteBits(w, v, n), data))
    decreases n
  {
    hide Extends, WriteBit, ReadBit;
    if n == 0 {
      ExtendsReader(w, data);
    } else {
      WriteBitOk(w, v % 2 == 1);
      BitsReadBack(WriteBit(w, v % 2 == 1), v / 2, n - 1, data);
      BitReadsBack(w, v % 2 == 1, data);
    }
  }

  function Exp2(n: nat): nat { if n == 0 then 1 else 2 * Exp2(n - 1) }

  /** Whole bytes go behind an open bit byte without touching it. */
  lemma BytesReadBack(w: Writer, bytes: seq<Byte>, data: seq<Byte>)
    requires WriterOk(w) && Extends(WriteBytes(w, bytes), data)
    ensures Extends(w, data)
    ensures |w.data| + |bytes| <= |data| && data[|w.data|..|w.data| + |bytes|] == bytes
  {
    var w' := WriteBytes(w, bytes);
    assert forall j | 0 <= j < |bytes| :: w'.data[|w.data| + j] == bytes[j];
    assert forall j | 0 <= j < |w.data| :: w'.data[j] == w.data[j];
  }

  lemma {:induction false} LittleEndianReadsBack(v: nat, n: nat)
    requires v < Exp256(n)
    ensures FromLittleEndian(LittleEndian(v, n)) == v
    decreases n
  {
    if n > 0 {
      LittleEndianReadsBack(v / 256, n - 1);
      assert LittleEndian(v, n)[1..] == LittleEndian(v / 256, n - 1);
    }
  }

  function Exp256(n: nat): nat { if n == 0 then 1 else 256 * Exp256(n - 1) }

  /** A nonnegative number of `n` bytes below half the range reads back. */
  lemma NumberReadsBack(w: Writer, v: nat, n: nat, modulus: nat, data: seq<Byte>)
    requires WriterOk(w) && Extends(WriteBytes(w, LittleEndian(v, n)), data)
    requires modulus == Exp256(n) && 2 * v < modulus
    ensures Extends(w, data)
    ensures ReadNumber(At(w, data), n, modulus) == (v, At(WriteBytes(w, LittleEndian(v, n)), data))
  {
    BytesReadBack(w, LittleEndian(v, n), data);
    LittleEndianReadsBack(v, n);
  }

  /** From here on the message holds a terminated string. */
  predicate Stands(r: Reader, s: CString) {
    r.readcount + |s| + 1 <= |r.data| && r.data[r.readcount..r.readcount + |s| + 1] == StringBytes(s)
  }

  function Moved(r: Reader, n: nat): Reader { r.(readcount := r.readcount + n) }

  lemma FirstByte(r: Reader, s: CString)
    requires Stands(r, s)
    ensures ReadByte(r) == (if s == "" then 0 else s[0] as int, Moved(r, 1))
    ensures s != "" ==> Stands(Moved(r, 1), s[1..]) && Moved(Moved(r, 1), |s[1..]| + 1) == Moved(r, |s| + 1)
  {
    var bytes := r.data[r.readcount..r.readcount + |s| + 1];
    assert r.data[r.readcount] == bytes[0];
    if s != "" {
      assert StringBytes(s)[1..] == StringBytes(s[1..]);
      assert r.data[r.readcount + 1..r.readcount + 1 + |s|] == bytes[1..];
    }
  }

  /** From a terminated string on, skipping ends behind its terminator. */
  lemma {:induction false} SkipsString(r: Reader, s: CString)
    requires Stands(r, s)
    ensures SkipString(r) == Moved(r, |s| + 1)
    decreases |s|
  {
    FirstByte(r, s);
    hide Stands, ReadByte;
    if s != "" {
      SkipsString(Moved(r, 1), s[1..]);
    }
  }

  /** How much of a string of `n` characters is stored, when `got` are there: one at least, and up to `len - 1`. */
  function Stores(n: nat, got: nat, len: int): nat {
    var room := (if len > 2 then len - 1 else 1) - got;
    if room < 0 then 0 else Min(n, room)
  }

  lemma {:induction false} CharsAreCut(r: Reader, got: CString, s: CString, len: int)
    requires Stands(r, s) && (|got| == 0 || |got| < len - 1)
    ensures Stores(|s|, |got|, len) <= |s|
    ensures ReadChars(r, got, len) == (got + Clean(s[..Stores(|s|, |got|, len)]), Moved(r, |s| + 1))
    decreases |s|
  {
    FirstByte(r, s);
    if s == "" {
      assert got + Clean("") == got;
    } else {
      StoresOn(|s|, |got|, len);
      CleanFront(got, s, Stores(|s|, |got|, len));
      CharRead(r, got, s, len);
      hide *;
      if |got| + 1 < len - 1 {
        CharsAreCut(Moved(r, 1), got + [Defused(s[0])], s[1..], len);
      } else {
        SkipsString(Moved(r, 1), s[1..]);
      }
    }
  }

  lemma CharRead(r: Reader, got: CString, s: CString, len: int)
    requires s != "" && ReadByte(r) == (s[0] as int, Moved(r, 1))
    ensures var got' := got + [Defused(s[0])];
            ReadChars(r, got, len)
            == if |got| + 1 < len - 1 then ReadChars(Moved(r, 1), got', len) else (got', SkipString(Moved(r, 1)))
  {
    hide SkipString, ReadByte;
  }

  lemma StoresOn(n: nat, got: nat, len: int)
    requires n > 0 && (got == 0 || got < len - 1)
    ensures var k := Stores(n, got, len);
            1 <= k <= n && if got + 1 < len - 1 then k - 1 == Stores(n - 1, got + 1, len) else k == 1
  {}

  lemma CleanFront(got: CString, s: CString, k: nat)
    requires 1 <= k <= |s|
    ensures got + [Defused(s[0])] + Clean(s[1..][..k - 1]) == got + Clean(s[..k])
    ensures k == 1 ==> got + [Defused(s[0])] == got + Clean(s[..k])
  {
    assert s[..k][1..] == s[1..][..k - 1];
  }

  /** A string of any length is cut to the buffer, and reading goes on behind its terminator. */
  lemma StringIsCut(w: Writer, s: CString, len: int, data: seq<Byte>)
    requires WriterOk(w) && Extends(WriteString(w, s), data)
    ensures Extends(w, data)
    ensures var k := Min(|s|, if len > 2 then len - 1 else 1);
            ReadString(At(w, data), len) == (Clean(s[..k]), At(WriteString(w, s), data))
  {
    BytesReadBack(w, StringBytes(s), data);
    CharsAreCut(At(w, data), "", s, len);
    var k := Stores(|s|, 0, len);
    assert "" + Clean(s[..k]) == Clean(s[..k]);
  }

  /** A string with room for it reads back with its format characters defused. */
  lemma StringReadsBack(w: Writer, s: CString, len: int, data: seq<Byte>)
    requires WriterOk(w) && Extends(WriteString(w, s), data) && |s| < len
    ensures Extends(w, data)
    ensures ReadString(At(w, data), len) == (Clean(s), At(WriteString(w, s), data))
  {
    StringIsCut(w, s, len, data);
    assert s[..|s|] == s;
  }

  /** A number of either sign reads back from its bytes, which are those of its remainder. */
  lemma SignedReadsBack(w: Writer, v: int, n: nat, modulus: nat, data: seq<Byte>)
    requires modulus == Exp256(n) && 0 <= 2 * v + modulus < 2 * modulus
    requires WriterOk(w)
    requires var bytes := LittleEndian(if v < 0 then v + modulus else v, n); Extends(WriteBytes(w, bytes), data)
    ensures Extends(w, data)
    ensures ReadNumber(At(w, data), n, modulus).0 == v
  {
    var u := if v < 0 then v + modulus else v;
    BytesReadBack(w, LittleEndian(u, n), data);
    LittleEndianReadsBack(u, n);
  }

  lemma FourBytes()
    ensures Exp256(2) == 0x1_0000 && Exp256(4) == 0x1_0000_0000
  {
    assert Exp256(2) == 0x1_0000;
  }
}
