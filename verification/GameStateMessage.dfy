/**
 Recording the configstrings into a message and parsing them back.  The legacy format
 codes an index as one bit when it follows its predecessor and as twelve bits otherwise;
 the extended format writes every index in full and carries both tables.  Parsing merges
 what it reads with a sorted table of constant strings.
 */
module GameStateMessage {
  import opened Common
  import opened Message
  import opened GameState

  datatype Format = Legacy | Extended

  datatype Entry = Entry(index: Index, text: CString)

  datatype Error = NoConfigstrings | TooManyConfigstrings | IndexNotAscending | IndexOutOfRange | StringTooLong

  datatype Outcome<T> = Parsed(value: T, rest: Reader) | Failed(error: Error)

  function Limit(f: Format): nat { if f.Legacy? then MAX_CONFIGSTRINGS else 2 * MAX_CONFIGSTRINGS }

  // ------------------------------------------------------------ recording

  /** The indices below `n` of one table that have a string, with the strings. */
  function Entries(t: Table, base: nat, n: nat): seq<Entry>
    requires Valid(t) && n <= MAX_CONFIGSTRINGS && base <= MAX_CONFIGSTRINGS
  {
    if n == 0 then []
    else
      var es := Entries(t, base, n - 1);
      if t.offsets[n - 1] == 0 then es
      else
        GetIsCString(t, n - 1);
        es + [Entry(base + n - 1, Get(t, n - 1))]
  }

  function Recorded(f: Format, g: Tables): seq<Entry>
    requires ValidTables(g)
  {
    Entries(g.cl, 0, MAX_CONFIGSTRINGS)
    + if f.Legacy? then [] else Entries(g.ext, MAX_CONFIGSTRINGS, MAX_CONFIGSTRINGS)
  }

  /** A string too big for the message is written as the empty one. */
  function Kept(s: CString): CString { if |s| >= BIG_INFO_STRING then "" else s }

  function WriteIndex(f: Format, w: Writer, previous: int, index: nat): (w': Writer)
    requires WriterOk(w)
    ensures WriterOk(w')
  {
    if f.Extended? then WriteBytes(w, LittleEndian(index, 4))
    else if previous + 1 == index then
      WriteBitOk(w, true);
      WriteBit(w, true)
    else
      WriteBitOk(w, false);
      WriteBits(WriteBit(w, false), index, 12)
  }

  function WriteEntry(f: Format, w: Writer, previous: int, e: Entry): (w': Writer)
    requires WriterOk(w)
    ensures WriterOk(w')
  {
    WriteString(WriteIndex(f, w, previous, e.index), Kept(e.text))
  }

  function WriteEntries(f: Format, w: Writer, previous: int, es: seq<Entry>): (w': Writer)
    requires WriterOk(w)
    ensures WriterOk(w')
    decreases |es|
  {
    if es == [] then w
    else WriteEntries(f, WriteEntry(f, w, previous, es[0]), es[0].index, es[1..])
  }

  function WriteCount(f: Format, w: Writer, n: nat): (w': Writer)
    requires WriterOk(w)
    ensures WriterOk(w')
  {
    WriteBytes(w, LittleEndian(n, if f.Legacy? then 2 else 4))
  }

  function Record(f: Format, w: Writer, g: Tables): (w': Writer)
    requires WriterOk(w) && ValidTables(g)
    ensures WriterOk(w')
  {
    var es := Recorded(f, g);
    WriteEntries(f, WriteCount(f, w, |es|), -1, es)
  }

  // ------------------------------------------------------------ parsing

  function ReadIndex(f: Format, r: Reader, previous: int): (o: Outcome<int>)
    requires ReaderOk(r)
  {
    if f.Extended? then
      var (i, r1) := ReadLong(r);
      if i <= previous then Failed(IndexNotAscending) else Parsed(i, r1)
    else
      var (b, r1) := ReadBit(r);
      if b == 1 then Parsed(previous + 1, r1)
      else
        var (i, r2) := ReadBits(r1, 12);
        if i <= previous then Failed(IndexNotAscending) else Parsed(i, r2)
  }

  /** The data count of the table that index `i` belongs to. */
  function Used(g: Tables, i: Index): nat { if i < MAX_CONFIGSTRINGS then |g.cl.data| else |g.ext.data| }

  /** Constants below `index` are copied; what is left of the constants is returned too. */
  function CopyBelow(g: Tables, cs: seq<Entry>, index: nat): (Tables, seq<Entry>)
    decreases |cs|
  {
    if cs == [] || cs[0].index >= index then (g, cs)
    else CopyBelow(PutAny(g, cs[0].index, cs[0].text), cs[1..], index)
  }

  function PutAll(g: Tables, es: seq<Entry>): Tables
    decreases |es|
  {
    if es == [] then g else PutAll(PutAny(g, es[0].index, es[0].text), es[1..])
  }

  /** Constants up to `e` are dealt with and `e` is put; the tables, and the constants still to come. */
  function Next(g: Tables, cs: seq<Entry>, e: Entry): (Tables, seq<Entry>) {
    var (g1, cs1) := CopyBelow(g, cs, e.index);
    (PutAny(g1, e.index, e.text), if cs1 != [] && cs1[0].index == e.index then cs1[1..] else cs1)
  }

  /** How much of a string may be read for index `i`. */
  function Room(g: Tables, i: Index): int {
    var room := MAX_GAMESTATE_CHARS - Used(g, i);
    if BIG_INFO_STRING < room then BIG_INFO_STRING else room
  }

  function ParseEntries(f: Format, k: nat, r: Reader, previous: int, cs: seq<Entry>, g: Tables): Outcome<Tables>
    requires ReaderOk(r) && previous >= -1
    decreases k
  {
    if k == 0 then Parsed(PutAll(g, cs), r)
    else
      match ReadIndex(f, r, previous)
      case Failed(e) => Failed(e)
      case Parsed(index, r1) =>
        if index >= Limit(f) then Failed(IndexOutOfRange)
        else
          ReadIndexOk(f, r, previous);
          var room := Room(CopyBelow(g, cs, index).0, index);
          var (s, r2) := ReadString(r1, room);
          if |s| + 1 >= BIG_INFO_STRING then Failed(StringTooLong)
          else
            ReadStringOk(r1, room);
            var (g', cs') := Next(g, cs, Entry(index, s));
            ParseEntries(f, k - 1, r2, index, cs', g')
  }

  /** The configstring part of a gamestate message, merged with the constants `cs`. */
  function Parse(f: Format, r: Reader, cs: seq<Entry>, g: Tables): Outcome<Tables>
    requires ReaderOk(r)
  {
    var (n, r1) := if f.Legacy? then ReadShort(r) else ReadLong(r);
    if n == 0 then Failed(NoConfigstrings)
    else if n < 0 || n > Limit(f) then Failed(TooManyConfigstrings)
    else ParseEntries(f, n, r1, -1, cs, g)
  }

  lemma ReadIndexOk(f: Format, r: Reader, previous: int)
    requires ReaderOk(r)
    ensures ReadIndex(f, r, previous).Parsed? ==> ReaderOk(ReadIndex(f, r, previous).rest)
  {
    ReadBitsOk(ReadBit(r).1, 12);
  }

  // ------------------------------------------------------------ merging with the constants

  ghost predicate Ascending(es: seq<Entry>, above: int) {
    && (forall i | 0 <= i < |es| :: es[i].index > above)
    && forall i, j | 0 <= i < j < |es| :: es[i].index < es[j].index
  }

  function Find(es: seq<Entry>, i: nat): (r: seq<CString>)
    ensures |r| <= 1
  {
    if es == [] then [] else if es[0].index == i then [es[0].text] else Find(es[1..], i)
  }

  /** Both lists in ascending order; where both have an index, the first list's string counts. */
  function Merge(es: seq<Entry>, cs: seq<Entry>): seq<Entry>
    decreases |es| + |cs|
  {
    if es == [] then cs
    else if cs == [] || es[0].index < cs[0].index then [es[0]] + Merge(es[1..], cs)
    else if es[0].index == cs[0].index then [es[0]] + Merge(es[1..], cs[1..])
    else [cs[0]] + Merge(es, cs[1..])
  }

  lemma {:induction false} FindAbove(es: seq<Entry>, above: int, i: nat)
    requires Ascending(es, above) && i <= above
    ensures Find(es, i) == []
  {
    if es != [] {
      FindAbove(es[1..], above, i);
    }
  }

  lemma {:induction false} FindAscending(es: seq<Entry>, above: int, i: nat)
    requires Ascending(es, above) && es != []
    ensures Ascending(es[1..], es[0].index) && Ascending(es[1..], above)
    ensures i <= es[0].index ==> Find(es[1..], i) == []
  {
    if i <= es[0].index {
      FindAbove(es[1..], es[0].index, i);
    }
  }

  lemma {:induction false} MergeAscending(es: seq<Entry>, cs: seq<Entry>, above: int)
    requires Ascending(es, above) && Ascending(cs, above)
    ensures Ascending(Merge(es, cs), above)
    decreases |es| + |cs|
  {
    if es == [] {
    } else if cs == [] || es[0].index < cs[0].index {
      MergeAscending(es[1..], cs, es[0].index);
    } else if es[0].index == cs[0].index {
      MergeAscending(es[1..], cs[1..], es[0].index);
    } else {
      MergeAscending(es, cs[1..], cs[0].index);
    }
  }

  lemma FindCons(e: Entry, rest: seq<Entry>, i: nat)
    ensures Find([e] + rest, i) == if e.index == i then [e.text] else Find(rest, i)
  {
    assert ([e] + rest)[1..] == rest;
  }

  /** Merging is overriding: the first list decides where it has an entry, the second elsewhere. */
  lemma {:induction false} MergeOverrides(es: seq<Entry>, cs: seq<Entry>, above: int, i: nat)
    requires Ascending(es, above) && Ascending(cs, above)
    ensures Find(Merge(es, cs), i) == if Find(es, i) != [] then Find(es, i) else Find(cs, i)
    decreases |es| + |cs|
  {
    if es == [] {
    } else if cs == [] || es[0].index < cs[0].index {
      FindAscending(es, above, i);
      FindCons(es[0], Merge(es[1..], cs), i);
      MergeOverrides(es[1..], cs, es[0].index, i);
    } else if es[0].index == cs[0].index {
      FindAscending(es, above, i);
      FindAscending(cs, above, i);
      FindCons(es[0], Merge(es[1..], cs[1..]), i);
      MergeOverrides(es[1..], cs[1..], es[0].index, i);
    } else {
      FindAscending(cs, above, i);
      if i <= cs[0].index { FindAbove(es, cs[0].index, i); }
      FindCons(cs[0], Merge(es, cs[1..]), i);
      MergeOverrides(es, cs[1..], cs[0].index, i);
    }
  }

  /** Putting an ascending list is updating the map with it. */
  lemma {:induction false} PutAllGets(g: Tables, es: seq<Entry>, above: int, i: Index)
    requires ValidTables(g) && Ascending(es, above)
    ensures ValidTables(PutAll(g, es))
    ensures GetAny(PutAll(g, es), i) == if Find(es, i) != [] then Find(es, i)[0] else GetAny(g, i)
    decreases |es|
  {
    if es != [] {
      PutGetAny(g, es[0].index, es[0].text, i);
      FindAscending(es, above, i);
      PutAllGets(PutAny(g, es[0].index, es[0].text), es[1..], above, i);
    }
  }

  /** The heaps only grow. */
  lemma {:induction false} PutAllGrows(g: Tables, es: seq<Entry>)
    ensures |g.cl.data| <= |PutAll(g, es).cl.data| && |g.ext.data| <= |PutAll(g, es).ext.data|
    decreases |es|
  {
    if es != [] {
      PutAllGrows(PutAny(g, es[0].index, es[0].text), es[1..]);
    }
  }

  lemma PutFirst(g: Tables, es: seq<Entry>, rest: seq<Entry>)
    requires es != [] && es == [es[0]] + rest
    ensures PutAll(g, es) == PutAll(PutAny(g, es[0].index, es[0].text), rest)
  {
    assert es[1..] == rest;
  }

  /** Dealing with the first entry is the first part of putting the merged list. */
  lemma {:induction false} NextMerges(g: Tables, es: seq<Entry>, cs: seq<Entry>)
    requires es != []
    ensures var (g', cs') := Next(g, cs, es[0]);
            PutAll(g, Merge(es, cs)) == PutAll(g', Merge(es[1..], cs'))
    decreases |cs|
  {
    if cs == [] || es[0].index < cs[0].index {
      PutFirst(g, Merge(es, cs), Merge(es[1..], cs));
    } else if es[0].index == cs[0].index {
      PutFirst(g, Merge(es, cs), Merge(es[1..], cs[1..]));
    } else {
      PutFirst(g, Merge(es, cs), Merge(es, cs[1..]));
      NextMerges(PutAny(g, cs[0].index, cs[0].text), es, cs[1..]);
    }
  }

  /** The constants still to come stay in order, above the entry just dealt with. */
  lemma {:induction false} NextAscending(g: Tables, cs: seq<Entry>, e: Entry, above: int)
    requires Ascending(cs, above)
    ensures Ascending(Next(g, cs, e).1, e.index)
    decreases |cs|
  {
    if cs != [] && cs[0].index < e.index {
      FindAscending(cs, above, 0);
      NextAscending(PutAny(g, cs[0].index, cs[0].text), cs[1..], e, above);
    }
  }

  lemma NextUses(g: Tables, cs: seq<Entry>, e: Entry)
    ensures Used(CopyBelow(g, cs, e.index).0, e.index) + |e.text| + 1 == Used(Next(g, cs, e).0, e.index)
  {}

  // ------------------------------------------------------------ parsing what was recorded

  function Received(e: Entry): Entry { Entry(e.index, Clean(Kept(e.text))) }

  function AllReceived(es: seq<Entry>): (rs: seq<Entry>)
    ensures |rs| == |es| && forall i | 0 <= i < |es| :: rs[i] == Received(es[i])
  {
    if es == [] then [] else [Received(es[0])] + AllReceived(es[1..])
  }

  lemma TwelveBits()
    ensures Exp2(12) == 4096
  {
    assert Exp2(4) == 16;
    assert Exp2(8) == 256;
  }

  /** The index of an entry reads back, whatever the previous one was. */
  lemma IndexReadsBack(f: Format, w: Writer, previous: int, index: nat, data: seq<Byte>)
    requires WriterOk(w) && Extends(WriteIndex(f, w, previous, index), data)
    requires -1 <= previous < index < Limit(f)
    ensures Extends(w, data) && ReaderOk(At(w, data))
    ensures ReadIndex(f, At(w, data), previous) == Parsed(index, At(WriteIndex(f, w, previous, index), data))
  {
    hide Extends, WriteBit, ReadBit;
    if f.Extended? {
      FourBytes();
      NumberReadsBack(w, index, 4, 0x1_0000_0000, data);
    } else if previous + 1 == index {
      WriteBitOk(w, true);
      BitReadsBack(w, true, data);
    } else {
      TwelveBits();
      WriteBitOk(w, false);
      BitsReadBack(WriteBit(w, false), index, 12, data);
      BitReadsBack(w, false, data);
    }
    ExtendsReader(w, data);
  }

  ghost predicate Fits(g: Tables) {
    |g.cl.data| <= MAX_GAMESTATE_CHARS && |g.ext.data| <= MAX_GAMESTATE_CHARS
  }

  /** The one length that is written in full and then refused by the reader. */
  predicate Readable(s: CString) { |s| != BIG_INFO_STRING - 1 }

  predicate AllReadable(es: seq<Entry>) {
    es == [] || (Readable(es[0].text) && AllReadable(es[1..]))
  }

  /** One recorded entry takes the parser one step further, or stops it if it is unreadable. */
  lemma EntryReadsBack(f: Format, k: nat, w: Writer, previous: int, e: Entry, cs: seq<Entry>, g: Tables,
                       data: seq<Byte>)
    requires WriterOk(w) && Extends(WriteEntry(f, w, previous, e), data) && k > 0
    requires -1 <= previous < e.index < Limit(f)
    requires Used(CopyBelow(g, cs, e.index).0, e.index) + |Kept(e.text)| < MAX_GAMESTATE_CHARS
    ensures Extends(w, data) && ReaderOk(At(w, data)) && ReaderOk(At(WriteEntry(f, w, previous, e), data))
    ensures ParseEntries(f, k, At(w, data), previous, cs, g)
         == if !Readable(e.text) then Failed(StringTooLong) else
            ParseEntries(f, k - 1, At(WriteEntry(f, w, previous, e), data), e.index,
                         Next(g, cs, Received(e)).1, Next(g, cs, Received(e)).0)
  {
    hide Extends, WriteIndex, WriteString, ReadIndex, ReadString, CopyBelow, Clean, Next;
    var w1 := WriteIndex(f, w, previous, e.index);
    var room := Room(CopyBelow(g, cs, e.index).0, e.index);
    StringReadsBack(w1, Kept(e.text), room, data);
    IndexReadsBack(f, w, previous, e.index, data);
    ReadIndexOk(f, At(w, data), previous);
    ReadStringOk(At(w1, data), room);
  }

  /** Entries in order, and room for everything that will be put. */
  ghost predicate Parsable(f: Format, previous: int, es: seq<Entry>, cs: seq<Entry>, g: Tables) {
    && previous >= -1 && Ascending(es, previous) && Ascending(cs, previous)
    && (forall i | 0 <= i < |es| :: es[i].index < Limit(f))
    && Fits(PutAll(g, Merge(AllReceived(es), cs)))
  }

  lemma ParsableNext(f: Format, previous: int, es: seq<Entry>, cs: seq<Entry>, g: Tables)
    requires es != [] && Parsable(f, previous, es, cs, g)
    ensures -1 <= previous < es[0].index < Limit(f)
    ensures Parsable(f, es[0].index, es[1..], Next(g, cs, Received(es[0])).1, Next(g, cs, Received(es[0])).0)
    ensures PutAll(g, Merge(AllReceived(es), cs))
         == PutAll(Next(g, cs, Received(es[0])).0, Merge(AllReceived(es[1..]), Next(g, cs, Received(es[0])).1))
    ensures Used(CopyBelow(g, cs, es[0].index).0, es[0].index) + |Kept(es[0].text)| < MAX_GAMESTATE_CHARS
  {
    hide CopyBelow, PutAny, PutAll, Merge, Kept, Clean, Next;
    var rs := AllReceived(es);
    assert rs[1..] == AllReceived(es[1..]);
    var (g', cs') := Next(g, cs, rs[0]);
    NextMerges(g, rs, cs);
    NextAscending(g, cs, rs[0], previous);
    FindAscending(es, previous, 0);
    NextUses(g, cs, rs[0]);
    PutAllGrows(g', Merge(rs[1..], cs'));
  }

  /** The outcome of parsing `es` where `w` is about to write them. */
  function Expected(f: Format, w: Writer, previous: int, es: seq<Entry>, cs: seq<Entry>, g: Tables,
                    data: seq<Byte>): Outcome<Tables>
    requires WriterOk(w)
  {
    if AllReadable(es)
    then Parsed(PutAll(g, Merge(AllReceived(es), cs)), At(WriteEntries(f, w, previous, es), data))
    else Failed(StringTooLong)
  }

  lemma ExpectedNext(f: Format, w: Writer, previous: int, es: seq<Entry>, cs: seq<Entry>, g: Tables, data: seq<Byte>)
    requires WriterOk(w) && es != [] && Parsable(f, previous, es, cs, g)
    ensures Expected(f, w, previous, es, cs, g, data)
         == if !Readable(es[0].text) then Failed(StringTooLong) else
            Expected(f, WriteEntry(f, w, previous, es[0]), es[0].index, es[1..],
                     Next(g, cs, Received(es[0])).1, Next(g, cs, Received(es[0])).0, data)
  {
    ParsableNext(f, previous, es, cs, g);
    hide WriteEntry, Merge, PutAll, Parsable, Next, AllReceived;
  }

  /** The parser reads exactly the recorded entries and puts the merged list, unless it meets an unreadable one. */
  lemma {:induction false} EntriesReadBack(f: Format, w: Writer, previous: int, es: seq<Entry>, cs: seq<Entry>,
                                           g: Tables, data: seq<Byte>)
    requires WriterOk(w) && Extends(WriteEntries(f, w, previous, es), data)
    requires Parsable(f, previous, es, cs, g)
    ensures Extends(w, data) && ReaderOk(At(w, data))
    ensures ParseEntries(f, |es|, At(w, data), previous, cs, g) == Expected(f, w, previous, es, cs, g, data)
    decreases |es|
  {
    if es == [] {
      ExtendsReader(w, data);
      MergeNothing(cs);
      UnfoldDone(f, At(w, data), previous, cs, g);
    } else {
      hide *;
      hide WriteEntries, Expected, ParseEntries;
      ExpectedNext(f, w, previous, es, cs, g, data);
      ParsableNext(f, previous, es, cs, g);
      var e, next := es[0], Next(g, cs, Received(es[0]));
      WriteEntriesNext(f, w, previous, es);
      EntriesReadBack(f, WriteEntry(f, w, previous, e), e.index, es[1..], next.1, next.0, data);
      EntryReadsBack(f, |es|, w, previous, e, cs, g, data);
    }
  }

  lemma WriteEntriesNext(f: Format, w: Writer, previous: int, es: seq<Entry>)
    requires WriterOk(w) && es != []
    ensures WriterOk(WriteEntry(f, w, previous, es[0]))
    ensures WriteEntries(f, w, previous, es) == WriteEntries(f, WriteEntry(f, w, previous, es[0]), es[0].index, es[1..])
  {
    hide WriteEntry, WriterOk;
  }

  lemma UnfoldDone(f: Format, r: Reader, previous: int, cs: seq<Entry>, g: Tables)
    requires ReaderOk(r) && previous >= -1
    ensures ParseEntries(f, 0, r, previous, cs, g) == Parsed(PutAll(g, cs), r)
  {}

  lemma MergeNothing(cs: seq<Entry>)
    ensures Merge(AllReceived([]), cs) == cs
  {}

  // ------------------------------------------------------------ the whole gamestate

  lemma {:induction false} EntriesAscending(t: Table, base: nat, n: nat)
    requires Valid(t) && n <= MAX_CONFIGSTRINGS && base <= MAX_CONFIGSTRINGS
    ensures Ascending(Entries(t, base, n), base - 1)
    ensures forall k | 0 <= k < |Entries(t, base, n)| :: base <= Entries(t, base, n)[k].index < base + n
  {
    if n > 0 {
      EntriesAscending(t, base, n - 1);
    }
  }

  lemma {:induction false} EntriesFind(t: Table, base: nat, n: nat, i: nat)
    requires Valid(t) && n <= MAX_CONFIGSTRINGS && i < MAX_CONFIGSTRINGS && base <= MAX_CONFIGSTRINGS
    ensures Find(Entries(t, base, n), base + i) == if i < n && t.offsets[i] != 0 then [Get(t, i)] else []
  {
    hide Get, Valid;
    if n > 0 {
      EntriesFind(t, base, n - 1, i);
      if t.offsets[n - 1] != 0 {
        GetIsCString(t, n - 1);
        var e := Entry(base + n - 1, Get(t, n - 1));
        FindInConcat(Entries(t, base, n - 1), [e], base + i);
        FindSingle(e, base + i);
      }
    }
  }

  lemma FindSingle(e: Entry, i: nat)
    ensures Find([e], i) == if e.index == i then [e.text] else []
  {
    assert [e][1..] == [];
  }

  lemma {:induction false} FindInConcat(es: seq<Entry>, more: seq<Entry>, i: nat)
    ensures Find(es + more, i) == if Find(es, i) != [] then Find(es, i) else Find(more, i)
  {
    if es == [] {
      assert es + more == more;
    } else {
      assert (es + more)[1..] == es[1..] + more;
      FindInConcat(es[1..], more, i);
    }
  }

  lemma {:induction false} FindOutside(es: seq<Entry>, i: nat)
    requires forall k | 0 <= k < |es| :: es[k].index != i
    ensures Find(es, i) == []
  {
    if es != [] {
      FindOutside(es[1..], i);
    }
  }

  /** Index `i` has a string of its own in the recorded tables. */
  predicate HasString(f: Format, g: Tables, i: Index) {
    if i < MAX_CONFIGSTRINGS then g.cl.offsets[i] != 0
    else f.Extended? && g.ext.offsets[i - MAX_CONFIGSTRINGS] != 0
  }

  lemma RecordedAscending(f: Format, g: Tables)
    requires ValidTables(g)
    ensures Ascending(Recorded(f, g), -1)
    ensures forall k | 0 <= k < |Recorded(f, g)| :: Recorded(f, g)[k].index < Limit(f)
  {
    hide Entries, Valid;
    EntriesAscending(g.cl, 0, MAX_CONFIGSTRINGS);
    EntriesAscending(g.ext, MAX_CONFIGSTRINGS, MAX_CONFIGSTRINGS);
  }

  lemma RecordedFinds(f: Format, g: Tables, i: Index)
    requires ValidTables(g)
    ensures Find(Recorded(f, g), i) == if HasString(f, g, i) then [GetAny(g, i)] else []
  {
    hide Entries, Get, Valid, Find, Ascending;
    var a := Entries(g.cl, 0, MAX_CONFIGSTRINGS);
    var b := if f.Legacy? then [] else Entries(g.ext, MAX_CONFIGSTRINGS, MAX_CONFIGSTRINGS);
    EntriesAscending(g.cl, 0, MAX_CONFIGSTRINGS);
    EntriesAscending(g.ext, MAX_CONFIGSTRINGS, MAX_CONFIGSTRINGS);
    FindInConcat(a, b, i);
    if i < MAX_CONFIGSTRINGS {
      EntriesFind(g.cl, 0, MAX_CONFIGSTRINGS, i);
      FindOutside(b, i);
    } else {
      FindOutside(a, i);
      EntriesFind(g.ext, MAX_CONFIGSTRINGS, MAX_CONFIGSTRINGS, i - MAX_CONFIGSTRINGS);
      FindOutside([], i);
    }
  }

  /** The recorded list is the tables: ascending, and an entry for every index with a string. */
  lemma RecordedSound(f: Format, g: Tables, i: Index)
    requires ValidTables(g)
    ensures Ascending(Recorded(f, g), -1)
    ensures forall k | 0 <= k < |Recorded(f, g)| :: Recorded(f, g)[k].index < Limit(f)
    ensures Find(Recorded(f, g), i) == if HasString(f, g, i) then [GetAny(g, i)] else []
  {
    hide *;
    RecordedAscending(f, g);
    RecordedFinds(f, g, i);
  }

  lemma {:induction false} FindReceived(es: seq<Entry>, i: nat)
    ensures Find(AllReceived(es), i) == if Find(es, i) != [] then [Clean(Kept(Find(es, i)[0]))] else []
  {
    if es != [] {
      FindReceived(es[1..], i);
    }
  }

  lemma {:induction false} AscendingBounds(es: seq<Entry>, above: int, limit: nat)
    requires Ascending(es, above) && above >= -1 && forall k | 0 <= k < |es| :: es[k].index < limit
    ensures |es| <= limit - above - 1 || es == []
  {
    if |es| > 1 {
      FindAscending(es, above, 0);
      AscendingBounds(es[1..], es[0].index, limit);
    }
  }

  /** The constant strings: sorted, positive, and inside the table. */
  ghost predicate Constants(f: Format, cs: seq<Entry>) {
    cs != [] && Ascending(cs, 0) && forall k | 0 <= k < |cs| :: cs[k].index < Limit(f)
  }

  /** What index `i` holds after parsing: the recorded string, or else the constant, or else what was there. */
  function Override(f: Format, recorded: Tables, cs: seq<Entry>, before: Tables, i: Index): string
    requires ValidTables(recorded)
  {
    if HasString(f, recorded, i) then
      RecordedSound(f, recorded, i);
      Clean(Kept(Find(Recorded(f, recorded), i)[0]))
    else if Find(cs, i) != [] then Find(cs, i)[0]
    else GetAny(before, i)
  }

  /** There is something to record, and the merged strings have room in the tables. */
  ghost predicate CanRoundTrip(f: Format, g: Tables, cs: seq<Entry>, before: Tables) {
    && ValidTables(g) && ValidTables(before) && Constants(f, cs)
    && Recorded(f, g) != []
    && Fits(PutAll(before, Merge(AllReceived(Recorded(f, g)), cs)))
  }

  lemma RecordedParsable(f: Format, g: Tables, cs: seq<Entry>, before: Tables)
    requires CanRoundTrip(f, g, cs, before)
    ensures Parsable(f, -1, Recorded(f, g), cs, before)
    ensures 0 < |Recorded(f, g)| <= Limit(f)
  {
    hide Recorded, Merge, PutAll;
    RecordedSound(f, g, 0);
    AscendingBounds(Recorded(f, g), -1, Limit(f));
  }

  lemma CountReadsBack(f: Format, w: Writer, n: nat, data: seq<Byte>)
    requires WriterOk(w) && n <= Limit(f) && Extends(WriteCount(f, w, n), data)
    ensures Extends(w, data) && ReaderOk(At(w, data))
    ensures (if f.Legacy? then ReadShort(At(w, data)) else ReadLong(At(w, data))) == (n, At(WriteCount(f, w, n), data))
  {
    hide Extends;
    FourBytes();
    if f.Legacy? { NumberReadsBack(w, n, 2, 0x1_0000, data); } else { NumberReadsBack(w, n, 4, 0x1_0000_0000, data); }
    ExtendsReader(w, data);
  }

  lemma MergedGets(f: Format, g: Tables, cs: seq<Entry>, before: Tables, i: Index)
    requires ValidTables(g) && ValidTables(before) && Constants(f, cs)
    ensures var g' := PutAll(before, Merge(AllReceived(Recorded(f, g)), cs));
            ValidTables(g') && GetAny(g', i) == Override(f, g, cs, before, i)
  {
    hide Recorded, Merge, PutAll, GetAny;
    var rs := AllReceived(Recorded(f, g));
    RecordedSound(f, g, i);
    MergeOverrides(rs, cs, -1, i);
    MergeAscending(rs, cs, -1);
    PutAllGets(before, Merge(rs, cs), -1, i);
    FindReceived(Recorded(f, g), i);
  }

  /**
   Recording and then parsing a gamestate, wherever in a message it stands, succeeds exactly
   when no string has the one unreadable length, and then gives the constants overridden by
   what was recorded, on top of what the tables held before.
   */
  lemma RecordThenParse(f: Format, w: Writer, g: Tables, cs: seq<Entry>, before: Tables, data: seq<Byte>, i: Index)
    requires WriterOk(w) && CanRoundTrip(f, g, cs, before) && Extends(Record(f, w, g), data)
    ensures ReaderOk(At(w, data))
    ensures Parse(f, At(w, data), cs, before).Parsed? <==> AllReadable(Recorded(f, g))
    ensures var r := Parse(f, At(w, data), cs, before);
            r.Parsed? ==> && ValidTables(r.value)
                          && r.rest == At(Record(f, w, g), data)
                          && GetAny(r.value, i) == Override(f, g, cs, before, i)
  {
    hide Extends, WriteEntries, WriteCount, Merge, PutAll, ParseEntries, Recorded, Parsable, GetAny, Override, Valid,
      AllReadable;
    var es := Recorded(f, g);
    var w1 := WriteCount(f, w, |es|);
    RecordedParsable(f, g, cs, before);
    EntriesReadBack(f, w1, -1, es, cs, before, data);
    CountReadsBack(f, w, |es|, data);
    MergedGets(f, g, cs, before, i);
  }

  // ------------------------------------------------------------ the loops

  lemma {:induction false} WriteEntriesAppend(f: Format, w: Writer, previous: int, es: seq<Entry>, e: Entry)
    requires WriterOk(w)
    ensures WriteEntries(f, w, previous, es + [e])
         == WriteEntry(f, WriteEntries(f, w, previous, es), if es == [] then previous else es[|es| - 1].index, e)
    decreases |es|
  {
    if es == [] {
      assert es + [e] == [e];
    } else {
      assert (es + [e])[1..] == es[1..] + [e];
      WriteEntriesAppend(f, WriteEntry(f, w, previous, es[0]), es[0].index, es[1..], e);
    }
  }

  /** Writes the strings of one table behind the entries `done`, which are already in the message. */
  method RecordTable(f: Format, ghost start: Writer, w0: Writer, t: Table, base: nat, done: seq<Entry>)
    returns (w: Writer, es: seq<Entry>)
    requires WriterOk(start) && WriterOk(w0) && w0 == WriteEntries(f, start, -1, done)
    requires Valid(t) && base <= MAX_CONFIGSTRINGS
    ensures es == done + Entries(t, base, MAX_CONFIGSTRINGS)
    ensures w == WriteEntries(f, start, -1, es)
  {
    hide WriteEntries, WriteEntry, Valid, Get, WriterOk;
    w, es := w0, done;
    var previousIndex := if done == [] then -1 else done[|done| - 1].index;
    for i := 0 to MAX_CONFIGSTRINGS
      invariant es == done + Entries(t, base, i)
      invariant WriterOk(w) && w == WriteEntries(f, start, -1, es)
      invariant previousIndex == if es == [] then -1 else es[|es| - 1].index
    {
      if t.offsets[i] == 0 {
        continue;
      }
      GetIsCString(t, i);
      var e := Entry(base + i, Get(t, i));
      WriteEntriesAppend(f, start, -1, es, e);
      w := WriteEntry(f, w, previousIndex, e);
      assert Entries(t, base, i + 1) == Entries(t, base, i) + [e];
      es := es + [e];
      previousIndex := e.index;
    }
  }

  /** Counts the strings of one table. */
  method CountStrings(t: Table, base: nat) returns (n: nat)
    requires Valid(t) && base <= MAX_CONFIGSTRINGS
    ensures n == |Entries(t, base, MAX_CONFIGSTRINGS)|
  {
    n := 0;
    for i := 0 to MAX_CONFIGSTRINGS
      invariant n == |Entries(t, base, i)|
    {
      if t.offsets[i] != 0 {
        n := n + 1;
      }
    }
  }

  lemma NothingWritten(f: Format, w: Writer)
    requires WriterOk(w)
    ensures WriteEntries(f, w, -1, []) == w
  {}

  /** The recording loops: count, then write every string that is there. */
  method RecordGameState(f: Format, start: Writer, g: Tables) returns (w: Writer)
    requires WriterOk(start) && ValidTables(g)
    ensures w == Record(f, start, g)
  {
    hide Valid, Entries, WriteCount, WriteEntries, WriterOk;
    var n := CountStrings(g.cl, 0);
    if f.Extended? {
      var m := CountStrings(g.ext, MAX_CONFIGSTRINGS);
      n := n + m;
    }
    var es: seq<Entry> := [];
    var counted := WriteCount(f, start, n);
    NothingWritten(f, counted);
    w, es := RecordTable(f, counted, counted, g.cl, 0, []);
    assert es == Entries(g.cl, 0, MAX_CONFIGSTRINGS);
    if f.Extended? {
      w, es := RecordTable(f, counted, w, g.ext, MAX_CONFIGSTRINGS, es);
    }
    assert es == Recorded(f, g);
  }

  lemma ReadIndexAbove(f: Format, r: Reader, previous: int)
    requires ReaderOk(r) && ReadIndex(f, r, previous).Parsed?
    ensures ReadIndex(f, r, previous).value > previous
  {}
}
