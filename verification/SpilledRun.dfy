/**
 A game whose record is refused: one gamestate points an index at the beginning of the second
 heap, the next is refused for the length of a string that stands there by then, and the third
 leaves the index out.
 */
module SpilledRun {
  import opened Common
  import opened Message
  import opened GameState
  import opened GameStateMessage
  import opened GameStateParser
  import opened StaleStrings
  import opened HeapText
  import opened ConfigStringHistory

  // ------------------------------------------------------------ constants of the first table

  ghost predicate FirstOnly(es: seq<Entry>) { forall k | 0 <= k < |es| :: es[k].index < MAX_CONFIGSTRINGS }

  /** What the entries of the first table take in its heap. */
  function FirstSize(es: seq<Entry>): nat {
    if es == [] then 0
    else (if es[0].index < MAX_CONFIGSTRINGS then |es[0].text| + 1 else 0) + FirstSize(es[1..])
  }

  /** Constants as the program has them, and room for one short string more. */
  ghost predicate Roomy(cs: seq<Entry>) {
    && Ascending(cs, 0) && FirstOnly(cs) && StorableEntries(cs)
    && FirstSize(cs) + 3 <= MAX_GAMESTATE_CHARS
  }

  lemma {:induction false} PutAllSize(g: Tables, es: seq<Entry>)
    ensures |PutAll(g, es).cl.data| == |g.cl.data| + FirstSize(es)
    decreases |es|
  {
    if es != [] {
      PutAllSize(PutAny(g, es[0].index, es[0].text), es[1..]);
    }
  }

  lemma {:induction false} CopyBelowSize(g: Tables, cs: seq<Entry>, index: nat)
    ensures |CopyBelow(g, cs, index).0.cl.data| <= |g.cl.data| + FirstSize(cs)
    decreases |cs|
  {
    if cs != [] && cs[0].index < index {
      CopyBelowSize(PutAny(g, cs[0].index, cs[0].text), cs[1..], index);
    }
  }

  lemma FirstSizeCons(e: Entry, rest: seq<Entry>)
    ensures FirstSize([e] + rest) == FirstSize([e]) + FirstSize(rest)
  {
    assert ([e] + rest)[1..] == rest && [e][1..] == [];
  }

  lemma {:induction false} MergeSize(e: Entry, cs: seq<Entry>)
    ensures FirstSize(Merge([e], cs)) <= FirstSize([e]) + FirstSize(cs)
    decreases |cs|
  {
    var es := [e];
    assert es[1..] == [];
    if cs != [] {
      assert cs == [cs[0]] + cs[1..];
      FirstSizeCons(cs[0], cs[1..]);
      if e.index < cs[0].index {
        FirstSizeCons(e, cs);
      } else if e.index == cs[0].index {
        FirstSizeCons(e, cs[1..]);
      } else {
        FirstSizeCons(cs[0], Merge(es, cs[1..]));
        MergeSize(e, cs[1..]);
      }
    }
  }

  lemma {:induction false} FirstKeepsSecond(g: Tables, cs: seq<Entry>, index: nat)
    requires FirstOnly(cs)
    ensures PutAll(g, cs).ext == g.ext
    ensures CopyBelow(g, cs, index).0.ext == g.ext && FirstOnly(CopyBelow(g, cs, index).1)
    decreases |cs|
  {
    if cs != [] {
      FirstKeepsSecond(PutAny(g, cs[0].index, cs[0].text), cs[1..], index);
    }
  }

  /** One entry among the constants: what becomes of the second table. */
  lemma SecondAfter(g: Tables, e: Entry, cs: seq<Entry>)
    requires FirstOnly(cs)
    ensures PutAll(g, Merge([e], cs)).ext ==
            if e.index < MAX_CONFIGSTRINGS then g.ext else Put(g.ext, e.index - MAX_CONFIGSTRINGS, e.text)
  {
    hide PutAll, CopyBelow;
    NextMerges(g, [e], cs);
    FirstKeepsSecond(g, cs, e.index);
    var (g', cs') := Next(g, cs, e);
    assert [e][1..] == [] && Merge([], cs') == cs';
    FirstKeepsSecond(g', cs', 0);
  }

  // ------------------------------------------------------------ gamestates of one string

  const NOTHING := Writer([], 0)

  function MessageOf(e: Entry): (w: Writer)
    ensures WriterOk(w)
  {
    WriteEntries(Extended, WriteCount(Extended, NOTHING, 1), -1, [e])
  }

  function ReaderOf(e: Entry): Reader { At(NOTHING, MessageOf(e).data) }

  function Sent(e: Entry, cs: seq<Entry>): Happening { Gamestate(Extended, [ReaderOf(e)], cs, true) }

  lemma MessageWritten(e: Entry)
    ensures WriterOk(WriteEntry(Extended, WriteCount(Extended, NOTHING, 1), -1, e))
    ensures MessageOf(e) == WriteEntry(Extended, WriteCount(Extended, NOTHING, 1), -1, e)
  {
    hide WriteEntry, WriteCount;
    assert [e][1..] == [];
    var w := WriteEntry(Extended, WriteCount(Extended, NOTHING, 1), -1, e);
    assert WriteEntries(Extended, w, e.index, []) == w;
  }

  /** The parser reads the count, and then the one entry. */
  lemma OneEntry(e: Entry, cs: seq<Entry>, g: Tables)
    requires e.index < Limit(Extended)
    requires Used(CopyBelow(g, cs, e.index).0, e.index) + |Kept(e.text)| < MAX_GAMESTATE_CHARS
    ensures ReaderOk(ReaderOf(e)) && ReaderOk(At(MessageOf(e), MessageOf(e).data))
    ensures var below := CopyBelow(g, cs, e.index).0;
            PartLeaves(Extended, ReaderOf(e), cs, g) ==
              if Readable(e.text) then
                Left(PutAll(Next(g, cs, Received(e)).0, Next(g, cs, Received(e)).1), None,
                     At(MessageOf(e), MessageOf(e).data), false)
              else
                Left(SpillAny(below, e.index, Received(e).text), Some(StringTooLong),
                     At(WriteCount(Extended, NOTHING, 1), MessageOf(e).data), e.index >= MAX_CONFIGSTRINGS)
  {
    hide Extends, WriteEntry, WriteCount, CopyBelow, Next, PutAll, SpillAny, Clean, ReadLong;
    var counted, data := WriteCount(Extended, NOTHING, 1), MessageOf(e).data;
    MessageWritten(e);
    ExtendsSelf(MessageOf(e));
    EntryLeaves(Extended, 1, counted, -1, e, cs, g, data);
    CountReadsBack(Extended, NOTHING, 1, data);
    assert PartLeaves(Extended, ReaderOf(e), cs, g) == ParseLeaves(Extended, 1, At(counted, data), -1, cs, g);
    if Readable(e.text) {
      LeavesDone(At(MessageOf(e), data), e.index, Next(g, cs, Received(e)).1, Next(g, cs, Received(e)).0);
    }
  }

  lemma LeavesDone(r: Reader, previous: int, cs: seq<Entry>, g: Tables)
    requires ReaderOk(r) && previous >= -1
    ensures ParseLeaves(Extended, 0, r, previous, cs, g) == Left(PutAll(g, cs), None, r, false)
  {}

  lemma NextIsMerged(g: Tables, e: Entry, cs: seq<Entry>)
    ensures PutAll(Next(g, cs, e).0, Next(g, cs, e).1) == PutAll(g, Merge([e], cs))
  {
    hide PutAll, Next;
    NextMerges(g, [e], cs);
    var cs' := Next(g, cs, e).1;
    assert [e][1..] == [] && Merge([], cs') == cs';
  }

  lemma BelowSizes(g: Tables, cs: seq<Entry>, index: Index)
    requires Roomy(cs) && g.cl == EMPTY && |g.ext.data| == 1
    ensures Used(CopyBelow(g, cs, index).0, index) + 2 <= MAX_GAMESTATE_CHARS
    ensures index >= MAX_CONFIGSTRINGS ==> Used(CopyBelow(g, cs, index).0, index) == 1
  {
    hide CopyBelow;
    CopyBelowSize(g, cs, index);
    FirstKeepsSecond(g, cs, index);
  }

  lemma ShortIsReceived(e: Entry)
    requires e.text == "x"
    ensures Received(e) == e && Readable(e.text) && |Kept(e.text)| == 1
  {}

  /** A gamestate with one short string is accepted, and adds at most that string to the second table. */
  lemma ShortIsPlayed(c: Client, e: Entry, cs: seq<Entry>)
    requires ValidTables(c.tables) && Roomy(cs) && e.text == "x" && e.index < Limit(Extended)
    ensures Possible(c, Sent(e, cs)) && After(c, Sent(e, cs)).playing
    ensures var start := Reset(c.tables.ext.offsets);
            After(c, Sent(e, cs)).tables.ext == Filled(
              if e.index < MAX_CONFIGSTRINGS then start else Put(start, e.index - MAX_CONFIGSTRINGS, "x"),
              c.tables.ext.data)
  {
    hide CopyBelow, PutAll, PartLeaves, Next, Received, Valid, Filled, Put, MessageOf;
    var g := Started(Extended, c);
    ShortIsReceived(e);
    BelowSizes(g, cs, e.index);
    OneEntry(e, cs, g);
    NextIsMerged(g, e, cs);
    SecondAfter(g, e, cs);
    PutAllSize(g, Merge([e], cs));
    MergeSize(e, cs);
    assert FirstSize([e]) <= 2 by { FirstSizeCons(e, []); }
    PutGrows(g.ext, if e.index < MAX_CONFIGSTRINGS then 0 else e.index - MAX_CONFIGSTRINGS);
    OneLeaves(c, ReaderOf(e), cs);
  }

  lemma PutGrows(t: Table, i: nat)
    requires i < MAX_CONFIGSTRINGS
    ensures |Put(t, i, "x").data| == |t.data| + 2
  {}

  /** A gamestate of one part leaves what the part does. */
  lemma OneLeaves(c: Client, r: Reader, cs: seq<Entry>)
    requires ReaderOk(r)
    ensures ReadersOk([r])
    ensures GamestateLeaves(Extended, [r], cs, c) == PartLeaves(Extended, r, cs, Started(Extended, c))
  {
    hide PartLeaves, Started;
    var left := PartLeaves(Extended, r, cs, Started(Extended, c));
    assert [r][1..] == [] && PartsLeave(Extended, [], cs, left) == left;
  }

  const LONG := Letters(BIG_INFO_STRING - 1)

  lemma LongIsSpilled(e: Entry)
    requires e.text == LONG
    ensures Received(e).text == LONG && !Readable(e.text) && |Kept(e.text)| == BIG_INFO_STRING - 1
  {
    assert forall k | 0 <= k < |LONG| :: LONG[k] == 'x';
  }

  /** A gamestate with the one length is refused, and its string stands at the beginning of the second heap. */
  lemma LongIsRefused(c: Client, e: Entry, cs: seq<Entry>)
    requires ValidTables(c.tables) && Roomy(cs) && e.text == LONG && MAX_CONFIGSTRINGS <= e.index < Limit(Extended)
    ensures Possible(c, Sent(e, cs)) && !After(c, Sent(e, cs)).playing && After(c, Sent(e, cs)).spilled
    ensures After(c, Sent(e, cs)).tables.ext == Filled(Spilled(Reset(c.tables.ext.offsets), LONG), c.tables.ext.data)
  {
    hide CopyBelow, PartLeaves, Next, Received, Valid, Filled, MessageOf, Letters;
    var g := Started(Extended, c);
    LongIsSpilled(e);
    BelowSizes(g, cs, e.index);
    OneEntry(e, cs, g);
    CopyBelowSize(g, cs, e.index);
    FirstKeepsSecond(g, cs, e.index);
    OneLeaves(c, ReaderOf(e), cs);
  }

  // ------------------------------------------------------------ the run

  /** The index of the second table that the run is about. */
  const FIRST: Index := MAX_CONFIGSTRINGS

  /** What stands at the beginning of a heap is read from offset one, after a further reset too. */
  lemma LongIsRead(t: Table, memory: Memory)
    requires t.offsets[0] == 1
    ensures var once := Filled(Spilled(Reset(t.offsets), LONG), memory);
            Get(Filled(Reset(once.offsets), once.data), 0) == LONG
  {
    hide Letters, CStr;
    var data := ['\0'] + LONG + ['\0'];
    var once := Over(data, memory);
    assert once[0] == '\0' && ['\0'] + once[1..] == once && Over(['\0'], once) == once;
    NothingHeld(1);
    AppendedReads(['\0'], LONG, 1);
    CStrOver(data, memory, 1);
    assert LONG[0..] == LONG;
  }

  lemma {:induction false} FindUnreadable(es: seq<Entry>, i: nat)
    requires Find(es, i) != [] && !Readable(Find(es, i)[0])
    ensures !AllReadable(es)
  {
    if es[0].index != i {
      FindUnreadable(es[1..], i);
    }
  }

  lemma LongIsUnreadable(g: Tables)
    requires ValidTables(g) && Get(g.ext, 0) == LONG && g.ext.offsets[0] != 0
    ensures !AllReadable(Recorded(Extended, g))
  {
    hide Valid, Recorded, Get, Letters;
    RecordedFinds(Extended, g, FIRST);
    FindUnreadable(Recorded(Extended, g), FIRST);
  }

  /**
   Three gamestates from the start: the game goes on with a string that is recorded in full, and
   the record is refused.
   */
  lemma RecordIsRefused(cs: seq<Entry>)
    returns (hs: seq<Happening>, c: Client)
    requires Roomy(cs)
    ensures |hs| == 3 && (forall k | 0 <= k < 3 :: hs[k].Gamestate? && hs[k].constants == cs && hs[k].complete)
    ensures Leads(START, hs, c) && c.playing && ValidTables(c.tables)
    ensures |GetAny(c.tables, FIRST)| == 8191 && !AllReadable(Recorded(Extended, c.tables))
  {
    hide Possible, After, Valid, Filled, Put, Letters, MessageOf, Stored;
    var a, b, e := Entry(FIRST, "x"), Entry(FIRST + 1, LONG), Entry(0, "x");
    StartStored();
    StoredIsValid(START);
    ShortIsPlayed(START, a, cs);
    var c1 := After(START, Sent(a, cs));
    StartOffsets(c1);
    PlayedStored(START, a, cs);
    LongIsRefused(c1, b, cs);
    var c2 := After(c1, Sent(b, cs));
    PlayedStored(c1, b, cs);
    ShortIsPlayed(c2, e, cs);
    c := After(c2, Sent(e, cs));
    PlayedStored(c2, e, cs);
    StoredHeap(c1);
    LongIsRead(c1.tables.ext, c1.tables.ext.data);
    KeptOffset(c1, c2, c);
    LongIsUnreadable(c.tables);
    hs := [Sent(a, cs), Sent(b, cs), Sent(e, cs)];
    ThreeLead(hs, c1, c2, c);
  }

  lemma StartOffsets(c: Client)
    requires c.tables.ext == Filled(Put(Reset(START.tables.ext.offsets), 0, "x"), START.tables.ext.data)
    ensures c.tables.ext.offsets[0] == 1
  {}

  lemma KeptOffset(c1: Client, c2: Client, c: Client)
    requires c2.tables.ext == Filled(Spilled(Reset(c1.tables.ext.offsets), LONG), c1.tables.ext.data)
    requires c.tables.ext == Filled(Reset(c2.tables.ext.offsets), c2.tables.ext.data)
    ensures c.tables.ext.offsets == c1.tables.ext.offsets
  {}

  lemma StoredIsValid(c: Client)
    requires Stored(c)
    ensures ValidTables(c.tables)
  {}

  lemma StoredHeap(c: Client)
    requires Stored(c)
    ensures var m := c.tables.ext.data;
            |m| == MAX_GAMESTATE_CHARS && m[0] == '\0' == m[MAX_GAMESTATE_CHARS - 1] && OneByteText(m)
  {}

  lemma PlayedStored(c: Client, e: Entry, cs: seq<Entry>)
    requires Stored(c) && Possible(c, Sent(e, cs))
    ensures ValidTables(c.tables) && Stored(After(c, Sent(e, cs))) && ValidTables(After(c, Sent(e, cs)).tables)
  {
    StoredIsValid(c);
    GamestateStored(c, Sent(e, cs));
    StoredIsValid(After(c, Sent(e, cs)));
  }

  lemma ThreeLead(hs: seq<Happening>, c1: Client, c2: Client, c3: Client)
    requires |hs| == 3 && ValidTables(START.tables) && ValidTables(c1.tables) && ValidTables(c2.tables)
    requires Possible(START, hs[0]) && c1 == After(START, hs[0])
    requires Possible(c1, hs[1]) && c2 == After(c1, hs[1])
    requires Possible(c2, hs[2]) && c3 == After(c2, hs[2])
    ensures Leads(START, hs, c3)
  {
    hide Possible, After, Valid;
    assert hs[1..][0] == hs[1] && hs[1..][1..][0] == hs[2] && hs[1..][1..][1..] == [];
    assert Leads(c2, hs[1..][1..], c3);
    assert Leads(c1, hs[1..], c3);
  }
}
