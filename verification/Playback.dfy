/**
 Recording the configstrings at any time of a game and playing the record back on any client,
 and the one way in which that fails.
 */
module Playback {
  import opened Common
  import opened Message
  import opened GameState
  import opened GameStateMessage
  import opened GameStateParser
  import opened StaleStrings
  import opened HeapText
  import opened ConfigStringHistory

  // ------------------------------------------------------------ what is recorded

  ghost predicate HoldableEntries(es: seq<Entry>, limit: nat) {
    forall k | 0 <= k < |es| :: Holdable(es[k].text, limit)
  }

  lemma {:induction false} EntriesHoldable(t: Table, base: nat, n: nat, limit: nat)
    requires Valid(t) && n <= MAX_CONFIGSTRINGS && base <= MAX_CONFIGSTRINGS && Holds(t.data, limit) && limit > 0
    ensures HoldableEntries(Entries(t, base, n), limit)
  {
    hide Valid, Get, Holds, Holdable;
    if n > 0 {
      EntriesHoldable(t, base, n - 1, limit);
      GetIsCString(t, n - 1);
      GetHoldable(t, limit, n - 1);
    }
  }

  lemma RecordedHoldable(f: Format, g: Tables, limit: nat)
    requires ValidTables(g) && Holds(g.cl.data, limit) && (f.Extended? ==> Holds(g.ext.data, limit)) && limit > 0
    ensures HoldableEntries(Recorded(f, g), limit)
  {
    hide Valid, Holds, Holdable, Entries;
    EntriesHoldable(g.cl, 0, MAX_CONFIGSTRINGS, limit);
    if f.Extended? { EntriesHoldable(g.ext, MAX_CONFIGSTRINGS, MAX_CONFIGSTRINGS, limit); }
  }

  lemma HoldableIsReceived(e: Entry)
    requires Holdable(e.text, RECORDED)
    ensures Received(e) == e && (Holdable(e.text, ACCEPTED) ==> Readable(e.text))
  {}

  lemma AllAreReceived(es: seq<Entry>)
    requires HoldableEntries(es, RECORDED)
    ensures AllReceived(es) == es
  {
    hide Received, Holdable;
    forall k | 0 <= k < |es|
      ensures AllReceived(es)[k] == es[k]
    {
      HoldableIsReceived(es[k]);
    }
  }

  lemma {:induction false} AcceptedReadable(es: seq<Entry>)
    requires HoldableEntries(es, ACCEPTED)
    ensures AllReadable(es)
  {
    if es != [] {
      HoldableIsReceived(es[0]);
      AcceptedReadable(es[1..]);
    }
  }

  /** The record of a game holds the very strings, and the parser accepts them unless one was spilled. */
  lemma GameRecords(f: Format, c: Client)
    requires Stored(c)
    ensures AllReceived(Recorded(f, c.tables)) == Recorded(f, c.tables)
    ensures c.playing && (f.Extended? ==> !c.spilled) ==> AllReadable(Recorded(f, c.tables))
  {
    hide Valid, Holds, HoldableEntries, Recorded, AllReadable;
    var g := c.tables;
    HoldsLonger(g.cl.data, if c.playing then ACCEPTED else RECORDED, RECORDED);
    HoldsLonger(g.ext.data, LimitOf(c), RECORDED);
    RecordedHoldable(f, g, RECORDED);
    AllAreReceived(Recorded(f, g));
    if c.playing && (f.Extended? ==> !c.spilled) {
      RecordedHoldable(f, g, ACCEPTED);
      AcceptedReadable(Recorded(f, g));
    }
  }

  // ------------------------------------------------------------ playing it back

  /** Tables with the same data behave alike, but for the offsets nothing is put at. */
  function OffsetAt(g: Tables, i: Index): nat {
    if i < MAX_CONFIGSTRINGS then g.cl.offsets[i] else g.ext.offsets[i - MAX_CONFIGSTRINGS]
  }

  lemma {:induction false} TwinsPutAlike(g: Tables, t: Tables, es: seq<Entry>, i: Index)
    requires g.cl.data == t.cl.data && g.ext.data == t.ext.data
    ensures var g', t' := PutAll(g, es), PutAll(t, es);
            && g'.cl.data == t'.cl.data && g'.ext.data == t'.ext.data
            && (Find(es, i) != [] || OffsetAt(g, i) == OffsetAt(t, i) ==> OffsetAt(g', i) == OffsetAt(t', i))
    decreases |es|
  {
    if es != [] {
      var e := es[0];
      TwinsPutAlike(PutAny(g, e.index, e.text), PutAny(t, e.index, e.text), es[1..], i);
    }
  }

  /** Well-formed tables with the data a gamestate starts from. */
  function Twin(f: Format, d: Client): Tables {
    Tables(EMPTY, if f.Legacy? then d.tables.ext else EMPTY)
  }

  lemma StartsLikeTwin(f: Format, d: Client)
    requires Stored(d)
    ensures ValidTables(Twin(f, d))
    ensures Started(f, d).cl == Twin(f, d).cl && Started(f, d).ext.data == Twin(f, d).ext.data
    ensures f.Legacy? ==> Started(f, d) == Twin(f, d)
  {}

  /** A string that can be reached in well-formed data is read the same out of the whole heap. */
  lemma ReachedReads(t: Table, twin: Table, memory: Memory, i: nat)
    requires i < MAX_CONFIGSTRINGS && Valid(twin) && t.data == twin.data && t.offsets[i] == twin.offsets[i]
    ensures Get(Filled(t, memory), i) == Get(twin, i)
  {
    assert InHeap(twin, i);
    CStrOver(t.data, memory, t.offsets[i]);
  }

  /** What index `i` shows after a gamestate with the strings `es` was played on client `d`. */
  function Shown(f: Format, es: seq<Entry>, d: Client, data: string, i: Index): string {
    if Find(es, i) != [] then Find(es, i)[0]
    else if i < MAX_CONFIGSTRINGS then ""
    else if f.Legacy? then GetAny(d.tables, i)
    else
      var o := d.tables.ext.offsets[i - MAX_CONFIGSTRINGS];
      if o == 0 then "" else if o < |data| then CStr(data, o) else CStr(d.tables.ext.data, o)
  }

  lemma FoundShows(f: Format, d: Client, es: seq<Entry>, i: Index)
    requires Stored(d) && Ascending(es, -1) && Fits(PutAll(Started(f, d), es))
    requires Find(es, i) != [] || i < MAX_CONFIGSTRINGS || f.Legacy?
    ensures var r := PutAll(Started(f, d), es);
            GetAny(InMemory(r, d), i) == Shown(f, es, d, r.ext.data, i)
  {
    hide Stored, Valid, PutAll, Get, Filled;
    var start, twin := Started(f, d), Twin(f, d);
    StartsLikeTwin(f, d);
    TwinsPutAlike(start, twin, es, i);
    PutAllGets(twin, es, -1, i);
    var r, t := PutAll(start, es), PutAll(twin, es);
    assert OffsetAt(start, i) == OffsetAt(twin, i) || Find(es, i) != [];
    StoredMemory(d);
    if i < MAX_CONFIGSTRINGS {
      ReachedReads(r.cl, t.cl, BLANK, i);
      EmptyGets(i);
    } else {
      ReachedReads(r.ext, t.ext, d.tables.ext.data, i - MAX_CONFIGSTRINGS);
    }
  }

  lemma EmptyGets(i: nat)
    requires i < MAX_CONFIGSTRINGS
    ensures Get(EMPTY, i) == ""
  {}

  lemma StoredMemory(d: Client)
    requires Stored(d)
    ensures var m := d.tables.ext.data;
            |m| == MAX_GAMESTATE_CHARS && m[0] == '\0' == m[MAX_GAMESTATE_CHARS - 1] && OneByteText(m)
    ensures forall i: nat | i < MAX_CONFIGSTRINGS :: d.tables.ext.offsets[i] < MAX_GAMESTATE_CHARS
  {
    forall i: nat | i < MAX_CONFIGSTRINGS
      ensures d.tables.ext.offsets[i] < MAX_GAMESTATE_CHARS
    {
      assert InHeap(d.tables.ext, i);
    }
  }

  lemma EntriesShow(f: Format, d: Client, es: seq<Entry>, i: Index)
    requires Stored(d) && Ascending(es, -1) && Fits(PutAll(Started(f, d), es))
    ensures var r := PutAll(Started(f, d), es);
            GetAny(InMemory(r, d), i) == Shown(f, es, d, r.ext.data, i)
  {
    if Find(es, i) == [] && i >= MAX_CONFIGSTRINGS && f.Extended? {
      hide Stored, PutAll, Filled, CStr;
      StoredMemory(d);
      MissingReads(EMPTY, d.tables.ext.offsets, d.tables.ext.data, es, i - MAX_CONFIGSTRINGS);
    } else {
      hide *;
      FoundShows(f, d, es, i);
    }
  }

  /** There is something to record, and the merged strings have room on client `d`. */
  ghost predicate CanPlay(f: Format, c: Client, cs: seq<Entry>, d: Client)
    requires ValidTables(c.tables)
  {
    && Recorded(f, c.tables) != [] && Constants(f, cs) && StorableEntries(cs)
    && Fits(PutAll(Started(f, d), Merge(Recorded(f, c.tables), cs)))
  }

  lemma PlayedParses(f: Format, w: Writer, c: Client, cs: seq<Entry>, d: Client, data: seq<Byte>)
    requires Stored(c) && CanPlay(f, c, cs, d) && WriterOk(w) && Extends(Record(f, w, c.tables), data)
    ensures ReaderOk(At(w, data))
    ensures Parse(f, At(w, data), cs, Started(f, d)) ==
            if AllReadable(Recorded(f, c.tables)) then
              Parsed(PutAll(Started(f, d), Merge(Recorded(f, c.tables), cs)), At(Record(f, w, c.tables), data))
            else Failed(StringTooLong)
  {
    GameRecords(f, c);
    hide Extends, WriteEntries, WriteCount, Merge, PutAll, ParseEntries, Recorded, Stored, AllReadable, Started, Valid;
    var es := Recorded(f, c.tables);
    RecordedSound(f, c.tables, 0);
    AscendingBounds(es, -1, Limit(f));
    EntriesReadBack(f, WriteCount(f, w, |es|), -1, es, cs, Started(f, d), data);
    CountReadsBack(f, w, |es|, data);
  }

  /** One part, which is accepted, is all that the gamestate leaves. */
  lemma OnePart(f: Format, r: Reader, cs: seq<Entry>, d: Client, g: Tables, rest: Reader)
    requires ReaderOk(r) && Parse(f, r, cs, Started(f, d)) == Parsed(g, rest)
    ensures ReadersOk([r])
    ensures var left := GamestateLeaves(f, [r], cs, d); left.tables == g && left.error.None?
  {
    hide PartLeaves, Parse, Started;
    PartAgrees(f, r, cs, Started(f, d));
    var left := PartLeaves(f, r, cs, Started(f, d));
    assert [r][1..] == [] && PartsLeave(f, [], cs, left) == left;
    assert PartsLeave(f, [r], cs, Left(Started(f, d), None, Reader([], 0, 0), false)) == left;
  }

  /**
   Whatever happened to the recording client and to the one that plays, in both formats and wherever
   in a message: the record is accepted exactly when no string has the one length that is recorded and
   refused, and then every string is shown as it was.  A game in which no string was refused for its
   length, since the second heap was last rebuilt, is always accepted.
   */
  lemma GameRecordsAndPlays(hs: seq<Happening>, c: Client, hs': seq<Happening>, d: Client, f: Format, w: Writer,
                            cs: seq<Entry>, data: seq<Byte>, i: Index)
    requires Leads(START, hs, c) && Leads(START, hs', d) && ValidTables(c.tables)
    requires CanPlay(f, c, cs, d) && WriterOk(w) && Extends(Record(f, w, c.tables), data)
    ensures ReaderOk(At(w, data)) && ValidTables(d.tables)
    ensures Parse(f, At(w, data), cs, Started(f, d)).Parsed? <==> AllReadable(Recorded(f, c.tables))
    ensures c.playing && (f.Extended? ==> !c.spilled) ==> AllReadable(Recorded(f, c.tables))
    ensures AllReadable(Recorded(f, c.tables)) ==>
      var h := Gamestate(f, [At(w, data)], cs, true);
      && Possible(d, h) && After(d, h).playing
      && (HasString(f, c.tables, i) ==> GetAny(After(d, h).tables, i) == GetAny(c.tables, i))
      && GetAny(After(d, h).tables, i) == Shown(f, Merge(Recorded(f, c.tables), cs), d,
           PutAll(Started(f, d), Merge(Recorded(f, c.tables), cs)).ext.data, i)
  {
    StartStored();
    LeadsStored(START, hs, c);
    LeadsStored(START, hs', d);
    PlayedParses(f, w, c, cs, d, data);
    GameRecords(f, c);
    if AllReadable(Recorded(f, c.tables)) {
      PlayedShows(f, w, c, cs, d, data, i);
    }
  }

  lemma PlayedShows(f: Format, w: Writer, c: Client, cs: seq<Entry>, d: Client, data: seq<Byte>, i: Index)
    requires Stored(c) && Stored(d) && CanPlay(f, c, cs, d) && WriterOk(w) && ReaderOk(At(w, data))
    requires Parse(f, At(w, data), cs, Started(f, d)) ==
             Parsed(PutAll(Started(f, d), Merge(Recorded(f, c.tables), cs)), At(Record(f, w, c.tables), data))
    ensures var h := Gamestate(f, [At(w, data)], cs, true);
      && Possible(d, h) && After(d, h).playing
      && (HasString(f, c.tables, i) ==> GetAny(After(d, h).tables, i) == GetAny(c.tables, i))
      && GetAny(After(d, h).tables, i) == Shown(f, Merge(Recorded(f, c.tables), cs), d,
           PutAll(Started(f, d), Merge(Recorded(f, c.tables), cs)).ext.data, i)
  {
    var es := Recorded(f, c.tables);
    var all := Merge(es, cs);
    hide Parse, PutAll, Merge, Recorded, Record, GetAny, Shown, GamestateLeaves, Valid, Holds, Started;
    OnePart(f, At(w, data), cs, d, PutAll(Started(f, d), all), At(Record(f, w, c.tables), data));
    RecordedSound(f, c.tables, i);
    MergeAscending(es, cs, -1);
    MergeOverrides(es, cs, -1, i);
    EntriesShow(f, d, all, i);
    if HasString(f, c.tables, i) { FoundIsShown(f, all, d, PutAll(Started(f, d), all).ext.data, i); }
  }

  lemma FoundIsShown(f: Format, es: seq<Entry>, d: Client, data: string, i: Index)
    requires Find(es, i) != []
    ensures Shown(f, es, d, data, i) == Find(es, i)[0]
  {}
}
