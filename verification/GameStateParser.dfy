/**
 Parsing the configstrings of a gamestate in place.  A message that is refused leaves behind
 what was stored before, and a string refused for its length stands in the heap already.
 */
module GameStateParser {
  import opened Common
  import opened Message
  import opened GameState
  import opened GameStateMessage
  import opened ConfigStrings

  /** The tables as parsing leaves them; `spilled` tells of a refused string in the heap of the second one. */
  datatype Left = Left(tables: Tables, error: Option<Error>, rest: Reader, spilled: bool)

  /** `s` stands behind the data, and no index leads to it. */
  function Spilled(t: Table, s: CString): Table { Table(t.offsets, t.data + s + ['\0']) }

  function SpillAny(g: Tables, i: Index, s: CString): Tables {
    if i < MAX_CONFIGSTRINGS then g.(cl := Spilled(g.cl, s)) else g.(ext := Spilled(g.ext, s))
  }

  function Refused(g: Tables, e: Error, r: Reader): Left { Left(g, Some(e), r, false) }

  function ParseLeaves(f: Format, k: nat, r: Reader, previous: int, cs: seq<Entry>, g: Tables): Left
    requires ReaderOk(r) && previous >= -1
    decreases k
  {
    if k == 0 then Left(PutAll(g, cs), None, r, false)
    else
      match ReadIndex(f, r, previous)
      case Failed(e) => Refused(g, e, r)
      case Parsed(index, r1) =>
        if index >= Limit(f) then Refused(g, IndexOutOfRange, r)
        else
          ReadIndexOk(f, r, previous);
          var below := CopyBelow(g, cs, index).0;
          var room := Room(below, index);
          var (s, r2) := ReadString(r1, room);
          if |s| + 1 >= BIG_INFO_STRING then
            Left(SpillAny(below, index, s), Some(StringTooLong), r, index >= MAX_CONFIGSTRINGS)
          else
            ReadStringOk(r1, room);
            var (g', cs') := Next(g, cs, Entry(index, s));
            ParseLeaves(f, k - 1, r2, index, cs', g')
  }

  /** What the configstring part of a gamestate leaves. */
  function PartLeaves(f: Format, r: Reader, cs: seq<Entry>, g: Tables): Left
    requires ReaderOk(r)
  {
    var (n, r1) := if f.Legacy? then ReadShort(r) else ReadLong(r);
    if n == 0 then Refused(g, NoConfigstrings, r)
    else if n < 0 || n > Limit(f) then Refused(g, TooManyConfigstrings, r)
    else ParseLeaves(f, n, r1, -1, cs, g)
  }

  function OutcomeOf(left: Left): Outcome<Tables> {
    if left.error.None? then Parsed(left.tables, left.rest) else Failed(left.error.value)
  }

  /** Apart from what is left of a refused message, this is the parser. */
  lemma {:induction false} LeavesAgree(f: Format, k: nat, r: Reader, previous: int, cs: seq<Entry>, g: Tables)
    requires ReaderOk(r) && previous >= -1
    ensures OutcomeOf(ParseLeaves(f, k, r, previous, cs, g)) == ParseEntries(f, k, r, previous, cs, g)
    decreases k
  {
    hide ReadIndex, ReadString, CopyBelow, Next, PutAll, SpillAny, ReaderOk, Room;
    var i := ReadIndex(f, r, previous);
    if k > 0 && i.Parsed? && i.value < Limit(f) {
      ReadIndexOk(f, r, previous);
      ReadIndexAbove(f, r, previous);
      var room := Room(CopyBelow(g, cs, i.value).0, i.value);
      var (s, r2) := ReadString(i.rest, room);
      ReadStringOk(i.rest, room);
      if |s| + 1 < BIG_INFO_STRING {
        var (g', cs') := Next(g, cs, Entry(i.value, s));
        LeavesAgree(f, k - 1, r2, i.value, cs', g');
      }
    }
  }

  lemma PartAgrees(f: Format, r: Reader, cs: seq<Entry>, g: Tables)
    requires ReaderOk(r)
    ensures OutcomeOf(PartLeaves(f, r, cs, g)) == Parse(f, r, cs, g)
  {
    hide ParseEntries, ParseLeaves;
    var (n, r1) := if f.Legacy? then ReadShort(r) else ReadLong(r);
    if n > 0 { LeavesAgree(f, n, r1, -1, cs, g); }
  }

  /** One entry of a message takes the parser one step further, or its string is spilled. */
  lemma EntryLeaves(f: Format, k: nat, w: Writer, previous: int, e: Entry, cs: seq<Entry>, g: Tables, data: seq<Byte>)
    requires WriterOk(w) && Extends(WriteEntry(f, w, previous, e), data) && k > 0
    requires -1 <= previous < e.index < Limit(f)
    requires Used(CopyBelow(g, cs, e.index).0, e.index) + |Kept(e.text)| < MAX_GAMESTATE_CHARS
    ensures Extends(w, data) && ReaderOk(At(w, data)) && ReaderOk(At(WriteEntry(f, w, previous, e), data))
    ensures ParseLeaves(f, k, At(w, data), previous, cs, g)
         == if !Readable(e.text) then
              Left(SpillAny(CopyBelow(g, cs, e.index).0, e.index, Clean(Kept(e.text))), Some(StringTooLong),
                   At(w, data), e.index >= MAX_CONFIGSTRINGS)
            else
              ParseLeaves(f, k - 1, At(WriteEntry(f, w, previous, e), data), e.index,
                          Next(g, cs, Received(e)).1, Next(g, cs, Received(e)).0)
  {
    hide Extends, WriteIndex, WriteString, ReadIndex, ReadString, CopyBelow, Clean, Next, SpillAny;
    var w1 := WriteIndex(f, w, previous, e.index);
    var room := Room(CopyBelow(g, cs, e.index).0, e.index);
    StringReadsBack(w1, Kept(e.text), room, data);
    IndexReadsBack(f, w, previous, e.index, data);
    ReadIndexOk(f, At(w, data), previous);
    ReadStringOk(At(w1, data), room);
  }

  // ------------------------------------------------------------ heaps only grow

  predicate Grows(g: Tables, g': Tables) {
    |g.cl.data| <= |g'.cl.data| && |g.ext.data| <= |g'.ext.data|
  }

  lemma {:induction false} CopyBelowGrows(g: Tables, cs: seq<Entry>, index: nat)
    ensures Grows(g, CopyBelow(g, cs, index).0)
    decreases |cs|
  {
    if cs != [] && cs[0].index < index {
      CopyBelowGrows(PutAny(g, cs[0].index, cs[0].text), cs[1..], index);
    }
  }

  lemma {:induction false} LeavesGrow(f: Format, k: nat, r: Reader, previous: int, cs: seq<Entry>, g: Tables)
    requires ReaderOk(r) && previous >= -1
    ensures Grows(g, ParseLeaves(f, k, r, previous, cs, g).tables)
    decreases k
  {
    hide ReadIndex, ReadString, CopyBelow, PutAll, ReaderOk, Room;
    PutAllGrows(g, cs);
    var i := ReadIndex(f, r, previous);
    if k > 0 && i.Parsed? && i.value < Limit(f) {
      ReadIndexOk(f, r, previous);
      ReadIndexAbove(f, r, previous);
      var below := CopyBelow(g, cs, i.value).0;
      var room := Room(below, i.value);
      var (s, r2) := ReadString(i.rest, room);
      ReadStringOk(i.rest, room);
      CopyBelowGrows(g, cs, i.value);
      if |s| + 1 < BIG_INFO_STRING {
        var (g', cs') := Next(g, cs, Entry(i.value, s));
        LeavesGrow(f, k - 1, r2, i.value, cs', g');
      }
    }
  }

  // ------------------------------------------------------------ the two tables in place

  /** The two tables share no array. */
  ghost predicate Apart(cl: TableStore, ext: TableStore)
    reads cl, ext
  {
    cl != ext && cl.offsets != ext.offsets && cl.data != ext.data && cl.Shaped() && ext.Shaped()
  }

  ghost function UsedTables(cl: TableStore, ext: TableStore): Tables
    requires Apart(cl, ext)
    reads cl, cl.offsets, cl.data, ext, ext.offsets, ext.data
  {
    Tables(cl.Used(), ext.Used())
  }

  /** The data of `store` stand over `memory`. */
  ghost predicate Laid(store: TableStore, memory: string)
    requires store.Shaped()
    reads store, store.offsets, store.data
  {
    |memory| == MAX_GAMESTATE_CHARS && store.Value() == Filled(store.Used(), memory)
  }

  ghost predicate BothLaid(cl: TableStore, ext: TableStore, clMemory: string, extMemory: string)
    requires Apart(cl, ext)
    reads cl, cl.offsets, cl.data, ext, ext.offsets, ext.data
  {
    Laid(cl, clMemory) && Laid(ext, extMemory)
  }

  /** Appends `s` to the table index `i` belongs to. */
  method Store(cl: TableStore, ext: TableStore, i: Index, s: CString, ghost clMemory: string, ghost extMemory: string)
    requires Apart(cl, ext) && BothLaid(cl, ext, clMemory, extMemory) && Fits(PutAny(UsedTables(cl, ext), i, s))
    modifies cl, cl.offsets, cl.data, ext, ext.offsets, ext.data
    ensures Apart(cl, ext) && BothLaid(cl, ext, clMemory, extMemory)
    ensures UsedTables(cl, ext) == PutAny(old(UsedTables(cl, ext)), i, s)
  {
    hide Over;
    var store, k := cl, i;
    if i >= MAX_CONFIGSTRINGS {
      store, k := ext, i - MAX_CONFIGSTRINGS;
    }
    ghost var below, memory := store.Used().data, if i < MAX_CONFIGSTRINGS then clMemory else extMemory;
    store.Append(k, s);
    OverTwice(below, store.Used().data, memory);
  }

  /** Writes a string that is refused behind the data of its table. */
  method Spill(cl: TableStore, ext: TableStore, i: Index, s: CString, ghost clMemory: string, ghost extMemory: string)
    requires Apart(cl, ext) && BothLaid(cl, ext, clMemory, extMemory) && Fits(SpillAny(UsedTables(cl, ext), i, s))
    modifies cl.data, ext.data
    ensures Apart(cl, ext)
    ensures Tables(cl.Value(), ext.Value()) == Memories(SpillAny(old(UsedTables(cl, ext)), i, s), clMemory, extMemory)
  {
    hide Over;
    ghost var g := UsedTables(cl, ext);
    if i < MAX_CONFIGSTRINGS {
      cl.Write(s);
      OverTwice(g.cl.data, g.cl.data + s + ['\0'], clMemory);
    } else {
      ext.Write(s);
      OverTwice(g.ext.data, g.ext.data + s + ['\0'], extMemory);
    }
  }

  /** The whole heaps of tables that stand over memory. */
  function Memories(g: Tables, clMemory: string, extMemory: string): Tables {
    Tables(Filled(g.cl, clMemory), Filled(g.ext, extMemory))
  }

  // ------------------------------------------------------------ the loops

  lemma CopyOne(g: Tables, cs: seq<Entry>, index: nat)
    requires cs != [] && cs[0].index < index && Fits(CopyBelow(g, cs, index).0)
    ensures CopyBelow(g, cs, index) == CopyBelow(PutAny(g, cs[0].index, cs[0].text), cs[1..], index)
    ensures Fits(PutAny(g, cs[0].index, cs[0].text))
  {
    hide PutAny;
    CopyBelowGrows(PutAny(g, cs[0].index, cs[0].text), cs[1..], index);
  }

  /** Copies the constants below `index`, from position `ccs` of the constant table on. */
  method CopyConstants(cl: TableStore, ext: TableStore, cs: seq<Entry>, ccs: nat, index: nat,
                       ghost clMemory: string, ghost extMemory: string) returns (ccs': nat)
    requires Apart(cl, ext) && BothLaid(cl, ext, clMemory, extMemory) && ccs <= |cs|
    requires Fits(CopyBelow(UsedTables(cl, ext), cs[ccs..], index).0)
    modifies cl, cl.offsets, cl.data, ext, ext.offsets, ext.data
    ensures Apart(cl, ext) && BothLaid(cl, ext, clMemory, extMemory) && ccs <= ccs' <= |cs|
    ensures CopyBelow(old(UsedTables(cl, ext)), cs[ccs..], index) == (UsedTables(cl, ext), cs[ccs'..])
  {
    hide PutAny, Laid, TableStore.Used;
    ghost var g := UsedTables(cl, ext);
    ccs' := ccs;
    while ccs' < |cs| && cs[ccs'].index < index
      invariant Apart(cl, ext) && BothLaid(cl, ext, clMemory, extMemory) && ccs <= ccs' <= |cs|
      invariant CopyBelow(g, cs[ccs..], index) == CopyBelow(UsedTables(cl, ext), cs[ccs'..], index)
    {
      CopyOne(UsedTables(cl, ext), cs[ccs'..], index);
      assert cs[ccs'..][1..] == cs[ccs' + 1..];
      Store(cl, ext, cs[ccs'].index, cs[ccs'].text, clMemory, extMemory);
      ccs' := ccs' + 1;
    }
  }

  lemma PutOne(g: Tables, es: seq<Entry>)
    requires es != [] && Fits(PutAll(g, es))
    ensures PutAll(g, es) == PutAll(PutAny(g, es[0].index, es[0].text), es[1..])
    ensures Fits(PutAny(g, es[0].index, es[0].text))
  {
    hide PutAny;
    PutAllGrows(PutAny(g, es[0].index, es[0].text), es[1..]);
  }

  /** Copies all the remaining constants. */
  method CopyRest(cl: TableStore, ext: TableStore, cs: seq<Entry>, ccs: nat,
                  ghost clMemory: string, ghost extMemory: string)
    requires Apart(cl, ext) && BothLaid(cl, ext, clMemory, extMemory) && ccs <= |cs|
    requires Fits(PutAll(UsedTables(cl, ext), cs[ccs..]))
    modifies cl, cl.offsets, cl.data, ext, ext.offsets, ext.data
    ensures Apart(cl, ext) && BothLaid(cl, ext, clMemory, extMemory)
    ensures UsedTables(cl, ext) == PutAll(old(UsedTables(cl, ext)), cs[ccs..])
  {
    hide PutAny, Laid, TableStore.Used;
    ghost var g := UsedTables(cl, ext);
    var i := ccs;
    while i < |cs|
      invariant Apart(cl, ext) && BothLaid(cl, ext, clMemory, extMemory) && ccs <= i <= |cs|
      invariant PutAll(g, cs[ccs..]) == PutAll(UsedTables(cl, ext), cs[i..])
    {
      PutOne(UsedTables(cl, ext), cs[i..]);
      assert cs[i..][1..] == cs[i + 1..];
      Store(cl, ext, cs[i].index, cs[i].text, clMemory, extMemory);
      i := i + 1;
    }
    assert cs[i..] == [];
  }

  /** One turn: what is left of a message that is refused here, or where the next turn goes on, and that it fits. */
  lemma OneTurn(f: Format, k: nat, r: Reader, previous: int, cs: seq<Entry>, g: Tables)
    requires ReaderOk(r) && previous >= -1 && k > 0 && Fits(ParseLeaves(f, k, r, previous, cs, g).tables)
    ensures var left, i := ParseLeaves(f, k, r, previous, cs, g), ReadIndex(f, r, previous);
            if i.Failed? then left == Refused(g, i.error, r)
            else if i.value >= Limit(f) then left == Refused(g, IndexOutOfRange, r)
            else
              && i.value > previous && ReaderOk(i.rest)
              && var below := CopyBelow(g, cs, i.value).0;
                 var (s, rest) := ReadString(i.rest, Room(below, i.value));
                 Fits(below) && ReaderOk(rest) &&
                 if |s| + 1 >= BIG_INFO_STRING then
                   left == Left(SpillAny(below, i.value, s), Some(StringTooLong), r, i.value >= MAX_CONFIGSTRINGS)
                 else
                   var (g', cs') := Next(g, cs, Entry(i.value, s));
                   Fits(g') && left == ParseLeaves(f, k - 1, rest, i.value, cs', g')
  {
    hide ReadIndex, ReadString, CopyBelow, Room, ReaderOk;
    var i := ReadIndex(f, r, previous);
    if i.Parsed? && i.value < Limit(f) {
      ReadIndexOk(f, r, previous);
      ReadIndexAbove(f, r, previous);
      var below := CopyBelow(g, cs, i.value).0;
      var (s, rest) := ReadString(i.rest, Room(below, i.value));
      ReadStringOk(i.rest, Room(below, i.value));
      if |s| + 1 < BIG_INFO_STRING {
        var (g', cs') := Next(g, cs, Entry(i.value, s));
        LeavesGrow(f, k - 1, rest, i.value, cs', g');
      }
    }
  }

  lemma MemoriesOf(cl: TableStore, ext: TableStore, clMemory: string, extMemory: string)
    requires Apart(cl, ext) && BothLaid(cl, ext, clMemory, extMemory)
    ensures Tables(cl.Value(), ext.Value()) == Memories(UsedTables(cl, ext), clMemory, extMemory)
  {}

  /** One turn of the parsing loop: index, constants before it, string; or the error that ends the connection. */
  method ParseOne(cl: TableStore, ext: TableStore, f: Format, ghost k: nat, r: Reader, previous: int, cs: seq<Entry>,
                  ccs: nat, ghost clMemory: string, ghost extMemory: string)
    returns (failed: Option<Error>, r': Reader, confIndex: int, ccs': nat)
    requires Apart(cl, ext) && BothLaid(cl, ext, clMemory, extMemory)
    requires ReaderOk(r) && previous >= -1 && ccs <= |cs| && k > 0
    requires Fits(ParseLeaves(f, k, r, previous, cs[ccs..], UsedTables(cl, ext)).tables)
    modifies cl, cl.offsets, cl.data, ext, ext.offsets, ext.data
    ensures Apart(cl, ext)
    ensures failed.Some? ==>
      var left := ParseLeaves(f, k, r, previous, cs[ccs..], old(UsedTables(cl, ext)));
      && left.error == failed && left.rest == r'
      && Tables(cl.Value(), ext.Value()) == Memories(left.tables, clMemory, extMemory)
    ensures failed.None? ==>
      && BothLaid(cl, ext, clMemory, extMemory) && ReaderOk(r') && confIndex >= -1 && ccs' <= |cs|
      && ParseLeaves(f, k, r, previous, cs[ccs..], old(UsedTables(cl, ext)))
         == ParseLeaves(f, k - 1, r', confIndex, cs[ccs'..], UsedTables(cl, ext))
  {
    hide ReadIndex, ReadString, CopyBelow, PutAny, SpillAny, ReaderOk, Laid, TableStore.Used, TableStore.Value,
      Memories;
    hide ParseLeaves;
    OneTurn(f, k, r, previous, cs[ccs..], UsedTables(cl, ext));
    r', confIndex, ccs' := r, previous, ccs;
    var i := ReadIndex(f, r, previous);
    if i.Failed? {
      MemoriesOf(cl, ext, clMemory, extMemory);
      failed := Some(i.error);
      return;
    }
    confIndex := i.value;
    if confIndex < 0 || confIndex >= Limit(f) {
      MemoriesOf(cl, ext, clMemory, extMemory);
      failed := Some(IndexOutOfRange);
      return;
    }
    ccs' := CopyConstants(cl, ext, cs, ccs, confIndex, clMemory, extMemory);
    var used := if confIndex < MAX_CONFIGSTRINGS then cl.dataCount else ext.dataCount;
    var room := if BIG_INFO_STRING < MAX_GAMESTATE_CHARS - used then BIG_INFO_STRING else MAX_GAMESTATE_CHARS - used;
    RoomOf(cl, ext, confIndex);
    var (text, rest) := ReadString(i.rest, room);
    if |text| + 1 >= BIG_INFO_STRING {
      Spill(cl, ext, confIndex, text, clMemory, extMemory);
      failed := Some(StringTooLong);
      return;
    }
    if ccs' < |cs| && cs[ccs'].index == confIndex {
      ccs' := ccs' + 1;
    }
    r' := rest;
    Store(cl, ext, confIndex, text, clMemory, extMemory);
    failed := None;
  }

  lemma RoomOf(cl: TableStore, ext: TableStore, i: Index)
    requires Apart(cl, ext)
    ensures var used := if i < MAX_CONFIGSTRINGS then cl.dataCount else ext.dataCount;
            Room(UsedTables(cl, ext), i) ==
            if BIG_INFO_STRING < MAX_GAMESTATE_CHARS - used then BIG_INFO_STRING else MAX_GAMESTATE_CHARS - used
  {}

  /** The parsing loop. */
  method ParseAll(cl: TableStore, ext: TableStore, f: Format, numcs: nat, start: Reader, cs: seq<Entry>,
                  ghost clMemory: string, ghost extMemory: string)
    returns (error: Option<Error>, rest: Reader)
    requires Apart(cl, ext) && BothLaid(cl, ext, clMemory, extMemory) && ReaderOk(start)
    requires Fits(ParseLeaves(f, numcs, start, -1, cs, UsedTables(cl, ext)).tables)
    modifies cl, cl.offsets, cl.data, ext, ext.offsets, ext.data
    ensures Apart(cl, ext)
    ensures var left := ParseLeaves(f, numcs, start, -1, cs, old(UsedTables(cl, ext)));
            && error == left.error && rest == left.rest
            && Tables(cl.Value(), ext.Value()) == Memories(left.tables, clMemory, extMemory)
  {
    hide ParseLeaves, ReaderOk, PutAll, Laid, TableStore.Used, TableStore.Value, Memories;
    ghost var left := ParseLeaves(f, numcs, start, -1, cs, UsedTables(cl, ext));
    var confIndex := -1;
    var ccs: nat := 0;
    rest := start;
    assert cs[ccs..] == cs;
    for k := 0 to numcs
      invariant Apart(cl, ext) && BothLaid(cl, ext, clMemory, extMemory)
      invariant ReaderOk(rest) && confIndex >= -1 && ccs <= |cs|
      invariant ParseLeaves(f, numcs - k, rest, confIndex, cs[ccs..], UsedTables(cl, ext)) == left
    {
      error, rest, confIndex, ccs := ParseOne(cl, ext, f, numcs - k, rest, confIndex, cs, ccs, clMemory, extMemory);
      if error.Some? {
        return;
      }
    }
    AllParsed(f, rest, confIndex, cs[ccs..], UsedTables(cl, ext));
    CopyRest(cl, ext, cs, ccs, clMemory, extMemory);
    MemoriesOf(cl, ext, clMemory, extMemory);
    error := None;
  }

  lemma AllParsed(f: Format, r: Reader, previous: int, cs: seq<Entry>, g: Tables)
    requires ReaderOk(r) && previous >= -1
    ensures ParseLeaves(f, 0, r, previous, cs, g) == Left(PutAll(g, cs), None, r, false)
  {}

  /** The tables as a gamestate finds them: the first is cleared, of the second the extended format resets the count. */
  method ClearTables(f: Format, cl: TableStore, ext: TableStore)
    requires Apart(cl, ext) && ext.data[0] == '\0'
    modifies cl, cl.offsets, cl.data, ext
    ensures Apart(cl, ext) && Tables(cl.Value(), ext.Value()) == Tables(CLEARED, old(ext.Value()))
    ensures UsedTables(cl, ext) == Tables(EMPTY, if f.Legacy? then old(ext.Used()) else Reset(old(ext.Value()).offsets))
  {
    hide Over;
    cl.Clear();
    if f.Extended? {
      ext.Restart();
    }
  }

  /** The configstring part of a gamestate: the count, and then as many strings. */
  method ParseConfigstrings(f: Format, cl: TableStore, ext: TableStore, start: Reader, cs: seq<Entry>)
    returns (error: Option<Error>, rest: Reader)
    requires Apart(cl, ext) && ReaderOk(start) && Fits(PartLeaves(f, start, cs, UsedTables(cl, ext)).tables)
    modifies cl, cl.offsets, cl.data, ext, ext.offsets, ext.data
    ensures Apart(cl, ext)
    ensures var left := PartLeaves(f, start, cs, old(UsedTables(cl, ext)));
            && error == left.error && rest == left.rest
            && Tables(cl.Value(), ext.Value()) == Memories(left.tables, old(cl.Value().data), old(ext.Value().data))
  {
    hide ParseLeaves, Over, Memories;
    ghost var clMemory, extMemory := cl.Value().data, ext.Value().data;
    LaidOver(cl);
    LaidOver(ext);
    rest := start;
    var (numcs, r) := if f.Legacy? then ReadShort(start) else ReadLong(start);
    if numcs <= 0 || numcs > Limit(f) {
      MemoriesOf(cl, ext, clMemory, extMemory);
      return Some(if numcs == 0 then NoConfigstrings else TooManyConfigstrings), start;
    }
    error, rest := ParseAll(cl, ext, f, numcs, r, cs, clMemory, extMemory);
  }

  /** Data stand over the memory they are part of. */
  lemma LaidOver(store: TableStore)
    requires store.Shaped()
    ensures Laid(store, store.Value().data)
  {
    var all, n := store.Value().data, store.dataCount;
    assert Over(all[..n], all) == all;
  }
}
