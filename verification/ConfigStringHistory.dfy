/**
 The configstring tables over whole games: gamestates of both formats, complete or refused, and
 server commands, over any number of connections.  The second table outlives all of them; only
 its data count is reset.  What is recorded at any time can be parsed again, by any client,
 unless a string is of the one length that is recorded and refused.
 */
module ConfigStringHistory {
  import opened Common
  import opened Message
  import opened GameState
  import opened GameStateMessage
  import opened ConfigStrings
  import opened GameStateParser
  import opened StaleStrings
  import opened HeapText
  import CommandText
  import ServerCommands

  // ------------------------------------------------------------ server commands

  lemma {:induction false} TokensHoldable(text: string, p: nat, argc: nat, max: nat)
    requires p <= |text| && Unformatted(text)
    ensures forall j | 0 <= j < |CommandText.Tokens(text, p, argc, max)| ::
      Holdable(CommandText.Tokens(text, p, argc, max)[j], |text| + 1)
    decreases |text| - p
  {
    if argc + 1 < max && CommandText.TokenStart(text, p) < |text| {
      var s := CommandText.TokenStart(text, p);
      CommandText.TokensStep(text, p, argc, max);
      if CommandText.TokenEnd(text, s) < |text| {
        TokensHoldable(text, CommandText.AfterToken(text, s), argc + 1, max);
      }
    }
  }

  /** A table is as before, or its strings, but for short new ones, are laid out afresh. */
  ghost predicate TableAfter(t: Table, t': Table)
    requires Valid(t)
  {
    t' == t || exists ss: seq<CString> :: |ss| == MAX_CONFIGSTRINGS && t' == Rebuilt(ss) && Renewed(t, ss)
  }

  ghost predicate Renewed(t: Table, ss: seq<CString>)
    requires |ss| == MAX_CONFIGSTRINGS
  {
    forall i | 0 <= i < MAX_CONFIGSTRINGS :: ss[i] == Get(t, i) || Storable(ss[i])
  }

  ghost predicate TablesAfter(g: Tables, g': Tables)
    requires ValidTables(g)
  {
    TableAfter(g.cl, g'.cl) && TableAfter(g.ext, g'.ext)
  }

  lemma SetChanges(g: Tables, index: int, s: CString)
    requires ValidTables(g) && Storable(s)
    ensures TablesAfter(g, ServerCommands.SetConfigString(g, index, s).tables)
  {
    hide Valid, Get, Storable, Rebuilt, PackedSize, StringsOf;
    if 0 <= index < 2 * MAX_CONFIGSTRINGS && GetAny(g, index) != s {
      var t, i := if index < MAX_CONFIGSTRINGS then g.cl else g.ext, index % MAX_CONFIGSTRINGS;
      assert NewStrings(g, index, s) == StringsOf(t)[i := s];
      assert Renewed(t, NewStrings(g, index, s));
    }
  }

  lemma NothingChanges(g: Tables)
    requires ValidTables(g)
    ensures TablesAfter(g, g)
  {
    hide Valid;
  }

  lemma DirectChanges(us: CString, g: Tables)
    requires ValidTables(g) && Storable(us)
    ensures TablesAfter(g, ServerCommands.DirectCommand(us, g).tables)
  {
    hide ValidTables, TablesAfter, CommandText.Tokens, ServerCommands.SetConfigString;
    var args := CommandText.Tokens(us, 0, 0, 3);
    TokensHoldable(us, 0, 0, 3);
    ServerCommands.TokensOneByte(us, 0, 0, 3);
    SetChanges(g, ServerCommands.Atoi(ServerCommands.Argument(args, 1)), ServerCommands.Argument(args, 2));
  }

  lemma {:induction false} AfterWordUnformatted(s: CString)
    requires Unformatted(s)
    ensures Unformatted(ServerCommands.AfterWord(s))
  {
    if s != "" && s[0] != ' ' {
      AfterWordUnformatted(s[1..]);
    }
  }

  lemma ExecutedChanges(whole: CString, g: Tables)
    requires ValidTables(g) && Unformatted(whole)
    ensures TablesAfter(g, ServerCommands.Executed(whole, g).tables)
  {
    hide ValidTables, TablesAfter, ServerCommands.DirectCommand;
    NothingChanges(g);
    if |whole| + 1 < BIG_INFO_STRING { DirectChanges(whole, g); }
  }

  lemma PieceChanges(cmd: char, rest: CString, big: CString, g: Tables)
    requires ValidTables(g) && Unformatted(rest) && Unformatted(big)
    ensures var e := ServerCommands.Piece(cmd, rest, big, g); TablesAfter(g, e.tables) && Unformatted(e.big)
  {
    hide ValidTables, TablesAfter, ServerCommands.Executed;
    NothingChanges(g);
    AfterWordUnformatted(rest);
    ExecutedChanges(ServerCommands.Glue(big, ServerCommands.AfterWord(rest)), g);
  }

  lemma DispatchChanges(cmd: char, us: CString, rest: CString, big: CString, g: Tables)
    requires ValidTables(g) && Storable(us) && Unformatted(rest) && Unformatted(big)
    ensures var e := ServerCommands.Dispatch(cmd, us, rest, big, g); TablesAfter(g, e.tables) && Unformatted(e.big)
  {
    hide ValidTables, TablesAfter, Storable, ServerCommands.DirectCommand, ServerCommands.Piece;
    NothingChanges(g);
    PieceChanges(cmd, rest, big, g);
    DirectChanges(us, g);
  }

  /** A server command, whole or in pieces, changes strings only to short ones. */
  lemma HandleChanges(us: CString, big: CString, g: Tables)
    requires ValidTables(g) && Storable(us) && Unformatted(big)
    ensures var e := ServerCommands.Handle(us, big, g); TablesAfter(g, e.tables) && Unformatted(e.big)
  {
    hide ValidTables, TablesAfter, ServerCommands.Dispatch, ServerCommands.SkipBlanks;
    NothingChanges(g);
    var s := ServerCommands.SkipBlanks(us);
    if s != "" {
      var rest := ServerCommands.SkipBlanks(s[1..]);
      assert Unformatted(s) && Unformatted(rest);
      DispatchChanges(s[0], us, rest, big, g);
    }
  }

  /** No string of the table is longer than the parser accepts. */
  ghost predicate AllShort(t: Table) {
    forall i | 0 <= i < MAX_CONFIGSTRINGS :: |Get(t, i)| < ACCEPTED
  }

  /** Whatever could be read before can be now, and after rebuilding only short strings, only those. */
  lemma AfterHolds(t: Table, t': Table, limit: nat)
    requires Valid(t) && Whole(t) && Holds(t.data, limit) && ACCEPTED <= limit && TableAfter(t, t')
    ensures var w := Filled(t', BLANK); Valid(w) && Whole(w) && Holds(w.data, limit)
    ensures t' != t && AllShort(t) ==> Holds(Filled(t', BLANK).data, ACCEPTED)
  {
    hide Valid, Holds, Get, Rebuilt, Filled;
    if t' == t {
      FilledWhole(t, BLANK);
    } else {
      var ss :| |ss| == MAX_CONFIGSTRINGS && t' == Rebuilt(ss) && Renewed(t, ss);
      forall i | 0 <= i < MAX_CONFIGSTRINGS
        ensures Holdable(ss[i], limit) && (AllShort(t) ==> Storable(ss[i]))
      {
        GetHoldable(t, limit, i);
      }
      RebuiltHolds(ss, limit);
      if AllShort(t) { RebuiltHolds(ss, ACCEPTED); }
    }
  }

  // ------------------------------------------------------------ a whole game

  /**
   The tables with all of their heaps.  `spilled` is history, which no step reads: a string was refused for
   its length when it stood in the second heap, and that was not rebuilt out of short strings since.
   */
  datatype Client = Client(tables: Tables, big: CString, playing: bool, spilled: bool)

  /** A gamestate may have configstrings in several parts; `complete` tells whether the rest of it is accepted. */
  datatype Happening =
    | Gamestate(format: Format, parts: seq<Reader>, constants: seq<Entry>, complete: bool)
    | ServerCommand(text: CString)

  const START := Client(Tables(CLEARED, CLEARED), "", false, false)

  /** The first table is cleared; of the second one an extended gamestate resets the data count. */
  function Started(f: Format, c: Client): Tables {
    Tables(EMPTY, if f.Legacy? then c.tables.ext else Reset(c.tables.ext.offsets))
  }

  ghost predicate ReadersOk(rs: seq<Reader>) { forall i | 0 <= i < |rs| :: ReaderOk(rs[i]) }

  function PartsLeave(f: Format, rs: seq<Reader>, cs: seq<Entry>, left: Left): Left
    requires ReadersOk(rs)
    decreases |rs|
  {
    if rs == [] || left.error.Some? then left
    else PartsLeave(f, rs[1..], cs, PartLeaves(f, rs[0], cs, left.tables))
  }

  function GamestateLeaves(f: Format, rs: seq<Reader>, cs: seq<Entry>, c: Client): Left
    requires ReadersOk(rs)
  {
    PartsLeave(f, rs, cs, Left(Started(f, c), None, Reader([], 0, 0), false))
  }

  /** Over the memory there was. */
  function InMemory(g: Tables, c: Client): Tables {
    Tables(Filled(g.cl, BLANK), Filled(g.ext, c.tables.ext.data))
  }

  /** Commands come out of their slots, while the game runs; a gamestate's strings have room in the heaps. */
  ghost predicate Possible(c: Client, h: Happening) {
    match h
    case Gamestate(f, rs, cs, _) => ReadersOk(rs) && StorableEntries(cs) && Fits(GamestateLeaves(f, rs, cs, c).tables)
    case ServerCommand(us) => c.playing && |us| < MAX_STRING_CHARS && Unformatted(us)
  }

  ghost function After(c: Client, h: Happening): Client
    requires ValidTables(c.tables) && Possible(c, h)
  {
    match h
    case Gamestate(f, rs, cs, complete) =>
      var left := GamestateLeaves(f, rs, cs, c);
      Client(InMemory(left.tables, c), c.big, left.error.None? && complete, c.spilled || left.spilled)
    case ServerCommand(us) =>
      var e := ServerCommands.Handle(us, c.big, c.tables);
      var renewed := e.tables.ext != c.tables.ext && AllShort(c.tables.ext);
      Client(FilledTables(e.tables), e.big, !e.response.Dropped?, c.spilled && !renewed)
  }

  /** Everything that can be read anywhere in a heap is short enough, and has no format characters. */
  ghost predicate Stored(c: Client) {
    && ValidTables(c.tables) && Whole(c.tables.cl) && Whole(c.tables.ext) && Unformatted(c.big)
    && Holds(c.tables.cl.data, if c.playing then ACCEPTED else RECORDED)
    && Holds(c.tables.ext.data, LimitOf(c))
  }

  lemma StartStored()
    ensures Stored(START)
  {
    NothingHeld(ACCEPTED);
    NothingHeld(RECORDED);
    FilledReads(EMPTY, BLANK, 0);
    assert CLEARED.data == BLANK;
  }

  /** How much can be read in the second heap. */
  function LimitOf(c: Client): nat { if c.spilled then RECORDED else ACCEPTED }

  lemma StartedWritable(f: Format, c: Client)
    requires Stored(c)
    ensures WritableTables(Started(f, c), ACCEPTED, LimitOf(c))
  {
    hide Valid, Writable, Holds;
    EmptyWritable(ACCEPTED);
    WholeWritable(c.tables.ext, LimitOf(c));
    ResetWritable(c.tables.ext, LimitOf(c));
  }

  lemma {:induction false} PartsWritable(f: Format, rs: seq<Reader>, cs: seq<Entry>, left: Left, a: nat, b: nat)
    requires ReadersOk(rs) && LeftWritable(left, a, b) && StorableEntries(cs) && Limits(a, b)
    ensures LeftWritable(PartsLeave(f, rs, cs, left), a, b)
    decreases |rs|
  {
    if rs != [] && left.error.None? {
      hide PartLeaves, WritableTables, Writable, StorableEntries;
      PartWritable(f, rs[0], cs, left.tables, a, b);
      PartsWritable(f, rs[1..], cs, PartLeaves(f, rs[0], cs, left.tables), a, b);
    }
  }

  lemma GamestateStored(c: Client, h: Happening)
    requires Stored(c) && h.Gamestate? && Possible(c, h)
    ensures Stored(After(c, h))
  {
    var b := LimitOf(c);
    var start := Left(Started(h.format, c), None, Reader([], 0, 0), false);
    var left := GamestateLeaves(h.format, h.parts, h.constants, c);
    StartedWritable(h.format, c);
    hide Valid, Writable, Holds, PartsLeave, Filled, Started, ReadersOk;
    WritableLeft(start, ACCEPTED, b);
    PartsWritable(h.format, h.parts, h.constants, start, ACCEPTED, b);
    NothingHeld(ACCEPTED);
    NothingHeld(RECORDED);
    HoldsLonger(c.tables.ext.data, b, RECORDED);
    FilledHolds(left.tables.cl, BLANK, RECORDED);
    FilledHolds(left.tables.ext, c.tables.ext.data, RECORDED);
    if !left.spilled { FilledHolds(left.tables.ext, c.tables.ext.data, b); }
    if left.error.None? { FilledHolds(left.tables.cl, BLANK, ACCEPTED); }
  }

  lemma CommandStored(c: Client, h: Happening)
    requires Stored(c) && h.ServerCommand? && Possible(c, h)
    ensures Stored(After(c, h))
  {
    hide Valid, Holds, Filled, TableAfter, ServerCommands.Handle;
    HandleChanges(h.text, c.big, c.tables);
    var g := ServerCommands.Handle(h.text, c.big, c.tables).tables;
    AfterHolds(c.tables.cl, g.cl, ACCEPTED);
    HoldsLonger(Filled(g.cl, BLANK).data, ACCEPTED, RECORDED);
    AfterHolds(c.tables.ext, g.ext, LimitOf(c));
  }

  /** The happenings in order lead from `c` to `c'`. */
  ghost predicate Leads(c: Client, hs: seq<Happening>, c': Client)
    decreases |hs|
  {
    if hs == [] then c' == c
    else ValidTables(c.tables) && Possible(c, hs[0]) && Leads(After(c, hs[0]), hs[1..], c')
  }

  lemma {:induction false} LeadsStored(c: Client, hs: seq<Happening>, c': Client)
    requires Stored(c) && Leads(c, hs, c')
    ensures Stored(c')
    decreases |hs|
  {
    if hs != [] {
      var c1 := After(c, hs[0]);
      if hs[0].Gamestate? { GamestateStored(c, hs[0]); } else { CommandStored(c, hs[0]); }
      hide Stored, Possible, After;
      LeadsStored(c1, hs[1..], c');
    }
  }
}
