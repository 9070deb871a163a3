/**
 Handling a server command in place: the buffer for configstrings in pieces, the
 tokenizer's pools and the packed configstring tables are all updated where they are.
 */
module CommandHandler {
  import opened Common
  import opened Message
  import opened GameState
  import opened ConfigStrings
  import opened CommandText
  import opened Tokenizer
  import opened ServerCommands

  /** The line a `d` or `z` command has tokenized; the others tokenize nothing. */
  function Tokenized(us: CString, big: CString): CString {
    var s := SkipBlanks(us);
    if s == "" then ""
    else if s[0] == 'd' then us
    else if s[0] == 'z' then Glue(big, AfterWord(SkipBlanks(s[1..])))
    else ""
  }

  /** One more command line of three arguments can be tokenized. */
  ghost predicate HasRoom(args: Args)
    reads args
  {
    args.nesting < MAX_TOKENIZE_STRINGS - 1 && args.totalUsedArgvPool + 3 <= ARGV_POOL
  }

  /** The arguments of `line` as they are seen when the text pool is used up to `top`. */
  function SeenArguments(line: CString, top: nat): (args: seq<string>)
    ensures forall j | 0 <= j < |args| :: OneByte(args[j])
  {
    TokensOneByte(line, 0, 0, 3);
    AllSeen(top, Tokens(line, 0, 0, 3))
  }

  /** The text pool takes the arguments of `line` whole. */
  ghost predicate Fits(line: CString, top: nat) { top + |Flat(Tokens(line, 0, 0, 3))| <= TOP + 1 }

  /** A `d` command as the text pool lets it be seen. */
  function DirectSeen(line: CString, top: nat, g: Tables): (r: Change)
    requires ValidTables(g)
    ensures ValidTables(r.tables)
    ensures Fits(line, top) ==> r == DirectCommand(line, g)
  {
    hide ValidTables, Atoi, SetConfigString;
    SeenWhole(line, top);
    var args := SeenArguments(line, top);
    SetConfigString(g, Atoi(Argument(args, 1)), Argument(args, 2))
  }

  lemma SeenWhole(line: CString, top: nat)
    ensures Fits(line, top) ==> SeenArguments(line, top) == Tokens(line, 0, 0, 3)
  {
    if Fits(line, top) { SeenInFull(top, Tokens(line, 0, 0, 3)); }
  }

  function DispatchSeen(cmd: char, us: CString, rest: CString, big: CString, g: Tables, top: nat): (r: Effect)
    requires ValidTables(g)
    ensures ValidTables(r.tables)
  {
    hide ValidTables, DirectSeen, Dispatch;
    if cmd == 'd' then With(DirectSeen(us, top, g), big)
    else if cmd == 'z' then EndSeen(AfterWord(rest), big, g, top)
    else Dispatch(cmd, us, rest, big, g)
  }

  function EndSeen(more: CString, big: CString, g: Tables, top: nat): (r: Effect)
    requires ValidTables(g)
    ensures ValidTables(r.tables)
  {
    hide ValidTables, DirectSeen;
    var whole := Glue(big, more);
    if |whole| + 1 < BIG_INFO_STRING then With(DirectSeen(whole, top, g), whole)
    else Effect(g, big, Dropped(BigConfigStringTooLong))
  }

  /** What a command does, arguments cut where the text pool is full. */
  function HandleSeen(us: CString, big: CString, g: Tables, top: nat): (r: Effect)
    requires ValidTables(g)
    ensures ValidTables(r.tables)
  {
    hide ValidTables, DispatchSeen;
    var s := SkipBlanks(us);
    if s == "" then Effect(g, big, Nothing) else DispatchSeen(s[0], us, SkipBlanks(s[1..]), big, g, top)
  }

  lemma DispatchedInFull(cmd: char, us: CString, rest: CString, big: CString, g: Tables, top: nat)
    requires ValidTables(g)
    requires cmd == 'd' ==> Fits(us, top)
    requires cmd == 'z' ==> Fits(Glue(big, AfterWord(rest)), top)
    ensures DispatchSeen(cmd, us, rest, big, g, top) == Dispatch(cmd, us, rest, big, g)
  {
    hide ValidTables, DirectCommand, AfterWord, Fits, Glue;
  }

  /** A line the text pool takes whole is handled as the command says. */
  lemma HandledInFull(us: CString, big: CString, g: Tables, top: nat)
    requires ValidTables(g) && Fits(Tokenized(us, big), top)
    ensures HandleSeen(us, big, g, top) == Handle(us, big, g)
  {
    hide ValidTables, DispatchSeen, Dispatch, Fits, SkipBlanks, Glue, AfterWord;
    var s := SkipBlanks(us);
    if s != "" {
      DispatchedInFull(s[0], us, SkipBlanks(s[1..]), big, g, top);
    }
  }

  lemma DirectResponse(line: CString, top: nat, g: Tables, n: string, s: string)
    requires ValidTables(g)
    requires n == Argument(SeenArguments(line, top), 1) && s == Argument(SeenArguments(line, top), 2)
    ensures OneByte(s) && DirectSeen(line, top, g) == SetConfigString(g, Atoi(n), s)
  {
    hide ValidTables, SeenArguments, Atoi, SetConfigString;
  }

  /** The tokenizer's part: pushes the arguments of `line` and reads the index and the text. */
  method Split(args: Args, line: CString) returns (n: string, s: string)
    requires args.Valid() && HasRoom(args)
    modifies args, args.textPool, args.argvPool, args.usedTextPool, args.argshift, args.argc, args.argv
    ensures args.Valid() && args.frames == old(args.frames) + [Tokens(line, 0, 0, 3)]
    ensures n == Argument(SeenArguments(line, old(args.totalUsedTextPool)), 1)
    ensures s == Argument(SeenArguments(line, old(args.totalUsedTextPool)), 2)
  {
    hide Tokens, TextTop, Flat, AllOk, PushedAll, Args.Valid, AllSeen;
    ghost var below := args.frames;
    Tops(args);
    args.TokenizeString(line, 3);
    TopsOfPrefix(below, [Tokens(line, 0, 0, 3)], |below|);
    n := args.Argv(1);
    s := args.Argv(2);
  }

  lemma Tops(args: Args)
    requires args.Valid()
    ensures args.totalUsedTextPool == TextTop(args.frames, |args.frames|)
  {}

  method Unblanked(s: CString) returns (r: CString)
    ensures r == SkipBlanks(s)
  {
    r := s;
    while r != "" && r[0] == ' '
      invariant SkipBlanks(r) == SkipBlanks(s)
      decreases |r|
    {
      r := r[1..];
    }
  }

  /** Steps over the configstring index and the blank behind it. */
  method BehindWord(s: CString) returns (r: CString)
    ensures r == AfterWord(s)
  {
    r := s;
    while r != "" && r[0] != ' '
      invariant AfterWord(r) == AfterWord(s)
      decreases |r|
    {
      r := r[1..];
    }
    r := if r == "" then "" else r[1..];
  }

  class Handler {
    const state: ClientState
    const args: Args
    var big: CString

    ghost predicate Valid()
      reads args, args.textPool, args.argvPool, args.usedTextPool, args.argshift, args.argc, args.argv
      reads state, state.cl, state.cl.offsets, state.cl.data, state.ext, state.ext.offsets, state.ext.data
    {
      && args.Valid() && state.Ok() && Apart()
    }

    /** The tokenizer's pools and the tables share no array. */
    ghost predicate Apart()
      reads state, args
    {
      && {args.argvPool, args.argc, args.argv} !! {state.cl.offsets, state.ext.offsets}
      && {args.usedTextPool, args.argshift} !! {state.cl.offsets as object, state.ext.offsets}
      && args.textPool !in {state.cl.data, state.ext.data}
    }

    ghost function Value(): (g: Tables)
      requires Valid()
      reads args, args.textPool, args.argvPool, args.usedTextPool, args.argshift, args.argc, args.argv
      reads state, state.cl, state.cl.offsets, state.cl.data, state.ext, state.ext.offsets, state.ext.data
      ensures ValidTables(g) && Whole(g.cl) && Whole(g.ext)
    {
      StateValid(state);
      state.State()
    }

    constructor ()
      ensures Valid() && big == "" && args.frames == [] && Value() == Tables(CLEARED, CLEARED)
    {
      hide Args.Valid, ClientState.Ok, ClientState.State;
      state := new ClientState();
      args := new Args();
      big := "";
    }

    /** Tokenizes `line` and sets the configstring it names. */
    method Direct(line: CString) returns (r: Response)
      requires Valid() && HasRoom(args)
      modifies args, args.textPool, args.argvPool, args.usedTextPool, args.argshift, args.argc, args.argv
      modifies state.cl, state.cl.offsets, state.cl.data, state.ext, state.ext.offsets, state.ext.data
      ensures r == DirectSeen(line, old(args.totalUsedTextPool), old(Value())).response
      ensures !r.Dropped? ==> Valid() && args.frames == old(args.frames)
      ensures !r.Dropped? ==>
        Value() == FilledTables(DirectSeen(line, old(args.totalUsedTextPool), old(Value())).tables)
    {
      hide Tokens, Args.Valid, ClientState.Ok, ClientState.State, DirectSeen, SeenArguments, SetConfigString, Atoi,
        ValidTables, PackedSize, Modified, Cleared, FilledTables;
      ghost var before, top := Value(), args.totalUsedTextPool;
      var n, s := Split(args, line);
      assert state.Ok() && state.State() == before;
      DirectResponse(line, top, before, n, s);
      SetEffect(before, Atoi(n), s);
      assert OneByte(s);
      WholeIsFilled(before);
      if 0 <= Atoi(n) < 2 * MAX_CONFIGSTRINGS { ClearedFills(before, Atoi(n), s); }
      var done := state.ConfigstringModified(Atoi(n), s);
      if done == TooManyChars || done == BadIndex {
        return Dropped(Configstring);
      }
      args.EndTokenizedString();
      return Nothing;
    }

    /**
     Handles one server command.  Whatever arrays it works in, its effect is that of
     `HandleSeen` on the value of the tables and the buffer, and it leaves no frame behind.
     */
    method Execute(us: CString) returns (r: Response)
      requires Valid() && HasRoom(args)
      modifies this, args, args.textPool, args.argvPool, args.usedTextPool, args.argshift, args.argc, args.argv
      modifies state.cl, state.cl.offsets, state.cl.data, state.ext, state.ext.offsets, state.ext.data
      ensures r == HandleSeen(us, old(big), old(Value()), old(args.totalUsedTextPool)).response
      ensures !r.Dropped? ==> Valid() && args.frames == old(args.frames)
      ensures !r.Dropped? ==> big == HandleSeen(us, old(big), old(Value()), old(args.totalUsedTextPool)).big
      ensures !r.Dropped? ==>
        Value() == FilledTables(HandleSeen(us, old(big), old(Value()), old(args.totalUsedTextPool)).tables)
    {
      hide Handler.Valid, Handler.Value, SkipBlanks, DispatchSeen, ValidTables, FilledTables;
      WholeIsFilled(Value());
      var s := Unblanked(us);
      if s == "" {
        return Nothing;
      }
      var rest := Unblanked(s[1..]);
      r := Perform(s[0], us, rest);
    }

    method Perform(cmd: char, us: CString, rest: CString) returns (r: Response)
      requires Valid() && HasRoom(args)
      modifies this, args, args.textPool, args.argvPool, args.usedTextPool, args.argshift, args.argc, args.argv
      modifies state.cl, state.cl.offsets, state.cl.data, state.ext, state.ext.offsets, state.ext.data
      ensures r == DispatchSeen(cmd, us, rest, old(big), old(Value()), old(args.totalUsedTextPool)).response
      ensures !r.Dropped? ==> Valid() && args.frames == old(args.frames)
      ensures !r.Dropped? ==>
        big == DispatchSeen(cmd, us, rest, old(big), old(Value()), old(args.totalUsedTextPool)).big
      ensures !r.Dropped? ==>
        Value() == FilledTables(DispatchSeen(cmd, us, rest, old(big), old(Value()), old(args.totalUsedTextPool)).tables)
    {
      hide Handler.Valid, Handler.Value, SkipBlanks, AfterWord, DirectSeen, DirectCommand, ValidTables, HasRoom;
      hide StartPieces, AddPiece, EndSeen, Glue, FilledTables;
      WholeIsFilled(Value());
      if cmd == 'x' {
        r := Start(rest, Value());
      } else if cmd == 'y' {
        var more := BehindWord(rest);
        r := Add(more, Value());
      } else if cmd == 'z' {
        var more := BehindWord(rest);
        r := End(more);
      } else if cmd == 'd' {
        r := Direct(us);
      } else {
        r := if cmd == 'w' then Dropped(Disconnected) else ForGame(us);
      }
    }

    method Start(rest: CString, ghost g: Tables) returns (r: Response)
      modifies this`big
      ensures r == StartPieces(rest, old(big), g).response && big == StartPieces(rest, old(big), g).big
      ensures g == StartPieces(rest, old(big), g).tables
    {
      if rest == "" {
        return Dropped(EmptyBigConfigString);
      }
      big := Cut("d " + rest, BIG_INFO_STRING - 1);
      return Nothing;
    }

    method Add(more: CString, ghost g: Tables) returns (r: Response)
      modifies this`big
      ensures r == AddPiece(more, old(big), g).response && big == AddPiece(more, old(big), g).big
      ensures g == AddPiece(more, old(big), g).tables
    {
      if |big| + |more| >= BIG_INFO_STRING {
        return Dropped(BigConfigStringTooLong);
      }
      big := Glue(big, more);
      return Nothing;
    }

    method End(more: CString) returns (r: Response)
      requires Valid() && HasRoom(args)
      modifies this`big, args, args.textPool, args.argvPool, args.usedTextPool, args.argshift, args.argc, args.argv
      modifies state.cl, state.cl.offsets, state.cl.data, state.ext, state.ext.offsets, state.ext.data
      ensures r == EndSeen(more, old(big), old(Value()), old(args.totalUsedTextPool)).response
      ensures !r.Dropped? ==> Valid() && args.frames == old(args.frames)
      ensures !r.Dropped? ==> big == EndSeen(more, old(big), old(Value()), old(args.totalUsedTextPool)).big
      ensures !r.Dropped? ==>
        Value() == FilledTables(EndSeen(more, old(big), old(Value()), old(args.totalUsedTextPool)).tables)
    {
      hide Args.Valid, ClientState.Ok, ClientState.State, DirectSeen, ValidTables, Apart;
      if |big| + |more| + 1 >= BIG_INFO_STRING {
        return Dropped(BigConfigStringTooLong);
      }
      big := Glue(big, more);
      r := Direct(big);
    }
  }

  lemma StateValid(state: ClientState)
    requires state.Ok()
    ensures ValidTables(state.State()) && Whole(state.State().cl) && Whole(state.State().ext)
  {}

  lemma SetEffect(g: Tables, index: int, s: CString)
    requires ValidTables(g)
    ensures var e := SetConfigString(g, index, s);
      if !(0 <= index < 2 * MAX_CONFIGSTRINGS) then e.response == Dropped(Configstring)
      else if GetAny(g, index) == s then e.response == Nothing && e.tables == g
      else
        && e.tables == Modified(g, index, s)
        && e.response == if PackedSize(NewStrings(g, index, s), MAX_CONFIGSTRINGS) <= MAX_GAMESTATE_CHARS then Nothing
                         else Dropped(Configstring)
  {
    hide ValidTables, PackedSize, NewStrings, GetAny, Modified;
  }
}
