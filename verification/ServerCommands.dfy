/**
 Server commands as the game module asks for them.  A configstring too long for one
 command arrives in pieces: `x` starts it, `y` continues it, `z` ends it and sets it.
 */
module ServerCommands {
  import opened Common
  import opened Message
  import opened GameState
  import opened ConfigStrings
  import opened CommandText
  import Tokenizer


  datatype Error = EmptyBigConfigString | BigConfigStringTooLong | Configstring | Disconnected

  datatype Response = Nothing | ForGame(text: string) | Dropped(error: Error)

  /** What setting a configstring does. */
  datatype Change = Change(tables: Tables, response: Response)

  /** The tables, the buffer for a configstring in pieces, and what the game gets to see. */
  datatype Effect = Effect(tables: Tables, big: CString, response: Response)

  // ------------------------------------------------------------ pieces of a command

  function SkipBlanks(s: CString): (r: CString)
    ensures |r| <= |s| && r == s[|s| - |r|..]
    ensures r != "" ==> r[0] != ' '
  {
    if s != "" && s[0] == ' ' then SkipBlanks(s[1..]) else s
  }

  /** What follows the first word and the blank behind it. */
  function AfterWord(s: CString): CString {
    if s == "" then "" else if s[0] == ' ' then s[1..] else AfterWord(s[1..])
  }

  function DropWhiteSpace(s: CString): CString {
    s[SkipSpace(s, 0)..]
  }

  predicate IsDigit(c: char) { '0' <= c <= '9' }

  function Digits(s: string, value: nat): nat {
    if s == "" || !IsDigit(s[0]) then value else Digits(s[1..], 10 * value + (s[0] as int - '0' as int))
  }

  /** The number at the start of a string, as the C library reads it. */
  function Atoi(s: string): int {
    if s == "" then 0
    else if s[0] == ' ' || '\t' <= s[0] <= '\r' then Atoi(s[1..])
    else if s[0] == '-' then 0 - Digits(s[1..], 0)
    else if s[0] == '+' then Digits(s[1..], 0)
    else Digits(s, 0)
  }

  // ------------------------------------------------------------ what a command does

  function SetConfigString(g: Tables, index: int, s: CString): (r: Change)
    requires ValidTables(g)
    ensures ValidTables(r.tables) && !r.response.ForGame?
  {
    hide Valid, Packed, NewStrings;
    if !(0 <= index < 2 * MAX_CONFIGSTRINGS) then Change(g, Dropped(Configstring))
    else if GetAny(g, index) == s then Change(g, Nothing)
    else
      ModifiedValid(g, index, s);
      var fits := PackedSize(NewStrings(g, index, s), MAX_CONFIGSTRINGS) <= MAX_GAMESTATE_CHARS;
      Change(Modified(g, index, s), if fits then Nothing else Dropped(Configstring))
  }

  function Argument(args: seq<string>, i: nat): string { if i < |args| then args[i] else "" }

  /** A `d` command: argument 1 is the index, argument 2 the rest of the line. */
  function DirectCommand(us: CString, g: Tables): (r: Change)
    requires ValidTables(g)
    ensures ValidTables(r.tables) && !r.response.ForGame?
  {
    hide ValidTables, Tokens;
    var args := Tokens(us, 0, 0, 3);
    TokensOneByte(us, 0, 0, 3);
    SetConfigString(g, Atoi(Argument(args, 1)), Argument(args, 2))
  }

  /** The whole of the pieces once the last of them is there. */
  function Executed(whole: CString, g: Tables): (r: Change)
    requires ValidTables(g)
    ensures ValidTables(r.tables) && !r.response.ForGame?
  {
    hide ValidTables, DirectCommand;
    if |whole| + 1 < BIG_INFO_STRING then DirectCommand(whole, g) else Change(g, Dropped(BigConfigStringTooLong))
  }

  predicate OneByte(s: string) { forall i | 0 <= i < |s| :: 0 < s[i] as int < 256 }

  lemma {:induction false} TokensOneByte(text: string, p: nat, argc: nat, max: nat)
    requires p <= |text| && OneByte(text)
    ensures forall j | 0 <= j < |Tokens(text, p, argc, max)| :: OneByte(Tokens(text, p, argc, max)[j])
    decreases |text| - p
  {
    if argc + 1 < max && TokenStart(text, p) < |text| {
      var s := TokenStart(text, p);
      TokensStep(text, p, argc, max);
      if TokenEnd(text, s) < |text| {
        TokensOneByte(text, AfterToken(text, s), argc + 1, max);
      }
    }
  }

  function Glue(a: CString, b: CString): (r: CString)
    ensures |r| == |a| + |b|
  {
    a + b
  }

  lemma GlueAssociates(a: CString, b: CString, c: CString)
    ensures Glue(Glue(a, b), c) == Glue(a, Glue(b, c))
    ensures Glue(a, "") == a && Glue("", a) == a
  {}

  function StartPieces(rest: CString, big: CString, g: Tables): (r: Effect)
    ensures rest != "" ==> r.big <= "d " + rest && |r.big| == (if |rest| < 8189 then |rest| + 2 else 8191)
  {
    if rest == "" then Effect(g, big, Dropped(EmptyBigConfigString))
    else Effect(g, Tokenizer.Cut("d " + rest, BIG_INFO_STRING - 1), Nothing)
  }

  function AddPiece(more: CString, big: CString, g: Tables): Effect {
    if |big| + |more| >= BIG_INFO_STRING then Effect(g, big, Dropped(BigConfigStringTooLong))
    else Effect(g, Glue(big, more), Nothing)
  }

  function With(c: Change, big: CString): Effect { Effect(c.tables, big, c.response) }

  /** Part of a configstring in pieces. */
  predicate IsPiece(cmd: char) { cmd == 'x' || cmd == 'y' || cmd == 'z' }

  /** An `x`, `y` or `z` with its arguments `rest`. */
  function Piece(cmd: char, rest: CString, big: CString, g: Tables): (r: Effect)
    requires ValidTables(g)
    ensures ValidTables(r.tables)
  {
    hide ValidTables, AfterWord, EndPieces;
    if cmd == 'x' then StartPieces(rest, big, g)
    else if cmd == 'y' then AddPiece(AfterWord(rest), big, g)
    else EndPieces(AfterWord(rest), big, g)
  }

  /** Any other command; `us` is the whole line. */
  function PlainCommand(cmd: char, us: CString, g: Tables): (r: Change)
    requires ValidTables(g)
    ensures ValidTables(r.tables)
  {
    hide ValidTables, DirectCommand;
    if cmd == 'd' then DirectCommand(us, g)
    else if cmd == 'w' then Change(g, Dropped(Disconnected))
    else Change(g, ForGame(us))
  }

  /** What command `cmd` does with its arguments `rest`; `us` is the whole line. */
  function Dispatch(cmd: char, us: CString, rest: CString, big: CString, g: Tables): (r: Effect)
    requires ValidTables(g)
    ensures ValidTables(r.tables)
  {
    hide ValidTables, Piece, PlainCommand;
    if IsPiece(cmd) then Piece(cmd, rest, big, g) else With(PlainCommand(cmd, us, g), big)
  }

  /** The last piece is put behind the others if there is room, and the whole is executed. */
  function EndPieces(more: CString, big: CString, g: Tables): (r: Effect)
    requires ValidTables(g)
    ensures ValidTables(r.tables)
  {
    hide ValidTables, Executed;
    var whole := Glue(big, more);
    With(Executed(whole, g), if |whole| + 1 < BIG_INFO_STRING then whole else big)
  }

  function Handle(us: CString, big: CString, g: Tables): (r: Effect)
    requires ValidTables(g)
    ensures ValidTables(r.tables)
  {
    hide ValidTables, Dispatch;
    var s := SkipBlanks(us);
    if s == "" then Effect(g, big, Nothing) else Dispatch(s[0], us, SkipBlanks(s[1..]), big, g)
  }

  /** Commands executed one after the other, until one aborts the connection. */
  function Run(cmds: seq<CString>, big: CString, g: Tables): (r: Effect)
    requires ValidTables(g)
    ensures ValidTables(r.tables)
  {
    hide ValidTables, Handle;
    if cmds == [] then Effect(g, big, Nothing)
    else
      var e := Handle(cmds[0], big, g);
      if e.response.Dropped? then e else Run(cmds[1..], e.big, e.tables)
  }

  // ------------------------------------------------------------ splitting a direct command

  /** An index as it is written in a command. */
  predicate IndexText(n: CString) { n != "" && IsWord(n) }

  lemma WordHasNoSpace(n: CString)
    requires IndexText(n)
    ensures !HasSpace(n) && Shown(n) == n && Printable(n) && n[0] != ' '
  {
    forall i | 0 <= i < |n|
      ensures n[i] != ' '
    {
      assert !EndsWord(n, i);
    }
  }

  lemma {:induction false} SkipSpaceShifted(pre: string, s: string, p: nat)
    requires p <= |s|
    ensures SkipSpace(pre + s, |pre| + p) == |pre| + SkipSpace(s, p)
    decreases |s| - p
  {
    if p < |s| && IsWhiteSpace(s[p]) {
      SkipSpaceShifted(pre, s, p + 1);
    }
  }

  lemma RestOfLine(us: string, pre: string, text: CString)
    requires us == pre + text
    ensures Tokens(us, |pre|, 2, 3) == [DropWhiteSpace(text)]
  {
    SkipSpaceShifted(pre, text, 0);
    var k := SkipSpace(text, 0);
    assert us[|pre| + k..] == text[k..];
  }

  /** The line as it is sent for one configstring, whole or in pieces. */
  function Line(cmd: char, n: CString, text: CString): (line: CString)
    requires 0 < cmd as int < 256
    ensures |line| == |n| + |text| + 3
  {
    [cmd] + " " + n + " " + text
  }

  lemma LineParts(cmd: char, n: CString, text: CString)
    requires 0 < cmd as int < 256
    ensures var line := Line(cmd, n, text);
            && line[0] == cmd && line[1] == ' ' && line[1..] == " " + n + " " + text && line[2..] == n + " " + text
            && line[2..2 + |n|] == n && line[2 + |n|] == ' ' && line[3 + |n|..] == text
  {}

  lemma NameReadsBack(us: string)
    requires |us| > 2 && us[0] == 'd' && us[1] == ' '
    ensures Tokens(us, 0, 0, 3) == ["d"] + Tokens(us, 2, 1, 3)
  {
    hide Tokens;
    assert !EndsWord("d", 0);
    assert us[0..1] == "d";
    ShownReadsBack(us, 0, "d", 1, 0, 3);
    SpaceSkipped(us, 1, 1, 3);
  }

  /** A `d` command splits into its name, its index and everything behind, leading whitespace dropped. */
  lemma DirectSplits(n: CString, text: CString)
    requires IndexText(n)
    ensures Tokens(Line('d', n, text), 0, 0, 3) == ["d", n, DropWhiteSpace(text)]
  {
    var us := Line('d', n, text);
    WordHasNoSpace(n);
    LineParts('d', n, text);
    hide *;
    NameReadsBack(us);
    ShownReadsBack(us, 2, n, 2 + |n|, 1, 3);
    SpaceSkipped(us, 2 + |n|, 2, 3);
    assert us == us[..3 + |n|] + text;
    RestOfLine(us, us[..3 + |n|], text);
  }

  // ------------------------------------------------------------ reassembling a long configstring

  lemma {:induction false} AfterWordIs(n: CString, part: CString, s: CString)
    requires ' ' !in n && s == n + " " + part
    ensures AfterWord(s) == part
  {
    if n == "" {
      assert s[1..] == part;
    } else {
      assert s[1..] == n[1..] + " " + part;
      AfterWordIs(n[1..], part, s[1..]);
    }
  }

  /** Between the first and the last piece: more pieces, and commands that are no pieces. */
  datatype Step = More(part: CString) | Other(cmd: CString)

  /** No `x`, `y` or `z`: the command leaves the buffer alone. */
  predicate Plain(cmd: CString) {
    var s := SkipBlanks(cmd);
    s != "" ==> !IsPiece(s[0])
  }

  predicate Interleaved(steps: seq<Step>) {
    forall i | 0 <= i < |steps| :: steps[i].Other? ==> Plain(steps[i].cmd)
  }

  function Sent(n: CString, steps: seq<Step>): (cmds: seq<CString>)
    ensures |cmds| == |steps|
  {
    if steps == [] then []
    else [if steps[0].More? then Line('y', n, steps[0].part) else steps[0].cmd] + Sent(n, steps[1..])
  }

  function Others(steps: seq<Step>): seq<CString> {
    if steps == [] then []
    else if steps[0].More? then Others(steps[1..])
    else [steps[0].cmd] + Others(steps[1..])
  }

  function Parts(steps: seq<Step>): CString {
    if steps == [] then ""
    else if steps[0].More? then Glue(steps[0].part, Parts(steps[1..]))
    else Parts(steps[1..])
  }

  /** A plain command does the same whatever the buffer holds, and keeps it. */
  lemma PlainIgnoresBuffer(cmd: CString, big: CString, any: CString, g: Tables)
    requires ValidTables(g) && Plain(cmd)
    ensures Handle(cmd, big, g) == Handle(cmd, any, g).(big := big)
  {
    hide ValidTables, SkipBlanks, Piece, PlainCommand;
  }

  lemma PieceRest(cmd: char, n: CString, part: CString)
    requires IndexText(n) && IsPiece(cmd)
    ensures SkipBlanks(Line(cmd, n, part)) == Line(cmd, n, part)
    ensures SkipBlanks(Line(cmd, n, part)[1..]) == Line(cmd, n, part)[2..]
    ensures AfterWord(Line(cmd, n, part)[2..]) == part
  {
    var line := Line(cmd, n, part);
    WordHasNoSpace(n);
    LineParts(cmd, n, part);
    hide Line;
    assert line[1..][1..] == line[2..];
    assert SkipBlanks(line[1..]) == SkipBlanks(line[2..]);
    AfterWordIs(n, part, line[2..]);
  }

  lemma SameRest(n: CString, part: CString)
    ensures "d " + Line('x', n, part)[2..] == Line('d', n, part)
  {}

  lemma StartPiece(n: CString, part: CString, big: CString, g: Tables)
    requires ValidTables(g) && IndexText(n) && |Line('x', n, part)| < MAX_STRING_CHARS
    ensures Handle(Line('x', n, part), big, g) == Effect(g, Line('d', n, part), Nothing)
  {
    hide ValidTables, SkipBlanks, AfterWord, DirectCommand, EndPieces, Line;
    PieceRest('x', n, part);
    LineParts('x', n, part);
    SameRest(n, part);
  }

  lemma MorePiece(n: CString, part: CString, big: CString, g: Tables)
    requires ValidTables(g) && IndexText(n)
    ensures Handle(Line('y', n, part), big, g) == AddPiece(part, big, g)
  {
    hide ValidTables, SkipBlanks, AfterWord, DirectCommand, EndPieces, StartPieces, AddPiece, Line;
    PieceRest('y', n, part);
    LineParts('y', n, part);
  }

  lemma LastPiece(n: CString, part: CString, big: CString, g: Tables)
    requires ValidTables(g) && IndexText(n)
    ensures Handle(Line('z', n, part), big, g) == EndPieces(part, big, g)
  {
    hide ValidTables, SkipBlanks, AfterWord, DirectCommand, EndPieces, StartPieces, AddPiece, Line;
    PieceRest('z', n, part);
    LineParts('z', n, part);
  }

  /** A run that ends with change `c`; a run aborted for the length of a piece says nothing about the tables. */
  predicate Ends(r: Effect, c: Change) {
    r.response == c.response && (r.response == Dropped(BigConfigStringTooLong) || r.tables == c.tables)
  }

  /** From any buffer on: the pieces collect behind it, and the last one executes the whole. */
  lemma {:induction false} PiecesCollect(n: CString, steps: seq<Step>, last: CString, big: CString, any: CString,
                                         g: Tables)
    requires ValidTables(g) && IndexText(n) && Interleaved(steps) && !Run(Others(steps), any, g).response.Dropped?
    ensures Ends(Run(Sent(n, steps) + [Line('z', n, last)], big, g),
                 Executed(Glue(Glue(big, Parts(steps)), last), Run(Others(steps), any, g).tables))
    decreases steps
  {
    hide ValidTables, Handle, Line, Glue, Plain, Executed, IndexText, EndPieces;
    var z := Line('z', n, last);
    var cmds := Sent(n, steps) + [z];
    if steps == [] {
      LastPiece(n, last, big, g);
      EndExecutes(last, big, g);
      assert cmds == [z] && cmds[1..] == [];
      GlueAssociates(big, "", "");
    } else {
      var rest := steps[1..];
      assert cmds[1..] == Sent(n, rest) + [z];
      match steps[0] {
        case More(part) =>
          MorePiece(n, part, big, g);
          GlueAssociates(big, part, Parts(rest));
          if |big| + |part| < BIG_INFO_STRING {
            PiecesCollect(n, rest, last, Glue(big, part), any, g);
          } else {
            TooLongIsDropped(Glue(Glue(big, Parts(steps)), last), Run(Others(steps), any, g).tables);
          }
        case Other(cmd) =>
          PlainIgnoresBuffer(cmd, big, any, g);
          assert Others(steps)[1..] == Others(rest);
          PlainIgnoresBuffer(cmd, any, any, g);
          PiecesCollect(n, rest, last, big, any, Handle(cmd, any, g).tables);
      }
    }
  }

  lemma EndExecutes(more: CString, big: CString, g: Tables)
    requires ValidTables(g)
    ensures EndPieces(more, big, g).tables == Executed(Glue(big, more), g).tables
    ensures EndPieces(more, big, g).response == Executed(Glue(big, more), g).response
  {
    hide ValidTables, Executed, Glue;
  }

  lemma TooLongIsDropped(whole: CString, g: Tables)
    requires ValidTables(g) && |whole| >= BIG_INFO_STRING
    ensures Executed(whole, g).response == Dropped(BigConfigStringTooLong)
  {}

  /** All commands of a configstring in pieces, with others in between. */
  function Fragmented(n: CString, first: CString, steps: seq<Step>, last: CString): seq<CString> {
    [Line('x', n, first)] + (Sent(n, steps) + [Line('z', n, last)])
  }

  function Text(first: CString, steps: seq<Step>, last: CString): CString {
    Glue(Glue(first, Parts(steps)), last)
  }

  /** A run with the effect of one direct command, or aborted because that is too long. */
  predicate AsDirect(r: Effect, direct: CString, whole: Effect) {
    if |direct| + 1 < BIG_INFO_STRING then r.response == whole.response && r.tables == whole.tables
    else r.response == Dropped(BigConfigStringTooLong)
  }

  /**
   Behind the commands in between, the pieces have the effect of one direct command, provided the
   whole fits the buffer; otherwise, and only then, they abort the connection for their length.
   */
  lemma FragmentsAreDirect(n: CString, first: CString, steps: seq<Step>, last: CString, big: CString, g: Tables)
    requires ValidTables(g) && IndexText(n) && Interleaved(steps) && |Line('x', n, first)| < MAX_STRING_CHARS
    requires !Run(Others(steps), big, g).response.Dropped?
    ensures var direct, before := Line('d', n, Text(first, steps, last)), Run(Others(steps), big, g);
            AsDirect(Run(Fragmented(n, first, steps, last), big, g), direct, Handle(direct, before.big, before.tables))
  {
    hide Run, Handle, Executed, DirectCommand, Fragmented, Text, Line, Others, ValidTables, IndexText, Interleaved;
    var text, before := Text(first, steps, last), Run(Others(steps), big, g);
    FragmentsExecute(n, first, steps, last, big, g);
    DirectHandled(n, text, before.big, before.tables);
    ExecutedIsDirect(Line('d', n, text), before.tables);
  }

  lemma ExecutedIsDirect(direct: CString, g: Tables)
    requires ValidTables(g)
    ensures if |direct| + 1 < BIG_INFO_STRING then
              Executed(direct, g) == DirectCommand(direct, g)
                && Executed(direct, g).response != Dropped(BigConfigStringTooLong)
            else Executed(direct, g).response == Dropped(BigConfigStringTooLong)
  {
    hide ValidTables, Tokens, Atoi, PackedSize, Modified, NewStrings, GetAny;
  }

  lemma FragmentsExecute(n: CString, first: CString, steps: seq<Step>, last: CString, big: CString, g: Tables)
    requires ValidTables(g) && IndexText(n) && Interleaved(steps) && |Line('x', n, first)| < MAX_STRING_CHARS
    requires !Run(Others(steps), big, g).response.Dropped?
    ensures var r := Run(Fragmented(n, first, steps, last), big, g);
            var done := Executed(Line('d', n, Text(first, steps, last)), Run(Others(steps), big, g).tables);
            r.response == done.response && (r.response == Dropped(BigConfigStringTooLong) || r.tables == done.tables)
  {
    StartPiece(n, first, big, g);
    GlueLine(n, first, Parts(steps), last);
    hide ValidTables, Handle, Line, Glue, Executed, IndexText, Interleaved, Parts;
    assert Fragmented(n, first, steps, last)[1..] == Sent(n, steps) + [Line('z', n, last)];
    PiecesCollect(n, steps, last, Line('d', n, first), big, g);
  }

  lemma GlueLine(n: CString, first: CString, middle: CString, last: CString)
    ensures Glue(Glue(Line('d', n, first), middle), last) == Line('d', n, Glue(Glue(first, middle), last))
  {}

  lemma DirectHandled(n: CString, text: CString, big: CString, g: Tables)
    requires ValidTables(g) && IndexText(n)
    ensures Handle(Line('d', n, text), big, g).tables == DirectCommand(Line('d', n, text), g).tables
    ensures Handle(Line('d', n, text), big, g).response == DirectCommand(Line('d', n, text), g).response
  {
    hide ValidTables, DirectCommand, StartPieces, AddPiece, EndPieces, AfterWord;
  }

  lemma DirectSets(n: CString, text: CString, g: Tables)
    requires ValidTables(g) && IndexText(n)
    ensures DirectCommand(Line('d', n, text), g) == SetConfigString(g, Atoi(n), DropWhiteSpace(text))
  {
    DirectSplits(n, text);
    hide ValidTables, Tokens, Atoi, DropWhiteSpace, SetConfigString;
  }

  /**
   A configstring that arrived in pieces reads back as its parts put together, leading
   whitespace dropped; every other configstring is what the commands in between left.
   */
  lemma FragmentsReassemble(n: CString, first: CString, steps: seq<Step>, last: CString, big: CString, g: Tables,
                            j: Index)
    requires ValidTables(g) && IndexText(n) && Interleaved(steps) && |Line('x', n, first)| < MAX_STRING_CHARS
    requires !Run(Others(steps), big, g).response.Dropped?
    requires !Run(Fragmented(n, first, steps, last), big, g).response.Dropped?
    ensures GetAny(Run(Fragmented(n, first, steps, last), big, g).tables, j) ==
            if j == Atoi(n) then DropWhiteSpace(Text(first, steps, last))
            else GetAny(Run(Others(steps), big, g).tables, j)
  {
    hide *;
    hide Run;
    var text, before := Text(first, steps, last), Run(Others(steps), big, g);
    FragmentsExecute(n, first, steps, last, big, g);
    ExecutedIsDirect(Line('d', n, text), before.tables);
    DirectSets(n, text, before.tables);
    SetReads(before.tables, Atoi(n), DropWhiteSpace(text), j);
  }

  lemma SetReads(g: Tables, index: int, s: CString, j: Index)
    requires ValidTables(g) && !SetConfigString(g, index, s).response.Dropped?
    ensures 0 <= index < 2 * MAX_CONFIGSTRINGS
    ensures GetAny(SetConfigString(g, index, s).tables, j) == if j == index then s else GetAny(g, j)
  {
    hide Valid, Packed, PackedSize, NewStrings, Get, Modified;
    if GetAny(g, index) != s {
      ModifiedGets(g, index, s, j);
    }
  }

  // ------------------------------------------------------------ indices are decimal numbers

  function DigitChar(d: nat): (c: char)
    requires d < 10
    ensures IsDigit(c) && c as int - '0' as int == d
  {
    ('0' as int + d) as char
  }

  /** A number as people write it. */
  function Decimal(k: nat): (s: CString)
    ensures s != "" && forall i | 0 <= i < |s| :: IsDigit(s[i])
  {
    if k < 10 then [DigitChar(k)] else Decimal(k / 10) + [DigitChar(k % 10)]
  }

  lemma {:induction false} DigitsMore(s: string, c: char, value: nat)
    requires IsDigit(c) && forall i | 0 <= i < |s| :: IsDigit(s[i])
    ensures Digits(s + [c], value) == 10 * Digits(s, value) + (c as int - '0' as int)
    decreases |s|
  {
    if s == "" {
      assert [c][1..] == "" && "" + [c] == [c];
      assert Digits("", 10 * value + (c as int - '0' as int)) == 10 * value + (c as int - '0' as int);
    } else {
      assert (s + [c])[1..] == s[1..] + [c];
      DigitsMore(s[1..], c, 10 * value + (s[0] as int - '0' as int));
    }
  }

  lemma {:induction false} DigitsOfDecimal(k: nat)
    ensures Digits(Decimal(k), 0) == k
  {
    if k < 10 {
      assert Decimal(k)[1..] == "";
    } else {
      DigitsOfDecimal(k / 10);
      DigitsMore(Decimal(k / 10), DigitChar(k % 10), 0);
    }
  }

  /** Reading a number goes on to the first character that is no digit. */
  lemma {:induction false} DigitsStop(s: string, rest: string, value: nat)
    requires (forall i | 0 <= i < |s| :: IsDigit(s[i])) && (rest != "" ==> !IsDigit(rest[0]))
    ensures Digits(s + rest, value) == Digits(s, value)
    decreases |s|
  {
    if s == "" {
      assert s + rest == rest;
    } else {
      assert (s + rest)[1..] == s[1..] + rest;
      DigitsStop(s[1..], rest, 10 * value + (s[0] as int - '0' as int));
    }
  }

  lemma {:induction false} AtoiBehind(blanks: string, s: string)
    requires forall i | 0 <= i < |blanks| :: blanks[i] == ' ' || 9 <= blanks[i] as int <= 13
    ensures Atoi(blanks + s) == Atoi(s)
    decreases |blanks|
  {
    if blanks == "" {
      assert blanks + s == s;
    } else {
      hide Digits;
      assert (blanks + s)[1..] == blanks[1..] + s;
      AtoiBehind(blanks[1..], s);
    }
  }

  /** What is read of a decimal number is the number, behind blanks and a sign and in front of anything else. */
  lemma AtoiOfDecimal(blanks: string, k: nat, rest: string)
    requires forall i | 0 <= i < |blanks| :: blanks[i] == ' ' || 9 <= blanks[i] as int <= 13
    requires rest != "" ==> !('0' <= rest[0] <= '9')
    ensures Atoi(blanks + (Decimal(k) + rest)) == k
    ensures Atoi(blanks + (['+'] + (Decimal(k) + rest))) == k
    ensures Atoi(blanks + (['-'] + (Decimal(k) + rest))) == 0 - k
  {
    var d := Decimal(k) + rest;
    AtoiBehind(blanks, d);
    AtoiBehind(blanks, ['+'] + d);
    AtoiBehind(blanks, ['-'] + d);
    DigitsStop(Decimal(k), rest, 0);
    DigitsOfDecimal(k);
    assert d[0] == Decimal(k)[0];
    SignedAtoi(d);
  }

  /** Behind blanks and a sign, anything but a digit is read as zero, and so is nothing. */
  lemma AtoiOfOther(blanks: string, rest: string)
    requires forall i | 0 <= i < |blanks| :: blanks[i] == ' ' || 9 <= blanks[i] as int <= 13
    requires rest != "" ==> !('0' <= rest[0] <= '9')
    ensures Atoi(blanks + (['+'] + rest)) == 0 && Atoi(blanks + (['-'] + rest)) == 0
    ensures (rest != "" ==> rest[0] !in {' ', '+', '-'} && !(9 <= rest[0] as int <= 13)) ==> Atoi(blanks + rest) == 0
  {
    AtoiBehind(blanks, ['+'] + rest);
    AtoiBehind(blanks, ['-'] + rest);
    AtoiBehind(blanks, rest);
    assert (['+'] + rest)[1..] == rest && (['-'] + rest)[1..] == rest;
  }

  lemma SignedAtoi(d: string)
    requires d != "" && IsDigit(d[0])
    ensures Atoi(d) == Digits(d, 0) && Atoi(['+'] + d) == Digits(d, 0) && Atoi(['-'] + d) == 0 - Digits(d, 0)
  {
    hide Digits;
    assert (['+'] + d)[1..] == d && (['-'] + d)[1..] == d;
  }

  lemma DecimalIsIndex(k: nat)
    ensures IndexText(Decimal(k)) && Atoi(Decimal(k)) == k
  {
    AtoiOfDecimal("", k, "");
    assert "" + (Decimal(k) + "") == Decimal(k);
    forall i | 0 <= i < |Decimal(k)|
      ensures !EndsWord(Decimal(k), i)
    {
      assert IsDigit(Decimal(k)[i]);
    }
  }

  /** Text that starts with no whitespace, as configstrings are sent. */
  predicate Flush(text: CString) { text != "" ==> text[0] > ' ' }

  lemma FlushIsKept(text: CString)
    requires Flush(text)
    ensures DropWhiteSpace(text) == text
  {}

  lemma SetOutcome(g: Tables, index: int, s: CString)
    requires ValidTables(g)
    ensures var r := SetConfigString(g, index, s).response;
            r == if !(0 <= index < 2 * MAX_CONFIGSTRINGS) then Dropped(Configstring)
                 else if GetAny(g, index) != s
                         && PackedSize(NewStrings(g, index, s), MAX_CONFIGSTRINGS) > MAX_GAMESTATE_CHARS
                 then Dropped(Configstring)
                 else Nothing
  {
    hide Valid, PackedSize, NewStrings, Modified, GetAny;
  }

  /** The command `d` with a number and a text sets that configstring to that text, and no other. */
  lemma DirectSetsIndex(us: CString, k: nat, text: CString, big: CString, g: Tables, j: Index)
    requires ValidTables(g) && us == "d " + Decimal(k) + " " + text && Flush(text)
    ensures var e := Handle(us, big, g);
            && (e.response.Dropped? <==>
                 k >= 4884
                 || (GetAny(g, k) != text && PackedSize(NewStrings(g, k, text), 2442) > 0x20000))
            && (!e.response.Dropped? ==> GetAny(e.tables, j) == if j == k then text else GetAny(g, j))
            && (!e.response.Dropped? ==> e.response == Nothing)
  {
    assert us == Line('d', Decimal(k), text);
    DecimalIsIndex(k);
    FlushIsKept(text);
    hide ValidTables, Handle, Line, Decimal, Atoi, IndexText, DropWhiteSpace, NewStrings, PackedSize, GetAny;
    DirectHandled(Decimal(k), text, big, g);
    DirectSets(Decimal(k), text, g);
    SetOutcome(g, k, text);
    hide SetConfigString;
    if !SetConfigString(g, k, text).response.Dropped? { SetReads(g, k, text, j); }
  }

  /** A configstring that arrives in pieces, whatever arrives in between: the number in front of them is its index. */
  lemma PiecesSetIndex(k: nat, first: CString, steps: seq<Step>, last: CString, big: CString, g: Tables, j: Index)
    requires ValidTables(g) && Interleaved(steps) && |Line('x', Decimal(k), first)| < MAX_STRING_CHARS
    requires !Run(Others(steps), big, g).response.Dropped?
    requires !Run(Fragmented(Decimal(k), first, steps, last), big, g).response.Dropped?
    requires Flush(Text(first, steps, last))
    ensures GetAny(Run(Fragmented(Decimal(k), first, steps, last), big, g).tables, j) ==
            if j == k then Text(first, steps, last) else GetAny(Run(Others(steps), big, g).tables, j)
  {
    DecimalIsIndex(k);
    FlushIsKept(Text(first, steps, last));
    hide *;
    hide Run;
    FragmentsReassemble(Decimal(k), first, steps, last, big, g, j);
  }

  /** What any other command does: `w` disconnects, blanks do nothing, and the rest is for the game. */
  lemma OtherCommands(us: CString, blanks: nat, big: CString, g: Tables)
    requires ValidTables(g) && blanks <= |us| && (forall i | 0 <= i < blanks :: us[i] == ' ')
    requires blanks < |us| ==> us[blanks] !in {' ', 'd', 'x', 'y', 'z'}
    ensures Handle(us, big, g) == Effect(g, big, if blanks == |us| then Nothing
                                                 else if us[blanks] == 'w' then Dropped(Disconnected)
                                                 else ForGame(us))
  {
    BlanksSkipped(us, blanks);
    hide ValidTables, SkipBlanks, DirectCommand, Piece;
    if blanks < |us| { assert us[blanks..][0] == us[blanks]; }
  }

  lemma {:induction false} BlanksSkipped(s: CString, blanks: nat)
    requires blanks <= |s| && (forall i | 0 <= i < blanks :: s[i] == ' ') && (blanks < |s| ==> s[blanks] != ' ')
    ensures SkipBlanks(s) == s[blanks..]
    decreases blanks
  {
    if blanks > 0 {
      BlanksSkipped(s[1..], blanks - 1);
      assert s[1..][blanks - 1..] == s[blanks..];
    }
  }
}
