/**
 Splitting a command line into arguments, and printing arguments as a command line.
 These are the texts alone; the pools they are stored in are in module Tokenizer.
 */
module CommandText {
  // ------------------------------------------------------------ scanning

  /** Control characters and space, except the three colour marks. */
  predicate IsWhiteSpace(c: char) {
    c != '\U{14}' && c != '\U{15}' && c != '\U{16}' && c != '\0' && c <= ' '
  }

  predicate CommentAt(text: string, p: nat, second: char) {
    p + 1 < |text| && text[p] == '/' && text[p + 1] == second
  }

  function SkipSpace(text: string, p: nat): (q: nat)
    requires p <= |text|
    ensures p <= q <= |text|
    ensures q < |text| ==> !IsWhiteSpace(text[q])
    decreases |text| - p
  {
    if p < |text| && IsWhiteSpace(text[p]) then SkipSpace(text, p + 1) else p
  }

  /** Where a comment that starts at `p` is closed, or the end of the text. */
  function CommentEnd(text: string, p: nat): (q: nat)
    requires p <= |text|
    ensures p <= q <= |text|
    ensures q < |text| ==> q + 1 < |text|
    decreases |text| - p
  {
    if p == |text| || (p + 1 < |text| && text[p] == '*' && text[p + 1] == '/') then p
    else CommentEnd(text, p + 1)
  }

  /** Where the next argument starts; the end of the text if there is none. */
  function TokenStart(text: string, p: nat): (q: nat)
    requires p <= |text|
    ensures p <= q <= |text|
    ensures q < |text| ==> !IsWhiteSpace(text[q]) && !CommentAt(text, q, '/') && !CommentAt(text, q, '*')
    decreases |text| - p
  {
    var s := SkipSpace(text, p);
    if s == |text| || CommentAt(text, s, '/') then |text|
    else if CommentAt(text, s, '*') then
      var e := CommentEnd(text, s);
      if e == |text| then e else TokenStart(text, e + 2)
    else s
  }

  function QuoteEnd(text: string, p: nat): (q: nat)
    requires p <= |text|
    ensures p <= q <= |text|
    decreases |text| - p
  {
    if p == |text| || text[p] == '"' then p else QuoteEnd(text, p + 1)
  }

  predicate EndsWord(text: string, p: nat)
    requires p < |text|
  {
    IsWhiteSpace(text[p]) || text[p] == '"' || CommentAt(text, p, '/') || CommentAt(text, p, '*')
  }

  function WordEnd(text: string, p: nat): (q: nat)
    requires p <= |text|
    ensures p <= q <= |text|
    decreases |text| - p
  {
    if p == |text| || EndsWord(text, p) then p else WordEnd(text, p + 1)
  }

  /** An argument may start at `s`. */
  predicate StartsToken(text: string, s: nat) {
    s < |text| && (text[s] == '"' || !EndsWord(text, s))
  }

  /** Where the argument that starts at `s` ends. */
  function TokenEnd(text: string, s: nat): (e: nat)
    requires StartsToken(text, s)
    ensures s < e <= |text|
  {
    if text[s] == '"' then QuoteEnd(text, s + 1) else WordEnd(text, s + 1)
  }

  function TokenAt(text: string, s: nat): string
    requires StartsToken(text, s)
  {
    text[if text[s] == '"' then s + 1 else s..TokenEnd(text, s)]
  }

  /** Where scanning goes on behind the argument; a closing quote is passed over. */
  function AfterToken(text: string, s: nat): (p: nat)
    requires StartsToken(text, s)
    ensures s < p <= |text|
  {
    var e := TokenEnd(text, s);
    if text[s] == '"' && e < |text| then e + 1 else e
  }

  /** The arguments from position `p` on, `argc` of at most `max` having been found; the last one takes the rest. */
  function Tokens(text: string, p: nat, argc: nat, max: nat): (args: seq<string>)
    requires p <= |text|
    ensures argc <= max ==> argc + |args| <= max
    decreases |text| - p
  {
    if argc >= max then []
    else if argc == max - 1 then [text[SkipSpace(text, p)..]]
    else
      var s := TokenStart(text, p);
      if s == |text| then []
      else if TokenEnd(text, s) == |text| then [TokenAt(text, s)]
      else [TokenAt(text, s)] + Tokens(text, AfterToken(text, s), argc + 1, max)
  }

  // ------------------------------------------------------------ printing

  predicate HasSpace(a: string) { ' ' in a }

  /** An argument as it is printed: in quotes when it has a space. */
  function Shown(a: string): string {
    if HasSpace(a) then "\"" + a + "\"" else a
  }

  function Join(args: seq<string>): string {
    if args == [] then ""
    else if |args| == 1 then Shown(args[0])
    else Shown(args[0]) + " " + Join(args[1..])
  }

  /** Nothing in `a` ends a word. */
  predicate IsWord(a: string) {
    forall i | 0 <= i < |a| :: !EndsWord(a, i)
  }

  /** An argument that survives printing: quoted text without quotes, or a plain word. */
  predicate Printable(a: string) {
    a != "" && if HasSpace(a) then '"' !in a else IsWord(a)
  }

  // ------------------------------------------------------------ printing and splitting again

  lemma {:induction false} WordEndsAfter(text: string, p: nat, e: nat)
    requires p <= e <= |text| && (e < |text| ==> text[e] == ' ')
    requires forall i | p <= i < e :: !EndsWord(text, i)
    ensures WordEnd(text, p) == e
    decreases e - p
  {
    if p < e {
      WordEndsAfter(text, p + 1, e);
    }
  }

  lemma {:induction false} QuoteEndsAfter(text: string, p: nat, e: nat)
    requires p <= e < |text| && text[e] == '"'
    requires forall i | p <= i < e :: text[i] != '"'
    ensures QuoteEnd(text, p) == e
    decreases e - p
  {
    if p < e {
      QuoteEndsAfter(text, p + 1, e);
    }
  }

  /** A word stays a word when a space, or nothing, follows it. */
  lemma WordInText(text: string, s: nat, a: string, rest: string, i: nat)
    requires IsWord(a) && i < |a| && (rest == "" || rest[0] == ' ')
    requires s <= |text| && text[s..] == a + rest
    ensures s + i < |text| && !EndsWord(text, s + i)
  {
    assert text[s + i] == text[s..][i] == a[i];
    assert !EndsWord(a, i);
    if i + 1 < |a| {
      assert text[s + i + 1] == text[s..][i + 1] == a[i + 1];
    } else if rest != "" {
      assert text[s + i + 1] == text[s..][i + 1] == rest[0];
    }
  }

  lemma QuotedIsToken(text: string, s: nat, a: string, rest: string)
    requires '"' !in a && s <= |text| && text[s..] == "\"" + a + "\"" + rest
    ensures StartsToken(text, s) && TokenStart(text, s) == s && TokenEnd(text, s) == s + 1 + |a| < |text|
    ensures TokenAt(text, s) == a && AfterToken(text, s) == s + |a| + 2
  {
    var tail := "\"" + a + "\"" + rest;
    assert forall i | 0 <= i < |tail| :: text[s + i] == tail[i];
    forall i | s + 1 <= i < s + 1 + |a|
      ensures text[i] == a[i - s - 1]
    {
      assert text[s + (i - s)] == tail[i - s];
    }
    assert text[s] == tail[0] && text[s + (1 + |a|)] == tail[1 + |a|];
    assert text[s + 1..s + 1 + |a|] == a;
    hide QuoteEnd;
    QuoteEndsAfter(text, s + 1, s + 1 + |a|);
  }

  lemma WordIsToken(text: string, s: nat, a: string, rest: string)
    requires a != "" && IsWord(a) && (rest == "" || rest[0] == ' ') && s <= |text| && text[s..] == a + rest
    ensures StartsToken(text, s) && TokenStart(text, s) == s && TokenEnd(text, s) == s + |a|
    ensures TokenAt(text, s) == a && AfterToken(text, s) == s + |a|
  {
    hide WordEnd;
    forall i | s <= i < s + |a|
      ensures !EndsWord(text, i)
    {
      WordInText(text, s, a, rest, i - s);
    }
    assert rest != "" ==> text[s + |a|] == text[s..][|a|] == rest[0];
    WordEndsAfter(text, s + 1, s + |a|);
    assert text[s..s + |a|] == text[s..][..|a|] == a;
  }

  /** A printed argument is what stands at its place, whatever comes before it. */
  lemma ShownIsToken(text: string, s: nat, a: string, rest: string)
    requires Printable(a) && (rest == "" || rest[0] == ' ')
    requires s <= |text| && text[s..] == Shown(a) + rest
    ensures StartsToken(text, s) && TokenStart(text, s) == s && TokenAt(text, s) == a
    ensures AfterToken(text, s) == s + |Shown(a)|
    ensures TokenEnd(text, s) == |text| <==> rest == "" && !HasSpace(a)
  {
    assert |text| == s + |Shown(a)| + |rest|;
    hide StartsToken, TokenStart, TokenEnd, TokenAt, AfterToken, IsWord, HasSpace;
    if HasSpace(a) {
      QuotedIsToken(text, s, a, rest);
    } else {
      WordIsToken(text, s, a, rest);
    }
  }

  lemma NothingLeft(text: string, argc: nat, max: nat)
    requires argc + 1 < max
    ensures Tokens(text, |text|, argc, max) == []
  {}

  lemma SpaceSkipped(text: string, p: nat, argc: nat, max: nat)
    requires p < |text| && text[p] == ' '
    ensures Tokens(text, p, argc, max) == Tokens(text, p + 1, argc, max)
  {
    assert SkipSpace(text, p) == SkipSpace(text, p + 1);
    assert TokenStart(text, p) == TokenStart(text, p + 1);
    hide SkipSpace, TokenStart, TokenEnd, TokenAt, AfterToken;
  }

  lemma TokensStep(text: string, p: nat, argc: nat, max: nat)
    requires p <= |text| && argc + 1 < max && TokenStart(text, p) < |text|
    ensures var s := TokenStart(text, p);
            && StartsToken(text, s)
            && Tokens(text, p, argc, max) ==
               if TokenEnd(text, s) == |text| then [TokenAt(text, s)]
               else [TokenAt(text, s)] + Tokens(text, AfterToken(text, s), argc + 1, max)
  {
    hide TokenEnd, TokenAt, AfterToken;
  }

  /** One printed argument is read back, and reading stands behind it. */
  lemma ShownReadsBack(text: string, s: nat, a: string, next: nat, argc: nat, max: nat)
    requires Printable(a) && argc + 1 < max
    requires next == s + |Shown(a)| < |text| && text[s..next] == Shown(a) && text[next] == ' '
    ensures Tokens(text, s, argc, max) == [a] + Tokens(text, next, argc + 1, max)
  {
    hide *;
    assert text[s..] == text[s..next] + text[next..];
    ShownIsToken(text, s, a, text[next..]);
    TokensStep(text, s, argc, max);
  }

  lemma LastReadsBack(text: string, s: nat, a: string, argc: nat, max: nat)
    requires s <= |text| && text[s..] == Shown(a)
    requires Printable(a) && argc + 1 + (if HasSpace(a) then 1 else 0) < max
    ensures Tokens(text, s, argc, max) == [a]
  {
    assert Shown(a) + "" == Shown(a);
    ShownIsToken(text, s, a, "");
    if HasSpace(a) {
      NothingLeft(text, argc + 1, max);
    }
    hide *;
    TokensStep(text, s, argc, max);
  }

  /** Room for the arguments; a quoted last one needs one more, or an empty argument follows it. */
  predicate RoomFor(args: seq<string>, argc: nat, max: nat) {
    argc + |args| + (if args != [] && HasSpace(args[|args| - 1]) then 1 else 0) < max
  }

  lemma JoinOne(a: string)
    ensures Join([a]) == Shown(a)
  {}

  lemma JoinMore(args: seq<string>)
    requires |args| > 1
    ensures Join(args) == Shown(args[0]) + (" " + Join(args[1..]))
  {}

  /** Splitting what was printed gives the arguments back, wherever the printed text stands. */
  lemma {:induction false} JoinReadsBack(text: string, s: nat, args: seq<string>, argc: nat, max: nat)
    requires s <= |text| && text[s..] == Join(args)
    requires args != [] && RoomFor(args, argc, max) && forall i | 0 <= i < |args| :: Printable(args[i])
    ensures Tokens(text, s, argc, max) == args
    decreases |args|
  {
    hide Tokens, Printable, Join, Shown, HasSpace;
    var a := args[0];
    if |args| == 1 {
      assert args == [a];
      JoinOne(a);
      LastReadsBack(text, s, a, argc, max);
    } else {
      JoinMore(args);
      var rest, next := " " + Join(args[1..]), s + |Shown(a)|;
      assert text[next..] == rest && text[next + 1..] == Join(args[1..]) && text[next] == rest[0];
      assert text[s..next] == Shown(a);
      ShownReadsBack(text, s, a, next, argc, max);
      SpaceSkipped(text, next, argc + 1, max);
      JoinReadsBack(text, next + 1, args[1..], argc + 1, max);
      assert args == [a] + args[1..];
    }
  }

  /** Tokenizing a printed argument list returns it. */
  lemma PrintThenTokenize(args: seq<string>, max: nat)
    requires RoomFor(args, 0, max) && max > 1 && forall i | 0 <= i < |args| :: Printable(args[i])
    ensures Tokens(Join(args), 0, 0, max) == args
  {
    hide Tokens, Printable, RoomFor;
    if args == [] {
      NothingLeft("", 0, max);
    } else {
      JoinReadsBack(Join(args), 0, args, 0, max);
    }
  }
}
