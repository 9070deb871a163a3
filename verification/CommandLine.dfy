/**
 Command lines as people write them: arguments plain or in quotes, with blanks and comments in
 between.  Splitting such a line gives the arguments.
 */
module CommandLine {
  import opened CommandText

  /** A blank of any kind, or a comment. */
  datatype Gap = Blank(c: char) | Comment(body: string)

  /** An argument as it is written, and what stands behind it. */
  datatype Piece = Plain(a: string, behind: seq<Gap>) | Quoted(a: string, behind: seq<Gap>)

  function GapText(g: Gap): (t: string)
    ensures t != ""
  {
    match g
    case Blank(c) => [c]
    case Comment(body) => "/*" + body + "*/"
  }

  function GapsText(gaps: seq<Gap>): string {
    if gaps == [] then "" else GapText(gaps[0]) + GapsText(gaps[1..])
  }

  /** Characters up to the space are blanks, but for the terminator and three colour marks; comments do not nest. */
  predicate GapOk(g: Gap) {
    match g
    case Blank(c) => 1 <= c as int <= 32 && c as int !in {0x14, 0x15, 0x16}
    case Comment(body) =>
      var t := "*" + body;
      forall i | 0 <= i < |t| - 1 :: !(t[i] == '*' && t[i + 1] == '/')
  }

  predicate GapsOk(gaps: seq<Gap>) { forall i | 0 <= i < |gaps| :: GapOk(gaps[i]) }

  function Written(p: Piece): string {
    match p
    case Plain(a, _) => a
    case Quoted(a, _) => "\"" + a + "\""
  }

  /** A plain argument has no blank, no quote and no beginning of a comment in it. */
  predicate PlainWord(a: string) {
    && a != ""
    && (forall i | 0 <= i < |a| :: (a[i] as int > 32 || a[i] as int in {0, 0x14, 0x15, 0x16}) && a[i] != '"')
    && forall i | 0 <= i < |a| - 1 :: !(a[i] == '/' && a[i + 1] in {'/', '*'})
  }

  /** Something stands behind a plain argument, unless it is the last; behind a slash at its end, a blank. */
  predicate PieceOk(p: Piece, last: bool) {
    && GapsOk(p.behind)
    && match p
       case Plain(a, behind) =>
         PlainWord(a) && (behind == [] ==> last) && (a[|a| - 1] == '/' && behind != [] ==> behind[0].Blank?)
       case Quoted(a, _) => '"' !in a
  }

  function Line(pieces: seq<Piece>): string {
    if pieces == [] then "" else Written(pieces[0]) + GapsText(pieces[0].behind) + Line(pieces[1..])
  }

  function Arguments(pieces: seq<Piece>): (args: seq<string>)
    ensures |args| == |pieces| && forall i | 0 <= i < |args| :: args[i] == pieces[i].a
  {
    seq(|pieces|, i requires 0 <= i < |pieces| => pieces[i].a)
  }

  // ------------------------------------------------------------ gaps are skipped

  lemma BlankIsSpace(c: char)
    ensures IsWhiteSpace(c) <==> 1 <= c as int <= 32 && c as int !in {0x14, 0x15, 0x16}
  {}

  lemma {:induction false} CommentEndsAfter(text: string, p: nat, e: nat)
    requires p <= e && e + 1 < |text| && text[e] == '*' && text[e + 1] == '/'
    requires forall i | p <= i < e :: !(text[i] == '*' && text[i + 1] == '/')
    ensures CommentEnd(text, p) == e
    decreases e - p
  {
    if p < e {
      CommentEndsAfter(text, p + 1, e);
    }
  }

  lemma RestOf(text: string, p: nat, t: string, rest: string)
    requires p <= |text| && text[p..] == t + rest
    ensures p + |t| <= |text| && text[p + |t|..] == rest && text[p..p + |t|] == t
    ensures forall i | 0 <= i < |t| :: text[p + i] == t[i]
  {
    assert text[p + |t|..] == text[p..][|t|..];
    assert forall i | 0 <= i < |t| :: text[p + i] == text[p..][i];
  }

  lemma RestFrom(text: string, p: nat, t: string, rest: string)
    requires p <= |text| && text[p..] == t + rest
    ensures p + |t| <= |text| && text[p + |t|..] == rest
  {
    RestOf(text, p, t, rest);
  }

  lemma SpacePassed(text: string, p: nat)
    requires p < |text| && IsWhiteSpace(text[p])
    ensures TokenStart(text, p) == TokenStart(text, p + 1)
  {
    assert SkipSpace(text, p) == SkipSpace(text, p + 1);
    hide SkipSpace, CommentEnd;
  }

  lemma GapSkipped(text: string, p: nat, g: Gap, rest: string)
    requires p <= |text| && text[p..] == GapText(g) + rest && GapOk(g)
    ensures p + |GapText(g)| <= |text| && text[p + |GapText(g)|..] == rest
    ensures TokenStart(text, p) == TokenStart(text, p + |GapText(g)|)
  {
    hide TokenStart;
    RestOf(text, p, GapText(g), rest);
    match g
    case Blank(c) =>
      BlankIsSpace(c);
      assert text[p + 0] == c;
      SpacePassed(text, p);
    case Comment(body) =>
      CommentSkipped(text, p, body);
  }

  lemma CommentSkipped(text: string, p: nat, body: string)
    requires GapOk(Comment(body)) && p + |body| + 4 <= |text|
    requires forall i | 0 <= i < |body| + 4 :: text[p + i] == GapText(Comment(body))[i]
    ensures TokenStart(text, p) == TokenStart(text, p + |body| + 4)
  {
    var t, star := GapText(Comment(body)), "*" + body;
    var e := p + 2 + |body|;
    assert text[p + 0] == t[0] == '/' && text[p + 1] == t[1] == '*';
    assert text[p + (2 + |body|)] == t[2 + |body|] == '*' && text[p + (3 + |body|)] == t[3 + |body|] == '/';
    forall i | p <= i < e
      ensures !(text[i] == '*' && text[i + 1] == '/')
    {
      if i > p {
        assert text[p + (i - p)] == t[i - p] == star[i - p - 1];
        if i + 1 < e { assert text[p + (i + 1 - p)] == t[i + 1 - p] == star[i - p]; }
      }
    }
    hide CommentEnd;
    CommentEndsAfter(text, p, e);
    assert SkipSpace(text, p) == p;
  }

  lemma {:induction false} GapsSkipped(text: string, p: nat, gaps: seq<Gap>, rest: string)
    requires p <= |text| && text[p..] == GapsText(gaps) + rest && GapsOk(gaps)
    ensures p + |GapsText(gaps)| <= |text| && text[p + |GapsText(gaps)|..] == rest
    ensures TokenStart(text, p) == TokenStart(text, p + |GapsText(gaps)|)
    decreases |gaps|
  {
    hide TokenStart, GapOk, GapText;
    if gaps == [] {
      assert text[p..] == rest;
    } else {
      var more := GapsText(gaps[1..]) + rest;
      assert text[p..] == GapText(gaps[0]) + more;
      GapSkipped(text, p, gaps[0], more);
      GapsSkipped(text, p + |GapText(gaps[0])|, gaps[1..], rest);
    }
  }

  lemma TokensFromStart(text: string, p: nat, q: nat, argc: nat, max: nat)
    requires p <= |text| && q <= |text| && TokenStart(text, p) == TokenStart(text, q) && argc + 1 < max
    ensures Tokens(text, p, argc, max) == Tokens(text, q, argc, max)
  {
    hide TokenStart, TokenEnd, TokenAt, AfterToken;
  }

  // ------------------------------------------------------------ arguments are read

  /** What may stand behind a plain argument. */
  predicate Closes(a: string, rest: string) {
     rest == "" || IsWhiteSpace(rest[0])
     || (a != "" && a[|a| - 1] != '/' && |rest| >= 2 && rest[0] == '/' && rest[1] in {'/', '*'})
  }

  lemma WordGoesOn(text: string, s: nat, a: string, rest: string, i: nat)
    requires PlainWord(a) && Closes(a, rest) && s <= |text| && text[s..] == a + rest && i < |a|
    ensures s + i < |text| && !EndsWord(text, s + i)
  {
    assert text[s + i] == text[s..][i] == a[i];
    if i + 1 < |a| {
      assert text[s + (i + 1)] == text[s..][i + 1] == a[i + 1];
    } else if rest != "" {
      assert text[s + (i + 1)] == text[s..][i + 1] == rest[0];
    }
  }

  lemma {:induction false} WordStopsAt(text: string, p: nat, e: nat)
    requires p <= e <= |text| && (e < |text| ==> EndsWord(text, e))
    requires forall i | p <= i < e :: !EndsWord(text, i)
    ensures WordEnd(text, p) == e
    decreases e - p
  {
    if p < e {
      WordStopsAt(text, p + 1, e);
    }
  }

  lemma PlainRead(text: string, s: nat, a: string, rest: string)
    requires PlainWord(a) && Closes(a, rest) && s <= |text| && text[s..] == a + rest
    ensures StartsToken(text, s) && TokenStart(text, s) == s && TokenEnd(text, s) == s + |a|
    ensures TokenAt(text, s) == a && AfterToken(text, s) == s + |a|
  {
    hide WordEnd;
    forall i | s <= i < s + |a|
      ensures !EndsWord(text, i)
    {
      WordGoesOn(text, s, a, rest, i - s);
    }
    if rest != "" {
      assert text[s + |a|] == text[s..][|a|] == rest[0];
      if |rest| >= 2 { assert text[s + (|a| + 1)] == text[s..][|a| + 1] == rest[1]; }
    }
    WordStopsAt(text, s + 1, s + |a|);
    assert text[s] == text[s..][0] == a[0] && text[s..s + |a|] == text[s..][..|a|] == a;
  }

  /** Behind the last argument: nothing, or a comment to the end of the line. */
  predicate TailOk(tail: string) { tail == "" || (|tail| >= 2 && tail[0] == '/' && tail[1] == '/') }

  lemma GapsClose(a: string, gaps: seq<Gap>, rest: string)
    requires GapsOk(gaps) && a != "" && (a[|a| - 1] == '/' && gaps != [] ==> gaps[0].Blank?)
    requires gaps == [] ==> Closes(a, rest)
    ensures Closes(a, GapsText(gaps) + rest)
  {
    if gaps != [] {
      assert GapOk(gaps[0]);
      var t := GapText(gaps[0]);
      assert (GapsText(gaps) + rest)[0] == t[0];
      if gaps[0].Blank? {
        BlankIsSpace(gaps[0].c);
      } else {
        assert (GapsText(gaps) + rest)[1] == t[1];
      }
    } else {
      assert GapsText(gaps) + rest == rest;
    }
  }

  lemma TailEnds(text: string, p: nat, tail: string, argc: nat, max: nat)
    requires p <= |text| && text[p..] == tail && TailOk(tail) && argc + 1 < max
    ensures Tokens(text, p, argc, max) == []
  {
    if tail != "" {
      assert text[p] == tail[0] && text[p + 1] == tail[1];
    }
  }

  /** One argument, when scanning goes on from `e` as from `next`. */
  lemma OneToken(text: string, s: nat, a: string, e: nat, next: nat, argc: nat, max: nat)
    requires s < |text| && StartsToken(text, s) && TokenStart(text, s) == s && TokenAt(text, s) == a
    requires AfterToken(text, s) == e && next <= |text| && TokenStart(text, e) == TokenStart(text, next)
    requires (TokenEnd(text, s) == |text| ==> next == |text|) && argc + 2 < max
    ensures Tokens(text, s, argc, max) == [a] + Tokens(text, next, argc + 1, max)
  {
    hide *;
    TokensStep(text, s, argc, max);
    TokensFromStart(text, e, next, argc + 1, max);
    if TokenEnd(text, s) == |text| {
      NothingLeft(text, argc + 1, max);
    }
  }

  /** One argument and the gaps behind it. */
  lemma PieceRead(text: string, s: nat, p: Piece, last: bool, rest: string, next: nat, argc: nat, max: nat)
    requires PieceOk(p, last) && s <= |text| && text[s..] == Written(p) + (GapsText(p.behind) + rest) && argc + 2 < max
    requires p.Plain? && p.behind == [] ==> Closes(p.a, rest)
    requires next == s + |Written(p)| + |GapsText(p.behind)|
    ensures next <= |text| && text[next..] == rest
    ensures Tokens(text, s, argc, max) == [p.a] + Tokens(text, next, argc + 1, max)
  {
    hide Tokens, Written, GapsText, StartsToken, TokenStart, TokenAt, AfterToken, TokenEnd, Closes;
    RestFrom(text, s, Written(p), GapsText(p.behind) + rest);
    GapsSkipped(text, s + |Written(p)|, p.behind, rest);
    OneRead(text, s, p, last, rest);
    OneToken(text, s, p.a, s + |Written(p)|, next, argc, max);
  }

  lemma OneRead(text: string, s: nat, p: Piece, last: bool, rest: string)
    requires PieceOk(p, last) && s <= |text| && text[s..] == Written(p) + (GapsText(p.behind) + rest)
    requires p.Plain? && p.behind == [] ==> Closes(p.a, rest)
    ensures s < |text| && StartsToken(text, s) && TokenStart(text, s) == s && TokenAt(text, s) == p.a
    ensures AfterToken(text, s) == s + |Written(p)|
    ensures TokenEnd(text, s) == |text| ==> s + |Written(p)| + |GapsText(p.behind)| == |text|
  {
    var more := GapsText(p.behind) + rest;
    assert |text| == s + |Written(p)| + |more|;
    hide TokenStart, TokenEnd, TokenAt, AfterToken, StartsToken, GapsText, Closes;
    if p.Plain? {
      GapsClose(p.a, p.behind, rest);
      PlainRead(text, s, p.a, more);
    } else {
      QuotedIsToken(text, s, p.a, more);
    }
  }

  ghost predicate PiecesOk(pieces: seq<Piece>, tail: string) {
    && TailOk(tail)
    && (forall i | 0 <= i < |pieces| :: PieceOk(pieces[i], i == |pieces| - 1))
    && (pieces != [] ==>
          var p := pieces[|pieces| - 1];
          p.Plain? && p.behind == [] && tail != "" ==> p.a[|p.a| - 1] != '/')
  }

  lemma FirstPieceOk(pieces: seq<Piece>, tail: string)
    requires PiecesOk(pieces, tail) && pieces != []
    ensures PiecesOk(pieces[1..], tail) && PieceOk(pieces[0], |pieces| == 1) && TailOk(tail)
    ensures pieces[0].Plain? && pieces[0].behind == [] ==> pieces[1..] == [] && Closes(pieces[0].a, tail)
  {
    forall i | 0 <= i < |pieces[1..]|
      ensures PieceOk(pieces[1..][i], i == |pieces[1..]| - 1)
    {
      assert pieces[1..][i] == pieces[i + 1];
    }
  }

  lemma {:induction false} PiecesRead(text: string, s: nat, pieces: seq<Piece>, tail: string, argc: nat, max: nat)
    requires PiecesOk(pieces, tail) && s <= |text| && text[s..] == Line(pieces) + tail && argc + |pieces| + 1 < max
    ensures Tokens(text, s, argc, max) == Arguments(pieces) && TailOk(tail)
    decreases |pieces|
  {
    if pieces == [] {
      LineOfNone(tail);
      hide *;
      TailEnds(text, s, tail, argc, max);
      NoArguments(pieces);
    } else {
      FirstPieceOk(pieces, tail);
      LineOfMore(pieces, tail);
      hide *;
      var p, rest := pieces[0], Line(pieces[1..]) + tail;
      var next := s + |Written(p)| + |GapsText(p.behind)|;
      PieceRead(text, s, p, |pieces| == 1, rest, next, argc, max);
      PiecesRead(text, next, pieces[1..], tail, argc + 1, max);
    }
  }

  lemma NoArguments(pieces: seq<Piece>)
    requires pieces == []
    ensures Arguments(pieces) == []
  {}

  lemma LineOfNone(tail: string)
    ensures Line([]) + tail == tail
  {}

  lemma LineOfMore(pieces: seq<Piece>, tail: string)
    requires pieces != []
    ensures var p, rest := pieces[0], Line(pieces[1..]) + tail;
            && Line(pieces) + tail == Written(p) + (GapsText(p.behind) + rest)
            && (pieces[1..] == [] ==> rest == tail)
            && Arguments(pieces) == [p.a] + Arguments(pieces[1..])
  {
    hide Written, GapsText;
  }

  /** A line of arguments with gaps in front, between and behind, and perhaps a comment to its end. */
  lemma LineSplits(front: seq<Gap>, pieces: seq<Piece>, tail: string, max: nat)
    requires GapsOk(front) && PiecesOk(pieces, tail) && |pieces| + 1 < max
    ensures Tokens(GapsText(front) + (Line(pieces) + tail), 0, 0, max) == Arguments(pieces)
  {
    var text := GapsText(front) + (Line(pieces) + tail);
    hide Tokens, TokenStart, PiecesOk, GapsText, Line;
    assert text[0..] == text;
    GapsSkipped(text, 0, front, Line(pieces) + tail);
    TokensFromStart(text, 0, |GapsText(front)|, 0, max);
    PiecesRead(text, |GapsText(front)|, pieces, tail, 0, max);
  }

  /** With all but one argument read, the last one is the rest of the line, comments and quotes included. */
  lemma LastTakesRest(text: string, blanks: string, rest: string, max: nat)
    requires max >= 1 && text == blanks + rest
    requires (forall i | 0 <= i < |blanks| :: GapOk(Blank(blanks[i]))) && (rest != "" ==> !GapOk(Blank(rest[0])))
    ensures Tokens(text, 0, max - 1, max) == [rest]
  {
    BlanksSkipped(text, blanks, rest, 0);
    assert text[|blanks|..] == rest;
  }

  lemma {:induction false} BlanksSkipped(text: string, blanks: string, rest: string, p: nat)
    requires text == blanks + rest && p <= |blanks|
    requires (forall i | 0 <= i < |blanks| :: GapOk(Blank(blanks[i]))) && (rest != "" ==> !GapOk(Blank(rest[0])))
    ensures SkipSpace(text, p) == |blanks|
    decreases |blanks| - p
  {
    if p < |blanks| {
      BlankIsSpace(text[p]);
      assert GapOk(Blank(blanks[p]));
      BlanksSkipped(text, blanks, rest, p + 1);
    } else if rest != "" {
      BlankIsSpace(rest[0]);
    }
  }
}
