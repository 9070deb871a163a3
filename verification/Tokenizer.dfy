/**
 The nested tokenizer in place.  All live command lines share one text pool and one pool
 of argument pointers, used as stacks; a pointer is a position in the text pool.  The
 text pool saturates: its top never rises above the last two characters.
 */
module Tokenizer {
  import opened Common
  import opened CommandText

  const TEXT_POOL := 8192
  const TOP := TEXT_POOL - 2
  const ARGV_POOL := 512
  const MAX_TOKENIZE_STRINGS := 8

  // ------------------------------------------------------------ the text pool as a value

  datatype Pool = Pool(text: seq<char>, top: nat)

  function Pushed(p: Pool, c: char): Pool
    requires p.top < |p.text|
  {
    Pool(p.text[p.top := c], if p.top + 1 >= TOP then TOP else p.top + 1)
  }

  ghost predicate PoolOk(p: Pool) { |p.text| == TEXT_POOL && p.top <= TOP }

  function PushedAll(p: Pool, s: seq<char>): (p': Pool)
    requires PoolOk(p)
    ensures PoolOk(p')
    decreases |s|
  {
    if s == [] then p else Pushed(PushedAll(p, s[..|s| - 1]), s[|s| - 1])
  }

  /** The text of some arguments: each followed by its terminator. */
  function Flat(args: seq<string>): string {
    if args == [] then "" else Flat(args[..|args| - 1]) + args[|args| - 1] + ['\0']
  }

  /** Where the top ends up after `n` more characters. */
  function Risen(top: nat, n: nat): nat { if top + n >= TOP then TOP else top + n }

  /** As much of `s` as there is room for from position `at` on. */
  function Fitted(s: string, at: nat): string { Cut(s, if at <= TOP then TOP - at else 0) }

  /** `q` is `p` with `s` written: below the top nothing is touched, and at the end the last character stays. */
  ghost predicate Holds(p: Pool, s: seq<char>, q: Pool)
    requires PoolOk(p) && PoolOk(q)
  {
    && q.top == Risen(p.top, |s|) && p.top <= q.top
    && q.text[..p.top] == p.text[..p.top]
    && q.text[p.top..q.top] == Fitted(s, p.top)
    && q.text[TOP] == if p.top + |s| > TOP then s[|s| - 1] else p.text[TOP]
  }

  lemma HoldsMore(p: Pool, r: seq<char>, q: Pool, c: char)
    requires PoolOk(p) && PoolOk(q) && Holds(p, r, q)
    ensures Holds(p, r + [c], Pushed(q, c))
  {
    var t, s := Pushed(q, c), r + [c];
    if p.top + |s| <= TOP {
      assert t.text[p.top..t.top] == q.text[p.top..q.top] + [c];
    } else {
      assert t.text[p.top..TOP] == q.text[p.top..TOP];
      assert Fitted(s, p.top) == Fitted(r, p.top);
    }
  }

  /** Writing never touches what is below the top, and writes the text as far as it fits. */
  lemma {:induction false} PushedAllEffect(p: Pool, s: seq<char>)
    requires PoolOk(p)
    ensures Holds(p, s, PushedAll(p, s))
    decreases |s|
  {
    if s != [] {
      var r := s[..|s| - 1];
      PushedAllEffect(p, r);
      assert s == r + [s[|s| - 1]];
      HoldsMore(p, r, PushedAll(p, r), s[|s| - 1]);
    }
  }

  lemma NothingPushed(p: Pool)
    requires PoolOk(p)
    ensures PushedAll(p, []) == p
  {}

  lemma PushedOne(p: Pool, s: seq<char>, c: char)
    requires PoolOk(p)
    ensures PushedAll(p, s + [c]) == Pushed(PushedAll(p, s), c)
  {
    assert (s + [c])[..|s|] == s;
  }

  lemma {:induction false} PushedAllConcat(p: Pool, a: seq<char>, b: seq<char>)
    requires PoolOk(p)
    ensures PushedAll(p, a + b) == PushedAll(PushedAll(p, a), b)
    decreases |b|
  {
    if b == [] {
      assert a + b == a;
    } else {
      assert (a + b)[..|a + b| - 1] == a + b[..|b| - 1];
      PushedAllConcat(p, a, b[..|b| - 1]);
    }
  }

  lemma {:induction false} FlatPrefix(args: seq<string>, j: nat)
    requires j < |args|
    ensures |Flat(args[..j])| + |args[j]| + 1 <= |Flat(args)|
    ensures Flat(args)[|Flat(args[..j])|..|Flat(args[..j])| + |args[j]| + 1] == args[j] + ['\0']
    decreases |args|
  {
    var rest := args[..|args| - 1];
    if j < |rest| {
      FlatPrefix(rest, j);
      assert rest[..j] == args[..j];
      assert Flat(args)[..|Flat(rest)|] == Flat(rest);
    } else {
      assert args[..j] == rest;
    }
  }

  /** Writing arguments leaves a zero at the end of the pool. */
  lemma ArgumentsPushed(p: Pool, args: seq<string>)
    requires PoolOk(p) && p.text[TOP] == '\0'
    ensures var q, flat := PushedAll(p, Flat(args)), Flat(args);
            && q.top == Risen(p.top, |flat|) && p.top <= Risen(p.top, |flat|) <= TOP
            && q.text[..p.top] == p.text[..p.top] && q.text[p.top..Risen(p.top, |flat|)] == Fitted(flat, p.top)
            && q.text[TOP] == '\0'
  {
    PushedAllEffect(p, Flat(args));
    hide PushedAll;
  }

  // ------------------------------------------------------------ the live frames

  /** The top of the text pool under frame `k`. */
  function TextTop(frames: seq<seq<string>>, k: nat): (top: nat)
    requires k <= |frames|
    ensures top <= TOP
  {
    if k == 0 then 0 else Risen(TextTop(frames, k - 1), |Flat(frames[k - 1])|)
  }

  /** How many argument pointers are in use under frame `k`. */
  function ArgvTop(frames: seq<seq<string>>, k: nat): nat
    requires k <= |frames|
  {
    if k == 0 then 0 else ArgvTop(frames, k - 1) + |frames[k - 1]|
  }

  lemma {:induction false} TopsGrow(frames: seq<seq<string>>, k: nat, n: nat)
    requires k <= n <= |frames|
    ensures TextTop(frames, k) <= TextTop(frames, n) && ArgvTop(frames, k) <= ArgvTop(frames, n)
  {
    if k < n {
      TopsGrow(frames, k, n - 1);
    }
  }

  lemma {:induction false} TopsOfPrefix(frames: seq<seq<string>>, more: seq<seq<string>>, k: nat)
    requires k <= |frames|
    ensures TextTop(frames + more, k) == TextTop(frames, k) && ArgvTop(frames + more, k) == ArgvTop(frames, k)
  {
    if k > 0 {
      TopsOfPrefix(frames, more, k - 1);
    }
  }

  /** The pointers of `args`, from `base` on, when their text starts at `top`. */
  ghost predicate PointersOk(argv: seq<nat>, base: nat, top: nat, args: seq<string>) {
    && base + |args| <= |argv|
    && forall j | 0 <= j < |args| :: argv[base + j] == Risen(top, |Flat(args[..j])|)
  }

  /** `args` are stored: their pointers, and their text as far as it fits. */
  ghost predicate StoredAt(args: seq<string>, base: nat, top: nat, text: seq<char>, argv: seq<nat>) {
    && (forall j | 0 <= j < |args| :: '\0' !in args[j])
    && PointersOk(argv, base, top, args)
    && top <= Risen(top, |Flat(args)|) <= |text| && text[top..Risen(top, |Flat(args)|)] == Fitted(Flat(args), top)
  }

  ghost predicate Stored(frames: seq<seq<string>>, k: nat, text: seq<char>, argv: seq<nat>)
    requires k < |frames|
  {
    StoredAt(frames[k], ArgvTop(frames, k), TextTop(frames, k), text, argv)
  }

  /** Everything the tokenizer keeps about its frames, apart from the totals. */
  datatype Books = Books(text: seq<char>, argv: seq<nat>, used: seq<int>, shift: seq<int>, counts: seq<nat>,
                         firsts: seq<nat>)

  ghost predicate BooksShaped(b: Books) {
    && |b.text| == TEXT_POOL && |b.argv| == ARGV_POOL
    && |b.used| == |b.shift| == |b.counts| == |b.firsts| == MAX_TOKENIZE_STRINGS
  }

  /** The bookkeeping of frame `k`: its counts, its first pointer, the text it used, and what is stored. */
  ghost predicate FrameOk(frames: seq<seq<string>>, k: nat, b: Books)
    requires k < |frames| <= MAX_TOKENIZE_STRINGS && BooksShaped(b)
  {
    && b.counts[k] == |frames[k]| && b.shift[k] == 0 && b.firsts[k] == ArgvTop(frames, k)
    && b.used[k] == TextTop(frames, k + 1) - TextTop(frames, k)
    && Stored(frames, k, b.text, b.argv)
  }

  ghost predicate AllOk(frames: seq<seq<string>>, b: Books) {
    && BooksShaped(b) && |frames| <= MAX_TOKENIZE_STRINGS && b.text[TOP] == '\0'
    && forall k | 0 <= k < |frames| :: FrameOk(frames, k, b)
  }

  lemma {:induction false} CStrReads(text: seq<char>, p: nat, s: string)
    requires p + |s| < |text| && text[p..p + |s|] == s && text[p + |s|] == '\0' && '\0' !in s
    ensures CStr(text, p) == s
    decreases |s|
  {
    if s != "" {
      assert text[p] == s[0] && s[0] in s;
      assert text[p + 1..p + 1 + |s[1..]|] == s[1..];
      CStrReads(text, p + 1, s[1..]);
    }
  }

  /** Argument `j` as it is seen when the text of `args` starts at `top`: cut where the pool is full. */
  function Seen(top: nat, args: seq<string>, j: nat): string
    requires j < |args|
  {
    Fitted(args[j], top + |Flat(args[..j])|)
  }

  function AllSeen(top: nat, args: seq<string>): (seen: seq<string>)
    ensures |seen| == |args| && forall j | 0 <= j < |args| :: seen[j] == Seen(top, args, j)
  {
    seq(|args|, j requires 0 <= j < |args| => Seen(top, args, j))
  }

  /** Nothing is cut as long as the text fits. */
  lemma SeenInFull(top: nat, args: seq<string>)
    requires top + |Flat(args)| <= 8191
    ensures AllSeen(top, args) == args
  {
    forall j | 0 <= j < |args|
      ensures Seen(top, args, j) == args[j]
    {
      FlatPrefix(args, j);
    }
  }

  /** The pointers of a frame lead to its arguments, each cut exactly where the pool was full. */
  lemma ArgumentReads(frames: seq<seq<string>>, k: nat, text: seq<char>, argv: seq<nat>, j: nat)
    requires k < |frames| && |text| == TEXT_POOL && |argv| == ARGV_POOL && text[TOP] == '\0'
    requires Stored(frames, k, text, argv) && j < |frames[k]|
    ensures CStr(text, argv[ArgvTop(frames, k) + j]) == Seen(TextTop(frames, k), frames[k], j)
  {
    var top, args := TextTop(frames, k), frames[k];
    var p, a, flat := |Flat(args[..j])|, args[j], Flat(args);
    FlatPrefix(args, j);
    assert argv[ArgvTop(frames, k) + j] == Risen(top, p);
    hide StoredAt, PointersOk, Flat;
    ReadsAt(text, top, flat, p, a);
  }

  lemma ReadsAt(text: seq<char>, top: nat, flat: string, p: nat, a: string)
    requires |text| == TEXT_POOL && text[TOP] == '\0' && top <= TOP
    requires text[top..Risen(top, |flat|)] == Fitted(flat, top)
    requires p + |a| + 1 <= |flat| && flat[p..p + |a| + 1] == a + ['\0'] && '\0' !in a
    ensures CStr(text, Risen(top, p)) == Fitted(a, top + p)
  {
    var part := Fitted(flat, top);
    hide CStr;
    if top + p + |a| < TOP {
      SlicePrefix(flat, part, p, |a| + 1);
      SubSlice(text, top, part, p, a + ['\0']);
      TerminatedAt(text, top + p, a);
      CStrReads(text, top + p, a);
    } else if top + p < TOP {
      var n := TOP - top - p;
      SlicePrefix(flat, part, p, n);
      SlicePrefix(flat[p..], flat[p..p + |a| + 1], 0, n);
      SubSlice(text, top, part, p, a[..n]);
      CStrReads(text, top + p, a[..n]);
    } else {
      CStrReads(text, TOP, "");
    }
  }

  /** A slice of the beginning is a slice of the whole. */
  lemma SlicePrefix<T>(s: seq<T>, part: seq<T>, p: nat, n: nat)
    requires p + n <= |part| && part <= s
    ensures part[p..p + n] == s[p..p + n]
  {}

  lemma SubSlice(text: seq<char>, top: nat, flat: string, p: nat, s: string)
    requires top + |flat| <= |text| && text[top..top + |flat|] == flat
    requires p + |s| <= |flat| && flat[p..p + |s|] == s
    ensures text[top + p..top + p + |s|] == s
  {
    var part := text[top + p..top + p + |s|];
    forall i | 0 <= i < |s|
      ensures part[i] == s[i]
    {
      assert part[i] == text[top..top + |flat|][p + i] && s[i] == flat[p..p + |s|][i];
    }
  }

  lemma TerminatedAt(text: seq<char>, p: nat, a: string)
    requires p + |a| + 1 <= |text| && text[p..p + |a + ['\0']|] == a + ['\0']
    ensures text[p..p + |a|] == a && text[p + |a|] == '\0'
  {
    var s := text[p..p + |a| + 1];
    assert s[..|a|] == a && s[|a|] == '\0';
  }

  // ------------------------------------------------------------ scanning loops

  method SkipWhitespace(text: string, p: nat) returns (q: nat)
    requires p <= |text|
    ensures q == SkipSpace(text, p)
  {
    q := p;
    while q < |text| && IsWhiteSpace(text[q])
      invariant q <= |text| && SkipSpace(text, q) == SkipSpace(text, p)
    {
      q := q + 1;
    }
  }

  method SkipComment(text: string, p: nat) returns (q: nat)
    requires p <= |text|
    ensures q == CommentEnd(text, p)
  {
    q := p;
    while q < |text| && !(q + 1 < |text| && text[q] == '*' && text[q + 1] == '/')
      invariant q <= |text| && CommentEnd(text, q) == CommentEnd(text, p)
    {
      q := q + 1;
    }
  }

  /** Skips whitespace and comments up to the next argument. */
  method FindToken(text: string, p: nat) returns (q: nat)
    requires p <= |text|
    ensures q == TokenStart(text, p)
  {
    q := p;
    while true
      invariant q <= |text| && TokenStart(text, q) == TokenStart(text, p)
      decreases |text| - q
    {
      q := SkipWhitespace(text, q);
      if q == |text| || CommentAt(text, q, '/') {
        return |text|;
      }
      if !CommentAt(text, q, '*') {
        return;
      }
      q := SkipComment(text, q);
      if q == |text| {
        return;
      }
      q := q + 2;
    }
  }

  // ------------------------------------------------------------ the tokenizer

  class Args {
    const textPool: array<char>
    const argvPool: array<nat>
    const usedTextPool: array<int>
    const argshift: array<int>
    const argc: array<nat>
    const argv: array<nat>
    var totalUsedTextPool: nat
    var totalUsedArgvPool: int
    var nesting: int
    ghost var frames: seq<seq<string>>

    ghost predicate Shaped()
      reads this
    {
      && textPool.Length == TEXT_POOL && argvPool.Length == ARGV_POOL
      && usedTextPool.Length == argshift.Length == argc.Length == argv.Length == MAX_TOKENIZE_STRINGS
      && usedTextPool != argshift && argvPool != argc && argvPool != argv && argc != argv
      && totalUsedTextPool <= TOP
    }

    ghost function Text(): Pool
      reads this, textPool
    {
      Pool(textPool[..], totalUsedTextPool)
    }

    ghost function State(): Books
      reads this, textPool, argvPool, usedTextPool, argshift, argc, argv
    {
      Books(textPool[..], argvPool[..], usedTextPool[..], argshift[..], argc[..], argv[..])
    }

    ghost predicate Valid()
      reads this, textPool, argvPool, usedTextPool, argshift, argc, argv
    {
      && Shaped()
      && nesting == |frames| - 1 < MAX_TOKENIZE_STRINGS
      && totalUsedTextPool == TextTop(frames, |frames|)
      && totalUsedArgvPool == ArgvTop(frames, |frames|) <= ARGV_POOL
      && AllOk(frames, State())
    }

    /** Writes one character; at the end of the pool the last place is written again and again. */
    method WriteChar(c: char)
      requires Shaped()
      modifies this`totalUsedTextPool, textPool
      ensures Shaped() && Text() == Pushed(old(Text()), c)
    {
      textPool[totalUsedTextPool] := c;
      var cn := totalUsedTextPool + 1;
      if cn >= TEXT_POOL - 2 {
        cn := TEXT_POOL - 2;
      }
      totalUsedTextPool := cn;
    }

    /** Copies text from `p` while it belongs to the word, the quotation or the line, and ends it with a zero. */
    method WriteToken(text: string, p: nat, kind: Kind) returns (e: nat)
      requires Shaped() && p <= |text|
      modifies this`totalUsedTextPool, textPool
      ensures Shaped() && e == EndOf(text, p, kind)
      ensures p <= e <= |text| && Text() == PushedAll(old(Text()), text[p..e] + ['\0'])
    {
      hide Pushed, PushedAll;
      ghost var before := Text();
      NothingPushed(before);
      assert text[p..p] == [];
      e := p;
      while e < |text| && !(kind.Word? && EndsWord(text, e)) && !(kind.Quotation? && text[e] == '"')
        invariant p <= e <= |text| && Shaped()
        invariant EndOf(text, e, kind) == EndOf(text, p, kind)
        invariant Text() == PushedAll(before, text[p..e])
      {
        PushedOne(before, text[p..e], text[e]);
        WriteChar(text[e]);
        assert text[p..e + 1] == text[p..e] + [text[e]];
        e := e + 1;
      }
      PushedOne(before, text[p..e], '\0');
      WriteChar('\0');
    }

    /** Stores one more argument: a pointer to the top of the text pool, then its text. */
    method StoreToken(text: string, s: nat, kind: Kind, base: nat, count: nat, ghost start: Pool,
                      ghost done: seq<string>)
      returns (e: nat)
      requires Shaped() && s <= |text| && PoolOk(start) && Text() == PushedAll(start, Flat(done))
      requires count == |done| && base + count < ARGV_POOL && PointersOk(argvPool[..], base, start.top, done)
      modifies this`totalUsedTextPool, textPool, argvPool
      ensures Shaped() && e == EndOf(text, s, kind) && s <= e <= |text|
      ensures Text() == PushedAll(start, Flat(done + [text[s..e]]))
      ensures PointersOk(argvPool[..], base, start.top, done + [text[s..e]])
      ensures argvPool[..base] == old(argvPool[..base])
    {
      hide PushedAll;
      PushedAllEffect(start, Flat(done));
      argvPool[base + count] := totalUsedTextPool;
      PointersExtend(old(argvPool[..]), argvPool[..], base, start.top, done);
      e := WriteToken(text, s, kind);
      FlatMore(done, text[s..e]);
      PushedAllConcat(start, Flat(done), text[s..e] + ['\0']);
      PointersNext(argvPool[..], base, start.top, done, text[s..e]);
    }

    /**
     Splits `text`, storing the arguments' text on top of the text pool and their pointers from
     `base` on.  The text pool ends up as if all the argument text had been written in one go.
     */
    method TokenizeInternal(text: string, max: nat, base: nat) returns (count: nat)
      requires Shaped() && base + max <= ARGV_POOL
      modifies this`totalUsedTextPool, textPool, argvPool
      ensures Shaped() && count == |Tokens(text, 0, 0, max)|
      ensures Text() == PushedAll(old(Text()), Flat(Tokens(text, 0, 0, max)))
      ensures PointersOk(argvPool[..], base, old(totalUsedTextPool), Tokens(text, 0, 0, max))
      ensures argvPool[..base] == old(argvPool[..base])
    {
      hide Tokens, PushedAll, Pushed, Risen, Flat, PointersOk, SkipSpace, TokenStart, WordEnd, QuoteEnd, CommentAt;
      count := 0;
      var p := 0;
      ghost var done: seq<string> := [];
      ghost var start := Text();
      NothingStored(start, argvPool[..], base);
      while count < max
        invariant Shaped() && p <= |text| && count == |done| <= max
        invariant Tokens(text, 0, 0, max) == done + Tokens(text, p, count, max)
        invariant Text() == PushedAll(start, Flat(done))
        invariant PointersOk(argvPool[..], base, start.top, done)
        invariant argvPool[..base] == old(argvPool[..base])
        decreases max - count
      {
        if count == max - 1 {
          var s := SkipWhitespace(text, p);
          LastToken(text, p, count, max);
          var e := StoreToken(text, s, Line, base, count, start, done);
          return count + 1;
        }
        var s := FindToken(text, p);
        if s == |text| {
          NoMoreTokens(text, p, count, max);
          assert done + [] == done;
          return;
        }
        OneMoreToken(text, p, count, max);
        var e;
        ghost var token := TokenAt(text, s);
        if text[s] == '"' {
          e := StoreToken(text, s + 1, Quotation, base, count, start, done);
        } else {
          e := StoreToken(text, s, Word, base, count, start, done);
        }
        ghost var was := done;
        done := done + [token];
        count := count + 1;
        if e == |text| {
          return;
        }
        assert was + ([token] + Tokens(text, AfterToken(text, s), count, max))
          == done + Tokens(text, AfterToken(text, s), count, max);
        p := if text[s] == '"' then e + 1 else e;
      }
      EnoughTokens(text, p, count, max);
      assert done + [] == done;
    }

    constructor ()
      ensures Valid() && frames == [] && textPool.Length == 8192 && argvPool.Length == 512 && argc.Length == 8
      ensures fresh(textPool) && fresh(argvPool) && fresh(usedTextPool) && fresh(argshift) && fresh(argc) && fresh(argv)
    {
      textPool := new char[TEXT_POOL](i => '\0');
      argvPool := new nat[ARGV_POOL](i => 0);
      usedTextPool := new int[MAX_TOKENIZE_STRINGS](i => 0);
      argshift := new int[MAX_TOKENIZE_STRINGS](i => 0);
      argc := new nat[MAX_TOKENIZE_STRINGS](i => 0);
      argv := new nat[MAX_TOKENIZE_STRINGS](i => 0);
      totalUsedTextPool, totalUsedArgvPool, nesting := 0, 0, -1;
      frames := [];
    }

    /** Tokenizing pushes a frame with the arguments of `text`, and leaves the frames below as they are. */
    method TokenizeString(text: string, max: nat)
      requires Valid() && '\0' !in text
      requires nesting < MAX_TOKENIZE_STRINGS - 1 && totalUsedArgvPool + max <= ARGV_POOL
      modifies this, textPool, argvPool, usedTextPool, argshift, argc, argv
      ensures Valid() && frames == old(frames) + [Tokens(text, 0, 0, max)]
      ensures Text() == PushedAll(old(Text()), Flat(Tokens(text, 0, 0, max)))
    {
      hide Tokens, AllOk, TextTop, ArgvTop, PushedAll, Flat, PointersOk, Fitted, Risen;
      ghost var args := Tokens(text, 0, 0, max);
      ghost var below, before := frames, State();
      ZeroOnTop(frames, State());
      ArgumentsPushed(Text(), args);
      TokensNoZero(text, 0, 0, max);
      nesting := nesting + 1;
      var top: int := totalUsedTextPool;
      usedTextPool[nesting] := -top;
      argshift[nesting] := 0;
      argv[nesting] := totalUsedArgvPool;
      var count := TokenizeInternal(text, max, totalUsedArgvPool);
      argc[nesting] := count;
      totalUsedArgvPool := totalUsedArgvPool + argc[nesting];
      usedTextPool[nesting] := usedTextPool[nesting] + totalUsedTextPool;
      frames := frames + [args];
      PushKeeps(below, args, before, State());
      PointersBound(argvPool[..], ArgvTop(below, |below|), top, args);
    }

    /** Ending a tokenization pops its frame and gives back exactly the pool space it took. */
    method EndTokenizedString()
      requires Valid()
      modifies this
      ensures Valid() && frames == if old(frames) == [] then [] else old(frames)[..|old(frames)| - 1]
      ensures old(frames) != [] ==>
        && totalUsedTextPool == TextTop(old(frames), |old(frames)| - 1)
        && totalUsedArgvPool == ArgvTop(old(frames), |old(frames)| - 1)
    {
      hide AllOk, TextTop, ArgvTop;
      if nesting != -1 {
        ghost var below, last := frames[..|frames| - 1], frames[|frames| - 1];
        assert frames == below + [last];
        PopKeeps(below, last, State());
        PopTotals(below, last, State());
        totalUsedArgvPool := totalUsedArgvPool - argc[nesting];
        totalUsedArgvPool := totalUsedArgvPool - argshift[nesting];
        totalUsedTextPool := totalUsedTextPool - usedTextPool[nesting];
        nesting := nesting - 1;
        frames := frames[..|frames| - 1];
      }
    }

    /** The arguments of the innermost command line as they are seen. */
    ghost function Visible(): (args: seq<string>)
      requires Valid() && frames != []
      reads this, textPool, argvPool, usedTextPool, argshift, argc, argv
    {
      AllSeen(TextTop(frames, |frames| - 1), frames[|frames| - 1])
    }

    method Argc() returns (n: nat)
      requires Valid() && frames != []
      ensures n == |Visible()|
    {
      Counted(frames, nesting, State());
      n := argc[nesting];
    }

    /** Argument `i` of the innermost command line; the empty string beyond the last. */
    method Argv(i: nat) returns (r: string)
      requires Valid() && frames != []
      ensures r == if i < |Visible()| then Visible()[i] else ""
    {
      assert FrameOk(frames, nesting, State());
      if i >= argc[nesting] {
        return "";
      }
      ArgumentReads(frames, nesting, textPool[..], argvPool[..], i);
      PointersBound(argvPool[..], ArgvTop(frames, nesting), TextTop(frames, nesting), frames[nesting]);
      r := StringAt(textPool[..], argvPool[argv[nesting] + i]);
    }

    /** The arguments from `from` on, printed as a command line, as far as the buffer goes. */
    method Argsv(from: nat, bufsize: nat) returns (buff: string)
      requires Valid() && frames != [] && bufsize > 0
      ensures buff == if from <= |Visible()| then Cut(Join(Visible()[from..]), bufsize - 1) else ""
    {
      hide *;
      ghost var args := Visible();
      buff := "";
      var i := from;
      var n := Argc();
      NothingCut(bufsize - 1);
      if from >= n {
        JoinEmpty(args, n);
        return;
      }
      ghost var printed := "";
      assert printed + Join(args[i..]) == Join(args[from..]);
      while i < n
        invariant from <= i <= n && printed + Join(args[i..]) == Join(args[from..])
        invariant buff == Cut(printed, bufsize - 1)
      {
        var a := Argv(i);
        PrintedMore(args, i, printed);
        buff := ShowArgument(buff, bufsize, a, i == n - 1, printed);
        printed := printed + More(a, i == n - 1);
        i := i + 1;
      }
      JoinEmpty(args, n);
      assert printed + "" == printed;
    }
  }

  // ------------------------------------------------------------ printing into a bounded buffer

  function Cut(s: string, n: nat): string {
    if |s| <= n then s else s[..n]
  }

  /** Bounded concatenation: never past the end of the buffer, always terminated. */
  method StrCat(dest: string, size: nat, src: string, ghost whole: string) returns (r: string)
    requires size > 0 && dest == Cut(whole, size - 1)
    ensures r == Cut(whole + src, size - 1)
  {
    var room := size - |dest| - 1;
    r := dest + if |src| <= room then src else src[..room];
  }

  /** One argument, in quotes if it has a space, and a space behind it unless it is the last. */
  method ShowArgument(dest: string, size: nat, a: string, last: bool, ghost whole: string) returns (r: string)
    requires size > 0 && dest == Cut(whole, size - 1)
    ensures r == Cut(whole + More(a, last), size - 1)
  {
    hide Cut;
    r := dest;
    if HasSpace(a) {
      r := StrCat(r, size, "\"", whole);
      r := StrCat(r, size, a, whole + "\"");
      r := StrCat(r, size, "\"", whole + "\"" + a);
      assert whole + "\"" + a + "\"" == whole + Shown(a);
    } else {
      r := StrCat(r, size, a, whole);
    }
    if last {
      assert whole + (Shown(a) + "") == whole + Shown(a);
    } else {
      r := StrCat(r, size, " ", whole + Shown(a));
      assert whole + Shown(a) + " " == whole + (Shown(a) + " ");
    }
  }

  /** What is printed for one argument. */
  ghost function More(a: string, last: bool): string { Shown(a) + if last then "" else " " }

  lemma PrintedMore(args: seq<string>, i: nat, printed: string)
    requires i < |args|
    ensures printed + Join(args[i..]) == (printed + More(args[i], i == |args| - 1)) + Join(args[i + 1..])
  {
    JoinFrom(args, i);
    hide Shown, Join;
  }

  lemma Counted(frames: seq<seq<string>>, k: nat, b: Books)
    requires AllOk(frames, b) && k < |frames|
    ensures b.counts[k] == |frames[k]|
  {
    assert FrameOk(frames, k, b);
  }

  lemma NothingCut(n: nat)
    ensures Cut("", n) == ""
  {}

  lemma JoinEmpty(args: seq<string>, n: nat)
    requires n == |args|
    ensures Join(args[n..]) == ""
  {}

  lemma JoinFrom(args: seq<string>, i: nat)
    requires i < |args|
    ensures Join(args[i..]) == Shown(args[i]) + if i + 1 == |args| then "" else " " + Join(args[i + 1..])
    ensures i + 1 == |args| ==> Join(args[i + 1..]) == ""
  {
    if i + 1 == |args| {
      assert args[i..] == [args[i]];
      JoinOne(args[i]);
      assert args[i + 1..] == [];
    } else {
      JoinMore(args[i..]);
      assert args[i..][1..] == args[i + 1..];
    }
  }

  /** How far a token reaches. */
  datatype Kind = Word | Quotation | Line

  function EndOf(text: string, p: nat, kind: Kind): nat
    requires p <= |text|
  {
    match kind
    case Word => WordEnd(text, p)
    case Quotation => QuoteEnd(text, p)
    case Line => |text|
  }

  // ------------------------------------------------------------ steps of the splitting loop

  lemma NothingStored(p: Pool, argv: seq<nat>, base: nat)
    requires PoolOk(p) && base <= |argv|
    ensures PushedAll(p, Flat([])) == p && PointersOk(argv, base, p.top, [])
  {}

  lemma FlatMore(done: seq<string>, token: string)
    ensures Flat(done + [token]) == Flat(done) + (token + ['\0'])
  {
    assert (done + [token])[..|done|] == done;
    assert Flat(done) + token + ['\0'] == Flat(done) + (token + ['\0']);
  }

  lemma PointersExtend(was: seq<nat>, argv: seq<nat>, base: nat, top: nat, done: seq<string>)
    requires |was| == |argv| && base + |done| < |argv| && PointersOk(was, base, top, done)
    requires forall i | 0 <= i < |argv| && i != base + |done| :: argv[i] == was[i]
    ensures PointersOk(argv, base, top, done)
  {}

  lemma PointersNext(argv: seq<nat>, base: nat, top: nat, done: seq<string>, token: string)
    requires PointersOk(argv, base, top, done) && base + |done| < |argv|
    requires argv[base + |done|] == Risen(top, |Flat(done)|)
    ensures PointersOk(argv, base, top, done + [token])
  {
    hide Flat, Risen;
    var args := done + [token];
    forall j | 0 <= j < |args|
      ensures argv[base + j] == Risen(top, |Flat(args[..j])|)
    {
      assert args[..j] == done[..j];
      if j == |done| { assert done[..j] == done; }
    }
  }

  lemma LastToken(text: string, p: nat, count: nat, max: nat)
    requires p <= |text| && count == max - 1
    ensures Tokens(text, p, count, max) == [text[SkipSpace(text, p)..|text|]]
  {
    var s := SkipSpace(text, p);
    assert text[s..] == text[s..|text|];
  }

  lemma NoMoreTokens(text: string, p: nat, count: nat, max: nat)
    requires p <= |text| && count + 1 < max && TokenStart(text, p) == |text|
    ensures Tokens(text, p, count, max) == []
  {}

  lemma EnoughTokens(text: string, p: nat, count: nat, max: nat)
    requires p <= |text| && count >= max
    ensures Tokens(text, p, count, max) == []
  {}

  /** The token at the place found: what the two scanning loops will copy, and how the rest goes on. */
  lemma OneMoreToken(text: string, p: nat, count: nat, max: nat)
    requires p <= |text| && count + 1 < max && TokenStart(text, p) < |text|
    ensures var s := TokenStart(text, p);
            && StartsToken(text, s)
            && TokenEnd(text, s) == (if text[s] == '"' then QuoteEnd(text, s + 1) else WordEnd(text, s))
            && TokenAt(text, s)
               == (if text[s] == '"' then text[s + 1..TokenEnd(text, s)] else text[s..TokenEnd(text, s)])
            && Tokens(text, p, count, max) ==
               if TokenEnd(text, s) == |text| then [TokenAt(text, s)]
               else [TokenAt(text, s)] + Tokens(text, AfterToken(text, s), count + 1, max)
  {
    TokensStep(text, p, count, max);
  }

  lemma {:induction false} TokensNoZero(text: string, p: nat, argc: nat, max: nat)
    requires p <= |text| && '\0' !in text
    ensures forall j | 0 <= j < |Tokens(text, p, argc, max)| :: '\0' !in Tokens(text, p, argc, max)[j]
    decreases |text| - p
  {
    if argc + 1 < max && TokenStart(text, p) < |text| {
      var s := TokenStart(text, p);
      TokensStep(text, p, argc, max);
      if TokenEnd(text, s) < |text| {
        TokensNoZero(text, AfterToken(text, s), argc + 1, max);
      }
    }
  }

  lemma PointersBound(argv: seq<nat>, base: nat, top: nat, args: seq<string>)
    requires PointersOk(argv, base, top, args)
    ensures base + |args| <= |argv|
  {}

  // ------------------------------------------------------------ pushing and popping keep the other frames

  lemma SliceOfPrefix<T>(a: seq<T>, b: seq<T>, n: nat, i: nat, j: nat)
    requires i <= j <= n <= |a| && n <= |b| && a[..n] == b[..n]
    ensures a[i..j] == b[i..j]
  {
    forall k | 0 <= k < j - i
      ensures a[i..j][k] == b[i..j][k]
    {
      assert a[..n][i + k] == b[..n][i + k];
    }
  }

  lemma PointersFramed(argv: seq<nat>, was: seq<nat>, n: nat, base: nat, top: nat, args: seq<string>)
    requires base + |args| <= n <= |argv| && n <= |was| && argv[..n] == was[..n] && PointersOk(was, base, top, args)
    ensures PointersOk(argv, base, top, args)
  {
    forall j | 0 <= j < |args|
      ensures argv[base + j] == Risen(top, |Flat(args[..j])|)
    {
      assert argv[base + j] == argv[..n][base + j] == was[..n][base + j] == was[base + j];
    }
  }

  /** What is stored below both tops stays stored. */
  lemma StoredFramed(args: seq<string>, base: nat, top: nat, was: seq<char>, text: seq<char>, argvWas: seq<nat>,
                     argv: seq<nat>, textTop: nat, argvTop: nat)
    requires StoredAt(args, base, top, was, argvWas)
    requires Risen(top, |Flat(args)|) <= textTop <= |was| && textTop <= |text| && text[..textTop] == was[..textTop]
    requires base + |args| <= argvTop <= |argv| && argvTop <= |argvWas| && argv[..argvTop] == argvWas[..argvTop]
    ensures StoredAt(args, base, top, text, argv)
  {
    PointersFramed(argv, argvWas, argvTop, base, top, args);
    SliceOfPrefix(text, was, textTop, top, Risen(top, |Flat(args)|));
  }

  lemma LowerFrameOk(below: seq<seq<string>>, args: seq<string>, k: nat, b: Books, b': Books)
    requires AllOk(below, b) && BooksShaped(b') && k < |below| < MAX_TOKENIZE_STRINGS
    requires ArgvTop(below, |below|) <= ARGV_POOL
    requires b'.counts[k] == b.counts[k] && b'.firsts[k] == b.firsts[k] && b'.shift[k] == b.shift[k]
      && b'.used[k] == b.used[k]
    requires b'.text[..TextTop(below, |below|)] == b.text[..TextTop(below, |below|)]
    requires b'.argv[..ArgvTop(below, |below|)] == b.argv[..ArgvTop(below, |below|)]
    ensures FrameOk(below + [args], k, b')
  {
    assert FrameOk(below, k, b);
    TopsOfPrefix(below, [args], k);
    TopsOfPrefix(below, [args], k + 1);
    TopsGrow(below, k + 1, |below|);
    hide StoredAt, Flat, Risen;
    StoredFramed(below[k], ArgvTop(below, k), TextTop(below, k), b.text, b'.text, b.argv, b'.argv,
                 TextTop(below, |below|), ArgvTop(below, |below|));
  }

  /** The frame on top, when its numbers and its text are in place. */
  lemma TopFrameOk(below: seq<seq<string>>, args: seq<string>, b: Books)
    requires BooksShaped(b) && |below| < MAX_TOKENIZE_STRINGS
    requires var n, top, base := |below|, TextTop(below, |below|), ArgvTop(below, |below|);
             && b.counts[n] == |args| && b.firsts[n] == base && b.shift[n] == 0
             && b.used[n] == Risen(top, |Flat(args)|) - top
             && StoredAt(args, base, top, b.text, b.argv)
    ensures FrameOk(below + [args], |below|, b)
    ensures TextTop(below + [args], |below| + 1) == Risen(TextTop(below, |below|), |Flat(args)|)
    ensures ArgvTop(below + [args], |below| + 1) == ArgvTop(below, |below|) + |args|
  {
    hide StoredAt, Flat, Risen;
    TopsOfPrefix(below, [args], |below|);
  }

  lemma PushKeeps(below: seq<seq<string>>, args: seq<string>, b: Books, b': Books)
    requires AllOk(below, b) && BooksShaped(b') && |below| < MAX_TOKENIZE_STRINGS
    requires ArgvTop(below, |below|) <= ARGV_POOL
    requires b'.text[TOP] == '\0' && forall j | 0 <= j < |args| :: '\0' !in args[j]
    requires var n, top := |below|, TextTop(below, |below|);
             && b'.counts == b.counts[n := |args|] && b'.firsts == b.firsts[n := ArgvTop(below, n)]
             && b'.shift == b.shift[n := 0] && b'.used == b.used[n := Risen(top, |Flat(args)|) - top]
             && b'.text[..top] == b.text[..top]
             && top <= Risen(top, |Flat(args)|) && b'.text[top..Risen(top, |Flat(args)|)] == Fitted(Flat(args), top)
             && b'.argv[..ArgvTop(below, n)] == b.argv[..ArgvTop(below, n)]
             && PointersOk(b'.argv, ArgvTop(below, n), top, args)
    ensures AllOk(below + [args], b')
    ensures TextTop(below + [args], |below| + 1) == Risen(TextTop(below, |below|), |Flat(args)|)
    ensures ArgvTop(below + [args], |below| + 1) == ArgvTop(below, |below|) + |args|
  {
    assert Risen(TextTop(below, |below|), |Flat(args)|) <= TOP;
    hide PointersOk, Flat, Risen, FrameOk, TextTop, ArgvTop, Fitted;
    TopFrameOk(below, args, b');
    forall k | 0 <= k <= |below|
      ensures FrameOk(below + [args], k, b')
    {
      if k < |below| {
        LowerFrameOk(below, args, k, b, b');
      }
    }
  }

  lemma FrameOfPrefix(below: seq<seq<string>>, more: seq<seq<string>>, k: nat, b: Books)
    requires k < |below| && |below + more| <= MAX_TOKENIZE_STRINGS && BooksShaped(b) && FrameOk(below + more, k, b)
    ensures FrameOk(below, k, b)
  {
    hide StoredAt, Flat, Risen;
    TopsOfPrefix(below, more, k);
    TopsOfPrefix(below, more, k + 1);
  }

  lemma ZeroOnTop(frames: seq<seq<string>>, b: Books)
    requires AllOk(frames, b)
    ensures BooksShaped(b) && b.text[TOP] == '\0'
  {
    hide FrameOk;
  }

  lemma PopKeeps(below: seq<seq<string>>, last: seq<string>, b: Books)
    requires AllOk(below + [last], b)
    ensures AllOk(below, b)
  {
    hide FrameOk;
    forall k | 0 <= k < |below|
      ensures FrameOk(below, k, b)
    {
      assert FrameOk(below + [last], k, b);
      FrameOfPrefix(below, [last], k, b);
    }
  }

  /** What the popped frame's books say is exactly what it took from the pools. */
  lemma PopTotals(below: seq<seq<string>>, last: seq<string>, b: Books)
    requires AllOk(below + [last], b)
    ensures var n, all := |below|, below + [last];
            && b.shift[n] == 0
            && ArgvTop(all, n + 1) - b.counts[n] == ArgvTop(all, n) == ArgvTop(below, n)
            && TextTop(all, n + 1) - b.used[n] == TextTop(all, n) == TextTop(below, n)
  {
    hide Stored, Flat, Risen;
    assert FrameOk(below + [last], |below|, b);
    TopsOfPrefix(below, [last], |below|);
  }
}
