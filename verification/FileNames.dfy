/**
 File names as they reach the lookup: leading separators are dropped, a run of separators is
 one slash, a dot in front of a separator or at the end is dropped, and a name that steps up
 or has a double colon is refused.
 */
module FileNames {
  import opened Common

  predicate IsSlash(c: char) { c == '/' || c == '\\' }

  /** `s` starts with two dots or two colons. */
  predicate Backup(s: string) {
    |s| >= 2 && s[0] == s[1] && (s[0] == '.' || s[0] == ':')
  }

  /** Somewhere in `s` there are two dots or two colons. */
  predicate HasBackup(s: string) {
    s != "" && (Backup(s) || HasBackup(s[1..]))
  }

  predicate DotAlone(s: string)
    requires s != ""
  {
    s[0] == '.' && (|s| == 1 || IsSlash(s[1]))
  }

  function DropSlashes(s: string): (r: string)
    ensures |r| <= |s| && (r != "" ==> !IsSlash(r[0]))
  {
    if s != "" && IsSlash(s[0]) then DropSlashes(s[1..]) else s
  }

  /** The name behind leading separators, in a buffer without bound. */
  function Cleaned(s: string): Option<string>
    decreases |s|
  {
    if s == "" then Some("")
    else if Backup(s) then None
    else if DotAlone(s) then Cleaned(s[1..])
    else if IsSlash(s[0]) then InFront('/', Cleaned(DropSlashes(s[1..])))
    else InFront(s[0], Cleaned(s[1..]))
  }

  function InFront(c: char, rest: Option<string>): Option<string> {
    if rest.None? then None else Some([c] + rest.value)
  }

  function Sanitized(name: string, size: nat): Option<string> {
    var r := Cleaned(DropSlashes(name));
    if r.Some? && |r.value| < size then r else None
  }

  // ------------------------------------------------------------ the loop

  /** What is still to come, put behind what is done. */
  function Behind(done: string, rest: Option<string>): Option<string> {
    if rest.None? then None else Some(done + rest.value)
  }

  lemma BehindNothing(rest: Option<string>)
    ensures Behind("", rest) == rest
  {
    if rest.Some? {
      assert "" + rest.value == rest.value;
    }
  }

  lemma BehindMore(done: string, c: char, rest: Option<string>)
    ensures Behind(done, InFront(c, rest)) == Behind(done + [c], rest)
  {
    if rest.Some? {
      assert done + ([c] + rest.value) == done + [c] + rest.value;
    }
  }

  /** Index of the first character from `p` on that is no separator. */
  method SkipSlashes(name: string, p: nat) returns (q: nat)
    requires p <= |name|
    ensures p <= q <= |name| && name[q..] == DropSlashes(name[p..])
  {
    q := p;
    while q < |name| && IsSlash(name[q])
      invariant p <= q <= |name| && DropSlashes(name[q..]) == DropSlashes(name[p..])
    {
      assert name[q..][1..] == name[q + 1..];
      q := q + 1;
    }
  }

  method Sanitize(name: string, size: nat) returns (sanitized: Option<string>)
    requires size > 0
    ensures sanitized == Sanitized(name, size)
  {
    hide DropSlashes, Backup;
    var src := SkipSlashes(name, 0);
    assert name[0..] == name;
    ghost var rest := name[src..];
    var done := "";
    BehindNothing(Cleaned(rest));
    while src < |name|
      invariant src <= |name| && |done| < size
      invariant Cleaned(rest) == Behind(done, Cleaned(name[src..]))
      decreases |name| - src
    {
      assert name[src..][1..] == name[src + 1..];
      if Backup(name[src..]) {
        return None;
      }
      if name[src] == '.' && (src + 1 == |name| || IsSlash(name[src + 1])) {
        src := src + 1;
        continue;
      }
      if |done| + 1 >= size {
        TooLong(done, name[src..]);
        return None;
      }
      if IsSlash(name[src]) {
        var next := SkipSlashes(name, src + 1);
        BehindMore(done, '/', Cleaned(name[next..]));
        done := done + "/";
        src := next;
      } else {
        BehindMore(done, name[src], Cleaned(name[src + 1..]));
        done := done + [name[src]];
        src := src + 1;
      }
    }
    assert name[src..] == "" && done + "" == done;
    return Some(done);
  }

  lemma TooLong(done: string, s: string)
    requires s != "" && !DotAlone(s)
    ensures Behind(done, Cleaned(s)).Some? ==> |Behind(done, Cleaned(s)).value| > |done|
  {}

  // ------------------------------------------------------------ what it is for

  lemma {:induction false} SlashesHideNothing(s: string)
    ensures HasBackup(s) <==> HasBackup(DropSlashes(s))
  {
    if s != "" && IsSlash(s[0]) {
      SlashesHideNothing(s[1..]);
    }
  }

  /** A name is refused for what it says exactly when two dots or two colons stand in it. */
  lemma {:induction false} RefusedIff(s: string)
    ensures Cleaned(s).None? <==> HasBackup(s)
    decreases |s|
  {
    if s != "" && !Backup(s) {
      if IsSlash(s[0]) {
        SlashesHideNothing(s[1..]);
        RefusedIff(DropSlashes(s[1..]));
      } else {
        RefusedIff(s[1..]);
      }
    }
  }

  lemma {:induction false} BackupStands(s: string)
    ensures HasBackup(s) <==>
            exists i | 0 <= i < |s| - 1 :: (s[i] == '.' && s[i + 1] == '.') || (s[i] == ':' && s[i + 1] == ':')
    decreases |s|
  {
    if s != "" {
      BackupStands(s[1..]);
      if HasBackup(s[1..]) {
        var i :| 0 <= i < |s[1..]| - 1
                 && ((s[1..][i] == '.' && s[1..][i + 1] == '.') || (s[1..][i] == ':' && s[1..][i + 1] == ':'));
        assert s[i + 1] == s[1..][i] && s[i + 2] == s[1..][i + 1];
      }
      if i :| 0 <= i < |s| - 1 && ((s[i] == '.' && s[i + 1] == '.') || (s[i] == ':' && s[i + 1] == ':')) {
        if i > 0 {
          assert s[1..][i - 1] == s[i] && s[1..][i] == s[i + 1];
        }
      }
    }
  }

  /** No step up, no backslash, and no dot in front of a slash or at the end. */
  predicate Safe(s: string) {
    !HasBackup(s) && '\\' !in s && forall i | 0 <= i < |s| :: !DotAlone(s[i..])
  }

  lemma SafeInFront(c: char, rest: string)
    requires Safe(rest) && c != '\\' && !Backup([c] + rest) && !DotAlone([c] + rest)
    ensures Safe([c] + rest)
  {
    var s := [c] + rest;
    assert s[1..] == rest;
    forall i | 0 <= i < |s|
      ensures !DotAlone(s[i..])
    {
      if i > 0 { assert s[i..] == rest[i - 1..]; }
    }
  }

  /** What a cleaned name starts with. */
  lemma HeadKept(s: string)
    requires s != "" && Cleaned(s).Some?
    ensures var r := Cleaned(s).value;
            && (r != "" ==> r[0] == '/' || r[0] == s[0])
            && (!DotAlone(s) && !IsSlash(s[0]) ==> r != "" && r[0] == s[0])
  {}

  lemma {:induction false} CleanedIsSafe(s: string)
    requires Cleaned(s).Some?
    ensures Safe(Cleaned(s).value)
    decreases |s|
  {
    if s != "" {
      if DotAlone(s) {
        CleanedIsSafe(s[1..]);
      } else if IsSlash(s[0]) {
        var rest := DropSlashes(s[1..]);
        CleanedIsSafe(rest);
        SafeInFront('/', Cleaned(rest).value);
      } else {
        CleanedIsSafe(s[1..]);
        if |s| > 1 { HeadKept(s[1..]); }
        SafeInFront(s[0], Cleaned(s[1..]).value);
      }
    }
  }

  /** Exactly the names that step nowhere and fit are let through, and what comes out is safe. */
  lemma SanitizedIff(name: string, size: nat)
    ensures Sanitized(name, size).None? <==>
            HasBackup(name) || (Cleaned(DropSlashes(name)).Some? && |Cleaned(DropSlashes(name)).value| >= size)
    ensures Sanitized(name, size).Some? ==>
            Safe(Sanitized(name, size).value) && |Sanitized(name, size).value| < size
  {
    SlashesHideNothing(name);
    RefusedIff(DropSlashes(name));
    if Sanitized(name, size).Some? { CleanedIsSafe(DropSlashes(name)); }
  }

  // ------------------------------------------------------------ what comes out

  /** A separator stays when a character other than a separator stands in front, a dot when it is not alone. */
  predicate Stays(s: string, i: nat)
    requires i < |s|
  {
    if s[i] in {'/', '\\'} then i > 0 && s[i - 1] !in {'/', '\\'}
    else s[i] == '.' ==> i + 1 < |s| && s[i + 1] !in {'/', '\\'}
  }

  /** What stays of the characters from `i` on, separators as slashes. */
  function Picked(s: string, i: nat): string
    requires i <= |s|
    decreases |s| - i
  {
    if i == |s| then ""
    else (if !Stays(s, i) then "" else if s[i] == '\\' then "/" else [s[i]]) + Picked(s, i + 1)
  }

  /** Behind the separators that stand at `i`. */
  function SlashesEnd(s: string, i: nat): (n: nat)
    requires i <= |s|
    ensures i <= n <= |s| && (n < |s| ==> !IsSlash(s[n]))
    decreases |s| - i
  {
    if i < |s| && IsSlash(s[i]) then SlashesEnd(s, i + 1) else i
  }

  lemma {:induction false} SlashesDropped(s: string, i: nat)
    requires i <= |s|
    ensures DropSlashes(s[i..]) == s[SlashesEnd(s, i)..]
    decreases |s| - i
  {
    if i < |s| && IsSlash(s[i]) {
      assert s[i..][1..] == s[i + 1..];
      SlashesDropped(s, i + 1);
    }
  }

  lemma {:induction false} NoneStays(s: string, i: nat)
    requires i <= |s| && (i == 0 || IsSlash(s[i - 1]))
    ensures Picked(s, i) == Picked(s, SlashesEnd(s, i))
    decreases |s| - i
  {
    if i < |s| && IsSlash(s[i]) {
      NoneStays(s, i + 1);
    }
  }

  /** The name from `i` on, after one character and the separators it stands for. */
  lemma CleanedAt(s: string, i: nat)
    requires i < |s| && Cleaned(s[i..]).Some?
    ensures Cleaned(s[i..]) ==
      if s[i] == '.' && (i + 1 == |s| || IsSlash(s[i + 1])) then Cleaned(s[i + 1..])
      else if IsSlash(s[i]) then InFront('/', Cleaned(s[SlashesEnd(s, i + 1)..]))
      else InFront(s[i], Cleaned(s[i + 1..]))
  {
    SlashesDropped(s, i + 1);
    hide DropSlashes, SlashesEnd;
    assert s[i..][1..] == s[i + 1..];
  }

  lemma PickedAt(s: string, i: nat)
    requires i < |s| && (IsSlash(s[i]) ==> i > 0 && !IsSlash(s[i - 1]))
    ensures Picked(s, i) ==
      if s[i] == '.' && (i + 1 == |s| || IsSlash(s[i + 1])) then Picked(s, i + 1)
      else if IsSlash(s[i]) then "/" + Picked(s, SlashesEnd(s, i + 1))
      else [s[i]] + Picked(s, i + 1)
  {
    if IsSlash(s[i]) { NoneStays(s, i + 1); }
    hide SlashesEnd;
    assert "" + Picked(s, i + 1) == Picked(s, i + 1);
  }

  lemma {:induction false} CleanedIsPicked(s: string, i: nat)
    requires i <= |s| && (i < |s| && IsSlash(s[i]) ==> i > 0 && !IsSlash(s[i - 1]))
    ensures Cleaned(s[i..]).Some? ==> Cleaned(s[i..]).value == Picked(s, i)
    decreases |s| - i
  {
    if i < |s| && Cleaned(s[i..]).Some? {
      CleanedAt(s, i);
      PickedAt(s, i);
      hide Cleaned, Picked, SlashesEnd;
      CleanedIsPicked(s, if IsSlash(s[i]) then SlashesEnd(s, i + 1) else i + 1);
    }
  }

  /** What passes is exactly the characters that stay, in order. */
  lemma SanitizedIs(name: string, size: nat)
    ensures Sanitized(name, size).Some? ==> Sanitized(name, size).value == Picked(name, 0)
  {
    assert name[0..] == name;
    SlashesDropped(name, 0);
    NoneStays(name, 0);
    CleanedIsPicked(name, SlashesEnd(name, 0));
  }

  // ------------------------------------------------------------ names that pass unchanged

  /** No two separators stand together. */
  predicate Single(s: string) {
    forall i | 0 <= i < |s| - 1 :: !(IsSlash(s[i]) && IsSlash(s[i + 1]))
  }

  lemma {:induction false} NeverLonger(s: string)
    ensures Cleaned(s).Some? ==> |Cleaned(s).value| <= |s|
    decreases |s|
  {
    if s != "" {
      NeverLonger(DropSlashes(s[1..]));
      NeverLonger(s[1..]);
    }
  }

  lemma TailKeeps(s: string)
    requires s != "" && Safe(s) && Single(s)
    ensures Safe(s[1..]) && Single(s[1..]) && !Backup(s) && !DotAlone(s) && s[0] != '\\'
    ensures IsSlash(s[0]) ==> DropSlashes(s[1..]) == s[1..]
  {
    assert s[0..] == s;
    forall i | 0 <= i < |s[1..]|
      ensures !DotAlone(s[1..][i..])
    {
      assert s[1..][i..] == s[i + 1..];
    }
  }

  lemma SingleInFront(c: char, rest: string)
    requires Single(rest) && (IsSlash(c) && rest != "" ==> !IsSlash(rest[0]))
    ensures Single([c] + rest)
  {}

  /** A name behind leading separators is kept as it is exactly when it is safe and has no doubled separator. */
  lemma {:induction false} KeptIff(s: string)
    ensures Cleaned(s) == Some(s) <==> Safe(s) && Single(s)
    decreases |s|
  {
    if s != "" {
      KeptIff(s[1..]);
      NeverLonger(s[1..]);
      NeverLonger(DropSlashes(s[1..]));
      assert s == [s[0]] + s[1..];
      if Safe(s) && Single(s) {
        TailKeeps(s);
      }
      if Cleaned(s) == Some(s) {
        CleanedIsSafe(s);
        assert Cleaned(s[1..]) == Some(s[1..]);
        SingleInFront(s[0], s[1..]);
      }
    }
  }

  lemma SanitizedKeepsIff(name: string, size: nat)
    ensures Sanitized(name, size) == Some(name) <==>
            Safe(name) && Single(name) && |name| < size && (name != "" ==> !IsSlash(name[0]))
  {
    KeptIff(DropSlashes(name));
    NeverLonger(DropSlashes(name));
  }
}
