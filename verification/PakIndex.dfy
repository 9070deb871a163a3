/**
 The index of an archive: entries with the same hash are chained, newest first, from a table
 whose size is a power of two.  Looking a name up walks one chain.
 */
module PakIndex {
  import opened Common
  import opened FileNames

  const MAX_FILEHASH_SIZE := 1024

  const MAX_ZPATH := 256

  /** A path of ASCII characters that fits its buffer. */
  type Name = s: string | |s| < MAX_ZPATH && forall i | 0 <= i < |s| :: 0 < s[i] as int < 128 witness ""

  // ------------------------------------------------------------ comparing names

  /** Case and the kind of separator do not matter when names are compared. */
  function Compared(c: char): char {
    var u := if 'a' <= c <= 'z' then (c as int - 32) as char else c;
    if u == '\\' || u == ':' then '/' else u
  }

  predicate SameName(a: string, b: string) {
    |a| == |b| && forall i | 0 <= i < |a| :: Compared(a[i]) == Compared(b[i])
  }

  /** Compares up to and including the terminator of the shorter name. */
  method FilenameCompare(s1: Name, s2: Name) returns (equal: bool)
    ensures equal <==> SameName(s1, s2)
  {
    var i := 0;
    while true
      invariant 0 <= i <= |s1| && i <= |s2|
      invariant forall k | 0 <= k < i :: Compared(s1[k]) == Compared(s2[k])
      decreases |s1| - i
    {
      if i == |s1| || i == |s2| {
        return |s1| == |s2|;
      }
      if Compared(s1[i]) != Compared(s2[i]) {
        return false;
      }
      i := i + 1;
    }
  }

  // ------------------------------------------------------------ hashing names

  function Lower(c: char): char {
    if 'A' <= c <= 'Z' then (c as int + 32) as char else c
  }

  function Hashed(c: char): char {
    var l := Lower(c);
    if l == '\\' then '/' else l
  }

  /** The part in front of the extension. */
  function Stem(s: string): (n: nat)
    ensures n <= |s|
  {
    if s == "" || s[0] == '.' then 0 else 1 + Stem(s[1..])
  }

  /** The weighted sum of the first `n` characters. */
  function Sum(s: Name, n: nat): (h: nat)
    requires n <= |s|
    ensures h <= n * 50000
  {
    if n == 0 then 0
    else
      WeightBound(Hashed(s[n - 1]) as int, n - 1 + 119);
      Sum(s, n - 1) + (Hashed(s[n - 1]) as int) * (n - 1 + 119)
  }

  lemma WeightBound(c: nat, w: nat)
    requires c < 128 && w < 375
    ensures c * w <= 50000
  {
    assert c * w <= 128 * w;
  }

  /** The sizes the table of an index can have. */
  predicate IsSize(n: nat) { n in {1, 2, 4, 8, 16, 32, 64, 128, 256, 512, 1024, 2048} }

  function Mixed(w: bv32): bv32 { w ^ (w >> 10) ^ (w >> 20) }

  function Masked(w: bv32, hashSize: nat): (h: nat)
    requires IsSize(hashSize)
  {
    (w & (hashSize - 1) as bv32) as nat
  }

  lemma MaskedBelow(w: bv32, hashSize: nat)
    requires IsSize(hashSize)
    ensures Masked(w, hashSize) < hashSize
  {
    if hashSize == 1 { assert (w & 0) as int < 1; }
    else if hashSize == 2 { assert (w & 1) as int < 2; }
    else if hashSize == 4 { assert (w & 3) as int < 4; }
    else if hashSize == 8 { assert (w & 7) as int < 8; }
    else if hashSize == 16 { assert (w & 15) as int < 16; }
    else if hashSize == 32 { assert (w & 31) as int < 32; }
    else if hashSize == 64 { assert (w & 63) as int < 64; }
    else if hashSize == 128 { assert (w & 127) as int < 128; }
    else if hashSize == 256 { assert (w & 255) as int < 256; }
    else if hashSize == 512 { assert (w & 511) as int < 512; }
    else if hashSize == 1024 { assert (w & 1023) as int < 1024; }
    else { assert (w & 2047) as int < 2048; }
  }

  /** The hash of a sum of weights. */
  function Reduced(sum: nat, hashSize: nat): (h: nat)
    requires IsSize(hashSize) && sum < 0x1_0000_0000
    ensures h < hashSize
  {
    MaskedBelow(Mixed(sum as bv32), hashSize);
    Masked(Mixed(sum as bv32), hashSize)
  }

  function Hash(s: Name, hashSize: nat): (h: nat)
    requires IsSize(hashSize)
    ensures h < hashSize
  {
    Reduced(Sum(s, Stem(s)), hashSize)
  }

  method HashFileName(fname: Name, hashSize: nat) returns (h: nat)
    requires IsSize(hashSize)
    ensures h == Hash(fname, hashSize)
  {
    hide Reduced, Lower;
    var hash, i := 0, 0;
    while i < |fname|
      invariant i <= Stem(fname) && i <= |fname| && Stem(fname) == i + Stem(fname[i..])
      invariant hash == Sum(fname, i)
    {
      var letter := Hashed(fname[i]);
      if letter == '.' {
        DotIsHashed(fname[i]);
        break;
      }
      DotIsHashed(fname[i]);
      assert fname[i..][1..] == fname[i + 1..];
      WeightBound(letter as int, i + 119);
      hash := hash + (letter as int) * (i + 119);
      i := i + 1;
    }
    h := Reduced(hash, hashSize);
  }

  lemma DotIsHashed(c: char)
    ensures Hashed(c) == '.' <==> c == '.'
    ensures c as int < 128 ==> Hashed(c) as int < 128
  {}

  // ------------------------------------------------------------ equal names hash alike

  /** Colons stand at the same places in front of the extension. */
  predicate SameColons(a: string, b: string) {
    |a| == |b| && forall i | 0 <= i < Stem(a) :: a[i] == ':' <==> b[i] == ':'
  }

  lemma SameCharacter(a: char, b: char)
    requires Compared(a) == Compared(b)
    ensures a == '.' <==> b == '.'
    ensures (a == ':' <==> b == ':') ==> Hashed(a) == Hashed(b)
  {}

  lemma {:induction false} SameStem(a: string, b: string)
    requires SameName(a, b)
    ensures Stem(a) == Stem(b)
    decreases |a|
  {
    if a != "" {
      SameCharacter(a[0], b[0]);
      forall i | 0 <= i < |a[1..]|
        ensures Compared(a[1..][i]) == Compared(b[1..][i])
      {
        assert Compared(a[i + 1]) == Compared(b[i + 1]);
      }
      SameStem(a[1..], b[1..]);
    }
  }

  lemma {:induction false} SameSum(a: Name, b: Name, n: nat)
    requires SameName(a, b) && SameColons(a, b) && n <= Stem(a)
    ensures Sum(a, n) == Sum(b, n)
  {
    if n > 0 {
      SameCharacter(a[n - 1], b[n - 1]);
      SameSum(a, b, n - 1);
    }
  }

  /** Names that compare equal and have their colons at the same places have the same hash. */
  lemma SameHash(a: Name, b: Name, hashSize: nat)
    requires IsSize(hashSize) && SameName(a, b) && SameColons(a, b)
    ensures Hash(a, hashSize) == Hash(b, hashSize)
  {
    SameStem(a, b);
    SameSum(a, b, Stem(a));
  }

  /** Two letters weigh 119 and 120 times, whatever their case. */
  lemma ShortNameHashes()
    ensures Hash("Ab.c", 1024) == Hash("aB", 1024) == 0x311
  {
    assert Stem("Ab.c") == 1 + Stem("b.c") == 2 + Stem(".c") == 2;
    assert Stem("aB") == 1 + Stem("B") == 2 + Stem("") == 2;
    assert Sum("Ab.c", 1) == 97 * 119 == Sum("aB", 1);
    assert Sum("Ab.c", 2) == 23303 == Sum("aB", 2);
  }

  // ------------------------------------------------------------ the chains

  function Lowered(s: Name): (r: Name)
    ensures |r| == |s| && forall i | 0 <= i < |s| :: r[i] == Lower(s[i])
  {
    if s == "" then "" else [Lower(s[0])] + Lowered(s[1..])
  }

  /** Lowering a name changes neither what it compares equal to nor its hash. */
  lemma LoweredIsSame(s: Name, hashSize: nat)
    requires IsSize(hashSize)
    ensures forall t: Name :: SameName(Lowered(s), t) <==> SameName(s, t)
    ensures Hash(Lowered(s), hashSize) == Hash(s, hashSize)
  {
    hide Lowered, Hash;
    forall i | 0 <= i < |s|
      ensures Compared(Lower(s[i])) == Compared(s[i]) && (Lower(s[i]) == ':' <==> s[i] == ':')
    {}
    SameStem(Lowered(s), s);
    SameHash(Lowered(s), s, hashSize);
  }

  /** The newest of the first `n` entries with hash `h`, or -1. */
  function Newest(names: seq<Name>, hashSize: nat, n: nat, h: nat): (j: int)
    requires IsSize(hashSize) && n <= |names|
    ensures -1 <= j < n
    ensures j >= 0 ==> Hash(names[j], hashSize) == h
    ensures forall k | j < k < n :: Hash(names[k], hashSize) != h
  {
    if n == 0 then -1
    else if Hash(names[n - 1], hashSize) == h then n - 1
    else Newest(names, hashSize, n - 1, h)
  }

  /** The last of the first `n` entries whose name compares equal, or -1: a plain scan. */
  function LastSame(names: seq<Name>, n: nat, name: Name): (j: int)
    requires n <= |names|
    ensures -1 <= j < n
    ensures j >= 0 ==> SameName(names[j], name)
    ensures forall k | j < k < n :: !SameName(names[k], name)
  {
    if n == 0 then -1 else if SameName(names[n - 1], name) then n - 1 else LastSame(names, n - 1, name)
  }

  /** The chain of `name` goes through `entry`, which compares equal. */
  predicate Leads(name: Name, entry: Name, hashSize: nat)
    requires IsSize(hashSize)
  {
    SameName(entry, name) && Hash(entry, hashSize) == Hash(name, hashSize)
  }

  /** The last of the first `n` entries a chain leads to, or -1. */
  function LastFound(names: seq<Name>, hashSize: nat, n: nat, name: Name): (j: int)
    requires IsSize(hashSize) && n <= |names|
    ensures -1 <= j < n
    ensures j >= 0 ==> Leads(name, names[j], hashSize)
    ensures forall k | j < k < n :: !Leads(name, names[k], hashSize)
  {
    hide Leads;
    if n == 0 then -1
    else if Leads(name, names[n - 1], hashSize) then n - 1
    else LastFound(names, hashSize, n - 1, name)
  }

  /** There is only one such entry. */
  lemma LastIsFound(names: seq<Name>, hashSize: nat, name: Name, j: int)
    requires IsSize(hashSize) && -1 <= j < |names|
    requires j >= 0 ==> Leads(name, names[j], hashSize)
    requires forall k | j < k < |names| :: !Leads(name, names[k], hashSize)
    ensures j == LastFound(names, hashSize, |names|, name)
  {
    hide Leads;
    var i := LastFound(names, hashSize, |names|, name);
    if i < j { assert false; } else if j < i { assert false; }
  }

  /** A lookup agrees with the plain scan exactly when the scan finds nothing, or an entry that hashes alike. */
  lemma LookupAgreesIff(names: seq<Name>, hashSize: nat, name: Name)
    requires IsSize(hashSize)
    ensures var j := LastSame(names, |names|, name);
            (LastFound(names, hashSize, |names|, name) == j)
            <==> (j == -1 || Hash(names[j], hashSize) == Hash(name, hashSize))
  {
    hide Hash, SameName;
  }

  /** It does so, in every archive, for a name whose colons are also those of that entry. */
  lemma LookupAgrees(names: seq<Name>, hashSize: nat, name: Name)
    requires IsSize(hashSize)
    requires var j := LastSame(names, |names|, name); j == -1 || SameColons(names[j], name)
    ensures LastFound(names, hashSize, |names|, name) == LastSame(names, |names|, name)
  {
    hide Hash, SameName;
    var j := LastSame(names, |names|, name);
    if j >= 0 {
      SameHash(names[j], name, hashSize);
    }
    LookupAgreesIff(names, hashSize, name);
  }

  /**
   An archive of one file, with a table of two chains: the scan finds it under another name, the
   lookup does not.  The name is one that reaches the lookup, which sanitizes names first.
   */
  lemma LookupMisses()
    ensures var names: seq<Name> := ["a:b"]; LastSame(names, 1, "a/b") == 0 && LastFound(names, 2, 1, "a/b") == -1
    ensures Sanitized("a/b", MAX_ZPATH) == Some("a/b")
  {
    SlashIsSanitized();
    hide Hash;
    HashValues();
  }

  lemma SlashIsSanitized()
    ensures Sanitized("a/b", MAX_ZPATH) == Some("a/b")
  {
    var s := "a/b";
    assert s[1..] == "/b" && s[1..][1..] == "b" && s[1..][1..][1..] == "";
    assert !HasBackup(s[1..][1..]) && !HasBackup(s[1..]) && !HasBackup(s);
    SanitizedKeepsIff(s, MAX_ZPATH);
  }

  lemma HashValues()
    ensures Hash("a:b", 2) == 0 && Hash("a/b", 2) == 1
  {
    hide Reduced;
    var colon: Name, slash: Name := "a:b", "a/b";
    assert colon[1..][1..][1..] == "" && slash[1..][1..][1..] == "";
    assert Stem(colon[1..][1..]) == 1 && Stem(slash[1..][1..]) == 1;
    assert Stem(colon[1..]) == 2 && Stem(slash[1..]) == 2;
    assert Sum(colon, 1) == 11543 && Sum(slash, 1) == 11543;
    assert Sum(colon, 2) == 18503 && Sum(slash, 2) == 17183;
    assert Sum(colon, 3) == 30361 && Sum(slash, 3) == 29041;
    ReducedValues();
  }

  /** What stands behind the first dot does not count. */
  lemma ExtensionIsLeftOut(stem: string, a: string, b: string, hashSize: nat)
    requires IsSize(hashSize) && '.' !in stem && IsName(stem + "." + a) && IsName(stem + "." + b)
    ensures Hash(stem + "." + a, hashSize) == Hash(stem + "." + b, hashSize)
  {
    StemBeforeDot(stem, a);
    StemBeforeDot(stem, b);
    SumOfPrefix(stem + "." + a, stem + "." + b, |stem|);
    hide Reduced;
  }

  predicate IsName(s: string) { |s| < MAX_ZPATH && forall i | 0 <= i < |s| :: 0 < s[i] as int < 128 }

  lemma {:induction false} StemBeforeDot(stem: string, rest: string)
    requires '.' !in stem
    ensures Stem(stem + "." + rest) == |stem|
  {
    if stem == "" {
      assert stem + "." + rest == "." + rest;
    } else {
      assert stem[0] in stem && (stem + "." + rest)[1..] == stem[1..] + "." + rest;
      StemBeforeDot(stem[1..], rest);
    }
  }

  lemma {:induction false} SumOfPrefix(a: Name, b: Name, n: nat)
    requires n <= |a| && n <= |b| && a[..n] == b[..n]
    ensures Sum(a, n) == Sum(b, n)
  {
    if n > 0 {
      assert a[n - 1] == a[..n][n - 1] == b[..n][n - 1] == b[n - 1];
      assert a[..n - 1] == a[..n][..n - 1] == b[..n][..n - 1] == b[..n - 1];
      SumOfPrefix(a, b, n - 1);
    }
  }

  /** Characters compare equal that are the same letter, or separators: slash, backslash or colon. */
  lemma ComparedIs(a: char, b: char)
    ensures Compared(a) == Compared(b) <==>
            || a == b
            || (a in {'/', '\\', ':'} && b in {'/', '\\', ':'})
            || ('A' <= a <= 'Z' && b as int == a as int + 32) || ('A' <= b <= 'Z' && a as int == b as int + 32)
  {}

  /** The reduction of some sums, up to the largest there are. */
  lemma LargeSumsReduced()
    ensures Reduced(0x00C0FFEE, 1024) == 0x3DD && Reduced(0x00123456, 2048) == 0xDA && Reduced(0x00B00001, 16) == 10
  {
    assert Mixed(0x00C0FFEE) & 1023 == 0x3DD;
    assert Mixed(0x00123456) & 2047 == 0xDA;
    assert Mixed(0x00B00001) & 15 == 10;
  }

  lemma ReducedValues()
    ensures Reduced(30361, 2) == 0 && Reduced(29041, 2) == 1
  {
    assert Mixed(30361) & 1 == 0;
    assert Mixed(29041) & 1 == 1;
  }

  lemma {:induction false} NewestFramed(a: seq<Name>, b: seq<Name>, hashSize: nat, n: nat, h: nat)
    requires IsSize(hashSize) && n <= |a| && n <= |b| && a[..n] == b[..n]
    ensures Newest(a, hashSize, n, h) == Newest(b, hashSize, n, h)
  {
    if n > 0 {
      assert a[n - 1] == a[..n][n - 1] == b[n - 1];
      assert a[..n - 1] == a[..n][..n - 1] && b[..n - 1] == b[..n][..n - 1];
      NewestFramed(a, b, hashSize, n - 1, h);
    }
  }

  /** Every chain starts with its newest entry and goes on with the newest one before. */
  ghost predicate Chained(names: seq<Name>, next: seq<int>, table: seq<int>, hashSize: nat) {
    && IsSize(hashSize) && |table| == hashSize && |next| >= |names|
    && (forall h | 0 <= h < hashSize :: table[h] == Newest(names, hashSize, |names|, h))
    && forall j | 0 <= j < |names| :: next[j] == Newest(names, hashSize, j, Hash(names[j], hashSize))
  }

  /** Putting one more entry in front of its chain. */
  lemma ChainedMore(names: seq<Name>, next: seq<int>, table: seq<int>, hashSize: nat, name: Name)
    requires Chained(names, next, table, hashSize) && |next| > |names|
    ensures var h := Hash(name, hashSize);
            Chained(names + [name], next[|names| := table[h]], table[h := |names|], hashSize)
  {
    hide Hash, Newest;
    var more, i, h := names + [name], |names|, Hash(name, hashSize);
    var table', next' := table[h := i], next[i := table[h]];
    forall k | 0 <= k < hashSize
      ensures table'[k] == Newest(more, hashSize, i + 1, k)
    {
      NewestFramed(more, names, hashSize, i, k);
      NewestLast(more, hashSize, i + 1, k);
    }
    forall j | 0 <= j <= i
      ensures next'[j] == Newest(more, hashSize, j, Hash(more[j], hashSize))
    {
      NewestFramed(more, names, hashSize, j, Hash(more[j], hashSize));
    }
  }

  lemma ChainStart(names: seq<Name>, next: seq<int>, table: seq<int>, hashSize: nat, h: nat)
    requires Chained(names, next, table, hashSize) && h < hashSize
    ensures -1 <= table[h] < |names|
    ensures table[h] >= 0 ==> Hash(names[table[h]], hashSize) == h
    ensures forall k | table[h] < k < |names| :: Hash(names[k], hashSize) != h
  {
    hide Hash;
  }

  lemma ChainNext(names: seq<Name>, next: seq<int>, table: seq<int>, hashSize: nat, j: nat)
    requires Chained(names, next, table, hashSize) && j < |names|
    ensures -1 <= next[j] < j
    ensures next[j] >= 0 ==> Hash(names[next[j]], hashSize) == Hash(names[j], hashSize)
    ensures forall k | next[j] < k < j :: Hash(names[k], hashSize) != Hash(names[j], hashSize)
  {
    hide Hash;
  }

  lemma NewestLast(names: seq<Name>, hashSize: nat, n: nat, h: nat)
    requires IsSize(hashSize) && 0 < n <= |names|
    ensures Newest(names, hashSize, n, h) ==
            if Hash(names[n - 1], hashSize) == h then n - 1 else Newest(names, hashSize, n - 1, h)
  {
    hide Hash;
  }

  class Pack {
    const names: array<Name>
    const next: array<int>
    const hashTable: array<int>
    const hashSize: nat
    ghost const entries: seq<Name>

    /** The first `n` entries are indexed. */
    ghost predicate Linked(n: nat)
      reads names, next, hashTable
    {
      && hashTable.Length == hashSize && next.Length == names.Length == |entries| && n <= |entries|
      && next != hashTable
      && (forall j | 0 <= j < n :: names[j] == Lowered(entries[j]))
      && Chained(names[..n], next[..], hashTable[..], hashSize)
    }

    ghost predicate Valid()
      reads names, next, hashTable
    {
      Linked(|entries|)
    }

    /** The table gets the smallest power of two above the number of files, or twice the limit. */
    static method TableSize(n: nat) returns (size: nat)
      ensures IsSize(size) && (size / 2 <= n) && (n < size || size == 2048)
    {
      size := 1;
      while size <= MAX_FILEHASH_SIZE
        invariant IsSize(size) && size / 2 <= n
        decreases 2 * MAX_FILEHASH_SIZE - size
      {
        if size > n {
          break;
        }
        size := size * 2;
      }
    }

    /** Indexes the names of an archive, in archive order. */
    constructor (files: seq<Name>)
      ensures Valid() && entries == files && fresh(names) && fresh(next) && fresh(hashTable)
      ensures hashSize / 2 <= |files| && (|files| < hashSize || hashSize == 2 * MAX_FILEHASH_SIZE)
    {
      var size := TableSize(|files|);
      hashSize := size;
      names := new Name[|files|](i => "");
      next := new int[|files|](i => -1);
      hashTable := new int[size](i => -1);
      entries := files;
      new;
      hide Hash;
      for i := 0 to |files|
        invariant Linked(i)
      {
        Link(i, files[i]);
      }
    }

    /** Puts entry `i` in front of its chain. */
    method Link(i: nat, file: Name)
      requires Linked(i) && i < |entries| && entries[i] == file
      modifies names, next, hashTable
      ensures Linked(i + 1)
    {
      hide Hash, Chained, Lowered;
      IsTable(i);
      var name := Lowered(file);
      var hash := HashFileName(name, hashSize);
      ChainedMore(names[..i], next[..], hashTable[..], hashSize, name);
      ghost var before := names[..i];
      names[i] := name;
      next[i] := hashTable[hash];
      hashTable[hash] := i;
      assert names[..i + 1] == before + [name];
    }

    /** The entry a name leads to, or -1. */
    method Find(name: Name) returns (found: int)
      requires Valid()
      ensures IsSize(hashSize) && found == LastFound(entries, hashSize, |entries|, name)
    {
      hide Hash, Chained, Lowered, SameName, Newest;
      IsTable(|entries|);
      var hash := HashFileName(name, hashSize);
      found := hashTable[hash];
      ChainStart(names[..], next[..], hashTable[..], hashSize, hash);
      while found != -1
        invariant -1 <= found < |entries|
        invariant found >= 0 ==> Hash(Lowered(entries[found]), hashSize) == hash
        invariant forall k | found < k < |entries| ::
          Hash(Lowered(entries[k]), hashSize) == hash ==> !SameName(entries[k], name)
        decreases found
      {
        LoweredIsSame(entries[found], hashSize);
        var equal := FilenameCompare(names[found], name);
        if equal {
          break;
        }
        ChainNext(names[..], next[..], hashTable[..], hashSize, found);
        found := next[found];
      }
      AllLowered();
      hide LastFound;
      LastIsFound(entries, hashSize, name, found);
    }

    lemma AllLowered()
      requires IsSize(hashSize)
      ensures forall k | 0 <= k < |entries| :: Hash(Lowered(entries[k]), hashSize) == Hash(entries[k], hashSize)
    {
      hide Hash, Lowered;
      forall k | 0 <= k < |entries|
        ensures Hash(Lowered(entries[k]), hashSize) == Hash(entries[k], hashSize)
      {
        LoweredIsSame(entries[k], hashSize);
      }
    }

    lemma IsTable(n: nat)
      requires Linked(n)
      ensures IsSize(hashSize) && names[..|entries|] == names[..]
    {}
  }
}
