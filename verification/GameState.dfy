/**
 The configstring tables as values: an offset per index into one heap of
 zero-terminated strings, offset zero meaning the empty string.
 */
module GameState {
  import opened Common
  import opened Message

  const MAX_CONFIGSTRINGS := 2442
  const MAX_GAMESTATE_CHARS := 0x20000

  function ZeroOffsets(n: nat): (z: seq<nat>)
    ensures |z| == n && forall i | 0 <= i < n :: z[i] == 0
  {
    seq(n, i => 0)
  }

  type Offsets = o: seq<nat> | |o| == MAX_CONFIGSTRINGS witness ZeroOffsets(MAX_CONFIGSTRINGS)

  /** An index into the two tables together. */
  type Index = i: nat | i < 2 * MAX_CONFIGSTRINGS

  /** `data` is the used part of the heap, so its length is the data count. */
  datatype Table = Table(offsets: Offsets, data: string)

  function Get(t: Table, i: nat): string
    requires i < MAX_CONFIGSTRINGS
  {
    if t.offsets[i] == 0 then "" else CStr(t.data, t.offsets[i])
  }

  /** Appends `s` to the heap and points index `i` at it. */
  function Put(t: Table, i: nat, s: CString): Table
    requires i < MAX_CONFIGSTRINGS
  {
    Table(t.offsets[i := |t.data|], t.data + s + ['\0'])
  }

  predicate InHeap(t: Table, i: nat)
    requires i < MAX_CONFIGSTRINGS
  {
    t.offsets[i] < |t.data|
  }

  predicate OneByteAt(data: string, i: nat)
    requires i < |data|
  {
    data[i] as int < 256
  }

  predicate OneByteText(data: string) {
    forall i: nat | i < |data| :: OneByteAt(data, i)
  }

  /** The heap starts with the shared empty string, ends with a terminator, and offsets stay inside. */
  ghost predicate Valid(t: Table) {
    && |t.data| > 0 && t.data[0] == '\0' && t.data[|t.data| - 1] == '\0'
    && OneByteText(t.data)
    && forall i: nat | i < MAX_CONFIGSTRINGS :: InHeap(t, i)
  }

  // ------------------------------------------------------------ reading after writing

  /** A terminated string is not changed by what is appended behind it. */
  lemma {:induction false} CStrFramed(data: string, more: string, p: nat)
    requires p < |data| && data[|data| - 1] == '\0'
    ensures CStr(data + more, p) == CStr(data, p)
    decreases |data| - p
  {
    if data[p] != '\0' {
      CStrFramed(data, more, p + 1);
    }
  }

  lemma {:induction false} CStrAtEnd(data: string, s: CString, rest: string)
    ensures CStr(data + s + ['\0'] + rest, |data|) == s
    decreases |s|
  {
    var whole := data + s + ['\0'] + rest;
    if s != "" {
      assert whole == (data + [s[0]]) + s[1..] + ['\0'] + rest;
      CStrAtEnd(data + [s[0]], s[1..], rest);
    }
  }

  lemma {:induction false} CStrIsCString(data: string, p: nat)
    requires OneByteText(data)
    ensures forall i | 0 <= i < |CStr(data, p)| :: 0 < CStr(data, p)[i] as int < 256
    decreases |data| - p
  {
    if p < |data| && data[p] != '\0' {
      assert OneByteAt(data, p);
      CStrIsCString(data, p + 1);
    }
  }

  lemma GetIsCString(t: Table, i: nat)
    requires Valid(t) && i < MAX_CONFIGSTRINGS
    ensures forall k | 0 <= k < |Get(t, i)| :: 0 < Get(t, i)[k] as int < 256
  {
    CStrIsCString(t.data, t.offsets[i]);
  }

  lemma PutValid(t: Table, i: nat, s: CString)
    requires Valid(t) && i < MAX_CONFIGSTRINGS
    ensures Valid(Put(t, i, s))
  {
    var r := Put(t, i, s);
    forall k: nat | k < |r.data|
      ensures OneByteAt(r.data, k)
    {
      if k < |t.data| { assert OneByteAt(t.data, k); }
    }
    forall k: nat | k < MAX_CONFIGSTRINGS
      ensures InHeap(r, k)
    {
      assert InHeap(t, k);
    }
  }

  /** Put is a map update: the addressed index reads back, all others are as before. */
  lemma PutGet(t: Table, i: nat, s: CString, j: nat)
    requires Valid(t) && i < MAX_CONFIGSTRINGS && j < MAX_CONFIGSTRINGS
    ensures Valid(Put(t, i, s))
    ensures Get(Put(t, i, s), j) == if j == i then s else Get(t, j)
  {
    PutValid(t, i, s);
    assert InHeap(t, j);
    if j == i {
      CStrAtEnd(t.data, s, "");
      assert t.data + s + ['\0'] + "" == t.data + s + ['\0'];
    } else if t.offsets[j] != 0 {
      assert t.data + (s + ['\0']) == t.data + s + ['\0'];
      CStrFramed(t.data, s + ['\0'], t.offsets[j]);
    }
  }

  // ------------------------------------------------------------ the two tables

  /** The plain table and the extended one, addressed as one range of indices. */
  datatype Tables = Tables(cl: Table, ext: Table)

  ghost predicate ValidTables(g: Tables) { Valid(g.cl) && Valid(g.ext) }

  function GetAny(g: Tables, i: Index): string {
    if i < MAX_CONFIGSTRINGS then Get(g.cl, i) else Get(g.ext, i - MAX_CONFIGSTRINGS)
  }

  function PutAny(g: Tables, i: Index, s: CString): Tables {
    if i < MAX_CONFIGSTRINGS then g.(cl := Put(g.cl, i, s)) else g.(ext := Put(g.ext, i - MAX_CONFIGSTRINGS, s))
  }

  lemma PutGetAny(g: Tables, i: Index, s: CString, j: Index)
    requires ValidTables(g)
    ensures ValidTables(PutAny(g, i, s))
    ensures GetAny(PutAny(g, i, s), j) == if j == i then s else GetAny(g, j)
  {
    if i < MAX_CONFIGSTRINGS {
      PutGet(g.cl, i, s, if j < MAX_CONFIGSTRINGS then j else 0);
    } else {
      PutGet(g.ext, i - MAX_CONFIGSTRINGS, s, if j < MAX_CONFIGSTRINGS then 0 else j - MAX_CONFIGSTRINGS);
    }
  }

  // ------------------------------------------------------------ the packed layout

  const EMPTY := Table(ZeroOffsets(MAX_CONFIGSTRINGS), ['\0'])

  /** The first `n` strings laid out in index order, the empty ones left out. */
  function Packed(ss: seq<CString>, n: nat): (t: Table)
    requires n <= |ss| == MAX_CONFIGSTRINGS
  {
    if n == 0 then EMPTY
    else
      var t := Packed(ss, n - 1);
      if ss[n - 1] == "" then t else Put(t, n - 1, ss[n - 1])
  }

  /** What the first `n` strings need: the leading zero, and each nonempty string with its terminator. */
  function PackedSize(ss: seq<CString>, n: nat): (size: nat)
    requires n <= |ss|
    ensures size > 0
  {
    if n == 0 then 1
    else PackedSize(ss, n - 1) + if ss[n - 1] == "" then 0 else |ss[n - 1]| + 1
  }

  lemma {:induction false} PackedSizeGrows(ss: seq<CString>, m: nat, n: nat)
    requires m <= n <= |ss|
    ensures PackedSize(ss, m) <= PackedSize(ss, n)
  {
    if m < n {
      PackedSizeGrows(ss, m, n - 1);
    }
  }

  lemma {:induction false} PackedValid(ss: seq<CString>, n: nat)
    requires n <= |ss| == MAX_CONFIGSTRINGS
    ensures Valid(Packed(ss, n)) && |Packed(ss, n).data| == PackedSize(ss, n)
  {
    if n > 0 {
      PackedValid(ss, n - 1);
      if ss[n - 1] != "" {
        PutGet(Packed(ss, n - 1), n - 1, ss[n - 1], 0);
      }
    }
  }

  /** Packing loses nothing: every string can be read back at its index. */
  lemma {:induction false} PackedReads(ss: seq<CString>, n: nat, i: nat)
    requires n <= |ss| == MAX_CONFIGSTRINGS && i < MAX_CONFIGSTRINGS
    ensures Get(Packed(ss, n), i) == if i < n then ss[i] else ""
  {
    if n > 0 {
      PackedReads(ss, n - 1, i);
      if ss[n - 1] != "" {
        PackedValid(ss, n - 1);
        PutGet(Packed(ss, n - 1), n - 1, ss[n - 1], i);
      }
    }
  }

  /** Strings of different indices occupy disjoint parts of the heap, in index order. */
  lemma {:induction false} PackedDisjoint(ss: seq<CString>, n: nat, i: nat, j: nat)
    requires i < j < n <= |ss| == MAX_CONFIGSTRINGS && ss[i] != "" && ss[j] != ""
    ensures 1 <= Packed(ss, n).offsets[i]
    ensures Packed(ss, n).offsets[i] + |ss[i]| + 1 <= Packed(ss, n).offsets[j]
    ensures Packed(ss, n).offsets[j] + |ss[j]| + 1 <= PackedSize(ss, n)
  {
    PackedOffset(ss, n, i);
    PackedOffset(ss, n, j);
    PackedSizeGrows(ss, i + 1, j);
    PackedSizeGrows(ss, j + 1, n);
  }

  lemma {:induction false} PackedOffset(ss: seq<CString>, n: nat, i: nat)
    requires i < n <= |ss| == MAX_CONFIGSTRINGS
    ensures Packed(ss, n).offsets[i] == if ss[i] == "" then 0 else PackedSize(ss, i)
  {
    if i < n - 1 {
      PackedOffset(ss, n - 1, i);
    } else {
      PackedValid(ss, n - 1);
      UnusedOffset(ss, n - 1, i);
    }
  }

  lemma {:induction false} UnusedOffset(ss: seq<CString>, n: nat, i: nat)
    requires n <= i < |ss| == MAX_CONFIGSTRINGS
    ensures Packed(ss, n).offsets[i] == 0
  {
    if n > 0 {
      UnusedOffset(ss, n - 1, i);
    }
  }

  /** How many strings, from the first `n` on, are laid out before one does not fit. */
  function FitCount(ss: seq<CString>, n: nat): (m: nat)
    requires n <= |ss|
    ensures n <= m <= |ss|
    decreases |ss| - n
  {
    if n == |ss| || PackedSize(ss, n + 1) > MAX_GAMESTATE_CHARS then n else FitCount(ss, n + 1)
  }

  /** Everything fits exactly when the whole size does, and what is laid out always does. */
  lemma {:induction false} FitCountIff(ss: seq<CString>, n: nat)
    requires n <= |ss| && PackedSize(ss, n) <= MAX_GAMESTATE_CHARS
    ensures PackedSize(ss, FitCount(ss, n)) <= MAX_GAMESTATE_CHARS
    ensures FitCount(ss, n) == |ss| <==> PackedSize(ss, |ss|) <= MAX_GAMESTATE_CHARS
    decreases |ss| - n
  {
    if n < |ss| {
      if PackedSize(ss, n + 1) > MAX_GAMESTATE_CHARS {
        PackedSizeGrows(ss, n + 1, |ss|);
      } else {
        FitCountIff(ss, n + 1);
      }
    }
  }

  // ------------------------------------------------------------ the whole heap

  function Blank(n: nat): (m: string)
    ensures |m| == n && forall i | 0 <= i < n :: m[i] == '\0'
  {
    seq(n, i => '\0')
  }

  /** All characters of a heap, used or not. */
  type Memory = m: string |
    |m| == MAX_GAMESTATE_CHARS && m[0] == '\0' && m[MAX_GAMESTATE_CHARS - 1] == '\0' && OneByteText(m)
    witness Blank(MAX_GAMESTATE_CHARS)

  const BLANK: Memory := Blank(MAX_GAMESTATE_CHARS)

  /** `data` written over the beginning of `memory`. */
  function Over(data: string, memory: string): string {
    data + if |data| < |memory| then memory[|data|..] else ""
  }

  /** The table whose heap is all of memory: what an offset leads to is read from there. */
  function Filled(t: Table, memory: string): Table { Table(t.offsets, Over(t.data, memory)) }

  const CLEARED := Filled(EMPTY, BLANK)

  predicate Whole(t: Table) { |t.data| == MAX_GAMESTATE_CHARS }

  /** Filling up what fits keeps a valid table valid, and every string. */
  lemma FilledReads(t: Table, memory: Memory, i: nat)
    requires Valid(t) && |t.data| <= MAX_GAMESTATE_CHARS && i < MAX_CONFIGSTRINGS
    ensures Valid(Filled(t, memory)) && Whole(Filled(t, memory))
    ensures Get(Filled(t, memory), i) == Get(t, i)
  {
    var data, more := t.data, Over(t.data, memory)[|t.data|..];
    assert Over(data, memory) == data + more;
    forall k: nat | k < |data + more|
      ensures OneByteAt(data + more, k)
    {
      if k < |data| { assert OneByteAt(data, k); } else { assert OneByteAt(memory, k); }
    }
    forall k: nat | k < MAX_CONFIGSTRINGS
      ensures InHeap(Filled(t, memory), k)
    {
      assert InHeap(t, k);
    }
    assert InHeap(t, i);
    CStrFramed(data, more, t.offsets[i]);
  }

  /** A table with only its data count reset. */
  function Reset(offsets: Offsets): Table { Table(offsets, ['\0']) }

  /** Tables whose heaps were cleared before strings were laid out in them. */
  function FilledTables(g: Tables): Tables { Tables(Filled(g.cl, BLANK), Filled(g.ext, BLANK)) }

  /** A whole table has nothing to fill up. */
  lemma FilledWhole(t: Table, memory: Memory)
    requires Whole(t)
    ensures Filled(t, memory) == t
  {
    assert t.data + "" == t.data;
  }
}
