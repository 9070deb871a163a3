/**
 What can be read anywhere in a heap of configstrings: nothing longer than what was written
 there, and no format characters.
 */
module HeapText {
  import opened Common
  import opened Message
  import opened GameState
  import opened GameStateMessage
  import opened ConfigStrings
  import opened GameStateParser
  import opened StaleStrings

  predicate Unformatted(s: string) { '%' !in s }

  /** Shorter than `limit`, and without format characters. */
  predicate Holdable(s: string, limit: nat) { |s| < limit && Unformatted(s) }

  /** Strings the parser accepts are shorter than this, strings that are recorded in full than the other. */
  const ACCEPTED := BIG_INFO_STRING - 1
  const RECORDED := BIG_INFO_STRING

  predicate Storable(s: string) { Holdable(s, ACCEPTED) }

  ghost predicate Holds(data: string, limit: nat) {
    forall p: nat | p < |data| :: Holdable(CStr(data, p), limit)
  }

  predicate Terminated(data: string) {
    data != "" && data[0] == '\0' && data[|data| - 1] == '\0' && OneByteText(data)
  }

  // ------------------------------------------------------------ writing

  lemma AppendTerminated(data: string, s: CString)
    requires Terminated(data)
    ensures Terminated(data + s + ['\0'])
  {
    var more := data + s + ['\0'];
    forall k: nat | k < |more|
      ensures OneByteAt(more, k)
    {
      if k < |data| { assert OneByteAt(data, k); }
    }
  }

  lemma AppendedReads(data: string, s: CString, p: nat)
    requires Terminated(data) && p < |data| + |s| + 1
    ensures CStr(data + s + ['\0'], p) == if p < |data| then CStr(data, p) else s[p - |data|..]
  {
    var more := data + s + ['\0'];
    if p < |data| {
      assert more == data + (s + ['\0']);
      CStrFramed(data, s + ['\0'], p);
    } else {
      var k := p - |data|;
      var front: string, rest: CString := data + s[..k], s[k..];
      CStrAtEnd(front, rest, "");
      assert more == front + rest + ['\0'] + "";
    }
  }

  /** A string written behind a terminator adds only itself and its endings to what can be read. */
  lemma AppendHolds(data: string, s: CString, limit: nat)
    requires Terminated(data) && Holds(data, limit) && Holdable(s, limit)
    ensures Holds(data + s + ['\0'], limit)
  {
    hide CStr, Terminated;
    forall p: nat | p < |data + s + ['\0']|
      ensures Holdable(CStr(data + s + ['\0'], p), limit)
    {
      AppendedReads(data, s, p);
    }
  }

  lemma OverHolds(data: string, memory: Memory, limit: nat)
    requires Terminated(data) && |data| <= MAX_GAMESTATE_CHARS && Holds(data, limit) && Holds(memory, limit)
    ensures Holds(Over(data, memory), limit)
  {
    hide CStr, Over;
    assert |Over(data, memory)| == |memory| by { OverWhole(data, memory); }
    forall p: nat | p < |memory|
      ensures Holdable(CStr(Over(data, memory), p), limit)
    {
      if p < |data| { CStrOver(data, memory, p); } else { CStrBehind(data, memory, p); }
    }
  }

  lemma NothingHeld(limit: nat)
    requires limit > 0
    ensures Holds(BLANK, limit) && Holds(['\0'], limit) && Terminated(['\0'])
  {}

  lemma HoldsLonger(data: string, limit: nat, longer: nat)
    requires Holds(data, limit) && limit <= longer
    ensures Holds(data, longer)
  {}

  // ------------------------------------------------------------ tables that are written to

  predicate OffsetOk(t: Table, i: nat)
    requires i < MAX_CONFIGSTRINGS
  {
    t.offsets[i] < |t.data| || t.offsets[i] < MAX_GAMESTATE_CHARS
  }

  /** A table while it is written to; offsets may be left over from before. */
  ghost predicate Writable(t: Table, limit: nat) {
    Terminated(t.data) && Holds(t.data, limit) && forall i: nat | i < MAX_CONFIGSTRINGS :: OffsetOk(t, i)
  }

  lemma PutWritable(t: Table, i: nat, s: CString, limit: nat)
    requires Writable(t, limit) && Holdable(s, limit) && i < MAX_CONFIGSTRINGS
    ensures Writable(Put(t, i, s), limit)
  {
    hide Holds, Terminated;
    AppendTerminated(t.data, s);
    AppendHolds(t.data, s, limit);
    forall k: nat | k < MAX_CONFIGSTRINGS
      ensures OffsetOk(Put(t, i, s), k)
    {
      assert OffsetOk(t, k);
    }
  }

  lemma SpilledWritable(t: Table, s: CString, limit: nat)
    requires Writable(t, limit) && Holdable(s, limit)
    ensures Writable(Spilled(t, s), limit)
  {
    hide Holds, Terminated;
    AppendTerminated(t.data, s);
    AppendHolds(t.data, s, limit);
    forall k: nat | k < MAX_CONFIGSTRINGS
      ensures OffsetOk(Spilled(t, s), k)
    {
      assert OffsetOk(t, k);
    }
  }

  lemma LongerWritable(t: Table, limit: nat, longer: nat)
    requires Writable(t, limit) && limit <= longer
    ensures Writable(t, longer)
  {
    HoldsLonger(t.data, limit, longer);
  }

  /** Written out over memory, such a table is well formed. */
  lemma FilledHolds(t: Table, memory: Memory, limit: nat)
    requires Writable(t, limit) && |t.data| <= MAX_GAMESTATE_CHARS && Holds(memory, limit)
    ensures Valid(Filled(t, memory)) && Whole(Filled(t, memory)) && Holds(Filled(t, memory).data, limit)
  {
    OverHolds(t.data, memory, limit);
    hide Holds;
    var whole := Over(t.data, memory);
    forall k: nat | k < |whole|
      ensures OneByteAt(whole, k)
    {
      if k < |t.data| { assert OneByteAt(t.data, k); } else { assert OneByteAt(memory, k); }
    }
    forall k: nat | k < MAX_CONFIGSTRINGS
      ensures InHeap(Filled(t, memory), k)
    {
      assert OffsetOk(t, k);
    }
  }

  /** Every string of a table that is well formed can be read in its heap. */
  lemma GetHoldable(t: Table, limit: nat, i: nat)
    requires Valid(t) && Holds(t.data, limit) && i < MAX_CONFIGSTRINGS && limit > 0
    ensures Holdable(Get(t, i), limit)
  {
    hide CStr;
    assert InHeap(t, i);
  }

  lemma WholeWritable(t: Table, limit: nat)
    requires Valid(t) && Holds(t.data, limit)
    ensures Writable(t, limit)
  {
    hide Holds;
    forall k: nat | k < MAX_CONFIGSTRINGS
      ensures OffsetOk(t, k)
    {
      assert InHeap(t, k);
    }
  }

  lemma ResetWritable(t: Table, limit: nat)
    requires Valid(t) && Whole(t) && limit > 0
    ensures Writable(Reset(t.offsets), limit)
  {
    NothingHeld(limit);
    hide Holds;
    forall k: nat | k < MAX_CONFIGSTRINGS
      ensures OffsetOk(Reset(t.offsets), k)
    {
      assert InHeap(t, k);
    }
  }

  lemma EmptyWritable(limit: nat)
    requires limit > 0
    ensures Writable(EMPTY, limit)
  {
    NothingHeld(limit);
    hide Holds;
  }

  // ------------------------------------------------------------ strings laid out afresh

  ghost predicate AllHoldable(ss: seq<CString>, limit: nat) {
    forall i | 0 <= i < |ss| :: Holdable(ss[i], limit)
  }

  lemma {:induction false} PackedWritable(ss: seq<CString>, n: nat, limit: nat)
    requires n <= |ss| == MAX_CONFIGSTRINGS && AllHoldable(ss, limit) && limit > 0
    ensures Writable(Packed(ss, n), limit)
  {
    hide Writable;
    if n == 0 {
      EmptyWritable(limit);
    } else {
      PackedWritable(ss, n - 1, limit);
      if ss[n - 1] != "" {
        PutWritable(Packed(ss, n - 1), n - 1, ss[n - 1], limit);
      }
    }
  }

  lemma RebuiltHolds(ss: seq<CString>, limit: nat)
    requires |ss| == MAX_CONFIGSTRINGS && AllHoldable(ss, limit) && limit > 0
    ensures var t := Filled(Rebuilt(ss), BLANK); Valid(t) && Whole(t) && Holds(t.data, limit)
  {
    hide Writable, Valid, Packed, Holds, Filled;
    PackedWritable(ss, FitCount(ss, 0), limit);
    RebuiltFits(ss);
    NothingHeld(limit);
    FilledHolds(Rebuilt(ss), BLANK, limit);
  }

  // ------------------------------------------------------------ gamestates

  ghost predicate StorableEntries(es: seq<Entry>) {
    forall k | 0 <= k < |es| :: Storable(es[k].text)
  }

  ghost predicate WritableTables(g: Tables, a: nat, b: nat) { Writable(g.cl, a) && Writable(g.ext, b) }

  /** How much can be read in the one heap and in the other. */
  predicate Limits(a: nat, b: nat) { ACCEPTED <= a <= RECORDED && ACCEPTED <= b <= RECORDED }

  lemma PutAnyWritable(g: Tables, i: Index, s: CString, a: nat, b: nat)
    requires WritableTables(g, a, b) && Limits(a, b) && Storable(s)
    ensures WritableTables(PutAny(g, i, s), a, b)
  {
    hide Writable, Put;
    if i < MAX_CONFIGSTRINGS {
      PutWritable(g.cl, i, s, a);
    } else {
      PutWritable(g.ext, i - MAX_CONFIGSTRINGS, s, b);
    }
  }

  lemma {:induction false} PutAllWritable(g: Tables, es: seq<Entry>, a: nat, b: nat)
    requires WritableTables(g, a, b) && StorableEntries(es) && Limits(a, b)
    ensures WritableTables(PutAll(g, es), a, b)
    decreases |es|
  {
    if es != [] {
      hide WritableTables, PutAny;
      PutAnyWritable(g, es[0].index, es[0].text, a, b);
      PutAllWritable(PutAny(g, es[0].index, es[0].text), es[1..], a, b);
    }
  }

  lemma {:induction false} CopyBelowWritable(g: Tables, cs: seq<Entry>, index: nat, a: nat, b: nat)
    requires WritableTables(g, a, b) && StorableEntries(cs) && Limits(a, b)
    ensures WritableTables(CopyBelow(g, cs, index).0, a, b) && StorableEntries(CopyBelow(g, cs, index).1)
    decreases |cs|
  {
    if cs != [] && cs[0].index < index {
      hide WritableTables, PutAny;
      PutAnyWritable(g, cs[0].index, cs[0].text, a, b);
      CopyBelowWritable(PutAny(g, cs[0].index, cs[0].text), cs[1..], index, a, b);
    }
  }

  lemma {:induction false} ReadCharsUnformatted(r: Reader, got: CString, len: int)
    requires Unformatted(got)
    ensures Unformatted(ReadChars(r, got, len).0)
    decreases |r.data| - r.readcount
  {
    var (c, r') := ReadByte(r);
    if c > 0 {
      var got' := got + [Defused(c as char)];
      if |got'| < len - 1 {
        ReadCharsUnformatted(r', got', len);
      }
    }
  }

  lemma {:induction false} ReadCharsShort(r: Reader, got: CString, len: int)
    requires |got| <= if len <= 2 then 0 else len - 2
    ensures |ReadChars(r, got, len).0| <= if len <= 2 then 1 else len - 1
    decreases |r.data| - r.readcount
  {
    var (c, r') := ReadByte(r);
    if c > 0 {
      var got' := got + [Defused(c as char)];
      if |got'| < len - 1 {
        ReadCharsShort(r', got', len);
      }
    }
  }

  /** What is read has no format characters, and is cut to the room there is. */
  lemma ReadHoldable(g: Tables, i: Index, r: Reader)
    ensures Holdable(ReadString(r, Room(g, i)).0, RECORDED)
  {
    ReadCharsUnformatted(r, "", Room(g, i));
    ReadCharsShort(r, "", Room(g, i));
    hide ReadChars;
  }

  lemma NextWritable(g: Tables, cs: seq<Entry>, e: Entry, a: nat, b: nat)
    requires WritableTables(g, a, b) && StorableEntries(cs) && Storable(e.text) && Limits(a, b)
    ensures WritableTables(Next(g, cs, e).0, a, b) && StorableEntries(Next(g, cs, e).1)
  {
    hide WritableTables, PutAny, CopyBelow;
    CopyBelowWritable(g, cs, e.index, a, b);
    PutAnyWritable(CopyBelow(g, cs, e.index).0, e.index, e.text, a, b);
  }

  lemma SpillWritable(g: Tables, i: Index, s: CString, a: nat, b: nat)
    requires WritableTables(g, a, b) && Limits(a, b) && Holdable(s, RECORDED)
    ensures WritableTables(SpillAny(g, i, s), RECORDED, RECORDED)
    ensures i < MAX_CONFIGSTRINGS ==> Writable(SpillAny(g, i, s).ext, b)
  {
    hide Writable, Spilled;
    LongerWritable(g.cl, a, RECORDED);
    LongerWritable(g.ext, b, RECORDED);
    SpilledWritable(g.cl, s, RECORDED);
    SpilledWritable(g.ext, s, RECORDED);
  }

  /** Everything a gamestate leaves: longer strings than were there before only if one was refused for its length. */
  ghost predicate LeftWritable(left: Left, a: nat, b: nat) {
    && WritableTables(left.tables, RECORDED, RECORDED)
    && (left.error.None? ==> WritableTables(left.tables, a, b))
    && (!left.spilled ==> Writable(left.tables.ext, b))
  }

  lemma WritableLeft(left: Left, a: nat, b: nat)
    requires WritableTables(left.tables, a, b) && Limits(a, b)
    ensures LeftWritable(left, a, b)
  {
    hide Writable;
    LongerWritable(left.tables.cl, a, RECORDED);
    LongerWritable(left.tables.ext, b, RECORDED);
  }

  lemma {:induction false} LeavesWritable(f: Format, k: nat, r: Reader, previous: int, cs: seq<Entry>, g: Tables,
                                          a: nat, b: nat)
    requires ReaderOk(r) && previous >= -1
    requires WritableTables(g, a, b) && StorableEntries(cs) && Limits(a, b)
    ensures LeftWritable(ParseLeaves(f, k, r, previous, cs, g), a, b)
    decreases k
  {
    hide ReadIndex, ReadString, CopyBelow, Next, PutAll, SpillAny, ReaderOk, Room, WritableTables, LeftWritable;
    hide StorableEntries;
    var i := ReadIndex(f, r, previous);
    if k == 0 {
      PutAllWritable(g, cs, a, b);
      WritableLeft(ParseLeaves(f, k, r, previous, cs, g), a, b);
    } else if i.Failed? || i.value >= Limit(f) {
      WritableLeft(ParseLeaves(f, k, r, previous, cs, g), a, b);
    } else {
      ReadIndexOk(f, r, previous);
      ReadIndexAbove(f, r, previous);
      var below := CopyBelow(g, cs, i.value).0;
      var room := Room(below, i.value);
      var (s, r2) := ReadString(i.rest, room);
      ReadStringOk(i.rest, room);
      ReadHoldable(below, i.value, i.rest);
      CopyBelowWritable(g, cs, i.value, a, b);
      if |s| + 1 >= BIG_INFO_STRING {
        SpillWritable(below, i.value, s, a, b);
        SpillLeaves(ParseLeaves(f, k, r, previous, cs, g), below, i.value, s, a, b);
      } else {
        NextWritable(g, cs, Entry(i.value, s), a, b);
        var (g', cs') := Next(g, cs, Entry(i.value, s));
        LeavesWritable(f, k - 1, r2, i.value, cs', g', a, b);
      }
    }
  }

  lemma SpillLeaves(left: Left, g: Tables, i: Index, s: CString, a: nat, b: nat)
    requires left.tables == SpillAny(g, i, s) && left.error.Some? && left.spilled == (i >= MAX_CONFIGSTRINGS)
    requires WritableTables(left.tables, RECORDED, RECORDED)
    requires i < MAX_CONFIGSTRINGS ==> Writable(left.tables.ext, b)
    ensures LeftWritable(left, a, b)
  {
    hide Writable, SpillAny;
  }

  lemma PartWritable(f: Format, r: Reader, cs: seq<Entry>, g: Tables, a: nat, b: nat)
    requires ReaderOk(r) && WritableTables(g, a, b) && StorableEntries(cs) && Limits(a, b)
    ensures LeftWritable(PartLeaves(f, r, cs, g), a, b)
  {
    hide ParseLeaves, WritableTables, StorableEntries, LeftWritable;
    var (n, r1) := if f.Legacy? then ReadShort(r) else ReadLong(r);
    if 0 < n <= Limit(f) {
      LeavesWritable(f, n, r1, -1, cs, g, a, b);
    } else {
      WritableLeft(PartLeaves(f, r, cs, g), a, b);
    }
  }
}
