/**
 The configstring tables in place: two arrays and a count per table, rebuilt from scratch
 whenever one string changes.
 */
module ConfigStrings {
  import opened Common
  import opened Message
  import opened GameState

  /** One table: `offsets` into `data`, of which `dataCount` characters are used. */
  class TableStore {
    const offsets: array<nat>
    const data: array<char>
    var dataCount: nat

    ghost predicate Shaped()
      reads this
    {
      offsets.Length == MAX_CONFIGSTRINGS && data.Length == MAX_GAMESTATE_CHARS && 1 <= dataCount <= data.Length
    }

    /** The part that strings are appended to. */
    ghost function Used(): Table
      requires Shaped()
      reads this, offsets, data
    {
      Table(offsets[..], data[..dataCount])
    }

    /** What offsets lead into: all of memory. */
    ghost function Value(): Table
      requires Shaped()
      reads this, offsets, data
    {
      Table(offsets[..], data[..])
    }

    constructor ()
      ensures Shaped() && Used() == EMPTY && Value() == CLEARED && fresh(offsets) && fresh(data)
    {
      offsets := new nat[MAX_CONFIGSTRINGS](i => 0);
      data := new char[MAX_GAMESTATE_CHARS](i => '\0');
      dataCount := 1;
      new;
      assert offsets[..] == ZeroOffsets(MAX_CONFIGSTRINGS);
      assert data[..1] == ['\0'];
      assert data[..] == Over(['\0'], BLANK);
    }

    /** Everything zero, and the first character set aside for the empty string. */
    method Clear()
      requires Shaped()
      modifies this, offsets, data
      ensures Shaped() && Used() == EMPTY && Value() == CLEARED
    {
      for i := 0 to MAX_CONFIGSTRINGS
        invariant forall k | 0 <= k < i :: offsets[k] == 0
      {
        offsets[i] := 0;
      }
      for i := 0 to MAX_GAMESTATE_CHARS
        invariant forall k | 0 <= k < i :: data[k] == '\0'
        invariant forall k | 0 <= k < MAX_CONFIGSTRINGS :: offsets[k] == 0
      {
        data[i] := '\0';
      }
      dataCount := 1;
      assert offsets[..] == ZeroOffsets(MAX_CONFIGSTRINGS);
      assert data[..1] == ['\0'];
      assert data[..] == Over(['\0'], BLANK);
    }

    /** Starts over with the data, and leaves everything where it is. */
    method Restart()
      requires Shaped() && data[0] == '\0'
      modifies this
      ensures Shaped() && Used() == Reset(offsets[..]) && Value() == old(Value())
    {
      dataCount := 1;
      assert data[..1] == ['\0'];
    }

    /** Writes `s` and its terminator behind the used part. */
    method Write(s: CString)
      requires Shaped() && dataCount + |s| + 1 <= MAX_GAMESTATE_CHARS
      modifies data
      ensures data[..] == Over(old(data[..dataCount]) + s + ['\0'], old(data[..]))
    {
      ghost var memory := data[..];
      var end := dataCount;
      for k := 0 to |s|
        invariant forall m | 0 <= m < MAX_GAMESTATE_CHARS ::
          data[m] == if end <= m < end + k then s[m - end] else memory[m]
      {
        data[end + k] := s[k];
      }
      data[end + |s|] := '\0';
      ghost var front := memory[..end] + s + ['\0'];
      assert data[..|front|] == front && data[|front|..] == memory[|front|..];
      assert data[..] == data[..|front|] + data[|front|..];
      OverWhole(front, memory);
    }

    /** Copies `s` and its terminator behind the used part and points index `i` at it. */
    method Append(i: nat, s: CString)
      requires Shaped() && i < MAX_CONFIGSTRINGS && dataCount + |s| + 1 <= MAX_GAMESTATE_CHARS
      modifies this, offsets, data
      ensures Shaped() && Used() == Put(old(Used()), i, s) && Value() == Filled(Used(), old(data[..]))
    {
      ghost var before, memory := data[..dataCount], data[..];
      offsets[i] := dataCount;
      Write(s);
      dataCount := dataCount + |s| + 1;
      hide Over;
      OverPrefix(before + s + ['\0'], memory);
    }
  }

  lemma OverWhole(data: string, memory: string)
    requires |data| <= |memory|
    ensures Over(data, memory) == data + memory[|data|..]
  {}

  lemma OverPrefix(data: string, memory: string)
    ensures Over(data, memory)[..|data|] == data
  {}

  datatype Result = BadIndex | Unchanged | Updated | TooManyChars

  function StringsOf(t: Table): (ss: seq<CString>)
    requires Valid(t)
    ensures |ss| == MAX_CONFIGSTRINGS && forall i | 0 <= i < MAX_CONFIGSTRINGS :: ss[i] == Get(t, i)
  {
    Prefix(t, MAX_CONFIGSTRINGS)
  }

  function Prefix(t: Table, n: nat): (ss: seq<CString>)
    requires Valid(t) && n <= MAX_CONFIGSTRINGS
    ensures |ss| == n && forall i | 0 <= i < n :: ss[i] == Get(t, i)
  {
    if n == 0 then []
    else
      GetIsCString(t, n - 1);
      Prefix(t, n - 1) + [Get(t, n - 1)]
  }

  /** The string that goes to index `j`: the new one, or the one read out of the snapshot. */
  method Duplicate(was: Table, i: nat, s: CString, j: nat) returns (dup: CString)
    requires Valid(was) && i < MAX_CONFIGSTRINGS && j < MAX_CONFIGSTRINGS
    ensures dup == StringsOf(was)[i := s][j]
  {
    if j == i {
      return s;
    }
    var text := StringAt(was.data, was.offsets[j]);
    CStrZero(was);
    GetIsCString(was, j);
    assert text == Get(was, j);
    return text;
  }

  /** The strings laid out afresh, as far as they fit. */
  function Rebuilt(ss: seq<CString>): Table
    requires |ss| == MAX_CONFIGSTRINGS
  {
    Packed(ss, FitCount(ss, 0))
  }

  /** Rebuilds `store` from the snapshot `was`, with `s` at index `i`, up to the first string that does not fit. */
  method Rebuild(store: TableStore, was: Table, i: nat, s: CString) returns (ok: bool)
    requires store.Shaped() && Valid(was) && i < MAX_CONFIGSTRINGS
    modifies store, store.offsets, store.data
    ensures store.Shaped()
    ensures ok <==> PackedSize(StringsOf(was)[i := s], MAX_CONFIGSTRINGS) <= MAX_GAMESTATE_CHARS
    ensures store.Used() == Rebuilt(StringsOf(was)[i := s]) && store.Value() == Filled(store.Used(), BLANK)
  {
    hide Valid, StringsOf, Put, Over;
    ghost var ss := StringsOf(was)[i := s];
    store.Clear();
    for j := 0 to MAX_CONFIGSTRINGS
      invariant store.Shaped() && store.Used() == Packed(ss, j) && store.Value() == Filled(store.Used(), BLANK)
      invariant FitCount(ss, 0) == FitCount(ss, j)
      invariant store.dataCount == PackedSize(ss, j) <= MAX_GAMESTATE_CHARS
    {
      var dup := Duplicate(was, i, s, j);
      if dup == "" {
        continue;
      }
      PackedSizeGrows(ss, j + 1, MAX_CONFIGSTRINGS);
      if |dup| + 1 + store.dataCount > MAX_GAMESTATE_CHARS {
        return false;
      }
      ghost var below := store.Used().data;
      store.Append(j, dup);
      PutSize(Packed(ss, j), j, dup);
      OverTwice(below, store.Used().data, BLANK);
    }
    ok := true;
  }

  /** Writing further on over memory that was written over already. */
  lemma OverTwice(data: string, more: string, memory: string)
    requires |data| <= |more| <= |memory|
    ensures Over(more, Over(data, memory)) == Over(more, memory)
  {
    var once := Over(data, memory);
    assert once[|more|..] == memory[|more|..];
  }

  lemma PutSize(t: Table, i: nat, s: CString)
    requires i < MAX_CONFIGSTRINGS
    ensures |Put(t, i, s).data| == |t.data| + |s| + 1
  {}

  /** Offset zero is the empty string. */
  lemma CStrZero(t: Table)
    requires Valid(t)
    ensures CStr(t.data, 0) == ""
  {}

  class ClientState {
    const cl: TableStore
    const ext: TableStore

    ghost predicate Ok()
      reads this, cl, cl.offsets, cl.data, ext, ext.offsets, ext.data
    {
      && cl != ext && cl.offsets != ext.offsets && cl.data != ext.data
      && cl.Shaped() && ext.Shaped() && Valid(cl.Value()) && Valid(ext.Value())
    }

    ghost function State(): Tables
      requires Ok()
      reads this, cl, cl.offsets, cl.data, ext, ext.offsets, ext.data
    {
      Tables(cl.Value(), ext.Value())
    }

    constructor ()
      ensures Ok() && State() == Tables(CLEARED, CLEARED)
      ensures fresh(cl) && fresh(cl.offsets) && fresh(cl.data) && fresh(ext) && fresh(ext.offsets) && fresh(ext.data)
    {
      cl := new TableStore();
      ext := new TableStore();
    }

    method GetConfigString(index: int) returns (ok: bool, s: string)
      requires Ok()
      ensures ok <==> 0 <= index < 2 * MAX_CONFIGSTRINGS
      ensures ok ==> s == GetAny(State(), index)
    {
      if index < 0 || index >= 2 * MAX_CONFIGSTRINGS {
        return false, "";
      }
      var store, i := cl, index;
      if index >= MAX_CONFIGSTRINGS {
        store, i := ext, index - MAX_CONFIGSTRINGS;
      }
      if store.offsets[i] == 0 {
        return true, "";
      }
      s := StringAt(store.data[..], store.offsets[i]);
      ok := true;
    }

    /**
     Sets configstring `index` to `s`.  The tables become what they were with that one string
     replaced, repacked; this fails exactly when the packed strings exceed the heap.
     */
    method ConfigstringModified(index: int, s: CString) returns (r: Result)
      requires Ok()
      modifies cl, cl.offsets, cl.data, ext, ext.offsets, ext.data
      ensures r == BadIndex <==> !(0 <= index < 2 * MAX_CONFIGSTRINGS)
      ensures r == Unchanged <==> 0 <= index < 2 * MAX_CONFIGSTRINGS && GetAny(old(State()), index) == s
      ensures r == BadIndex || r == Unchanged ==> Ok() && State() == old(State())
      ensures r == TooManyChars ==>
        PackedSize(NewStrings(old(State()), index, s), MAX_CONFIGSTRINGS) > MAX_GAMESTATE_CHARS
      ensures r == Updated ==> PackedSize(NewStrings(old(State()), index, s), MAX_CONFIGSTRINGS) <= MAX_GAMESTATE_CHARS
      ensures r == TooManyChars || r == Updated ==> Ok() && State() == Cleared(Modified(old(State()), index, s), index)
    {
      hide Packed, PackedSize, StringsOf, CStr, Rebuilt, Over, Valid;
      var ok, was := GetConfigString(index);
      if !ok {
        return BadIndex;
      }
      if was == s {
        return Unchanged;
      }
      var store, i := cl, index;
      if index >= MAX_CONFIGSTRINGS {
        store, i := ext, index - MAX_CONFIGSTRINGS;
      }
      var snapshot := Table(store.offsets[..], store.data[..]);
      ghost var before := State();
      var fits := Rebuild(store, snapshot, i, s);
      RebuiltFits(NewStrings(before, index, s));
      FilledReads(Rebuilt(NewStrings(before, index, s)), BLANK, 0);
      return if fits then Updated else TooManyChars;
    }
  }

  // ------------------------------------------------------------ what modifying means

  /** The strings of the addressed table with the one at `index` replaced. */
  function NewStrings(g: Tables, index: Index, s: CString): (ss: seq<CString>)
    requires ValidTables(g)
    ensures |ss| == MAX_CONFIGSTRINGS
  {
    if index < MAX_CONFIGSTRINGS then StringsOf(g.cl)[index := s] else StringsOf(g.ext)[index - MAX_CONFIGSTRINGS := s]
  }

  lemma RebuiltFits(ss: seq<CString>)
    requires |ss| == MAX_CONFIGSTRINGS
    ensures Valid(Rebuilt(ss)) && |Rebuilt(ss).data| <= MAX_GAMESTATE_CHARS
    ensures PackedSize(ss, MAX_CONFIGSTRINGS) <= MAX_GAMESTATE_CHARS ==> Rebuilt(ss) == Packed(ss, MAX_CONFIGSTRINGS)
  {
    FitCountIff(ss, 0);
    PackedValid(ss, FitCount(ss, 0));
  }

  /** The table with the addressed index: its heap is cleared before it is rebuilt. */
  function Cleared(g: Tables, index: Index): Tables {
    if index < MAX_CONFIGSTRINGS then g.(cl := Filled(g.cl, BLANK)) else g.(ext := Filled(g.ext, BLANK))
  }

  /** What a change leaves: all strings of the table packed, or those before the first that does not fit. */
  function Modified(g: Tables, index: Index, s: CString): Tables
    requires ValidTables(g)
  {
    var t := Rebuilt(NewStrings(g, index, s));
    if index < MAX_CONFIGSTRINGS then g.(cl := t) else g.(ext := t)
  }

  /** Only the changed table has something to fill up. */
  lemma ClearedFills(g: Tables, index: Index, s: CString)
    requires ValidTables(g) && Whole(g.cl) && Whole(g.ext)
    ensures Cleared(Modified(g, index, s), index) == FilledTables(Modified(g, index, s))
  {
    hide Rebuilt, Filled;
    FilledWhole(g.cl, BLANK);
    FilledWhole(g.ext, BLANK);
  }

  lemma WholeIsFilled(g: Tables)
    requires Whole(g.cl) && Whole(g.ext)
    ensures FilledTables(g) == g
  {
    FilledWhole(g.cl, BLANK);
    FilledWhole(g.ext, BLANK);
  }

  lemma ModifiedValid(g: Tables, index: Index, s: CString)
    requires ValidTables(g)
    ensures ValidTables(Modified(g, index, s))
  {
    hide Valid, Rebuilt;
    RebuiltFits(NewStrings(g, index, s));
  }

  /** Modifying is a map update over both tables, and leaves them well formed. */
  lemma ModifiedGets(g: Tables, index: Index, s: CString, j: Index)
    requires ValidTables(g) && PackedSize(NewStrings(g, index, s), MAX_CONFIGSTRINGS) <= MAX_GAMESTATE_CHARS
    ensures ValidTables(Modified(g, index, s))
    ensures GetAny(Modified(g, index, s), j) == if j == index then s else GetAny(g, j)
  {
    hide Valid, Packed, Rebuilt, Get;
    var ss := NewStrings(g, index, s);
    RebuiltFits(ss);
    PackedReads(ss, MAX_CONFIGSTRINGS, if j < MAX_CONFIGSTRINGS then j else j - MAX_CONFIGSTRINGS);
  }

  /** When the heap is too small, the strings before the first that does not fit are there, the others empty. */
  lemma PartlyGets(g: Tables, index: Index, s: CString, j: Index)
    requires ValidTables(g)
    ensures ValidTables(Modified(g, index, s))
    ensures GetAny(Modified(g, index, s), j) ==
            if (j < MAX_CONFIGSTRINGS) != (index < MAX_CONFIGSTRINGS) then GetAny(g, j)
            else if j % MAX_CONFIGSTRINGS < FitCount(NewStrings(g, index, s), 0) then
              if j == index then s else GetAny(g, j)
            else ""
  {
    hide Valid, Packed, Get;
    var ss := NewStrings(g, index, s);
    ModifiedValid(g, index, s);
    PackedReads(ss, FitCount(ss, 0), if j < MAX_CONFIGSTRINGS then j else j - MAX_CONFIGSTRINGS);
  }
}
