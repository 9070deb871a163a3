/**
 An extended gamestate resets the data count of the second table, but neither its offsets nor
 its characters.  This is what an index that is missing from the message reads afterwards.
 */
module StaleStrings {
  import opened Common
  import opened Message
  import opened GameState
  import opened GameStateMessage

  /** Index `i` of a table whose data were written over `memory`. */
  function Reads(t: Table, memory: Memory, i: nat): string
    requires i < MAX_CONFIGSTRINGS
  {
    Get(Filled(t, memory), i)
  }

  lemma {:induction false} CStrBehind(data: string, memory: string, p: nat)
    requires |data| <= p && |data| <= |memory|
    ensures CStr(Over(data, memory), p) == CStr(memory, p)
    decreases |memory| - p
  {
    if p < |memory| {
      assert Over(data, memory)[p] == memory[p];
      CStrBehind(data, memory, p + 1);
    }
  }

  /** Terminated data read the same whatever memory they were written over. */
  lemma CStrOver(data: string, memory: string, p: nat)
    requires p < |data| && data[|data| - 1] == '\0'
    ensures CStr(Over(data, memory), p) == CStr(data, p)
  {
    CStrFramed(data, if |data| < |memory| then memory[|data|..] else "", p);
  }

  /** The offset of a missing index stays, and the data stay terminated. */
  lemma {:induction false} MissingKeepsOffset(g: Tables, es: seq<Entry>, i: nat)
    requires i < MAX_CONFIGSTRINGS && Find(es, MAX_CONFIGSTRINGS + i) == []
    requires g.ext.data != "" && g.ext.data[|g.ext.data| - 1] == '\0'
    ensures var t := PutAll(g, es).ext;
            t.offsets[i] == g.ext.offsets[i] && t.data != "" && t.data[|t.data| - 1] == '\0'
    decreases |es|
  {
    if es != [] {
      MissingKeepsOffset(PutAny(g, es[0].index, es[0].text), es[1..], i);
    }
  }

  /** A missing index reads from its old offset: out of the new strings as far as they reach, else the old string. */
  lemma MissingReads(cl: Table, offsets: Offsets, memory: Memory, es: seq<Entry>, i: nat)
    requires i < MAX_CONFIGSTRINGS && offsets[i] < MAX_GAMESTATE_CHARS
    requires Fits(PutAll(Tables(cl, Reset(offsets)), es)) && Find(es, MAX_CONFIGSTRINGS + i) == []
    ensures var t, o := PutAll(Tables(cl, Reset(offsets)), es).ext, offsets[i];
            Reads(t, memory, i) == if o == 0 then "" else if o < |t.data| then CStr(t.data, o) else CStr(memory, o)
  {
    hide PutAll, CStr, Over;
    MissingKeepsOffset(Tables(cl, Reset(offsets)), es, i);
    var t, o := PutAll(Tables(cl, Reset(offsets)), es).ext, offsets[i];
    if o < |t.data| {
      CStrOver(t.data, memory, o);
    } else {
      CStrBehind(t.data, memory, o);
    }
  }

  /** The same for a parsed message, whatever constants are merged in. */
  lemma ParsedReads(w: Writer, es: seq<Entry>, cs: seq<Entry>, cl: Table, offsets: Offsets, memory: Memory,
                    data: seq<Byte>, i: nat)
    requires i < MAX_CONFIGSTRINGS && offsets[i] < MAX_GAMESTATE_CHARS
    requires WriterOk(w) && Extends(WriteEntries(Extended, w, -1, es), data) && AllReadable(es)
    requires Parsable(Extended, -1, es, cs, Tables(cl, Reset(offsets)))
    requires Find(es, MAX_CONFIGSTRINGS + i) == [] == Find(cs, MAX_CONFIGSTRINGS + i)
    ensures ReaderOk(At(w, data))
    ensures var r, o := ParseEntries(Extended, |es|, At(w, data), -1, cs, Tables(cl, Reset(offsets))), offsets[i];
            && r.Parsed? && Fits(r.value)
            && Reads(r.value.ext, memory, i) ==
               if o == 0 then "" else if o < |r.value.ext.data| then CStr(r.value.ext.data, o) else CStr(memory, o)
  {
    hide PutAll, CStr, ParseEntries, Extends, WriteEntries, Merge, Reads;
    EntriesReadBack(Extended, w, -1, es, cs, Tables(cl, Reset(offsets)), data);
    FindReceived(es, MAX_CONFIGSTRINGS + i);
    MergeOverrides(AllReceived(es), cs, -1, MAX_CONFIGSTRINGS + i);
    MissingReads(cl, offsets, memory, Merge(AllReceived(es), cs), i);
  }

  // ------------------------------------------------------------ whether it can matter

  ghost predicate AllShort(es: seq<Entry>) { forall m | 0 <= m < |es| :: |es[m].text| + 1 < BIG_INFO_STRING }

  /** Strings the parser can meet, in order, that leave out index `i` of the second table and fit. */
  ghost predicate Missing(cl: Table, offsets: Offsets, es: seq<Entry>, i: nat) {
    && Ascending(es, -1) && Find(es, MAX_CONFIGSTRINGS + i) == []
    && AllShort(es)
    && Fits(PutAll(Tables(cl, Reset(offsets)), es))
  }

  function Letters(n: nat): (s: CString)
    ensures |s| == n && forall i | 0 <= i < n :: s[i] == 'x'
  {
    if n == 0 then "" else Letters(n - 1) + "x"
  }

  const LONGEST := BIG_INFO_STRING - 2

  /** The index after the first `k`, where `i` is left out. */
  function Slot(k: nat, i: nat): nat { if k == i then k + 1 else k }

  /** Strings that cover `n` times the longest string with its terminator, and the `d + 1` characters behind. */
  function Cover(n: nat, d: nat, k: nat, i: nat): seq<Entry>
    requires k + 2 * n + 1 < MAX_CONFIGSTRINGS && d < LONGEST
    decreases n
  {
    var at := MAX_CONFIGSTRINGS + Slot(k, i);
    if n == 0 then [Entry(at, Letters(d + 1))]
    else [Entry(at, Letters(LONGEST - 1))] + Cover(n - 1, d, Slot(k, i) + 1, i)
  }

  lemma EntryInFront(e: Entry, rest: seq<Entry>, above: int, i: nat)
    requires e.index > above && |e.text| + 1 < BIG_INFO_STRING && e.index != i
    requires Ascending(rest, e.index) && AllShort(rest) && Find(rest, i) == []
    ensures Ascending([e] + rest, above) && AllShort([e] + rest) && Find([e] + rest, i) == []
  {
    FindCons(e, rest, i);
  }

  lemma {:induction false} CoverShape(n: nat, d: nat, k: nat, i: nat)
    requires k + 2 * n + 1 < MAX_CONFIGSTRINGS && d < LONGEST
    ensures var es := Cover(n, d, k, i);
            Ascending(es, MAX_CONFIGSTRINGS + k - 1) && AllShort(es) && Find(es, MAX_CONFIGSTRINGS + i) == []
    decreases n
  {
    hide Ascending, AllShort, Find, Letters;
    var at, above := MAX_CONFIGSTRINGS + Slot(k, i), MAX_CONFIGSTRINGS + k - 1;
    if n == 0 {
      NothingIsShaped(at, MAX_CONFIGSTRINGS + i);
      EntryInFront(Entry(at, Letters(d + 1)), [], above, MAX_CONFIGSTRINGS + i);
      assert [Entry(at, Letters(d + 1))] + [] == Cover(n, d, k, i);
    } else {
      CoverShape(n - 1, d, Slot(k, i) + 1, i);
      EntryInFront(Entry(at, Letters(LONGEST - 1)), Cover(n - 1, d, Slot(k, i) + 1, i), above, MAX_CONFIGSTRINGS + i);
    }
  }

  lemma NothingIsShaped(above: int, i: nat)
    ensures Ascending([], above) && AllShort([]) && Find([], i) == []
  {}

  lemma PutSecond(g: Tables, e: Entry)
    requires e.index >= MAX_CONFIGSTRINGS
    ensures var g', n := PutAny(g, e.index, e.text), |g.ext.data|;
            && g'.cl == g.cl && |g'.ext.data| == n + |e.text| + 1
            && forall m | 0 <= m < |e.text| :: g'.ext.data[n + m] == e.text[m]
  {}

  lemma {:induction false} CoverShows(g: Tables, n: nat, d: nat, k: nat, i: nat)
    requires k + 2 * n + 1 < MAX_CONFIGSTRINGS && d < LONGEST
    ensures var g', o := PutAll(g, Cover(n, d, k, i)), |g.ext.data| + n * LONGEST + d;
            g'.cl == g.cl && |g'.ext.data| == o + 2 && g'.ext.data[o] == 'x'
    decreases n
  {
    hide PutAny, Letters;
    var es := Cover(n, d, k, i);
    var g1 := PutAny(g, es[0].index, es[0].text);
    PutSecond(g, es[0]);
    if n == 0 {
      assert es[1..] == [] && PutAll(g, es) == g1;
      assert g1.ext.data[|g.ext.data| + d] == es[0].text[d];
    } else {
      assert es[1..] == Cover(n - 1, d, Slot(k, i) + 1, i);
      CoverShows(g1, n - 1, d, Slot(k, i) + 1, i);
    }
  }

  /**
   Whatever strings arrive, a missing index reads as empty exactly if its old offset was zero, or was the
   last character of the heap, where only a terminator has room.
   */
  lemma AlwaysEmptyIff(cl: Table, offsets: Offsets, memory: Memory, i: nat)
    requires |cl.data| <= MAX_GAMESTATE_CHARS && i < MAX_CONFIGSTRINGS && offsets[i] < MAX_GAMESTATE_CHARS
    ensures (forall es | Missing(cl, offsets, es, i) ::
      Reads(PutAll(Tables(cl, Reset(offsets)), es).ext, memory, i) == "")
            <==> offsets[i] == 0 || offsets[i] == 131071
  {
    hide PutAll, Reads, Cover, Find, Ascending;
    var o, g := offsets[i], Tables(cl, Reset(offsets));
    if o == 0 || o == MAX_GAMESTATE_CHARS - 1 {
      forall es | Missing(cl, offsets, es, i)
        ensures Reads(PutAll(g, es).ext, memory, i) == ""
      {
        MissingReads(cl, offsets, memory, es, i);
        if o != 0 { LastIsEmpty(cl, offsets, memory, es, i); }
      }
    } else {
      var n, d := (o - 1) / LONGEST, (o - 1) % LONGEST;
      var es := Cover(n, d, 0, i);
      CoverShape(n, d, 0, i);
      CoverShows(g, n, d, 0, i);
      AscendingLower(es, MAX_CONFIGSTRINGS - 1);
      assert Missing(cl, offsets, es, i);
      MissingReads(cl, offsets, memory, es, i);
      assert Reads(PutAll(g, es).ext, memory, i) != "";
    }
  }

  lemma AscendingLower(es: seq<Entry>, above: int)
    requires Ascending(es, above) && above >= -1
    ensures Ascending(es, -1)
  {}

  lemma LastIsEmpty(cl: Table, offsets: Offsets, memory: Memory, es: seq<Entry>, i: nat)
    requires i < MAX_CONFIGSTRINGS && offsets[i] == MAX_GAMESTATE_CHARS - 1 && Missing(cl, offsets, es, i)
    ensures var t, o := PutAll(Tables(cl, Reset(offsets)), es).ext, offsets[i];
            if o < |t.data| then CStr(t.data, o) == "" else CStr(memory, o) == ""
  {
    hide PutAll;
    MissingKeepsOffset(Tables(cl, Reset(offsets)), es, i);
  }
}
