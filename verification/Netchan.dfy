/**
 The keyed exclusive-or that hides message bodies.  The key string is a command
 buffer: bytes up to a zero, walked cyclically while the body is walked once.
 */
module Netchan {
  import opened Common
  import opened Arithmetic

  function Zeros(n: nat): (z: seq<bv8>)
    ensures |z| == n && forall i | 0 <= i < n :: z[i] == 0
  {
    seq(n, i => 0)
  }

  /** A command slot: a fixed buffer whose last byte is always zero. */
  type Slot = s: seq<bv8> | |s| == MAX_STRING_CHARS && s[MAX_STRING_CHARS - 1] == 0
    witness Zeros(MAX_STRING_CHARS)

  const EMPTY_SLOT: Slot := Zeros(MAX_STRING_CHARS)

  /** A C string: no zero inside. */
  type Text = t: seq<bv8> | 0 !in t witness []

  /** The bytes of a buffer before its first zero. */
  function CText(buf: seq<bv8>): (t: Text)
    ensures |t| <= |buf| && t == buf[..|t|]
    ensures |t| < |buf| ==> buf[|t|] == 0
  {
    if buf == [] || buf[0] == 0 then [] else [buf[0]] + CText(buf[1..])
  }

  lemma {:induction false} CTextUnique(buf: seq<bv8>, t: Text)
    requires |t| < |buf| && t == buf[..|t|] && buf[|t|] == 0
    ensures CText(buf) == t
  {
    var u := CText(buf);
    assert |u| >= |t|;
    assert |u| <= |t|;
  }

  /** A zero ends the text at the latest. */
  lemma {:induction false} TextEndsAt(buf: seq<bv8>, k: nat)
    requires k < |buf| && buf[k] == 0
    ensures |CText(buf)| <= k
  {
    if k > 0 && buf[0] != 0 {
      TextEndsAt(buf[1..], k - 1);
    }
  }

  // ------------------------------------------------------------ the keystream

  function Mix(key: bv8, b: bv8): bv8 { key ^ b }

  function Doubled(b: bv8, odd: bool): bv8 { if odd then b << 1 else b }

  /** Where the walk over the key string stands at step `i`. */
  function Cursor(s: Slot, i: nat): (c: nat)
    ensures c < MAX_STRING_CHARS - 1
  {
    if i == 0 then 0
    else
      var next := Cursor(s, i - 1) + 1;
      if s[next] == 0 then 0 else next
  }

  /** The key byte for body byte `i`: everything walked so far, mixed together. */
  function KeyAt(s: Slot, seed: bv8, i: nat): bv8 {
    Mix(if i == 0 then seed else KeyAt(s, seed, i - 1), Doubled(s[Cursor(s, i)], i % 2 == 1))
  }

  function Transformed(s: Slot, seed: bv8, data: seq<bv8>): (r: seq<bv8>)
    ensures |r| == |data|
  {
    seq(|data|, i requires 0 <= i < |data| => Mix(KeyAt(s, seed, i), data[i]))
  }

  lemma MixTwice(k: bv8, b: bv8)
    ensures Mix(k, Mix(k, b)) == b
  {}

  /** The keystream never looks at the data, so applying it twice gives the data back. */
  lemma TransformedTwice(s: Slot, seed: bv8, data: seq<bv8>)
    ensures Transformed(s, seed, Transformed(s, seed, data)) == data
  {
    forall i | 0 <= i < |data|
      ensures Transformed(s, seed, Transformed(s, seed, data))[i] == data[i]
    {
      MixTwice(KeyAt(s, seed, i), data[i]);
    }
  }

  /** For a nonempty key string the walk is `i` modulo its length. */
  lemma {:induction false} CursorCycles(s: Slot, i: nat)
    requires CText(s) != []
    ensures Cursor(s, i) == i % |CText(s)|
  {
    if i > 0 {
      CursorCycles(s, i - 1);
      NextModulo(i - 1, |CText(s)|);
      TextStep(s, Cursor(s, i - 1));
    }
  }

  lemma TextStep(s: Slot, c: nat)
    requires c < |CText(s)|
    ensures s[c + 1] == 0 <==> c + 1 == |CText(s)|
  {
    var t := CText(s);
    if c + 1 < |t| {
      assert t[c + 1] in t;
    }
  }

  lemma NextModulo(i: nat, n: nat)
    requires n > 0
    ensures (i + 1) % n == if i % n + 1 == n then 0 else i % n + 1
  {
    var q, r := i / n, i % n;
    if r + 1 == n {
      assert i + 1 == (q + 1) * n;
      DivMod(i + 1, n, q + 1, 0);
    } else {
      assert i + 1 == q * n + (r + 1);
      DivMod(i + 1, n, q, r + 1);
    }
  }

  /** Slots with the same nonempty string give the same keystream, whatever follows the zero. */
  lemma {:induction false} KeyDependsOnText(s: Slot, r: Slot, seed: bv8, i: nat)
    requires CText(s) == CText(r) != []
    ensures KeyAt(s, seed, i) == KeyAt(r, seed, i)
  {
    CursorCycles(s, i);
    CursorCycles(r, i);
    assert s[Cursor(s, i)] == CText(s)[Cursor(s, i)];
    assert r[Cursor(r, i)] == CText(r)[Cursor(r, i)];
    if i > 0 {
      KeyDependsOnText(s, r, seed, i - 1);
    }
  }

  /** The character at step `i`, when the string is walked again and again. */
  function Around(t: Text, i: nat): bv8
    requires t != []
  {
    t[i % |t|]
  }

  /** What is mixed into a byte. */
  function MixedIn(r: seq<bv8>, data: seq<bv8>, i: nat): bv8
    requires i < |data| && i < |r|
  {
    r[i] ^ data[i]
  }

  /** It starts from the seed and the first character of the string. */
  lemma KeyStartsWithText(s: Slot, t: Text, seed: bv8, data: seq<bv8>)
    requires CText(s) == t != [] && data != []
    ensures MixedIn(Transformed(s, seed, data), data, 0) == Mix(seed, t[0])
  {
    Mixed(s, seed, data, 0);
    hide MixedIn, Transformed, Mix;
  }

  /** At each further byte it takes in the next character, doubled at odd places. */
  lemma KeyStepsThroughText(s: Slot, t: Text, seed: bv8, data: seq<bv8>, i: nat)
    requires CText(s) == t != [] && i + 1 < |data|
    ensures var r := Transformed(s, seed, data);
            MixedIn(r, data, i + 1) == Mix(MixedIn(r, data, i), Doubled(Around(t, i + 1), Odd(i + 1)))
  {
    hide *;
    KeyStep(s, t, seed, i + 1);
    Mixed(s, seed, data, i);
    Mixed(s, seed, data, i + 1);
  }

  predicate Odd(i: nat) { i % 2 == 1 }

  lemma Mixed(s: Slot, seed: bv8, data: seq<bv8>, i: nat)
    requires i < |data|
    ensures MixedIn(Transformed(s, seed, data), data, i) == KeyAt(s, seed, i)
  {
    Unmixed(KeyAt(s, seed, i), data[i]);
    hide KeyAt;
  }

  lemma KeyStep(s: Slot, t: Text, seed: bv8, i: nat)
    requires CText(s) == t != [] && i > 0
    ensures KeyAt(s, seed, i) == Mix(KeyAt(s, seed, i - 1), Doubled(Around(t, i), Odd(i)))
  {
    CursorCycles(s, i);
    hide CText, Mix, Doubled, Cursor;
  }

  lemma MixAndDoubled(k: bv8, b: bv8)
    ensures Mix(k, b) == (k | b) & !(k & b)
    ensures Doubled(b, true) as int == 2 * (b as int) % 256 && Doubled(b, false) == b
  {}

  lemma Unmixed(k: bv8, b: bv8)
    ensures Mix(k, b) ^ b == k
  {}

  lemma TransformedDependsOnText(s: Slot, r: Slot, seed: bv8, data: seq<bv8>)
    requires CText(s) == CText(r) != []
    ensures Transformed(s, seed, data) == Transformed(r, seed, data)
  {
    forall i | 0 <= i < |data|
      ensures Transformed(s, seed, data)[i] == Transformed(r, seed, data)[i]
    {
      KeyDependsOnText(s, r, seed, i);
    }
  }

  /** The key is the text alone, whatever stands behind its terminator, exactly when the text is not empty. */
  lemma TextIsKeyIff(t: Text)
    requires |t| < MAX_STRING_CHARS
    ensures (forall s: Slot, r: Slot, seed: bv8, data: seq<bv8> | CText(s) == t && CText(r) == t ::
               Transformed(s, seed, data) == Transformed(r, seed, data))
       <==> t != []
  {
    hide Transformed, KeyAt, Cursor;
    if t == [] {
      var stale: Slot := EMPTY_SLOT[1 := 1];
      assert CText(stale) == [] && CText(EMPTY_SLOT) == [];
      StaleKeyIff(stale);
      var seed: bv8, data :| Transformed(stale, seed, data) != Transformed(EMPTY_SLOT, seed, data);
    } else {
      forall s: Slot, r: Slot, seed: bv8, data: seq<bv8> | CText(s) == t && CText(r) == t
        ensures Transformed(s, seed, data) == Transformed(r, seed, data)
      {
        TransformedDependsOnText(s, r, seed, data);
      }
    }
  }

  /** A slot with the empty text keys like an empty slot exactly when the bytes the walk runs into are lost. */
  lemma StaleKeyIff(s: Slot)
    requires s[0] == 0
    ensures (forall seed: bv8, data: seq<bv8> :: Transformed(s, seed, data) == Transformed(EMPTY_SLOT, seed, data))
       <==> s[1] == 0 || (s[1] == 0x80 && s[2] == 0)
  {
    hide KeyAt, Mix;
    if s[1] == 0 || (s[1] == 0x80 && s[2] == 0) {
      forall seed: bv8, data: seq<bv8>
        ensures Transformed(s, seed, data) == Transformed(EMPTY_SLOT, seed, data)
      {
        forall i | 0 <= i < |data|
          ensures Transformed(s, seed, data)[i] == Transformed(EMPTY_SLOT, seed, data)[i]
        {
          StaleKeyIsSeed(s, seed, i);
          StaleKeyIsSeed(EMPTY_SLOT, seed, i);
        }
      }
    } else {
      StaleKeyIsSeed(EMPTY_SLOT, 0, 1);
      StaleKeyIsSeed(EMPTY_SLOT, 0, 2);
      StaleKeyShows(s);
      MixOfZero(KeyAt(s, 0, 1));
      MixOfZero(KeyAt(s, 0, 2));
      MixOfZero(0);
      assert Transformed(s, 0, [0, 0, 0])[1] == Mix(KeyAt(s, 0, 1), 0);
      assert Transformed(s, 0, [0, 0, 0])[2] == Mix(KeyAt(s, 0, 2), 0);
      assert Transformed(EMPTY_SLOT, 0, [0, 0, 0])[1] == Mix(0, 0) == Transformed(EMPTY_SLOT, 0, [0, 0, 0])[2];
    }
  }

  lemma MixOfZero(k: bv8)
    ensures Mix(k, 0) == k
  {}

  /** Where the walk only meets bytes that are lost, the key never moves. */
  lemma {:induction false} StaleKeyIsSeed(s: Slot, seed: bv8, i: nat)
    requires s[0] == 0 && (s[1] == 0 || (s[1] == 0x80 && s[2] == 0))
    ensures KeyAt(s, seed, i) == seed && Cursor(s, i) == if s[1] == 0 then 0 else i % 2
  {
    if i > 0 {
      StaleKeyIsSeed(s, seed, i - 1);
    }
    LostByte(seed);
  }

  lemma LostByte(k: bv8)
    ensures Mix(k, 0) == k && Doubled(0x80, true) == 0 && Doubled(0, true) == 0
  {}

  lemma StaleKeyShows(s: Slot)
    requires s[0] == 0 && s[1] != 0 && (s[1] == 0x80 ==> s[2] != 0)
    ensures KeyAt(s, 0, 1) != 0 || KeyAt(s, 0, 2) != 0
  {
    assert Cursor(s, 0) == 0 && Cursor(s, 1) == 1;
    LostByte(0);
    assert KeyAt(s, 0, 0) == 0;
    assert KeyAt(s, 0, 1) == Mix(0, Doubled(s[1], true));
    if s[1] == 0x80 {
      assert Cursor(s, 2) == 2;
      assert KeyAt(s, 0, 1) == 0;
      assert KeyAt(s, 0, 2) == Mix(0, s[2]);
      ByteShows(s[2]);
    } else {
      DoubledShows(s[1]);
    }
  }

  lemma ByteShows(b: bv8)
    requires b != 0
    ensures Mix(0, b) != 0
  {}

  lemma DoubledShows(b: bv8)
    requires b != 0 && b != 0x80
    ensures Mix(0, Doubled(b, true)) != 0
  {}

  // ------------------------------------------------------------ the loop

  /** The loop's walk: wrap at the zero, mix the byte under the cursor, move on. */
  method Advance(s: Slot, ghost seed: bv8, i: nat, key: bv8, index: nat) returns (key': bv8, index': nat)
    requires i == 0 ==> key == seed && index == 0
    requires i > 0 ==> key == KeyAt(s, seed, i - 1) && index == Cursor(s, i - 1) + 1
    ensures key' == KeyAt(s, seed, i) && index' == Cursor(s, i) + 1
  {
    hide Mix, Doubled;
    index' := if s[index] == 0 then 0 else index;
    key' := Mix(key, Doubled(s[index'], i % 2 == 1));
    index' := index' + 1;
  }

  /** The loop shared by encoding and decoding: the first `length` bytes are transformed in place. */
  method Transform(s: Slot, seed: bv8, data: array<bv8>, length: nat)
    requires length <= data.Length
    modifies data
    ensures data[..length] == Transformed(s, seed, old(data[..length]))
    ensures data[length..] == old(data[length..])
  {
    hide Mix, KeyAt, Cursor;
    ghost var before := data[..];
    var key, index := seed, 0;
    for i := 0 to length
      invariant i == 0 ==> key == seed && index == 0
      invariant i > 0 ==> key == KeyAt(s, seed, i - 1) && index == Cursor(s, i - 1) + 1
      invariant forall j | 0 <= j < i :: data[j] == Mix(KeyAt(s, seed, j), before[j])
      invariant forall j | i <= j < data.Length :: data[j] == before[j]
    {
      key, index := Advance(s, seed, i, key, index);
      data[i] := Mix(key, data[i]);
    }
  }
}
