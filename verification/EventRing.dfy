/**
 The queue of system events: a ring of 256 slots between two counters.  An event may carry a
 pointer to a block that belongs to whoever takes the event; the ring frees the block of an
 event it has to drop.
 */
module EventRing {
  const MAX_QUEUED_EVENTS := 256

  /** `ptr` is zero when there is no block. */
  datatype Event = Event(time: int, kind: int, value: int, value2: int, ptrLength: int, ptr: nat)

  datatype Fate = Handed | Dropped

  // ------------------------------------------------------------ the queue it stands for

  /** The last `n` elements. */
  function LastOf(q: seq<Event>, n: nat): (r: seq<Event>)
    ensures |r| <= n && (|q| <= n ==> r == q)
  {
    if |q| <= n then q else q[|q| - n..]
  }

  /** Everything that was ever queued, with the fate of those that left again, in order. */
  datatype History = History(queued: seq<Event>, fates: seq<Fate>)

  predicate Sound(h: History) {
    |h.fates| <= |h.queued| <= |h.fates| + MAX_QUEUED_EVENTS
  }

  function Waiting(h: History): (r: seq<Event>)
    requires Sound(h)
    ensures |r| <= MAX_QUEUED_EVENTS
  {
    h.queued[|h.fates|..]
  }

  /** The blocks of the events with the given fate, oldest first. */
  function Blocks(h: History, fate: Fate, n: nat): seq<nat>
    requires n <= |h.fates| <= |h.queued|
  {
    if n == 0 then []
    else
      Blocks(h, fate, n - 1)
      + if h.fates[n - 1] == fate && h.queued[n - 1].ptr != 0 then [h.queued[n - 1].ptr] else []
  }

  class Ring {
    const slots: array<Event>
    var eventHead: nat
    var eventTail: nat
    ghost var history: History
    ghost var freed: seq<nat>
    ghost var handed: seq<nat>

    /** Slot `n % 256` holds the `n`-th event while it waits. */
    ghost predicate Valid()
      reads this, slots
    {
      && slots.Length == MAX_QUEUED_EVENTS
      && Sound(history) && eventHead == |history.queued| && eventTail == |history.fates|
      && (forall n: nat | eventTail <= n < eventHead :: slots[n % MAX_QUEUED_EVENTS] == history.queued[n])
      && freed == Blocks(history, Dropped, eventTail)
      && handed == Blocks(history, Handed, eventTail)
    }

    constructor (nothing: Event)
      ensures Valid() && history == History([], []) && freed == [] && handed == [] && fresh(slots)
    {
      slots := new Event[MAX_QUEUED_EVENTS](i => nothing);
      eventHead, eventTail := 0, 0;
      history, freed, handed := History([], []), [], [];
    }

    /** Queues an event; a full ring drops its oldest one and frees that one's block. */
    method QueueEvent(time: int, kind: int, value: int, value2: int, ptrLength: int, ptr: nat, now: int)
      requires Valid()
      modifies this, slots
      ensures Valid()
      ensures history.queued
           == old(history.queued) + [Event(if time == 0 then now else time, kind, value, value2, ptrLength, ptr)]
      ensures history.fates
           == old(history.fates) + if |old(Waiting(history))| == MAX_QUEUED_EVENTS then [Dropped] else []
      ensures handed == old(handed)
    {
      hide Blocks, Waiting;
      WaitingLength(history);
      if eventHead - eventTail >= MAX_QUEUED_EVENTS {
        DropOldest();
      }
      var stamp := if time == 0 then now else time;
      Put(Event(stamp, kind, value, value2, ptrLength, ptr));
    }

    /** Makes room in a full ring. */
    method DropOldest()
      requires Valid() && eventHead == eventTail + MAX_QUEUED_EVENTS
      modifies this
      ensures Valid() && eventHead == old(eventHead) < eventTail + MAX_QUEUED_EVENTS && handed == old(handed)
      ensures history == old(history).(fates := old(history).fates + [Dropped])
    {
      hide Blocks;
      FullRing(eventHead, eventTail);
      var slot := eventHead % MAX_QUEUED_EVENTS;
      if slots[slot].ptr != 0 {
        freed := freed + [slots[slot].ptr];
      }
      FateSealed(history, Dropped);
      history := history.(fates := history.fates + [Dropped]);
      eventTail := eventTail + 1;
    }

    /** Stores an event in its slot. */
    method Put(event: Event)
      requires Valid() && eventHead < eventTail + MAX_QUEUED_EVENTS
      modifies this, slots
      ensures Valid() && handed == old(handed)
      ensures history == old(history).(queued := old(history).queued + [event])
    {
      hide Blocks;
      OtherSlots(eventHead, eventTail);
      SameBlocks(history, history.(queued := history.queued + [event]), eventTail);
      slots[eventHead % MAX_QUEUED_EVENTS] := event;
      eventHead := eventHead + 1;
      history := history.(queued := history.queued + [event]);
    }

    /**
     The oldest waiting event.  If there is none the system is asked, which may queue events
     and a console line; if there is still none, an empty event is made up.
     */
    method GetEvent(posted: seq<Event>, console: seq<Event>, now: int) returns (event: Event)
      requires Valid() && |console| <= 1
      modifies this, slots
      ensures Valid()
      ensures var h := old(history);
        if Waiting(h) != [] then
          event == Waiting(h)[0] && history == History(h.queued, h.fates + [Handed])
        else if posted + console != [] then
          && history.queued == h.queued + Stamped(posted + console, now)
          && event == LastOf(Stamped(posted + console, now), MAX_QUEUED_EVENTS)[0]
          && Waiting(history) == LastOf(Stamped(posted + console, now), MAX_QUEUED_EVENTS)[1..]
        else
          event == Event(now, 0, 0, 0, 0, 0) && history == h
    {
      hide Blocks, Waiting, Stamped, LastOf, Sound;
      WaitingLength(history);
      if eventHead > eventTail {
        event := Take();
        return;
      }
      ghost var posts := Stamped(posted + console, now);
      assert Waiting(history) + posts == posts;
      PostAll(posted + console, now);
      WaitingLength(history);
      LastOfSome(posts, MAX_QUEUED_EVENTS);
      if eventHead > eventTail {
        event := Take();
        return;
      }
      event := Event(now, 0, 0, 0, 0, 0);
    }

    method Take() returns (event: Event)
      requires Valid() && eventHead > eventTail
      modifies this
      ensures Valid()
      ensures event == old(Waiting(history))[0] && Waiting(history) == old(Waiting(history))[1..]
      ensures history == History(old(history).queued, old(history).fates + [Handed])
    {
      event := slots[eventTail % MAX_QUEUED_EVENTS];
      if event.ptr != 0 {
        handed := handed + [event.ptr];
      }
      FateSealed(history, Handed);
      history := history.(fates := history.fates + [Handed]);
      eventTail := eventTail + 1;
    }

    /** What the system queues while it is asked. */
    method PostAll(posted: seq<Event>, now: int)
      requires Valid()
      modifies this, slots
      ensures Valid() && handed == old(handed)
      ensures history.queued == old(history.queued) + Stamped(posted, now)
      ensures Waiting(history) == LastOf(old(Waiting(history)) + Stamped(posted, now), MAX_QUEUED_EVENTS)
      ensures posted == [] ==> history == old(history)
    {
      hide Blocks, Waiting, Stamped, LastOf, Sound;
      assert Stamped(posted[..0], now) == [];
      assert Waiting(history) + [] == Waiting(history);
      assert history.queued + [] == history.queued;
      AllWait(history);
      for i := 0 to |posted|
        invariant Valid() && handed == old(handed)
        invariant history.queued == old(history.queued) + Stamped(posted[..i], now)
        invariant Waiting(history) == LastOf(old(Waiting(history)) + Stamped(posted[..i], now), MAX_QUEUED_EVENTS)
        invariant i == 0 ==> history == old(history)
      {
        var e := posted[i];
        ghost var before := history;
        QueueEvent(e.time, e.kind, e.value, e.value2, e.ptrLength, e.ptr, now);
        ghost var stamped := e.(time := if e.time == 0 then now else e.time);
        assert history.queued[|before.queued|] == stamped;
        AllSound(before);
        AllSound(history);
        QueuedWaits(before, history);
        StampedMore(posted, i, now);
        LastOfMore(old(Waiting(history)), Stamped(posted[..i], now), stamped, MAX_QUEUED_EVENTS);
        MoreAtEnd(old(history).queued, Stamped(posted[..i], now), stamped);
      }
      assert posted[..|posted|] == posted;
    }
  }

  lemma WaitingLength(h: History)
    requires Sound(h)
    ensures |Waiting(h)| == |h.queued| - |h.fates|
  {}

  lemma AllWait(h: History)
    requires Sound(h)
    ensures LastOf(Waiting(h), MAX_QUEUED_EVENTS) == Waiting(h)
  {}

  lemma AllSound(h: History)
    requires Sound(h)
    ensures |h.fates| <= |h.queued| <= |h.fates| + MAX_QUEUED_EVENTS
  {}

  lemma LastOfSome(q: seq<Event>, n: nat)
    ensures q != [] && n > 0 ==> LastOf(q, n) != []
    ensures q == [] ==> LastOf(q, n) == []
  {}

  lemma MoreAtEnd(q: seq<Event>, s: seq<Event>, e: Event)
    ensures q + s + [e] == q + (s + [e])
  {}

  lemma LastOfMore(q: seq<Event>, s: seq<Event>, e: Event, n: nat)
    requires n > 0
    ensures LastOf(LastOf(q + s, n) + [e], n) == LastOf(q + (s + [e]), n)
  {
    assert q + (s + [e]) == q + s + [e];
  }

  function Stamped(es: seq<Event>, now: int): (r: seq<Event>)
    ensures |r| == |es| && forall i | 0 <= i < |r| ::
      r[i] == es[i].(time := if es[i].time == 0 then now else es[i].time)
  {
    if es == [] then []
    else Stamped(es[..|es| - 1], now) + [var e := es[|es| - 1]; e.(time := if e.time == 0 then now else e.time)]
  }

  lemma StampedMore(es: seq<Event>, i: nat, now: int)
    requires i < |es|
    ensures Stamped(es[..i + 1], now)
      == Stamped(es[..i], now) + [es[i].(time := if es[i].time == 0 then now else es[i].time)]
  {
    assert es[..i + 1][..i] == es[..i];
  }

  // ------------------------------------------------------------ the history of the ring

  lemma FullRing(head: nat, tail: nat)
    requires head == tail + MAX_QUEUED_EVENTS
    ensures head % MAX_QUEUED_EVENTS == tail % MAX_QUEUED_EVENTS
  {}

  lemma OtherSlots(head: nat, tail: nat)
    requires tail <= head < tail + MAX_QUEUED_EVENTS
    ensures forall n: nat | tail <= n < head :: n % MAX_QUEUED_EVENTS != head % MAX_QUEUED_EVENTS
  {}

  lemma {:induction false} SameBlocks(h: History, h': History, n: nat)
    requires n <= |h.fates| <= |h.queued| && n <= |h'.fates| <= |h'.queued|
    requires h.fates[..n] == h'.fates[..n] && h.queued[..n] == h'.queued[..n]
    ensures Blocks(h, Dropped, n) == Blocks(h', Dropped, n) && Blocks(h, Handed, n) == Blocks(h', Handed, n)
  {
    if n > 0 {
      assert h.fates[n - 1] == h.fates[..n][n - 1] == h'.fates[n - 1];
      assert h.queued[n - 1] == h.queued[..n][n - 1] == h'.queued[n - 1];
      assert h.fates[..n - 1] == h.fates[..n][..n - 1] && h.queued[..n - 1] == h.queued[..n][..n - 1];
      SameBlocks(h, h', n - 1);
    }
  }

  lemma FateSealed(h: History, fate: Fate)
    requires |h.fates| < |h.queued|
    ensures var n, h' := |h.fates|, h.(fates := h.fates + [fate]);
            var block := if h.queued[n].ptr != 0 then [h.queued[n].ptr] else [];
            && Blocks(h', Dropped, n + 1) == Blocks(h, Dropped, n) + (if fate == Dropped then block else [])
            && Blocks(h', Handed, n + 1) == Blocks(h, Handed, n) + (if fate == Handed then block else [])
  {
    SameBlocks(h, h.(fates := h.fates + [fate]), |h.fates|);
  }

  /** The ring is a first-in first-out queue of at most 256 events that drops its oldest. */
  lemma QueuedWaits(h: History, h': History)
    requires Sound(h) && Sound(h') && |h'.queued| == |h.queued| + 1 && h'.queued[..|h.queued|] == h.queued
    requires h'.fates == h.fates + if |Waiting(h)| == 256 then [Dropped] else []
    ensures Waiting(h') == LastOf(Waiting(h) + [h'.queued[|h.queued|]], 256)
  {
    assert h'.queued == h.queued + [h'.queued[|h.queued|]];
  }

  /** All the blocks in a list of events. */
  function BlocksOf(es: seq<Event>): seq<nat> {
    if es == [] then []
    else BlocksOf(es[..|es| - 1]) + if es[|es| - 1].ptr != 0 then [es[|es| - 1].ptr] else []
  }

  lemma {:induction false} BlocksOfConcat(a: seq<Event>, b: seq<Event>)
    ensures BlocksOf(a + b) == BlocksOf(a) + BlocksOf(b)
    decreases |b|
  {
    if b == [] {
      assert a + b == a;
    } else {
      assert (a + b)[..|a + b| - 1] == a + b[..|b| - 1];
      BlocksOfConcat(a, b[..|b| - 1]);
    }
  }

  lemma {:induction false} LeftAreShared(h: History, n: nat)
    requires n <= |h.fates| <= |h.queued|
    ensures multiset(BlocksOf(h.queued[..n])) == multiset(Blocks(h, Handed, n)) + multiset(Blocks(h, Dropped, n))
  {
    if n > 0 {
      LeftAreShared(h, n - 1);
      assert h.queued[..n][..n - 1] == h.queued[..n - 1];
    }
  }

  /** No block is lost and none is passed on twice: it was handed out, or freed, or still waits. */
  lemma BlocksConserved(h: History)
    requires Sound(h)
    ensures multiset(BlocksOf(h.queued)) ==
            multiset(Blocks(h, Handed, |h.fates|)) + multiset(Blocks(h, Dropped, |h.fates|))
              + multiset(BlocksOf(Waiting(h)))
  {
    var n := |h.fates|;
    assert h.queued == h.queued[..n] + h.queued[n..];
    BlocksOfConcat(h.queued[..n], h.queued[n..]);
    LeftAreShared(h, n);
  }

  /** A block that was queued once is never both freed and handed out. */
  lemma NeverBoth(h: History, ptr: nat)
    requires Sound(h) && multiset(BlocksOf(h.queued))[ptr] <= 1
    ensures !(ptr in Blocks(h, Handed, |h.fates|) && ptr in Blocks(h, Dropped, |h.fates|))
    ensures ptr in BlocksOf(Waiting(h)) ==>
      ptr !in Blocks(h, Handed, |h.fates|) && ptr !in Blocks(h, Dropped, |h.fates|)
  {
    BlocksConserved(h);
    hide *;
    CountedOnce(Blocks(h, Handed, |h.fates|), ptr);
    CountedOnce(Blocks(h, Dropped, |h.fates|), ptr);
    CountedOnce(BlocksOf(Waiting(h)), ptr);
  }

  lemma CountedOnce(s: seq<nat>, ptr: nat)
    ensures ptr in s <==> multiset(s)[ptr] > 0
  {}
}
