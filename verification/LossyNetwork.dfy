/**
 Two peers of the reliable command channel over a network that may lose, duplicate and
 reorder packets: a packet, once sent, may be delivered any number of times, at any time,
 or never.  Sequence filtering is that of the packet layer: only a packet numbered above
 the last one processed is looked at.
 */
module LossyNetwork {
  import opened Common
  import CommandMessage
  import opened Message
  import opened Netchan
  import opened ReliableChannel

  /** `base` and `count` record which commands went in; no step reads them. */
  datatype Packet = Packet(sequence: nat, acknowledge: nat, nonce: bv8, body: seq<bv8>, base: nat, count: nat)

  datatype Peer = Peer(tx: Sender, rx: Receiver, outgoing: nat, incoming: nat)

  /** What both sides know and the network does not: the challenge and the body format. */
  datatype Shared = Shared(challenge: bv8, wire: Wire)

  datatype Outcome = Dropped | Resynchronised | Illegible | Processed

  // ------------------------------------------------------------ steps of one peer

  function EmptyRing(n: nat): (r: seq<Slot>)
    ensures |r| == n && forall i | 0 <= i < n :: r[i] == EMPTY_SLOT
  {
    seq(n, i => EMPTY_SLOT)
  }

  const START := Peer(Sender(0, 0, EmptyRing(MAX_RELIABLE_COMMANDS), []),
                      Receiver(0, EmptyRing(MAX_RELIABLE_COMMANDS), []), 1, 0)

  predicate WellShaped(x: Peer) {
    |x.tx.slots| == |x.rx.slots| == MAX_RELIABLE_COMMANDS && 0 <= x.tx.acknowledge
  }

  function Seal(g: Shared, key: Slot, nonce: bv8, cmds: seq<Command>): seq<bv8> {
    Transformed(key, Mix(g.challenge, nonce), g.wire.render(cmds))
  }

  /** The next packet of `x`: its newest acknowledgement, and a first part of what is unacknowledged. */
  function MakePacket(g: Shared, x: Peer, count: nat, nonce: bv8): Packet
    requires WellShaped(x)
  {
    Packet(x.outgoing, x.rx.sequence, nonce,
           Seal(g, x.rx.slots[x.rx.sequence % MAX_RELIABLE_COMMANDS], nonce, Outstanding(x.tx, count)),
           x.tx.acknowledge, count)
  }

  function Receive(g: Shared, y: Peer, p: Packet): (Peer, Outcome)
    requires WellShaped(y)
  {
    if p.sequence <= y.incoming then (y, Dropped)
    else
      var (tx, inWindow) := TakeAcknowledge(y.tx, p.acknowledge);
      if !inWindow then (y.(tx := tx, incoming := p.sequence), Resynchronised)
      else
        var key := tx.slots[p.acknowledge % MAX_RELIABLE_COMMANDS];
        match g.wire.parse(Transformed(key, Mix(g.challenge, p.nonce), p.body))
        case None => (y.(incoming := p.sequence), Illegible)
        case Some(cmds) => (y.(tx := tx, rx := AcceptAll(y.rx, cmds), incoming := p.sequence), Processed)
  }

  // ------------------------------------------------------------ the world

  datatype Role = Client | Server

  function Other(r: Role): Role { if r == Client then Server else Client }

  /** `fromClient` and `fromServer` hold every packet ever sent. */
  datatype World = World(client: Peer, server: Peer, fromClient: set<Packet>, fromServer: set<Packet>)
  {
    function Of(r: Role): Peer { if r == Client then client else server }

    function Sent(r: Role): set<Packet> { if r == Client then fromClient else fromServer }

    function With(r: Role, x: Peer): World { if r == Client then this.(client := x) else this.(server := x) }

    function Sending(r: Role, p: Packet): World {
      if r == Client then this.(fromClient := fromClient + {p}) else this.(fromServer := fromServer + {p})
    }
  }

  datatype Action =
    | AddCommand(who: Role, cmd: Text)
    | Transmit(who: Role, count: nat, nonce: bv8)
    | Deliver(to: Role, p: Packet)

  const INITIAL := World(START, START, {}, {})

  /** The caller's discipline: nonempty commands, one command of the window kept free, and no counter overflow. */
  predicate Allowed(w: World, a: Action) {
    match a
    case AddCommand(who, cmd) =>
      var tx := w.Of(who).tx;
      cmd != [] && tx.sequence - tx.acknowledge < MAX_RELIABLE_COMMANDS - 1 && tx.sequence < MAX_SEQUENCE
    case Transmit(who, count, nonce) =>
      w.Of(who).tx.acknowledge + count <= w.Of(who).tx.sequence
    case Deliver(to, p) => p in w.Sent(Other(to))
  }

  function Step(g: Shared, w: World, a: Action): (w': World)
    requires WellShaped(w.client) && WellShaped(w.server)
    ensures WellShaped(w'.client) && WellShaped(w'.server)
  {
    match a
    case AddCommand(who, cmd) =>
      var x := w.Of(who);
      (match AddReliableCommand(x.tx, cmd)
       case None => w
       case Some(tx) => w.With(who, x.(tx := tx)))
    case Transmit(who, count, nonce) =>
      var x := w.Of(who);
      w.With(who, x.(outgoing := x.outgoing + 1)).Sending(who, MakePacket(g, x, count, nonce))
    case Deliver(to, p) =>
      w.With(to, Receive(g, w.Of(to), p).0)
  }

  // ------------------------------------------------------------ the invariant

  /** What a packet from a peer with queue `from` to one with queue `to` carries. */
  ghost predicate Genuine(g: Shared, p: Packet, from: seq<Text>, to: seq<Text>) {
    && p.acknowledge <= |to| && LegalQueue(to) && NoneEmpty(to)
    && p.base + p.count <= |from|
    && p.body == Seal(g, Padded(TextAt(to, p.acknowledge)), p.nonce, Numbered(from, p.base, p.count))
  }

  /** Everything between the sending half of `x` and the receiving half of `y`. */
  ghost predicate Link(g: Shared, x: Peer, y: Peer, sent: set<Packet>) {
    && SlotsHold(x.tx) && NoneEmpty(x.tx.queued)
    && ReceiverOk(y.rx, x.tx.queued)
    && 0 <= x.tx.acknowledge <= y.rx.sequence
    && x.tx.sequence - x.tx.acknowledge < MAX_RELIABLE_COMMANDS && x.tx.sequence <= MAX_SEQUENCE
    && y.incoming < x.outgoing
    && (forall p | p in sent :: PacketOk(g, x, y, p))
    && forall p, q | p in sent && q in sent && p.sequence <= q.sequence :: p.acknowledge <= q.acknowledge
  }

  ghost predicate PacketOk(g: Shared, x: Peer, y: Peer, p: Packet) {
    && Genuine(g, p, x.tx.queued, y.tx.queued)
    && p.sequence < x.outgoing
    && p.acknowledge <= x.rx.sequence
    && p.base <= y.rx.sequence
    && (p.sequence > y.incoming ==> y.tx.acknowledge <= p.acknowledge)
  }

  ghost predicate Inv(g: Shared, w: World) {
    && Link(g, w.client, w.server, w.fromClient)
    && Link(g, w.server, w.client, w.fromServer)
  }

  // ------------------------------------------------------------ every step keeps it

  lemma LongerQueue(q: seq<Text>, more: seq<Text>, base: nat, count: nat, n: nat)
    requires base + count <= |q| && n <= |q|
    ensures Numbered(q + more, base, count) == Numbered(q, base, count)
    ensures TextAt(q + more, n) == TextAt(q, n)
  {}

  lemma QueueKeepsGenuine(g: Shared, p: Packet, from: seq<Text>, to: seq<Text>, moreFrom: seq<Text>, moreTo: seq<Text>)
    requires Genuine(g, p, from, to) && LegalQueue(to + moreTo) && NoneEmpty(to + moreTo)
    ensures Genuine(g, p, from + moreFrom, to + moreTo)
  {
    LongerQueue(from, moreFrom, p.base, p.count, 0);
    LongerQueue(to, moreTo, 0, 0, p.acknowledge);
  }

  lemma QueueKeepsReceiver(r: Receiver, source: seq<Text>, more: seq<Text>)
    requires ReceiverOk(r, source) && LegalQueue(source + more)
    ensures ReceiverOk(r, source + more)
  {
    forall n: nat | InWindow(n, r.sequence)
      ensures r.slots[n % MAX_RELIABLE_COMMANDS] == Padded(TextAt(source + more, n))
    {
      LongerQueue(source, more, 0, 0, n);
    }
  }

  /** Queueing keeps both directions. */
  lemma AddKeepsLinks(g: Shared, x: Peer, y: Peer, sent: set<Packet>, back: set<Packet>, cmd: Text)
    requires Link(g, x, y, sent) && Link(g, y, x, back)
    requires cmd != [] && x.tx.sequence - x.tx.acknowledge < MAX_RELIABLE_COMMANDS - 1 && x.tx.sequence < MAX_SEQUENCE
    ensures var x' := x.(tx := Queue(x.tx, cmd)); Link(g, x', y, sent) && Link(g, y, x', back)
  {
    var x' := x.(tx := Queue(x.tx, cmd));
    QueueKeepsSlots(x.tx, cmd);
    QueueKeepsReceiver(y.rx, x.tx.queued, [Stored(cmd)]);
    forall p | p in sent
      ensures PacketOk(g, x', y, p)
    {
      assert PacketOk(g, x, y, p);
      assert y.tx.queued + [] == y.tx.queued;
      QueueKeepsGenuine(g, p, x.tx.queued, y.tx.queued, [Stored(cmd)], []);
    }
    forall p | p in back
      ensures PacketOk(g, y, x', p)
    {
      assert PacketOk(g, y, x, p);
      assert y.tx.queued + [] == y.tx.queued;
      QueueKeepsGenuine(g, p, y.tx.queued, x.tx.queued, [], [Stored(cmd)]);
    }
  }

  /** A new packet carries what it should. */
  lemma NewPacketOk(g: Shared, x: Peer, y: Peer, sent: set<Packet>, back: set<Packet>, count: nat, nonce: bv8)
    requires Link(g, x, y, sent) && Link(g, y, x, back)
    requires x.tx.acknowledge + count <= x.tx.sequence
    ensures PacketOk(g, x.(outgoing := x.outgoing + 1), y, MakePacket(g, x, count, nonce))
  {
    OutstandingAsQueued(x.tx, count);
    hide Padded, Outstanding, Numbered, Seal, TextAt;
    assert InWindow(x.rx.sequence, x.rx.sequence);
  }

  lemma TransmitKeepsLinks(g: Shared, x: Peer, y: Peer, sent: set<Packet>, back: set<Packet>, count: nat, nonce: bv8)
    requires Link(g, x, y, sent) && Link(g, y, x, back)
    requires x.tx.acknowledge + count <= x.tx.sequence
    ensures var x', p := x.(outgoing := x.outgoing + 1), MakePacket(g, x, count, nonce);
            Link(g, x', y, sent + {p}) && Link(g, y, x', back)
  {
    var x', p := x.(outgoing := x.outgoing + 1), MakePacket(g, x, count, nonce);
    NewPacketOk(g, x, y, sent, back, count, nonce);
    hide Genuine, SlotsHold, ReceiverOk, Seal, Outstanding;
    forall q | q in sent + {p}
      ensures PacketOk(g, x', y, q)
    {
      if q in sent { assert PacketOk(g, x, y, q); }
    }
    AcknowledgesStayOrdered(g, x, y, sent, p);
    forall q | q in back
      ensures PacketOk(g, y, x', q)
    {
      assert PacketOk(g, y, x, q);
    }
  }

  lemma AcknowledgesStayOrdered(g: Shared, x: Peer, y: Peer, sent: set<Packet>, p: Packet)
    requires Link(g, x, y, sent) && p.sequence == x.outgoing && p.acknowledge == x.rx.sequence
    ensures forall q, r | q in sent + {p} && r in sent + {p} && q.sequence <= r.sequence ::
      q.acknowledge <= r.acknowledge
  {
    hide Genuine, SlotsHold, ReceiverOk;
    forall q, r | q in sent + {p} && r in sent + {p} && q.sequence <= r.sequence
      ensures q.acknowledge <= r.acknowledge
    {
      if q in sent { assert PacketOk(g, x, y, q); }
      if r in sent { assert PacketOk(g, x, y, r); }
    }
  }

  /** The acknowledged command is still in its slot, so both sides use the same key. */
  lemma KeysAgree(s: Sender, n: nat, seed: bv8, data: seq<bv8>)
    requires SlotsHold(s) && NoneEmpty(s.queued) && n <= s.sequence < n + MAX_RELIABLE_COMMANDS
    ensures Transformed(s.slots[n % MAX_RELIABLE_COMMANDS], seed, data)
         == Transformed(Padded(TextAt(s.queued, n)), seed, data)
  {
    hide Transformed, Padded;
    assert InWindow(n, s.sequence);
    if n == 0 {
      EmptyIsPadded();
    } else {
      TransformedDependsOnText(s.slots[n % MAX_RELIABLE_COMMANDS], Padded(TextAt(s.queued, n)), seed, data);
    }
  }

  /** A packet that is looked at decodes to exactly the commands that went in. */
  lemma ReceiveDecodes(g: Shared, x: Peer, y: Peer, sent: set<Packet>, back: set<Packet>, p: Packet)
    requires RoundTrips(g.wire)
    requires Link(g, x, y, sent) && Link(g, y, x, back) && p in sent && p.sequence > y.incoming
    ensures Receive(g, y, p) ==
      (y.(tx := y.tx.(acknowledge := p.acknowledge),
          rx := AcceptAll(y.rx, Numbered(x.tx.queued, p.base, p.count)),
          incoming := p.sequence), Processed)
  {
    assert PacketOk(g, x, y, p);
    var seed := Mix(g.challenge, p.nonce);
    var cmds := Numbered(x.tx.queued, p.base, p.count);
    KeysAgree(y.tx, p.acknowledge, seed, p.body);
    TransformedTwice(Padded(TextAt(y.tx.queued, p.acknowledge)), seed, g.wire.render(cmds));
  }

  lemma DeliverKeepsLinks(g: Shared, x: Peer, y: Peer, sent: set<Packet>, back: set<Packet>, p: Packet)
    requires RoundTrips(g.wire)
    requires Link(g, x, y, sent) && Link(g, y, x, back) && p in sent
    ensures var y' := Receive(g, y, p).0; Link(g, x, y', sent) && Link(g, y', x, back)
  {
    var y' := Receive(g, y, p).0;
    if p.sequence > y.incoming {
      assert PacketOk(g, x, y, p);
      ReceiveDecodes(g, x, y, sent, back, p);
      AcceptRun(y.rx, x.tx.queued, p.base, p.count);
      forall q | q in sent
        ensures PacketOk(g, x, y', q)
      {
        assert PacketOk(g, x, y, q);
      }
      forall q | q in back
        ensures PacketOk(g, y', x, q)
      {
        assert PacketOk(g, y, x, q);
      }
    }
  }

  lemma LinksAreShaped(g: Shared, w: World)
    requires Inv(g, w)
    ensures WellShaped(w.client) && WellShaped(w.server)
  {}

  lemma AddKeepsInv(g: Shared, w: World, who: Role, cmd: Text)
    requires Inv(g, w) && Allowed(w, AddCommand(who, cmd)) && WellShaped(w.client) && WellShaped(w.server)
    ensures Inv(g, Step(g, w, AddCommand(who, cmd)))
  {
    hide Link, Queue;
    AddKeepsLinks(g, w.Of(who), w.Of(Other(who)), w.Sent(who), w.Sent(Other(who)), cmd);
  }

  lemma TransmitKeepsInv(g: Shared, w: World, who: Role, count: nat, nonce: bv8)
    requires Inv(g, w) && Allowed(w, Transmit(who, count, nonce)) && WellShaped(w.client) && WellShaped(w.server)
    ensures Inv(g, Step(g, w, Transmit(who, count, nonce)))
  {
    hide Link, MakePacket;
    TransmitKeepsLinks(g, w.Of(who), w.Of(Other(who)), w.Sent(who), w.Sent(Other(who)), count, nonce);
  }

  lemma DeliverKeepsInv(g: Shared, w: World, to: Role, p: Packet)
    requires RoundTrips(g.wire) && Inv(g, w) && Allowed(w, Deliver(to, p))
    requires WellShaped(w.client) && WellShaped(w.server)
    ensures Inv(g, Step(g, w, Deliver(to, p)))
  {
    hide Link, Receive, RoundTrips;
    DeliverKeepsLinks(g, w.Of(Other(to)), w.Of(to), w.Sent(Other(to)), w.Sent(to), p);
  }

  lemma StepKeepsInv(g: Shared, w: World, a: Action)
    requires RoundTrips(g.wire) && Inv(g, w) && Allowed(w, a)
    ensures WellShaped(w.client) && WellShaped(w.server) && Inv(g, Step(g, w, a))
  {
    LinksAreShaped(g, w);
    hide *;
    match a
    case AddCommand(who, cmd) => AddKeepsInv(g, w, who, cmd);
    case Transmit(who, count, nonce) => TransmitKeepsInv(g, w, who, count, nonce);
    case Deliver(to, p) => DeliverKeepsInv(g, w, to, p);
  }

  // ------------------------------------------------------------ whole runs

  /** `w` is reached from the start by the actions in order, each of them allowed. */
  ghost predicate Reaches(g: Shared, actions: seq<Action>, w: World) {
    if actions == [] then w == INITIAL
    else exists v :: && Reaches(g, actions[..|actions| - 1], v)
                     && WellShaped(v.client) && WellShaped(v.server)
                     && Allowed(v, actions[|actions| - 1])
                     && w == Step(g, v, actions[|actions| - 1])
  }

  lemma {:induction false} ReachableInv(g: Shared, actions: seq<Action>, w: World)
    requires RoundTrips(g.wire) && Reaches(g, actions, w)
    ensures Inv(g, w)
  {
    if actions == [] {
      EmptyIsPadded();
    } else {
      var v :| && Reaches(g, actions[..|actions| - 1], v)
               && WellShaped(v.client) && WellShaped(v.server)
               && Allowed(v, actions[|actions| - 1])
               && w == Step(g, v, actions[|actions| - 1]);
      ReachableInv(g, actions[..|actions| - 1], v);
      StepKeepsInv(g, v, actions[|actions| - 1]);
    }
  }

  /** Exactly once and in order, in both directions, whatever the network does. */
  lemma DeliveredInOrder(g: Shared, actions: seq<Action>, w: World, r: Role)
    requires RoundTrips(g.wire) && Reaches(g, actions, w)
    ensures w.Of(Other(r)).rx.delivered <= w.Of(r).tx.queued
    ensures |w.Of(Other(r)).rx.delivered| == w.Of(Other(r)).rx.sequence
    ensures 0 <= w.Of(r).tx.acknowledge <= w.Of(Other(r)).rx.sequence
  {
    ReachableInv(g, actions, w);
  }

  // ------------------------------------------------------------ what was asked for

  /** The commands the caller at `r` asked for, in order. */
  function Asked(actions: seq<Action>, r: Role): (cmds: seq<Text>)
    decreases |actions|
  {
    if actions == [] then []
    else
      var last := actions[|actions| - 1];
      Asked(actions[..|actions| - 1], r) + if last.AddCommand? && last.who == r then [last.cmd] else []
  }

  /** A command that needs no cleaning and no cutting. */
  predicate Plain(cmd: Text) {
    |cmd| < MAX_STRING_CHARS && forall i | 0 <= i < |cmd| :: cmd[i] != 146 && cmd[i] != 0x25
  }

  /** `t` is `cmd`, cut to the buffer, without typographic apostrophes and format characters. */
  predicate Spelled(t: Text, cmd: Text) {
    && |t| == Min(|cmd|, MAX_STRING_CHARS - 1)
    && forall i | 0 <= i < |t| :: t[i] == if cmd[i] == 146 then 39 else if cmd[i] == 0x25 then 0x2E else cmd[i]
  }

  predicate AllSpelled(ts: seq<Text>, cmds: seq<Text>) {
    |ts| == |cmds| && forall i | 0 <= i < |ts| :: Spelled(ts[i], cmds[i])
  }

  lemma SpelledStep(g: Shared, w: World, a: Action, r: Role, asked: seq<Text>)
    requires Inv(g, w) && WellShaped(w.client) && WellShaped(w.server) && Allowed(w, a)
    requires AllSpelled(w.Of(r).tx.queued, asked)
    ensures AllSpelled(Step(g, w, a).Of(r).tx.queued,
                       asked + if a.AddCommand? && a.who == r then [a.cmd] else [])
  {
    hide Link, Spelled, Receive;
    if a.AddCommand? {
      StoredIsSpelled(a.cmd);
      Counters(g, w, a.who);
    } else if a.Deliver? {
      ReceiveKeepsQueue(g, w.Of(a.to), a.p);
      assert asked + [] == asked;
    } else {
      assert asked + [] == asked;
    }
  }

  lemma StoredIsSpelled(cmd: Text)
    ensures Spelled(Stored(cmd), cmd)
  {
    hide Stored;
  }

  lemma ReceiveKeepsQueue(g: Shared, y: Peer, p: Packet)
    requires WellShaped(y)
    ensures Receive(g, y, p).0.tx.queued == y.tx.queued
  {}

  lemma {:induction false} QueuedAsAsked(g: Shared, actions: seq<Action>, w: World, r: Role)
    requires RoundTrips(g.wire) && Reaches(g, actions, w)
    ensures AllSpelled(w.Of(r).tx.queued, Asked(actions, r))
    decreases |actions|
  {
    hide RoundTrips, Step, Inv, Allowed, AllSpelled;
    if actions == [] {
      NothingSpelled();
    } else {
      var v :| && Reaches(g, actions[..|actions| - 1], v)
               && WellShaped(v.client) && WellShaped(v.server)
               && Allowed(v, actions[|actions| - 1])
               && w == Step(g, v, actions[|actions| - 1]);
      QueuedAsAsked(g, actions[..|actions| - 1], v, r);
      ReachableInv(g, actions[..|actions| - 1], v);
      SpelledStep(g, v, actions[|actions| - 1], r, Asked(actions[..|actions| - 1], r));
    }
  }

  lemma NothingSpelled()
    ensures AllSpelled([], [])
  {}

  /**
   End to end: in every reached state what one side executed are the first commands the caller at the
   other side asked for, each as it was, or cut and cleaned as written out in `Spelled`.
   */
  lemma DeliveredAsAsked(g: Shared, actions: seq<Action>, w: World, r: Role)
    requires RoundTrips(g.wire) && Reaches(g, actions, w)
    ensures var delivered, asked := w.Of(Other(r)).rx.delivered, Asked(actions, r);
            && |delivered| <= |asked| && AllSpelled(delivered, asked[..|delivered|])
            && ((forall i | 0 <= i < |asked| :: Plain(asked[i])) ==> delivered <= asked)
  {
    QueuedAsAsked(g, actions, w, r);
    DeliveredInOrder(g, actions, w, r);
    hide Reaches, AllSpelled, Plain, RoundTrips, Asked;
    FirstSpelled(w.Of(Other(r)).rx.delivered, w.Of(r).tx.queued, Asked(actions, r));
  }

  lemma FirstSpelled(first: seq<Text>, all: seq<Text>, asked: seq<Text>)
    requires AllSpelled(all, asked) && first <= all
    ensures |first| <= |asked| && AllSpelled(first, asked[..|first|])
    ensures (forall i | 0 <= i < |asked| :: Plain(asked[i])) ==> first <= asked
  {
    hide Spelled, Plain;
    if forall i | 0 <= i < |asked| :: Plain(asked[i]) {
      forall i | 0 <= i < |first|
        ensures first[i] == asked[i]
      {
        PlainIsKept(all[i], asked[i]);
      }
    }
  }

  lemma PlainIsKept(t: Text, cmd: Text)
    requires Spelled(t, cmd) && Plain(cmd)
    ensures t == cmd
  {}

  /** No packet is ever taken for a lost connection or for an illegible one. */
  lemma NeverResynchronises(g: Shared, actions: seq<Action>, w: World, r: Role, p: Packet)
    requires RoundTrips(g.wire) && Reaches(g, actions, w) && p in w.Sent(Other(r))
    ensures WellShaped(w.Of(r))
    ensures Receive(g, w.Of(r), p).1 == if p.sequence <= w.Of(r).incoming then Dropped else Processed
  {
    ReachableInv(g, actions, w);
    if p.sequence > w.Of(r).incoming {
      ReceiveDecodes(g, w.Of(Other(r)), w.Of(r), w.Sent(Other(r)), w.Sent(r), p);
    }
  }

  /** `r` sends `count` commands in one packet, and it arrives. */
  function Exchange(g: Shared, w: World, r: Role, count: nat, nonce: bv8): (w': World)
    requires WellShaped(w.client) && WellShaped(w.server)
    ensures WellShaped(w'.client) && WellShaped(w'.server)
  {
    Step(g, Step(g, w, Transmit(r, count, nonce)), Deliver(Other(r), MakePacket(g, w.Of(r), count, nonce)))
  }

  lemma ExchangeDelivers(g: Shared, w: World, r: Role, count: nat, nonce: bv8)
    requires RoundTrips(g.wire) && Inv(g, w)
    requires w.Of(r).tx.acknowledge + count <= w.Of(r).tx.sequence
    ensures WellShaped(w.client) && WellShaped(w.server)
    ensures var w' := Exchange(g, w, r, count, nonce); var o := Other(r);
            && Inv(g, w')
            && w'.Of(r).tx == w.Of(r).tx && w'.Of(r).rx == w.Of(r).rx
            && w'.Of(o).tx == w.Of(o).tx.(acknowledge := w.Of(r).rx.sequence)
            && w'.Of(o).rx.sequence >= w.Of(r).tx.acknowledge + count
  {
    LinksAreShaped(g, w);
    Counters(g, w, r);
    hide Link, Genuine, PacketOk, Seal, AcceptAll, Outstanding, Numbered;
    var p := MakePacket(g, w.Of(r), count, nonce);
    var w1 := Step(g, w, Transmit(r, count, nonce));
    StepKeepsInv(g, w, Transmit(r, count, nonce));
    StepKeepsInv(g, w1, Deliver(Other(r), p));
    ReceiveDecodes(g, w1.Of(r), w1.Of(Other(r)), w1.Sent(r), w1.Sent(Other(r)), p);
    PacketRunAccepted(g, w1, r, p);
  }

  /** What the invariant says of the counters of one direction. */
  lemma Counters(g: Shared, w: World, r: Role)
    requires Inv(g, w)
    ensures var s, t := w.Of(r).tx, w.Of(Other(r)).rx;
            && 0 <= s.acknowledge <= t.sequence <= s.sequence < s.acknowledge + MAX_RELIABLE_COMMANDS
            && s.sequence == |s.queued| && t.delivered == s.queued[..t.sequence]
            && w.Of(Other(r)).incoming < w.Of(r).outgoing
  {}

  lemma PacketRunAccepted(g: Shared, w: World, r: Role, p: Packet)
    requires Inv(g, w) && p in w.Sent(r)
    ensures p.base + p.count <= |w.Of(r).tx.queued| && |w.Of(Other(r)).rx.slots| == MAX_RELIABLE_COMMANDS
    ensures AcceptAll(w.Of(Other(r)).rx, Numbered(w.Of(r).tx.queued, p.base, p.count)).sequence >= p.base + p.count
  {
    assert PacketOk(g, w.Of(r), w.Of(Other(r)), p);
    AcceptRun(w.Of(Other(r)).rx, w.Of(r).tx.queued, p.base, p.count);
  }

  // ------------------------------------------------------------ progress

  /** A packet of `r` that arrives, and one of the other side that comes back. */
  function RoundTrip(g: Shared, w: World, r: Role, count: nat, nonce: bv8, back: nat, nonce': bv8): (w': World)
    requires WellShaped(w.client) && WellShaped(w.server)
    ensures WellShaped(w'.client) && WellShaped(w'.server)
  {
    Exchange(g, Exchange(g, w, r, count, nonce), Other(r), back, nonce')
  }

  /** However few commands a round trip carries, the acknowledgement advances by at least as many. */
  lemma RoundTripAdvances(g: Shared, w: World, r: Role, count: nat, nonce: bv8, back: nat, nonce': bv8)
    requires RoundTrips(g.wire) && Inv(g, w) && WellShaped(w.client) && WellShaped(w.server)
    requires w.Of(r).tx.acknowledge + count <= w.Of(r).tx.sequence
    requires w.Of(r).rx.sequence + back <= w.Of(Other(r)).tx.sequence
    ensures var w' := RoundTrip(g, w, r, count, nonce, back, nonce');
            && Inv(g, w')
            && w'.Of(r).tx == w.Of(r).tx.(acknowledge := w'.Of(r).tx.acknowledge)
            && w'.Of(r).tx.acknowledge >= w.Of(r).tx.acknowledge + count
  {
    hide Exchange, Inv;
    ExchangeDelivers(g, w, r, count, nonce);
    ExchangeDelivers(g, Exchange(g, w, r, count, nonce), Other(r), back, nonce');
  }

  /** What may happen while `r` waits: any action of the world, or a round trip. */
  datatype Event =
    | Act(action: Action)
    | Trip(header: Writer, nonce: bv8, back: nat, nonce': bv8)

  /** How many commands the packet writer of `x` puts behind `header`. */
  ghost function Carried(x: Peer, header: Writer): nat
    requires WellShaped(x) && WriterOk(header)
  {
    CommandMessage.Fitting(header, x.tx, x.tx.acknowledge + 1)
  }

  /** A packet on a round trip has room for a command behind its header. */
  ghost predicate Possible(w: World, r: Role, e: Event) {
    match e
    case Act(a) => Allowed(w, a)
    case Trip(header, _, back, _) =>
      WriterOk(header) && CommandMessage.HasRoom(header) && w.Of(r).rx.sequence + back <= w.Of(Other(r)).tx.sequence
  }

  ghost function After(g: Shared, w: World, r: Role, e: Event): (w': World)
    requires WellShaped(w.client) && WellShaped(w.server) && Possible(w, r, e)
    ensures WellShaped(w'.client) && WellShaped(w'.server)
  {
    match e
    case Act(a) => Step(g, w, a)
    case Trip(header, nonce, back, nonce') => RoundTrip(g, w, r, Carried(w.Of(r), header), nonce, back, nonce')
  }

  /** The events in order lead from `w` to `w'`. */
  ghost predicate Leads(g: Shared, w: World, r: Role, events: seq<Event>, w': World)
    requires WellShaped(w.client) && WellShaped(w.server)
    decreases |events|
  {
    if events == [] then w' == w
    else Possible(w, r, events[0]) && Leads(g, After(g, w, r, events[0]), r, events[1..], w')
  }

  function Trips(events: seq<Event>): nat {
    if events == [] then 0 else (if events[0].Trip? then 1 else 0) + Trips(events[1..])
  }

  /** Nothing is ever unqueued or unacknowledged. */
  ghost predicate Progress(s: Sender, s': Sender, count: nat) {
    && s.queued <= s'.queued
    && (s'.acknowledge >= s.acknowledge + count || s'.acknowledge >= |s.queued|)
  }

  lemma StepProgresses(g: Shared, w: World, r: Role, a: Action)
    requires RoundTrips(g.wire) && Inv(g, w) && WellShaped(w.client) && WellShaped(w.server) && Allowed(w, a)
    ensures Progress(w.Of(r).tx, Step(g, w, a).Of(r).tx, 0)
  {
    if a.Deliver? && a.to == r && a.p.sequence > w.Of(r).incoming {
      assert PacketOk(g, w.Of(Other(r)), w.Of(r), a.p);
      ReceiveDecodes(g, w.Of(Other(r)), w.Of(r), w.Sent(Other(r)), w.Sent(r), a.p);
    }
  }

  lemma CarriesSome(x: Peer, header: Writer)
    requires WellShaped(x) && WriterOk(header) && CommandMessage.HasRoom(header) && x.tx.acknowledge <= x.tx.sequence
    ensures Carried(x, header) <= x.tx.sequence - x.tx.acknowledge
    ensures x.tx.acknowledge < x.tx.sequence ==> Carried(x, header) >= 1
  {
    hide WriterOk, CommandMessage.Fitting, CommandMessage.HasRoom;
    CommandMessage.FittingBounds(header, x.tx, x.tx.acknowledge + 1);
  }

  lemma TripProgresses(g: Shared, w: World, r: Role, e: Event)
    requires RoundTrips(g.wire) && Inv(g, w) && WellShaped(w.client) && WellShaped(w.server)
    requires e.Trip? && Possible(w, r, e)
    ensures Inv(g, After(g, w, r, e)) && Progress(w.Of(r).tx, After(g, w, r, e).Of(r).tx, 1)
  {
    hide RoundTrip, Inv, RoundTrips, WriterOk, CommandMessage.Fitting;
    Counters(g, w, r);
    CarriesSome(w.Of(r), e.header);
    hide Carried;
    RoundTripAdvances(g, w, r, Carried(w.Of(r), e.header), e.nonce, e.back, e.nonce');
  }

  lemma EventProgresses(g: Shared, w: World, r: Role, e: Event)
    requires RoundTrips(g.wire) && Inv(g, w) && WellShaped(w.client) && WellShaped(w.server) && Possible(w, r, e)
    ensures Inv(g, After(g, w, r, e)) && Progress(w.Of(r).tx, After(g, w, r, e).Of(r).tx, Trips([e]))
  {
    hide Inv, Progress, Step, RoundTrip, Carried;
    if e.Act? {
      StepKeepsInv(g, w, e.action);
      StepProgresses(g, w, r, e.action);
    } else {
      TripProgresses(g, w, r, e);
    }
  }

  lemma ProgressAdds(s: Sender, s1: Sender, s2: Sender, m: nat, n: nat)
    requires Progress(s, s1, m) && Progress(s1, s2, n)
    ensures Progress(s, s2, m + n)
  {}

  lemma {:induction false} EventsProgress(g: Shared, w: World, r: Role, events: seq<Event>, w': World)
    requires RoundTrips(g.wire) && Inv(g, w) && WellShaped(w.client) && WellShaped(w.server)
    requires Leads(g, w, r, events, w')
    ensures Inv(g, w') && Progress(w.Of(r).tx, w'.Of(r).tx, Trips(events))
    decreases |events|
  {
    if events != [] {
      hide Inv, Progress, After, Possible, RoundTrips;
      var w1 := After(g, w, r, events[0]);
      EventProgresses(g, w, r, events[0]);
      EventsProgress(g, w1, r, events[1..], w');
      ProgressAdds(w.Of(r).tx, w1.Of(r).tx, w'.Of(r).tx, Trips([events[0]]), Trips(events[1..]));
    } else {
      hide Inv;
    }
  }

  /**
   From every reachable state, whatever else is lost, repeated, queued or delivered meanwhile: after as
   many round trips as commands were outstanding, each with a packet that had room for one of them,
   everything that was queued has been executed and acknowledged.
   */
  lemma RoundTripsDrain(g: Shared, actions: seq<Action>, w: World, r: Role, events: seq<Event>, w': World)
    requires RoundTrips(g.wire) && Reaches(g, actions, w)
    requires WellShaped(w.client) && WellShaped(w.server) && Leads(g, w, r, events, w')
    requires Trips(events) >= w.Of(r).tx.sequence - w.Of(r).tx.acknowledge
    ensures w.Of(r).tx.queued <= w'.Of(Other(r)).rx.delivered
    ensures w'.Of(r).tx.acknowledge >= w.Of(r).tx.sequence
  {
    ReachableInv(g, actions, w);
    hide Inv, Reaches, Leads, RoundTrips;
    Counters(g, w, r);
    EventsProgress(g, w, r, events, w');
    Counters(g, w', r);
  }

  /** With the program's own message format nothing is left to assume about bodies. */
  lemma ProgramDelivers(g: Shared, actions: seq<Action>, w: World, r: Role)
    requires g.wire == CommandMessage.WIRE && Reaches(g, actions, w)
    ensures WellShaped(w.Of(r)) && w.Of(Other(r)).rx.delivered <= w.Of(r).tx.queued
    ensures forall p | p in w.Sent(Other(r)) && p.sequence > w.Of(r).incoming :: Receive(g, w.Of(r), p).1 == Processed
  {
    hide Reaches, Receive;
    CommandMessage.FormatRoundTrips();
    DeliveredInOrder(g, actions, w, r);
    ReachableInv(g, actions, w);
    LinksAreShaped(g, w);
    forall p | p in w.Sent(Other(r)) && p.sequence > w.Of(r).incoming
      ensures Receive(g, w.Of(r), p).1 == Processed
    {
      NeverResynchronises(g, actions, w, r, p);
    }
  }
}
