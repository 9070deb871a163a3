/**
 The reliable command channel.  Each side numbers its commands, keeps the last
 MAX_RELIABLE_COMMANDS of them in a ring, sends everything unacknowledged with every
 packet and accepts any command numbered above the last one it took.  Packet bodies are
 keyed by the last command the other side is known to have.  The server is the mirror
 image of the client; the network may lose, duplicate and reorder packets.
 */
module ReliableChannel {
  import opened Common
  import opened Netchan

  const MAX_RELIABLE_COMMANDS := 128

  datatype Command = Command(sequence: int, text: Text)

  /** How a list of commands becomes a message body and back; `None` is an illegible body. */
  datatype Wire = Wire(render: seq<Command> -> seq<bv8>, parse: seq<bv8> -> Option<seq<Command>>)

  // ------------------------------------------------------------ command slots

  predicate Fits(t: Text) { |t| < MAX_STRING_CHARS }

  /** No format character. */
  predicate Defused(t: Text) { 0x25 !in t }

  const MAX_SEQUENCE := 0x7FFF_FFFF

  /** A command as the sender puts it into a packet. */
  predicate Sendable(c: Command) { 0 <= c.sequence <= MAX_SEQUENCE && Fits(c.text) && Defused(c.text) }

  /** The body format loses nothing: what is rendered parses back. */
  ghost predicate RoundTrips(wire: Wire) {
    forall cmds | AllSendable(cmds) :: wire.parse(wire.render(cmds)) == Some(cmds)
  }

  predicate AllSendable(cmds: seq<Command>) {
    forall i | 0 <= i < |cmds| :: Sendable(cmds[i])
  }

  /** The typographic apostrophe becomes the plain one. */
  function CleanChar(c: bv8): bv8 { if c == 146 then 39 else c }

  function Kept(c: bv8): bv8 { if CleanChar(c) == 0x25 then 0x2E else CleanChar(c) }

  /** What the ring keeps of a command: characters cleaned, format characters defused, length limited. */
  function Stored(cmd: Text): (t: Text)
    ensures Fits(t) && Defused(t)
    ensures t == [] <==> cmd == []
    ensures |t| == Min(|cmd|, MAX_STRING_CHARS - 1)
    ensures forall i | 0 <= i < |t| :: t[i] == if cmd[i] == 146 then 39 else if cmd[i] == 0x25 then 0x2E else cmd[i]
  {
    var n := if |cmd| < MAX_STRING_CHARS then |cmd| else MAX_STRING_CHARS - 1;
    seq(n, i requires 0 <= i < n => Kept(cmd[i]))
  }

  /** The sender's slot after writing `t`: what was behind the terminator stays. */
  function Overwritten(was: Slot, t: Text): (s: Slot)
    requires Fits(t)
    ensures CText(s) == t
  {
    var s := t + [0] + was[|t| + 1..];
    assert s[..|t|] == t;
    CTextUnique(s, t);
    s
  }

  /** The copying loop: character by character over what the slot held, and a terminator behind. */
  method WriteReliableCommand(cmd: Text, was: Slot) returns (slot: Slot)
    ensures slot == Overwritten(was, Stored(cmd))
  {
    hide Overwritten;
    ghost var t := Stored(cmd);
    OverwrittenIs(was, t);
    hide Stored;
    slot := was;
    var i := 0;
    while i < MAX_STRING_CHARS - 1 && i < |cmd|
      invariant 0 <= i <= |t|
      invariant forall m | 0 <= m < MAX_STRING_CHARS :: slot[m] == if m < i then t[m] else was[m]
    {
      slot := slot[i := Kept(cmd[i])];
      i := i + 1;
    }
    slot := slot[i := 0];
    assert slot == Overwritten(was, t);
  }

  lemma OverwrittenIs(was: Slot, t: Text)
    requires Fits(t)
    ensures forall m | 0 <= m < MAX_STRING_CHARS ::
      Overwritten(was, t)[m] == if m < |t| then t[m] else if m == |t| then 0 else was[m]
  {}

  /** The receiver's slot after a bounded copy of `t`: the rest is filled with zeros. */
  function Padded(t: Text): (s: Slot)
    requires Fits(t)
    ensures CText(s) == t
  {
    var s := t + Zeros(MAX_STRING_CHARS - |t|);
    assert s[..|t|] == t;
    CTextUnique(s, t);
    s
  }

  function Truncated(t: Text): Text {
    if |t| < MAX_STRING_CHARS then t else t[..MAX_STRING_CHARS - 1]
  }

  // ------------------------------------------------------------ one direction

  /** Sending side: the two counters, the ring and, as history, every command queued so far. */
  datatype Sender = Sender(sequence: nat, acknowledge: int, slots: seq<Slot>, queued: seq<Text>)

  /** Receiving side: the counter, the ring and, as history, every command accepted so far. */
  datatype Receiver = Receiver(sequence: nat, slots: seq<Slot>, delivered: seq<Text>)

  function TextAt(queued: seq<Text>, n: nat): Text
    requires n <= |queued|
  {
    if n == 0 then [] else queued[n - 1]
  }

  function Queue(s: Sender, cmd: Text): Sender
    requires |s.slots| == MAX_RELIABLE_COMMANDS
  {
    var index := (s.sequence + 1) % MAX_RELIABLE_COMMANDS;
    s.(sequence := s.sequence + 1,
       slots := s.slots[index := Overwritten(s.slots[index], Stored(cmd))],
       queued := s.queued + [Stored(cmd)])
  }

  /** Queueing a command, or aborting the connection when the guard of the source says so. */
  function AddReliableCommand(s: Sender, cmd: Text): Option<Sender>
    requires |s.slots| == MAX_RELIABLE_COMMANDS
  {
    if s.sequence - s.acknowledge > MAX_RELIABLE_COMMANDS then None else Some(Queue(s, cmd))
  }

  /** The first `count` unacknowledged commands as the packet writer finds them in the ring. */
  function Outstanding(s: Sender, count: nat): seq<Command>
    requires |s.slots| == MAX_RELIABLE_COMMANDS
  {
    seq(count, j requires 0 <= j < count =>
      Command(s.acknowledge + 1 + j, CText(s.slots[(s.acknowledge + 1 + j) % MAX_RELIABLE_COMMANDS])))
  }

  /** Commands `base + 1` to `base + count` as they were queued. */
  function Numbered(queued: seq<Text>, base: nat, count: nat): (cmds: seq<Command>)
    requires base + count <= |queued|
    ensures |cmds| == count
  {
    seq(count, j requires 0 <= j < count => Command(base + 1 + j, queued[base + j]))
  }

  /** The acknowledgement in a packet, with the source's answer to one that is too old. */
  function TakeAcknowledge(s: Sender, acknowledge: int): (Sender, bool) {
    if acknowledge < s.sequence - MAX_RELIABLE_COMMANDS
    then (s.(acknowledge := s.sequence), false)
    else (s.(acknowledge := acknowledge), true)
  }

  /** One of the last 128 numbers, or a later one, is taken; at an older one what is outstanding is given up. */
  lemma AcknowledgeTaken(s: Sender, acknowledge: int)
    ensures var (t, ok) := TakeAcknowledge(s, acknowledge);
            && (ok <==> s.sequence - acknowledge <= 128)
            && t == s.(acknowledge := if ok then acknowledge else s.sequence)
  {}

  function Accept(r: Receiver, c: Command): Receiver
    requires |r.slots| == MAX_RELIABLE_COMMANDS
  {
    if r.sequence >= c.sequence then r
    else Receiver(c.sequence,
                  r.slots[c.sequence % MAX_RELIABLE_COMMANDS := Padded(Truncated(c.text))],
                  r.delivered + [c.text])
  }

  /** A new command is kept in one of 128 slots, cut to 1023 characters; an old one changes nothing. */
  lemma AcceptedText(r: Receiver, c: Command, i: nat)
    requires |r.slots| == MAX_RELIABLE_COMMANDS && i < 128
    ensures var s := Accept(r, c);
            && s.sequence == (if c.sequence > r.sequence then c.sequence else r.sequence)
            && |s.slots| == 128
            && if c.sequence > r.sequence && i == c.sequence % 128 then
                 CText(s.slots[i]) == c.text[..Min(|c.text|, 1023)]
               else s.slots[i] == r.slots[i]
  {
    hide Padded;
  }

  function AcceptAll(r: Receiver, cmds: seq<Command>): (r': Receiver)
    requires |r.slots| == MAX_RELIABLE_COMMANDS
    ensures |r'.slots| == MAX_RELIABLE_COMMANDS
    decreases |cmds|
  {
    if cmds == [] then r else AcceptAll(Accept(r, cmds[0]), cmds[1..])
  }

  /** An empty slot is a padded empty command. */
  lemma EmptyIsPadded()
    ensures Padded([]) == EMPTY_SLOT
  {}

  // ------------------------------------------------------------ the rings

  predicate InWindow(n: nat, sequence: nat) {
    n <= sequence < n + MAX_RELIABLE_COMMANDS
  }

  ghost predicate LegalQueue(queued: seq<Text>) {
    forall i | 0 <= i < |queued| :: Fits(queued[i]) && Defused(queued[i])
  }

  ghost predicate NoneEmpty(queued: seq<Text>) {
    forall i | 0 <= i < |queued| :: queued[i] != []
  }

  /** The last MAX_RELIABLE_COMMANDS numbers are in their slots. */
  ghost predicate SlotsHold(s: Sender) {
    && |s.slots| == MAX_RELIABLE_COMMANDS
    && s.sequence == |s.queued|
    && LegalQueue(s.queued)
    && (forall n: nat | InWindow(n, s.sequence) :: CText(s.slots[n % MAX_RELIABLE_COMMANDS]) == TextAt(s.queued, n))
    && (s.sequence < MAX_RELIABLE_COMMANDS ==> s.slots[0] == EMPTY_SLOT)
  }

  ghost predicate ReceiverOk(r: Receiver, source: seq<Text>) {
    && |r.slots| == MAX_RELIABLE_COMMANDS
    && LegalQueue(source)
    && r.sequence <= |source|
    && r.delivered == source[..r.sequence]
    && forall n: nat | InWindow(n, r.sequence) :: r.slots[n % MAX_RELIABLE_COMMANDS] == Padded(TextAt(source, n))
  }

  /** Queueing keeps the last numbers in their slots, whatever the window. */
  lemma QueueKeepsSlots(s: Sender, cmd: Text)
    requires SlotsHold(s)
    ensures SlotsHold(Queue(s, cmd))
  {
    var s' := Queue(s, cmd);
    forall n: nat | InWindow(n, s'.sequence)
      ensures CText(s'.slots[n % MAX_RELIABLE_COMMANDS]) == TextAt(s'.queued, n)
    {
      if n < s'.sequence {
        SlotsDiffer(n, s'.sequence);
        assert InWindow(n, s.sequence);
        assert TextAt(s'.queued, n) == TextAt(s.queued, n);
      }
    }
  }

  lemma OutstandingAsQueued(s: Sender, count: nat)
    requires SlotsHold(s)
    requires 0 <= s.acknowledge && s.acknowledge + count <= s.sequence <= s.acknowledge + MAX_RELIABLE_COMMANDS
    ensures Outstanding(s, count) == Numbered(s.queued, s.acknowledge, count)
  {
    forall j | 0 <= j < count
      ensures Outstanding(s, count)[j] == Numbered(s.queued, s.acknowledge, count)[j]
    {
      assert InWindow(s.acknowledge + 1 + j, s.sequence);
    }
  }

  /** Two numbers of one window never share a slot. */
  lemma SlotsDiffer(n: nat, sequence: nat)
    requires InWindow(n, sequence) && n < sequence
    ensures n % MAX_RELIABLE_COMMANDS != sequence % MAX_RELIABLE_COMMANDS
  {}

  lemma FittingIsNotTruncated(t: Text)
    requires Fits(t)
    ensures Truncated(t) == t
  {}

  lemma AcceptKeepsShape(r: Receiver, c: Command)
    requires |r.slots| == MAX_RELIABLE_COMMANDS
    ensures |Accept(r, c).slots| == MAX_RELIABLE_COMMANDS
    ensures Accept(r, c).sequence == if r.sequence >= c.sequence then r.sequence else c.sequence
    ensures r.sequence >= c.sequence ==> Accept(r, c) == r
  {
    hide Padded, Truncated;
  }

  lemma AcceptNext(r: Receiver, source: seq<Text>)
    requires ReceiverOk(r, source) && r.sequence < |source|
    ensures ReceiverOk(Accept(r, Command(r.sequence + 1, source[r.sequence])), source)
  {
    hide Padded, Defused;
    var text := source[r.sequence];
    var next := r.sequence + 1;
    FittingIsNotTruncated(text);
    var r' := Accept(r, Command(next, text));
    hide Truncated;
    assert r' == Receiver(next, r.slots[next % MAX_RELIABLE_COMMANDS := Padded(text)], r.delivered + [text]);
    hide Accept;
    assert r'.delivered == source[..next];
    forall n: nat | InWindow(n, next)
      ensures r'.slots[n % MAX_RELIABLE_COMMANDS] == Padded(TextAt(source, n))
    {
      if n < next {
        SlotsDiffer(n, next);
        assert InWindow(n, r.sequence);
      }
    }
  }

  /** A contiguous run that starts no later than the receiver's next number extends it in order. */
  lemma {:induction false} AcceptRun(r: Receiver, source: seq<Text>, base: nat, count: nat)
    requires ReceiverOk(r, source) && base <= r.sequence && base + count <= |source|
    ensures var r' := AcceptAll(r, Numbered(source, base, count));
            && ReceiverOk(r', source)
            && r'.sequence == if r.sequence > base + count then r.sequence else base + count
    decreases count
  {
    if count == 0 {
      assert Numbered(source, base, 0) == [];
    } else {
      FirstOfRun(r, source, base, count);
      FirstAccepted(r, source, base);
      hide *;
      AcceptRun(Accept(r, Command(base + 1, source[base])), source, base + 1, count - 1);
    }
  }

  lemma FirstOfRun(r: Receiver, source: seq<Text>, base: nat, count: nat)
    requires |r.slots| == MAX_RELIABLE_COMMANDS && 0 < count && base + count <= |source|
    ensures AcceptAll(r, Numbered(source, base, count))
         == AcceptAll(Accept(r, Command(base + 1, source[base])), Numbered(source, base + 1, count - 1))
  {
    var cmds := Numbered(source, base, count);
    assert cmds[0] == Command(base + 1, source[base]);
    assert cmds[1..] == Numbered(source, base + 1, count - 1);
    hide Accept;
  }

  lemma FirstAccepted(r: Receiver, source: seq<Text>, base: nat)
    requires ReceiverOk(r, source) && base <= r.sequence && base < |source|
    ensures var r' := Accept(r, Command(base + 1, source[base]));
            ReceiverOk(r', source) && r'.sequence == if r.sequence == base then base + 1 else r.sequence
  {
    AcceptKeepsShape(r, Command(base + 1, source[base]));
    if r.sequence == base {
      AcceptNext(r, source);
    }
    hide ReceiverOk, Accept;
  }

  // ------------------------------------------------------------ how far the window may be opened

  /** Everything unacknowledged would be sent again as it was queued. */
  ghost predicate Intact(s: Sender)
    requires |s.slots| == MAX_RELIABLE_COMMANDS && s.sequence == |s.queued|
    requires 0 <= s.acknowledge <= s.sequence
  {
    Outstanding(s, s.sequence - s.acknowledge) == Numbered(s.queued, s.acknowledge, s.sequence - s.acknowledge)
  }

  /** A one-byte command different from `t`. */
  function Different(t: Text): (c: Text)
    ensures c != [] && c != t && Stored(c) == c
  {
    var c: Text := if t == [1] then [2] else [1];
    assert Stored(c)[0] == c[0];
    c
  }

  /** With a full window the next command takes the slot of one that is still needed. */
  lemma FullWindowLoses(s: Sender) returns (cmd: Text)
    requires SlotsHold(s) && 0 <= s.acknowledge && s.acknowledge + MAX_RELIABLE_COMMANDS <= s.sequence
    ensures cmd != [] && !Intact(Queue(s, cmd))
  {
    var j := s.sequence - MAX_RELIABLE_COMMANDS - s.acknowledge;
    var lost := s.acknowledge + j;
    cmd := Different(s.queued[lost]);
    var s' := Queue(s, cmd);
    assert (lost + 1) % MAX_RELIABLE_COMMANDS == (s.sequence + 1) % MAX_RELIABLE_COMMANDS;
    assert Outstanding(s', s'.sequence - s'.acknowledge)[j].text == cmd;
    assert Numbered(s'.queued, s'.acknowledge, s'.sequence - s'.acknowledge)[j].text == s.queued[lost];
  }

  /** Queueing keeps every unacknowledged command sendable exactly when fewer than the maximum are outstanding. */
  lemma IntactIff(s: Sender)
    requires SlotsHold(s) && 0 <= s.acknowledge <= s.sequence
    ensures (forall cmd: Text :: Intact(Queue(s, cmd)))
       <==> s.sequence - s.acknowledge < MAX_RELIABLE_COMMANDS
  {
    if s.sequence - s.acknowledge < MAX_RELIABLE_COMMANDS {
      forall cmd: Text
        ensures Intact(Queue(s, cmd))
      {
        QueueKeepsSlots(s, cmd);
        OutstandingAsQueued(Queue(s, cmd), s.sequence + 1 - s.acknowledge);
      }
    } else {
      var cmd := FullWindowLoses(s);
    }
  }

  /** The guard of the source admits one command more than that. */
  lemma GuardIsOneTooWide(s: Sender)
    requires SlotsHold(s) && 0 <= s.acknowledge <= s.sequence
    ensures (forall cmd: Text :: AddReliableCommand(s, cmd).Some? ==> Intact(AddReliableCommand(s, cmd).value))
       <==> s.sequence - s.acknowledge != MAX_RELIABLE_COMMANDS
  {
    IntactIff(s);
    if s.sequence - s.acknowledge <= MAX_RELIABLE_COMMANDS {
      assert forall cmd: Text :: AddReliableCommand(s, cmd) == Some(Queue(s, cmd));
    }
  }

  /** The key for the next body survives exactly when one slot more is kept free. */
  lemma KeySurvivesIff(s: Sender)
    requires SlotsHold(s) && 0 <= s.acknowledge <= s.sequence < s.acknowledge + MAX_RELIABLE_COMMANDS
    ensures (forall cmd: Text ::
               CText(Queue(s, cmd).slots[s.acknowledge % MAX_RELIABLE_COMMANDS]) == TextAt(s.queued, s.acknowledge))
       <==> s.sequence - s.acknowledge < MAX_RELIABLE_COMMANDS - 1
  {
    var slot := s.acknowledge % MAX_RELIABLE_COMMANDS;
    assert InWindow(s.acknowledge, s.sequence);
    if s.sequence - s.acknowledge < MAX_RELIABLE_COMMANDS - 1 {
      SlotsDiffer(s.acknowledge, s.sequence + 1);
    } else {
      var cmd := Different(TextAt(s.queued, s.acknowledge));
      assert (s.sequence + 1) % MAX_RELIABLE_COMMANDS == slot;
      assert CText(Queue(s, cmd).slots[slot]) == cmd;
    }
  }

  /** A sender that has queued `n` commands and heard nothing. */
  function QueuedUp(cmd: Text, n: nat): (s: Sender)
    ensures |s.slots| == MAX_RELIABLE_COMMANDS && s.sequence == n && s.acknowledge == 0
  {
    if n == 0 then Sender(0, 0, seq(MAX_RELIABLE_COMMANDS, i => EMPTY_SLOT), [])
    else Queue(QueuedUp(cmd, n - 1), cmd)
  }

  lemma {:induction false} QueuedUpHolds(cmd: Text, n: nat)
    ensures SlotsHold(QueuedUp(cmd, n))
  {
    if n == 0 {
      EmptyIsPadded();
    } else {
      QueuedUpHolds(cmd, n - 1);
      QueueKeepsSlots(QueuedUp(cmd, n - 1), cmd);
    }
  }

  /** Queueing 128 commands without an answer gets past the guard each time, and then the next one loses a command. */
  lemma GuardFails(cmd: Text) returns (next: Text)
    ensures forall n: nat | n <= MAX_RELIABLE_COMMANDS ::
      AddReliableCommand(QueuedUp(cmd, n), cmd) == Some(QueuedUp(cmd, n + 1))
    ensures var full := QueuedUp(cmd, MAX_RELIABLE_COMMANDS);
            SlotsHold(full) && AddReliableCommand(full, next).Some? && !Intact(AddReliableCommand(full, next).value)
  {
    QueuedUpHolds(cmd, MAX_RELIABLE_COMMANDS);
    hide SlotsHold, Intact, Queue;
    next := FullWindowLoses(QueuedUp(cmd, MAX_RELIABLE_COMMANDS));
  }

  /** One command earlier the key is lost. */
  lemma KeyFails(cmd: Text) returns (next: Text)
    ensures var s := QueuedUp(cmd, MAX_RELIABLE_COMMANDS - 1);
            && SlotsHold(s)
            && CText(Queue(s, next).slots[s.acknowledge % MAX_RELIABLE_COMMANDS]) != TextAt(s.queued, s.acknowledge)
  {
    QueuedUpHolds(cmd, MAX_RELIABLE_COMMANDS - 1);
    var s := QueuedUp(cmd, MAX_RELIABLE_COMMANDS - 1);
    KeySurvivesIff(s);
    hide SlotsHold, Queue, CText;
    next :| CText(Queue(s, next).slots[s.acknowledge % MAX_RELIABLE_COMMANDS]) != TextAt(s.queued, s.acknowledge);
  }

  // ------------------------------------------------------------ the empty command

  /**
   After an empty command the sender's slot keeps bytes of an older one, the receiver's does not:
   both give the same key exactly when the first of those bytes are lost in the walk.
   */
  lemma EmptyCommandKeyIff(was: Slot)
    ensures (forall seed: bv8, data: seq<bv8> ::
               Transformed(Overwritten(was, []), seed, data) == Transformed(Padded([]), seed, data))
       <==> was[1] == 0 || (was[1] == 0x80 && was[2] == 0)
  {
    EmptyIsPadded();
    StaleKeyIff(Overwritten(was, []));
  }

  lemma {:induction false} AllQueued(cmd: Text, n: nat, i: nat)
    requires i < n
    ensures |QueuedUp(cmd, n).queued| == n && QueuedUp(cmd, n).queued[i] == Stored(cmd)
  {
    hide Stored, Overwritten;
    if n > 1 {
      AllQueued(cmd, n - 1, if i < n - 1 then i else 0);
    }
  }

  /** The slot the next command goes to holds the first one. */
  lemma OldestSlot(cmd: Text)
    requires |cmd| >= 2 && Stored(cmd)[1] != 0x80
    ensures var was := QueuedUp(cmd, MAX_RELIABLE_COMMANDS).slots[1]; was[1] != 0 && was[1] != 0x80
  {
    var full, t := QueuedUp(cmd, MAX_RELIABLE_COMMANDS), Stored(cmd);
    QueuedUpHolds(cmd, MAX_RELIABLE_COMMANDS);
    AllQueued(cmd, MAX_RELIABLE_COMMANDS, 0);
    hide QueuedUp;
    assert InWindow(1, full.sequence) && TextAt(full.queued, 1) == t;
    assert full.slots[1][1] == t[1] && t[1] in t;
  }

  lemma EmptyIsQueued(s: Sender)
    requires |s.slots| == MAX_RELIABLE_COMMANDS == s.sequence && s.acknowledge == 0
    ensures AddReliableCommand(s, []) == Some(Queue(s, []))
    ensures Queue(s, []).slots[1] == Overwritten(s.slots[1], [])
  {
    assert Stored([]) == [];
  }

  /** An empty command behind 128 longer ones passes the guard, and its slot is another key than the receiver's. */
  lemma EmptyCommandFails(cmd: Text)
    requires |cmd| >= 2 && Stored(cmd)[1] != 0x80
    ensures var full := QueuedUp(cmd, MAX_RELIABLE_COMMANDS);
            && AddReliableCommand(full, []) == Some(Queue(full, []))
            && exists seed: bv8, data: seq<bv8> ::
                 Transformed(Queue(full, []).slots[1], seed, data) != Transformed(Padded([]), seed, data)
  {
    hide Transformed, Padded, QueuedUp, Queue, AddReliableCommand, Overwritten;
    var full := QueuedUp(cmd, MAX_RELIABLE_COMMANDS);
    OldestSlot(cmd);
    EmptyIsQueued(full);
    EmptyCommandKeyIff(full.slots[1]);
  }

  // ------------------------------------------------------------ reading commands back

  datatype Fetched = Found(text: Text) | CycledOut | NotReceived

  /** Fetching a server command by number, for later execution. */
  function Fetch(r: Receiver, n: int): Fetched
    requires |r.slots| == MAX_RELIABLE_COMMANDS
  {
    if n <= r.sequence - MAX_RELIABLE_COMMANDS then CycledOut
    else if n > r.sequence then NotReceived
    else Found(CText(r.slots[n % MAX_RELIABLE_COMMANDS]))
  }

  /** A command can be fetched exactly while it is among the last MAX_RELIABLE_COMMANDS, and is then the one queued. */
  lemma FetchedAsQueued(r: Receiver, source: seq<Text>, n: nat)
    requires ReceiverOk(r, source) && 1 <= n
    ensures Fetch(r, n).Found? <==> r.sequence - MAX_RELIABLE_COMMANDS < n <= r.sequence
    ensures Fetch(r, n).CycledOut? <==> n <= r.sequence - MAX_RELIABLE_COMMANDS
    ensures Fetch(r, n).Found? ==> Fetch(r, n).text == source[n - 1]
  {
    if r.sequence - MAX_RELIABLE_COMMANDS < n <= r.sequence {
      assert InWindow(n, r.sequence);
    }
  }
}
