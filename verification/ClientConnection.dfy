/**
 The client's own half of the reliable command channel, in place: two rings of command
 buffers, the counters that index them, and the counters of what the game module fetched.
 */
module ClientConnection {
  import opened Common
  import opened CommandMessage
  import opened Message
  import opened Netchan
  import opened ReliableChannel

  class Connection {
    var reliableSequence: nat
    var reliableAcknowledge: int
    const reliableCommands: array<Slot>
    var serverCommandSequence: nat
    const serverCommands: array<Slot>
    var lastExecuted: int
    var gameSequence: nat
    const demoPlaying: bool
    ghost var queued: seq<Text>
    ghost var delivered: seq<Text>

    ghost predicate Valid()
      reads this
    {
      && reliableCommands.Length == serverCommands.Length == MAX_RELIABLE_COMMANDS
      && reliableCommands != serverCommands
    }

    ghost function Tx(): Sender
      reads this, reliableCommands
    {
      Sender(reliableSequence, reliableAcknowledge, reliableCommands[..], queued)
    }

    ghost function Rx(): Receiver
      reads this, serverCommands
    {
      Receiver(serverCommandSequence, serverCommands[..], delivered)
    }

    /** The number fetched last, and the number up to which the game module asked. */
    ghost function Executed(): (int, nat)
      reads this
    {
      (lastExecuted, gameSequence)
    }

    /** A new connection: nothing queued, nothing received, and every buffer empty. */
    constructor (demo: bool)
      ensures Valid() && Tx().sequence == 0 && Tx().acknowledge == 0 && Tx().queued == [] && SlotsHold(Tx())
      ensures Rx().sequence == 0 && Rx().delivered == [] && ReceiverOk(Rx(), []) && gameSequence == 0
        && demoPlaying == demo
    {
      reliableCommands := new Slot[MAX_RELIABLE_COMMANDS](i => EMPTY_SLOT);
      serverCommands := new Slot[MAX_RELIABLE_COMMANDS](i => EMPTY_SLOT);
      reliableSequence, reliableAcknowledge, serverCommandSequence := 0, 0, 0;
      lastExecuted, gameSequence, demoPlaying := 0, 0, demo;
      queued, delivered := [], [];
      new;
      EmptyIsPadded();
    }

    /** Queues a command; false is the aborted connection. */
    method AddReliableCommand(cmd: Text) returns (ok: bool)
      requires Valid()
      modifies this, reliableCommands
      ensures Valid()
      ensures ReliableChannel.AddReliableCommand(old(Tx()), cmd) == if ok then Some(Tx()) else None
      ensures !ok ==> Tx() == old(Tx())
      ensures Rx() == old(Rx()) && Executed() == old(Executed())
    {
      if reliableSequence - reliableAcknowledge > MAX_RELIABLE_COMMANDS {
        return false;
      }
      reliableSequence := reliableSequence + 1;
      var index := reliableSequence % MAX_RELIABLE_COMMANDS;
      var slot := WriteReliableCommand(cmd, reliableCommands[index]);
      reliableCommands[index] := slot;
      queued := queued + [Stored(cmd)];
      return true;
    }

    /** The acknowledgement of an incoming packet; false means the packet is given up. */
    method TakeAcknowledge(acknowledge: int) returns (ok: bool)
      requires Valid()
      modifies this
      ensures Valid()
      ensures (Tx(), ok) == ReliableChannel.TakeAcknowledge(old(Tx()), acknowledge)
      ensures Rx() == old(Rx()) && Executed() == old(Executed())
    {
      reliableAcknowledge := acknowledge;
      if reliableAcknowledge < reliableSequence - MAX_RELIABLE_COMMANDS {
        reliableAcknowledge := reliableSequence;
        return false;
      }
      return true;
    }

    /** A server command out of a packet: unless it was seen before it is executed at once, and stored. */
    method ParseCommandString(sequence: int, text: Text) returns (executed: Option<Text>)
      requires Valid()
      modifies this, serverCommands
      ensures Valid()
      ensures Rx() == Accept(old(Rx()), Command(sequence, text))
      ensures executed == if sequence > old(Rx()).sequence then Some(text) else None
      ensures Tx() == old(Tx()) && Executed() == old(Executed())
    {
      if serverCommandSequence >= sequence {
        return None;
      }
      serverCommandSequence := sequence;
      serverCommands[sequence % MAX_RELIABLE_COMMANDS] := Padded(Truncated(text));
      delivered := delivered + [text];
      return Some(text);
    }

    /** Body bytes are decoded under the last command of ours the server acknowledged. */
    method Decode(challenge: bv8, messageSequence: bv8, data: array<bv8>, length: nat)
      requires Valid() && length <= data.Length
      modifies data
      ensures data[..length] ==
        Transformed(old(Tx()).slots[reliableAcknowledge % MAX_RELIABLE_COMMANDS], Mix(challenge, messageSequence),
          old(data[..length]))
      ensures data[length..] == old(data[length..])
    {
      hide Transformed, Mix;
      var key := reliableCommands[reliableAcknowledge % MAX_RELIABLE_COMMANDS];
      assert key == Tx().slots[reliableAcknowledge % MAX_RELIABLE_COMMANDS];
      Transform(key, Mix(challenge, messageSequence), data, length);
    }

    /** Body bytes are encoded under the last server command we have. */
    method Encode(challenge: bv8, messageSequence: bv8, serverId: bv8, data: array<bv8>, length: nat)
      requires Valid() && length <= data.Length
      modifies data
      ensures data[..length] ==
        Transformed(old(Rx()).slots[serverCommandSequence % MAX_RELIABLE_COMMANDS],
                    Mix(Mix(serverId, messageSequence), challenge), old(data[..length]))
      ensures data[length..] == old(data[length..])
    {
      hide Transformed, Mix;
      var seed := Mix(Mix(serverId, messageSequence), challenge);
      var key := serverCommands[serverCommandSequence % MAX_RELIABLE_COMMANDS];
      assert key == Rx().slots[serverCommandSequence % MAX_RELIABLE_COMMANDS];
      Transform(key, seed, data, length);
    }

    /**
     Writes unacknowledged commands behind what is in the message already, as long as the packet
     has room for the longest one.
     */
    method WriteCommands(start: Writer) returns (cmds: seq<Command>, w: Writer)
      requires Valid() && WriterOk(start)
      ensures cmds == Outstanding(Tx(), |cmds|)
      ensures WriterOk(w) && w == CommandMessage.WriteCommands(start, cmds)
      ensures |cmds| == Fitting(start, Tx(), reliableAcknowledge + 1)
      ensures |start.data| <= MAX_PACKET ==> |w.data| <= MAX_PACKET
      ensures HasRoom(w) ==> reliableAcknowledge + |cmds| >= reliableSequence
    {
      hide WriterOk, WriteCommand, RingCommand, Fitting, CommandMessage.WriteCommands;
      WriteNone(start);
      cmds, w := [], start;
      var i := reliableAcknowledge + 1;
      while i <= reliableSequence
        invariant reliableAcknowledge + 1 + |cmds| == i
        invariant i <= reliableSequence + 1 || cmds == []
        invariant cmds == Outstanding(Tx(), |cmds|)
        invariant WriterOk(w) && w == CommandMessage.WriteCommands(start, cmds)
        invariant |start.data| <= MAX_PACKET ==> |w.data| <= MAX_PACKET
        invariant |cmds| + Fitting(w, Tx(), i) == Fitting(start, Tx(), reliableAcknowledge + 1)
      {
        NoMoreFits(w, Tx(), i);
        if MAX_PACKET - |w.data| < SPACE_FOR_COMMAND {
          break;
        }
        var c := Command(i, CText(reliableCommands[i % MAX_RELIABLE_COMMANDS]));
        RingAt(i);
        WriteOneMore(start, cmds, c);
        OneMoreFits(w, Tx(), i);
        w := WriteCommand(w, c);
        cmds := cmds + [c];
        i := i + 1;
      }
      NoMoreFits(w, Tx(), i);
    }

    lemma RingAt(i: int)
      requires Valid()
      ensures RingCommand(Tx(), i) == Command(i, CText(reliableCommands[i % MAX_RELIABLE_COMMANDS]))
      ensures |CText(reliableCommands[i % MAX_RELIABLE_COMMANDS])| < MAX_STRING_CHARS
    {
      TextEndsAt(reliableCommands[i % MAX_RELIABLE_COMMANDS], MAX_STRING_CHARS - 1);
    }

    /** Fetches server command `n` for execution; in a demo a command that is gone is passed over. */
    method NeedsServerCommand(n: int) returns (text: Option<Text>, ok: bool)
      requires Valid()
      modifies this`lastExecuted
      ensures var r := Fetch(Rx(), n);
              && text == (if r.Found? then Some(r.text) else None)
              && ok == (r.Found? || (r.CycledOut? && demoPlaying))
              && lastExecuted == if r.Found? then n else old(lastExecuted)
    {
      if n <= serverCommandSequence - MAX_RELIABLE_COMMANDS {
        return None, demoPlaying;
      }
      if n > serverCommandSequence {
        return None, false;
      }
      lastExecuted := n;
      return Some(CText(serverCommands[n % MAX_RELIABLE_COMMANDS])), true;
    }

    /** From which number on commands are executed: all of them, or in a demo those still in the ring. */
    ghost function FirstExecuted(): (n: int)
      reads this
    {
      if demoPlaying && gameSequence < serverCommandSequence - MAX_RELIABLE_COMMANDS
      then serverCommandSequence - MAX_RELIABLE_COMMANDS
      else gameSequence
    }

    /**
     Executes the server commands up to number `target`.  It succeeds exactly when all of them
     arrived and the oldest is still in the ring or a demo is played, and then executes them in
     order, each once.
     */
    method ExecuteNewServerCommands(target: nat, ghost source: seq<Text>) returns (executed: seq<Text>, ok: bool)
      requires Valid() && ReceiverOk(Rx(), source)
      modifies this
      ensures Valid() && Tx() == old(Tx()) && Rx() == old(Rx())
      ensures ok <==> target <= old(gameSequence)
                      || (target <= serverCommandSequence
                          && (demoPlaying || old(gameSequence) + 1 > serverCommandSequence - MAX_RELIABLE_COMMANDS))
      ensures ok && target <= old(gameSequence) ==> executed == []
      ensures ok && target > old(gameSequence) ==>
        && target <= |source|
        && executed == if target <= old(FirstExecuted()) then [] else source[old(FirstExecuted())..target]
      ensures ok ==> gameSequence == if target > old(gameSequence) then target else old(gameSequence)
    {
      hide Fetch;
      executed := [];
      ghost var rx, first := Rx(), FirstExecuted();
      assert serverCommandSequence <= |source|;
      hide ReceiverOk;
      while gameSequence < target
        invariant Valid() && Tx() == old(Tx()) && Rx() == rx
        invariant old(gameSequence) <= gameSequence
        invariant gameSequence <= serverCommandSequence || gameSequence == old(gameSequence)
        invariant gameSequence <= target || gameSequence == old(gameSequence)
        invariant executed == if gameSequence <= first then [] else source[first..gameSequence]
        invariant gameSequence > old(gameSequence) ==>
          demoPlaying || old(gameSequence) + 1 > serverCommandSequence - MAX_RELIABLE_COMMANDS
        decreases target - gameSequence
      {
        FetchedAsQueued(rx, source, gameSequence + 1);
        gameSequence := gameSequence + 1;
        var text, found := NeedsServerCommand(gameSequence);
        if !found {
          return executed, false;
        }
        if text.Some? {
          executed := executed + [text.value];
        }
      }
      ok := true;
    }
  }
}
