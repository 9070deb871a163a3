/**
 Reliable commands as a message body: for each command an operation of three bits, its number
 and its text, and an end mark behind the last.
 */
module CommandMessage {
  import opened Common
  import opened Message
  import opened Netchan
  import opened ReliableChannel

  const CLIENT_COMMAND := 2
  const END_OF_MESSAGE := 3

  // ------------------------------------------------------------ bytes as words, and as characters

  /** A byte as a word, put together from its two halves. */
  function Word(n: Byte): bv8 { ((n / 16) as bv8 << 4) | (n % 16) as bv8 }

  lemma HalfAsWord(n: int)
    requires 0 <= n < 16
    ensures (n as bv8) as int == n && (n as bv8) < 16
  {
    assert n in {0, 1, 2, 3, 4, 5, 6, 7, 8, 9, 10, 11, 12, 13, 14, 15};
  }

  lemma HalvesTogether(h: bv8, l: bv8)
    requires h < 16 && l < 16
    ensures ((h << 4) | l) as int == 16 * (h as int) + (l as int)
  {}

  lemma ByteAsWord(n: Byte)
    ensures Word(n) as int == n
  {
    HalfAsWord(n / 16);
    HalfAsWord(n % 16);
    HalvesTogether((n / 16) as bv8, (n % 16) as bv8);
  }

  lemma WordAsByte(b: bv8)
    ensures (b as int) as bv8 == b && 0 <= b as int < 256 && (b as int == 0 <==> b == 0)
  {}

  function Words(bytes: seq<Byte>): (words: seq<bv8>)
    ensures |words| == |bytes|
  {
    if bytes == [] then [] else [Word(bytes[0])] + Words(bytes[1..])
  }

  function Bytes(words: seq<bv8>): (bytes: seq<Byte>)
    ensures |bytes| == |words|
  {
    if words == [] then [] else WordAsByte(words[0]); [words[0] as int] + Bytes(words[1..])
  }

  lemma {:induction false} WordsReadBack(bytes: seq<Byte>)
    ensures Bytes(Words(bytes)) == bytes
  {
    if bytes != [] {
      ByteAsWord(bytes[0]);
      assert Words(bytes)[1..] == Words(bytes[1..]);
      WordsReadBack(bytes[1..]);
    }
  }

  function Chars(t: Text): (s: CString)
    ensures |s| == |t|
  {
    if t == [] then "" else WordAsByte(t[0]); [t[0] as int as char] + Chars(t[1..])
  }

  function TextOf(s: CString): (t: Text)
    ensures |t| == |s|
  {
    if s == "" then [] else NonZero(s[0] as int); [Word(s[0] as int)] + TextOf(s[1..])
  }

  lemma NonZero(n: int)
    requires 0 < n < 256
    ensures Word(n) != 0
  {
    ByteAsWord(n);
  }

  lemma SameWord(b: bv8)
    ensures 0 <= b as int < 256 && Word(b as int) == b
  {
    WordAsByte(b);
    ByteAsWord(b as int);
    WordAsByte(Word(b as int));
  }

  lemma {:induction false} CharsReadBack(t: Text)
    ensures TextOf(Chars(t)) == t
  {
    if t != [] {
      WordAsByte(t[0]);
      SameWord(t[0]);
      assert Chars(t)[1..] == Chars(t[1..]);
      CharsReadBack(t[1..]);
    }
  }

  /** Text without format characters is not changed on the way in. */
  lemma {:induction false} CleanKeeps(t: Text)
    requires ReliableChannel.Defused(t)
    ensures Clean(Chars(t)) == Chars(t)
  {
    if t != [] {
      assert t[0] in t;
      WordAsByte(t[0]);
      assert forall b | b in t[1..] :: b in t;
      CleanKeeps(t[1..]);
      assert Clean(Chars(t)) == [Message.Defused(Chars(t)[0])] + Clean(Chars(t[1..]));
    }
  }

  // ------------------------------------------------------------ the message

  /** A number as the four bytes of a message hold it. */
  function AsLong(n: int): nat { n % 0x1_0000_0000 }

  lemma AsLongKeeps(n: int)
    requires 0 <= n < 0x1_0000_0000
    ensures AsLong(n) == n
  {}

  function WriteCommand(w: Writer, c: Command): (w': Writer)
    requires WriterOk(w)
    ensures WriterOk(w')
  {
    WriteString(WriteBytes(WriteBits(w, CLIENT_COMMAND, 3), LittleEndian(AsLong(c.sequence), 4)), Chars(c.text))
  }

  /** The commands one behind the other. */
  function WriteCommands(w: Writer, cmds: seq<Command>): (w': Writer)
    requires WriterOk(w)
    ensures WriterOk(w')
    decreases |cmds|
  {
    if cmds == [] then w else WriteCommands(WriteCommand(w, cmds[0]), cmds[1..])
  }

  /** A whole message: the commands and the end mark. */
  function WriteMessage(w: Writer, cmds: seq<Command>): (w': Writer)
    requires WriterOk(w)
    ensures WriterOk(w')
  {
    WriteBits(WriteCommands(w, cmds), END_OF_MESSAGE, 3)
  }

  function Render(cmds: seq<Command>): seq<bv8> {
    Words(WriteMessage(Writer([], 0), cmds).data)
  }

  lemma WriteNone(w: Writer)
    requires WriterOk(w)
    ensures WriteCommands(w, []) == w
  {}

  lemma {:induction false} WriteOneMore(w: Writer, cmds: seq<Command>, c: Command)
    requires WriterOk(w)
    ensures WriteCommands(w, cmds + [c]) == WriteCommand(WriteCommands(w, cmds), c)
    decreases |cmds|
  {
    hide WriteCommand, WriterOk;
    if cmds == [] {
      assert cmds + [c] == [c];
    } else {
      assert (cmds + [c])[1..] == cmds[1..] + [c];
      WriteOneMore(WriteCommand(w, cmds[0]), cmds[1..], c);
    }
  }

  // ------------------------------------------------------------ how much fits into a packet

  const MAX_PACKET := 0x800
  const SPACE_FOR_COMMAND := 2000

  /** Bytes opened by writing three bits at bit position `bits`. */
  function NewBytes(bits: nat): (n: nat)
    ensures n <= 1
  {
    if bits % 8 == 0 || bits % 8 >= 6 then 1 else 0
  }

  lemma BitOpens(w: Writer, v: bool)
    requires WriterOk(w)
    ensures |WriteBit(w, v).data| == |w.data| + (if w.bit % 8 == 0 then 1 else 0)
    ensures WriteBit(w, v).bit % 8 == if w.bit % 8 == 7 then 0 else w.bit % 8 + 1
  {
    hide SetBit;
    NextModulo(w.bit, 8);
  }

  lemma ThreeOn(n: nat)
    ensures (n % 8 + 3) % 8 == (n + 3) % 8
  {}

  /** Three bits fill up the open byte, or open one more. */
  lemma ThreeBitsOpen(w: Writer, w1: Writer, w2: Writer, w3: Writer, a: bool, b: bool, c: bool)
    requires WriterOk(w) && WriterOk(w1) && WriterOk(w2)
    requires w1 == WriteBit(w, a) && w2 == WriteBit(w1, b) && w3 == WriteBit(w2, c)
    ensures |w3.data| == |w.data| + NewBytes(w.bit) && w3.bit % 8 == (w.bit + 3) % 8
  {
    hide WriteBit, WriterOk;
    assert 0 <= w.bit % 8 < 8;
    BitOpens(w, a);
    BitOpens(w1, b);
    BitOpens(w2, c);
    ThreeOn(w.bit);
  }

  lemma BitsOpen(w: Writer, v: nat)
    requires WriterOk(w)
    ensures |WriteBits(w, v, 3).data| == |w.data| + NewBytes(w.bit) && WriteBits(w, v, 3).bit % 8 == (w.bit + 3) % 8
  {
    hide WriteBit, WriterOk;
    var a, b, c := v % 2 == 1, v / 2 % 2 == 1, v / 2 / 2 % 2 == 1;
    WriteBitOk(w, a);
    var w1 := WriteBit(w, a);
    WriteBitOk(w1, b);
    var w2 := WriteBit(w1, b);
    ThreeBitsOpen(w, w1, w2, WriteBit(w2, c), a, b, c);
    assert WriteBits(w, v, 3) == WriteBits(w1, v / 2, 2) == WriteBits(w2, v / 2 / 2, 1);
  }

  /** What one command takes: three bits, a number and a terminated string. */
  lemma CommandSize(w: Writer, c: Command)
    requires WriterOk(w)
    ensures |WriteCommand(w, c).data| == |w.data| + NewBytes(w.bit) + 4 + |c.text| + 1
    ensures WriteCommand(w, c).bit % 8 == (w.bit + 3) % 8
  {
    BitsOpen(w, CLIENT_COMMAND);
    hide WriteBits;
  }

  /** The packet has room for one more command. */
  predicate HasRoom(w: Writer) { |w.data| + SPACE_FOR_COMMAND <= MAX_PACKET }

  /** Unacknowledged command number `n` as it stands in the ring. */
  function RingCommand(s: Sender, n: int): Command
    requires |s.slots| == MAX_RELIABLE_COMMANDS
  {
    Command(n, CText(s.slots[n % MAX_RELIABLE_COMMANDS]))
  }

  /** How many commands from number `next` on the packet writer gets into the packet. */
  function Fitting(w: Writer, s: Sender, next: int): (count: nat)
    requires WriterOk(w) && |s.slots| == MAX_RELIABLE_COMMANDS
    decreases s.sequence + 1 - next
  {
    if next > s.sequence || !HasRoom(w) then 0 else 1 + Fitting(WriteCommand(w, RingCommand(s, next)), s, next + 1)
  }

  /** At least one command whenever there is one and room for it, never more than there are, and few in all. */
  lemma {:induction false} FittingBounds(w: Writer, s: Sender, next: int)
    requires WriterOk(w) && |s.slots| == MAX_RELIABLE_COMMANDS
    ensures Fitting(w, s, next) <= if next <= s.sequence then s.sequence + 1 - next else 0
    ensures HasRoom(w) && next <= s.sequence ==> Fitting(w, s, next) >= 1
    ensures Fitting(w, s, next) > 0 ==> |w.data| + 5 * (Fitting(w, s, next) - 1) + 2000 <= 2048
    decreases s.sequence + 1 - next
  {
    hide WriteCommand, WriterOk, RingCommand;
    if next <= s.sequence && HasRoom(w) {
      CommandSize(w, RingCommand(s, next));
      FittingBounds(WriteCommand(w, RingCommand(s, next)), s, next + 1);
    }
  }

  /** One turn of the packet writer. */
  lemma OneMoreFits(w: Writer, s: Sender, next: int)
    requires WriterOk(w) && |s.slots| == MAX_RELIABLE_COMMANDS && next <= s.sequence && HasRoom(w)
    requires |RingCommand(s, next).text| < MAX_STRING_CHARS
    ensures var w' := WriteCommand(w, RingCommand(s, next));
            WriterOk(w') && |w'.data| <= MAX_PACKET && Fitting(w, s, next) == 1 + Fitting(w', s, next + 1)
  {
    hide WriteCommand, WriterOk, RingCommand;
    CommandSize(w, RingCommand(s, next));
  }

  lemma NoMoreFits(w: Writer, s: Sender, next: int)
    requires WriterOk(w) && |s.slots| == MAX_RELIABLE_COMMANDS
    ensures next > s.sequence || !HasRoom(w) ==> Fitting(w, s, next) == 0
    ensures HasRoom(w) <==> MAX_PACKET - |w.data| >= SPACE_FOR_COMMAND
  {}

  lemma ReadLongOk(r: Reader)
    requires ReaderOk(r)
    ensures ReaderOk(ReadLong(r).1)
      && (ReadLong(r).0 >= 0 ==> Behind(r, ReadLong(r).1) && r.readcount < ReadLong(r).1.readcount <= |r.data|)
  {}

  /** Commands up to the end mark; nothing at all if the message ends early or holds something else. */
  function ParseCommands(r: Reader): Option<seq<Command>>
    requires ReaderOk(r)
    decreases |r.data| - r.readcount
  {
    hide ReadBits, ReadString, ReaderOk, FromLittleEndian;
    var (op, r1) := ReadBits(r, 3);
    ReadBitsOk(r, 3);
    ReadLongOk(r1);
    if op == END_OF_MESSAGE then Some([])
    else if op != CLIENT_COMMAND then None
    else
      var (n, r2) := ReadLong(r1);
      if n < 0 then None
      else
        var (s, r3) := ReadString(r2, MAX_STRING_CHARS);
        ReadStringOk(r2, MAX_STRING_CHARS);
        match ParseCommands(r3)
        case None => None
        case Some(rest) => Some([Command(n, TextOf(s))] + rest)
  }

  function Parse(body: seq<bv8>): Option<seq<Command>> {
    ParseCommands(Reader(Bytes(body), 0, 0))
  }

  // ------------------------------------------------------------ what was written is read

  lemma CommandReadsBack(w: Writer, c: Command, data: seq<Byte>)
    requires WriterOk(w) && Extends(WriteCommand(w, c), data) && Sendable(c)
    ensures Extends(w, data) && ReaderOk(At(w, data)) && ReaderOk(At(WriteCommand(w, c), data))
    ensures ParseCommands(At(w, data)) ==
            match ParseCommands(At(WriteCommand(w, c), data))
            case None => None
            case Some(rest) => Some([c] + rest)
  {
    hide Extends, WriteBit, ReadBit, ReadBits, WriteBits, ReadString, Clean, AsLong;
    AsLongKeeps(c.sequence);
    var w1 := WriteBits(w, CLIENT_COMMAND, 3);
    var w2 := WriteBytes(w1, LittleEndian(AsLong(c.sequence), 4));
    StringReadsBack(w2, Chars(c.text), MAX_STRING_CHARS, data);
    CleanKeeps(c.text);
    CharsReadBack(c.text);
    FourBytes();
    NumberReadsBack(w1, c.sequence, 4, 0x1_0000_0000, data);
    BitsReadBack(w, CLIENT_COMMAND, 3, data);
    ExtendsReader(WriteCommand(w, c), data);
  }

  lemma {:induction false} CommandsReadBack(w: Writer, cmds: seq<Command>, data: seq<Byte>)
    requires WriterOk(w) && Extends(WriteMessage(w, cmds), data) && AllSendable(cmds)
    ensures Extends(w, data) && ReaderOk(At(w, data)) && ParseCommands(At(w, data)) == Some(cmds)
    decreases |cmds|
  {
    hide Extends, WriteBit, ReadBit;
    if cmds == [] {
      BitsReadBack(w, END_OF_MESSAGE, 3, data);
    } else {
      CommandsReadBack(WriteCommand(w, cmds[0]), cmds[1..], data);
      hide ParseCommands;
      CommandReadsBack(w, cmds[0], data);
      assert [cmds[0]] + cmds[1..] == cmds;
    }
  }

  const WIRE := Wire(Render, Parse)

  /** The format of the program meets what the channel asks of a body format. */
  lemma FormatRoundTrips()
    ensures RoundTrips(WIRE)
  {
    forall cmds | AllSendable(cmds)
      ensures WIRE.parse(WIRE.render(cmds)) == Some(cmds)
    {
      var start := Writer([], 0);
      var w := WriteMessage(start, cmds);
      hide ParseCommands, WriteMessage;
      WordsReadBack(w.data);
      ExtendsSelf(w);
      CommandsReadBack(start, cmds, w.data);
    }
  }
}
