/**
 Downloads in numbered blocks over the unreliable channel.  The receiver takes only the block
 it expects, asks for a missed one again, and finishes at the first empty block it takes.
 */
module LegacyDownload {
  import opened Common

  const MAX_MSGLEN := 0x20000

  /** A download message; block zero also carries the size of the file, and number -1 points to the web. */
  datatype Block = Block(number: int, fileSize: int, size: int, data: Contents)

  datatype Reply = Nothing | FromTheWeb | Next(block: nat) | Retransmit(block: nat) | Stop | Finished | Dropped

  /** `temp` is the file being written, once it is open. */
  datatype State = State(temp: Option<Contents>, final: Option<Contents>, named: bool, allowed: bool,
                         expected: nat, fileSize: int, count: int)

  // ------------------------------------------------------------ the sender

  /** The blocks of a file; number `|parts|` is the empty one that ends it. */
  function Sent(parts: seq<Contents>, size: nat, i: nat): Block
    requires i <= |parts|
  {
    var data := if i < |parts| then parts[i] else [];
    Block(i, size, |data|, data)
  }

  predicate Cut(parts: seq<Contents>) {
    forall i | 0 <= i < |parts| :: 0 < |parts[i]| <= 0x7FFF
  }

  class Receiver {
    var temp: Option<Contents>
    var final: Option<Contents>
    var named: bool
    var allowed: bool
    var downloadBlock: nat
    var downloadSize: int
    var downloadCount: int

    ghost function Value(): State
      reads this
    {
      State(temp, final, named, allowed, downloadBlock, downloadSize, downloadCount)
    }

    /** A download has been asked for; nothing has arrived. */
    constructor (there: Option<Contents>, mayWrite: bool)
      ensures Value() == Begun(there, mayWrite)
    {
      temp, final, named, allowed := None, there, true, mayWrite;
      downloadBlock, downloadSize, downloadCount := 0, 0, 0;
    }

    /** One download message; `created` tells whether the temporary file could be created. */
    method ParseDownload(m: Block, created: bool) returns (reply: Reply)
      requires m.size > 0 ==> |m.data| == m.size
      modifies this
      ensures (Value(), reply) == Receive(old(Value()), m, created)
    {
      if m.number == -1 {
        return FromTheWeb;
      }
      if m.number == 0 {
        downloadSize := m.fileSize;
        if downloadSize < 0 {
          return Dropped;
        }
      }
      if m.size < 0 || m.size > MAX_MSGLEN {
        return Dropped;
      }
      if downloadBlock != m.number {
        if m.number > downloadBlock {
          return Retransmit(downloadBlock);
        }
        return Nothing;
      }
      if temp.None? {
        if !named {
          return Stop;
        }
        if !allowed || !created {
          return Dropped;
        }
        temp := Some([]);
      }
      if m.size != 0 {
        temp := Some(temp.value + m.data);
      }
      reply := Next(downloadBlock);
      downloadBlock := downloadBlock + 1;
      downloadCount := downloadCount + m.size;
      if m.size == 0 {
        final := temp;
        temp := None;
        named := false;
        reply := Finished;
      }
    }
  }

  function Begun(there: Option<Contents>, mayWrite: bool): State {
    State(None, there, true, mayWrite, 0, 0, 0)
  }

  // ------------------------------------------------------------ one message

  /** Whether block `m` is refused before its number is looked at. */
  predicate Refused(m: Block) {
    (m.number == 0 && m.fileSize < 0) || m.size < 0 || m.size > MAX_MSGLEN
  }

  function Receive(s: State, m: Block, created: bool): (State, Reply)
    requires m.size > 0 ==> |m.data| == m.size
  {
    var t := if m.number == 0 then s.(fileSize := m.fileSize) else s;
    if m.number == -1 then (s, FromTheWeb)
    else if Refused(m) then (t, Dropped)
    else if m.number > s.expected then (t, Retransmit(s.expected))
    else if m.number < s.expected then (t, Nothing)
    else if s.temp.None? && !s.named then (t, Stop)
    else if s.temp.None? && !(s.allowed && created) then (t, Dropped)
    else
      var sofar := if s.temp.Some? then s.temp.value else [];
      if m.size == 0 then
        (t.(temp := None, final := Some(sofar), named := false, expected := s.expected + 1), Finished)
      else
        (t.(temp := Some(sofar + m.data), expected := s.expected + 1, count := s.count + m.size), Next(s.expected))
  }

  /** When a message is an error, when nothing was asked for; old and early blocks do not change the file. */
  lemma MessageRefused(s: State, m: Block, created: bool)
    requires m.size > 0 ==> |m.data| == m.size
    ensures var (t, reply) := Receive(s, m, created);
            && (reply == FromTheWeb <==> m.number == -1)
            && (reply == Dropped <==>
                 m.number != -1
                 && ((m.number == 0 && m.fileSize < 0) || m.size < 0 || m.size > 0x20000
                     || (m.number == s.expected && s.temp.None? && s.named && (!s.allowed || !created))))
            && (reply == Stop <==>
                 m.number == s.expected && s.temp.None? && !s.named && 0 <= m.size <= 0x20000
                 && (m.number == 0 ==> m.fileSize >= 0))
            && (!reply.Next? && !reply.Finished? ==>
                 t.temp == s.temp && t.final == s.final && t.expected == s.expected && t.count == s.count
                 && t.named == s.named)
            && t.fileSize == if m.number == 0 then m.fileSize else s.fileSize
  {}

  // ------------------------------------------------------------ whole runs

  /** Numbers of blocks of the file. */
  predicate Numbers(parts: seq<Contents>, arrivals: seq<nat>) {
    forall i | 0 <= i < |arrivals| :: arrivals[i] <= |parts|
  }


  /** Any number of messages with genuine blocks in any order, until the file is finished. */
  function Run(parts: seq<Contents>, arrivals: seq<nat>, there: Option<Contents>): (State, Reply)
    requires Cut(parts) && Numbers(parts, arrivals)
  {
    if arrivals == [] then (Begun(there, true), Nothing)
    else
      var (s, reply) := Run(parts, arrivals[..|arrivals| - 1], there);
      if reply == Finished then (s, reply)
      else Receive(s, Sent(parts, |Joined(parts)|, arrivals[|arrivals| - 1]), true)
  }

  /** How far the arrivals get: the next number is taken when it comes, the others are passed over. */
  function Progress(arrivals: seq<nat>, n: nat): (k: nat)
    ensures k <= n
  {
    if arrivals == [] then 0
    else
      var k := Progress(arrivals[..|arrivals| - 1], n);
      if k < n && arrivals[|arrivals| - 1] == k then k + 1 else k
  }

  /** With `k` numbers taken: the file so far, or the finished file. */
  ghost predicate Written(parts: seq<Contents>, k: nat, s: State, reply: Reply, there: Option<Contents>) {
    && s.expected == k <= |parts| + 1
    && (if k <= |parts| then
          && reply != Finished && s.final == there && s.named && s.allowed
          && s.count == |Joined(parts[..k])| && s.temp == if k == 0 then None else Some(Joined(parts[..k]))
        else
          && reply == Finished && s.final == Some(Joined(parts)) && s.count == |s.final.value|)
  }

  lemma BlockWritten(parts: seq<Contents>, k: nat, s: State, reply: Reply, there: Option<Contents>, i: nat)
    requires Cut(parts) && Written(parts, k, s, reply, there) && k <= |parts| && i <= |parts|
    ensures var (t, answer) := Receive(s, Sent(parts, |Joined(parts)|, i), true);
            Written(parts, if i == k then k + 1 else k, t, answer, there)
  {
    if i == k {
      NothingJoined(parts);
      if k < |parts| {
        hide Cut;
        OneMoreJoined(parts, k);
        Genuine(parts, k);
      }
    }
  }

  lemma OneMoreJoined(parts: seq<Contents>, k: nat)
    requires k < |parts|
    ensures Joined(parts[..k + 1]) == Joined(parts[..k]) + parts[k]
  {
    assert parts[..k + 1][..k] == parts[..k];
  }

  lemma Genuine(parts: seq<Contents>, i: nat)
    requires Cut(parts) && i < |parts|
    ensures 0 < |parts[i]| <= 0x7FFF
  {}

  /**
   Whatever is lost, repeated or reordered, the file holds exactly the blocks before the expected
   one, each once; and it gets its name exactly when the empty block is taken.
   */
  lemma {:induction false} WrittenInOrder(parts: seq<Contents>, arrivals: seq<nat>, there: Option<Contents>)
    requires Cut(parts) && Numbers(parts, arrivals)
    ensures Written(parts, Progress(arrivals, |parts| + 1), Run(parts, arrivals, there).0,
      Run(parts, arrivals, there).1, there)
    decreases |arrivals|
  {
    hide Cut, Joined, Sent, Receive;
    if arrivals == [] {
      NothingJoined(parts);
    } else {
      var before, last := arrivals[..|arrivals| - 1], arrivals[|arrivals| - 1];
      WrittenInOrder(parts, before, there);
      var k, s, reply := Progress(before, |parts| + 1), Run(parts, before, there).0, Run(parts, before, there).1;
      if k <= |parts| {
        BlockWritten(parts, k, s, reply, there, last);
      }
    }
  }

  lemma NothingJoined(parts: seq<Contents>)
    ensures Joined(parts[..0]) == [] && parts[..|parts|] == parts
  {}

  /** The numbers 0, 1, 2 and so on arrive at the given places, one behind the other. */
  ghost predicate ArriveInOrder(arrivals: seq<nat>, places: seq<nat>) {
    && (forall i | 0 <= i < |places| :: places[i] < |arrivals| && arrivals[places[i]] == i)
    && forall i, j | 0 <= i < j < |places| :: places[i] < places[j]
  }

  /** A file is finished exactly when its blocks, and then the empty one, arrive in order at some places. */
  lemma FinishedIff(parts: seq<Contents>, arrivals: seq<nat>, there: Option<Contents>)
    requires Cut(parts) && Numbers(parts, arrivals)
    ensures Run(parts, arrivals, there).1 == Finished <==>
            exists places: seq<nat> :: |places| == |parts| + 1 && ArriveInOrder(arrivals, places)
  {
    hide Run, Cut;
    var n := |parts| + 1;
    WrittenInOrder(parts, arrivals, there);
    if Progress(arrivals, n) == n {
      var places := PlacesOf(arrivals, n);
    }
    if places: seq<nat> :| |places| == n && ArriveInOrder(arrivals, places) {
      ProgressReaches(arrivals, n, places);
    }
  }

  lemma {:induction false} PlacesOf(arrivals: seq<nat>, n: nat) returns (places: seq<nat>)
    ensures |places| == Progress(arrivals, n) && ArriveInOrder(arrivals, places)
    decreases |arrivals|
  {
    places := [];
    if arrivals != [] {
      var m := |arrivals| - 1;
      places := PlacesOf(arrivals[..m], n);
      if Progress(arrivals, n) > |places| {
        places := places + [m];
      }
    }
  }

  /** Whoever finds places for the first numbers, the receiver got at least as far. */
  lemma {:induction false} ProgressReaches(arrivals: seq<nat>, n: nat, places: seq<nat>)
    requires |places| <= n && ArriveInOrder(arrivals, places)
    ensures Progress(arrivals, n) >= |places|
    decreases |arrivals|
  {
    if places != [] {
      var m, p := |arrivals| - 1, |places| - 1;
      if places[p] == m {
        ProgressReaches(arrivals[..m], n, places[..p]);
      } else {
        ProgressReaches(arrivals[..m], n, places);
      }
    }
  }

  // ------------------------------------------------------------ what the receiver asks for

  /** What is in the file so far. */
  function SoFar(s: State): Contents { if s.temp.Some? then s.temp.value else [] }

  lemma RunMore(parts: seq<Contents>, arrivals: seq<nat>, i: nat, there: Option<Contents>)
    requires Cut(parts) && Numbers(parts, arrivals) && i <= |parts|
    ensures Numbers(parts, arrivals + [i])
    ensures var (s, reply) := Run(parts, arrivals, there);
            Run(parts, arrivals + [i], there) ==
              if reply == Finished then (s, reply) else Receive(s, Sent(parts, |Joined(parts)|, i), true)
  {
    hide Receive, Sent, Joined, Cut;
    assert (arrivals + [i])[..|arrivals|] == arrivals;
  }

  /**
   The answer to a block, in every reached state.  It is asked again exactly for a block above the first
   missing one, and then for that one: the file holds all blocks before it.  A block is confirmed exactly
   when it was the missing one, and by its own number.
   */
  lemma AnswersName(parts: seq<Contents>, arrivals: seq<nat>, i: nat, there: Option<Contents>)
    requires Cut(parts) && Numbers(parts, arrivals) && i <= |parts| && Run(parts, arrivals, there).1 != Finished
    ensures Numbers(parts, arrivals + [i])
    ensures var missing := Progress(arrivals, |parts| + 1);
            var (s, (t, answer)) := (Run(parts, arrivals, there).0, Run(parts, arrivals + [i], there));
            && missing <= |parts| && SoFar(s) == Joined(parts[..missing])
            && answer == (if i > missing then Retransmit(missing)
                          else if i < missing then Nothing
                          else if i < |parts| then Next(i)
                          else Finished)
            && (answer != Finished ==> SoFar(t) == Joined(parts[..if i == missing then missing + 1 else missing]))
            && Progress(arrivals + [i], |parts| + 1) == if i == missing then missing + 1 else missing
  {
    WrittenInOrder(parts, arrivals, there);
    RunMore(parts, arrivals, i, there);
    WrittenInOrder(parts, arrivals + [i], there);
    assert (arrivals + [i])[..|arrivals|] == arrivals;
    NothingJoined(parts);
    var s := Run(parts, arrivals, there).0;
    AnswerIs(parts, s, i);
    hide Run, Receive, Joined, Cut, Sent;
  }

  lemma AnswerIs(parts: seq<Contents>, s: State, i: nat)
    requires Cut(parts) && i <= |parts| && s.named && s.allowed && s.expected <= |parts|
    ensures Receive(s, Sent(parts, |Joined(parts)|, i), true).1 ==
            if i > s.expected then Retransmit(s.expected)
            else if i < s.expected then Nothing
            else if i < |parts| then Next(i)
            else Finished
  {
    hide Joined;
    if i < |parts| { Genuine(parts, i); }
  }

  /** The sender goes on where the answer says, and else with the next block. */
  function Continue(sent: nat, answer: Reply): nat {
    match answer
    case Retransmit(b) => b
    case Next(b) => b + 1
    case _ => sent + 1
  }

  /** The answer to the last of the first `j + 1` blocks of `more`. */
  function Answer(parts: seq<Contents>, arrivals: seq<nat>, more: seq<nat>, j: nat, there: Option<Contents>): Reply
    requires Cut(parts) && Numbers(parts, arrivals) && Numbers(parts, more) && j < |more|
  {
    Run(parts, arrivals + more[..j + 1], there).1
  }

  /** From now on nothing is lost: each block is the one the sender goes on with. */
  ghost predicate Follows(parts: seq<Contents>, arrivals: seq<nat>, more: seq<nat>, there: Option<Contents>)
    requires Cut(parts) && Numbers(parts, arrivals) && Numbers(parts, more)
  {
    forall j | 0 <= j < |more| - 1 ::
      Answer(parts, arrivals, more, j, there) != Finished ==>
        more[j + 1] == Continue(more[j], Answer(parts, arrivals, more, j, there))
  }

  /** How many blocks are still to be sent when `missing` is missing and the sender stands at `at`. */
  function ToSend(parts: seq<Contents>, missing: nat, at: nat): nat
    requires missing <= |parts|
  {
    (if at > missing then 1 else missing - at) + (|parts| + 1 - missing)
  }

  /** How many blocks the sender at `at` has to send after `arrivals`. */
  function Left(parts: seq<Contents>, arrivals: seq<nat>, at: nat): nat {
    var missing := Progress(arrivals, |parts| + 1);
    if missing <= |parts| then ToSend(parts, missing, at) else 0
  }

  /** Each answer brings the end nearer. */
  lemma AnswersAdvance(parts: seq<Contents>, arrivals: seq<nat>, at: nat, there: Option<Contents>)
    requires Cut(parts) && Numbers(parts, arrivals) && at <= |parts| && Run(parts, arrivals, there).1 != Finished
    ensures Progress(arrivals, |parts| + 1) <= |parts| && Numbers(parts, arrivals + [at])
    ensures Left(parts, arrivals, at) >= 1
    ensures var first := arrivals + [at]; var answer := Run(parts, first, there).1;
            answer != Finished ==>
              Continue(at, answer) <= |parts| && Left(parts, first, Continue(at, answer)) < Left(parts, arrivals, at)
  {
    AnswersName(parts, arrivals, at, there);
    hide Run, Cut, Joined, Progress, Numbers;
  }

  lemma FollowsOn(parts: seq<Contents>, arrivals: seq<nat>, more: seq<nat>, there: Option<Contents>)
    requires Cut(parts) && Numbers(parts, arrivals) && Numbers(parts, more) && |more| > 1
    requires Follows(parts, arrivals, more, there)
    ensures Numbers(parts, arrivals + [more[0]]) && Numbers(parts, more[1..])
    ensures Follows(parts, arrivals + [more[0]], more[1..], there)
    ensures Run(parts, arrivals + [more[0]], there).1 != Finished ==>
            more[1] == Continue(more[0], Run(parts, arrivals + [more[0]], there).1)
  {
    hide Run, Continue, Cut;
    var first, rest := arrivals + [more[0]], more[1..];
    assert more[..1] == [more[0]];
    assert Answer(parts, arrivals, more, 0, there) == Run(parts, first, there).1;
    forall j | 0 <= j < |rest| - 1
      ensures Answer(parts, first, rest, j, there) != Finished ==>
              rest[j + 1] == Continue(rest[j], Answer(parts, first, rest, j, there))
    {
      assert first + rest[..j + 1] == arrivals + more[..j + 2];
      assert Answer(parts, first, rest, j, there) == Answer(parts, arrivals, more, j + 1, there);
    }
  }

  lemma {:induction false} FinishedStays(parts: seq<Contents>, arrivals: seq<nat>, more: seq<nat>,
                                         there: Option<Contents>)
    requires Cut(parts) && Numbers(parts, arrivals) && Numbers(parts, more) && Run(parts, arrivals, there).1 == Finished
    ensures Numbers(parts, arrivals + more) && Run(parts, arrivals + more, there).1 == Finished
    decreases |more|
  {
    hide Run, Cut;
    if more == [] {
      assert arrivals + more == arrivals;
    } else {
      RunMore(parts, arrivals, more[0], there);
      FinishedStays(parts, arrivals + [more[0]], more[1..], there);
      assert arrivals + [more[0]] + more[1..] == arrivals + more;
    }
  }

  lemma NumbersSplit(parts: seq<Contents>, more: seq<nat>)
    requires Numbers(parts, more) && more != []
    ensures more[0] <= |parts| && Numbers(parts, more[1..])
  {}

  lemma OneByOne(arrivals: seq<nat>, more: seq<nat>)
    requires more != []
    ensures arrivals + more == arrivals + [more[0]] + more[1..]
  {}

  lemma LeftAtLeastOne(parts: seq<Contents>, arrivals: seq<nat>, at: nat, there: Option<Contents>)
    requires Cut(parts) && Numbers(parts, arrivals) && at <= |parts| && Run(parts, arrivals, there).1 != Finished
    ensures Left(parts, arrivals, at) >= 1
  {
    AnswersAdvance(parts, arrivals, at, there);
  }

  /**
   After any losses, repetitions and reordering, wherever the sender stands: once nothing is lost any more
   and it follows the answers, the file is finished, each missing block taken once and at most one asked again.
   */
  lemma {:induction false} Recovers(parts: seq<Contents>, arrivals: seq<nat>, more: seq<nat>, there: Option<Contents>)
    requires Cut(parts) && Numbers(parts, arrivals) && Numbers(parts, more) && more != []
    requires Run(parts, arrivals, there).1 != Finished && Follows(parts, arrivals, more, there)
    requires |more| >= Left(parts, arrivals, more[0])
    ensures Numbers(parts, arrivals + more) && Run(parts, arrivals + more, there).1 == Finished
    decreases |more|
  {
    var first, rest := arrivals + [more[0]], more[1..];
    AnswersAdvance(parts, arrivals, more[0], there);
    NumbersSplit(parts, more);
    OneByOne(arrivals, more);
    hide Run, Cut, Follows, Left, Continue, Numbers;
    var answer := Run(parts, first, there).1;
    if answer == Finished {
      FinishedStays(parts, first, rest, there);
    } else {
      LeftAtLeastOne(parts, first, Continue(more[0], answer), there);
      FollowsOn(parts, arrivals, more, there);
      Recovers(parts, first, rest, there);
    }
  }

  /** There is such a sequence from wherever the sender stands. */
  lemma {:induction false} Recovery(parts: seq<Contents>, arrivals: seq<nat>, at: nat, there: Option<Contents>)
    returns (more: seq<nat>)
    requires Cut(parts) && Numbers(parts, arrivals) && at <= |parts| && Run(parts, arrivals, there).1 != Finished
    ensures more != [] && more[0] == at && Numbers(parts, more) && Follows(parts, arrivals, more, there)
    ensures |more| <= Left(parts, arrivals, at)
    ensures Numbers(parts, arrivals + more) && Run(parts, arrivals + more, there).1 == Finished
    decreases Left(parts, arrivals, at)
  {
    AnswersAdvance(parts, arrivals, at, there);
    hide Run, Cut, Left, Continue, Follows, Progress, Numbers;
    var first := arrivals + [at];
    var answer := Run(parts, first, there).1;
    var rest: seq<nat> := [];
    if answer == Finished {
      OneFollows(parts, arrivals, at, there);
      assert [at] + rest == [at] && arrivals + [at] + rest == first;
    } else {
      rest := Recovery(parts, first, Continue(at, answer), there);
      FollowsInFront(parts, arrivals, at, rest, there);
    }
    more := [at] + rest;
    InFrontAppended(arrivals, at, rest);
  }

  lemma InFrontAppended(arrivals: seq<nat>, at: nat, rest: seq<nat>)
    ensures arrivals + ([at] + rest) == arrivals + [at] + rest
  {}

  lemma OneFollows(parts: seq<Contents>, arrivals: seq<nat>, at: nat, there: Option<Contents>)
    requires Cut(parts) && Numbers(parts, arrivals) && at <= |parts|
    ensures Numbers(parts, [at]) && Follows(parts, arrivals, [at], there)
  {
    hide Cut;
  }

  lemma FollowsInFront(parts: seq<Contents>, arrivals: seq<nat>, at: nat, rest: seq<nat>, there: Option<Contents>)
    requires Cut(parts) && Numbers(parts, arrivals) && at <= |parts| && Numbers(parts, arrivals + [at])
    requires Numbers(parts, rest) && rest != [] && Follows(parts, arrivals + [at], rest, there)
    requires rest[0] == Continue(at, Run(parts, arrivals + [at], there).1)
    ensures Numbers(parts, [at] + rest) && Follows(parts, arrivals, [at] + rest, there)
  {
    hide Run, Continue, Cut;
    var first, more := arrivals + [at], [at] + rest;
    forall j | 0 <= j < |more| - 1
      ensures Answer(parts, arrivals, more, j, there) != Finished ==>
              more[j + 1] == Continue(more[j], Answer(parts, arrivals, more, j, there))
    {
      if j == 0 {
        assert more[..1] == [at];
      } else {
        assert arrivals + more[..j + 1] == first + rest[..j];
        assert Answer(parts, first, rest, j - 1, there) == Answer(parts, arrivals, more, j, there);
      }
    }
  }
}
