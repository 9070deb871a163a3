/**
 Downloads over the reliable stream.  Blocks are appended to a temporary file, which first
 takes over what an earlier attempt left in a cache file; when the announced size is reached
 the file is checked and only then gets its final name.
 */
module DownloadX {
  import opened Common
  import opened Crc32

  const CHUNK := 2 * 1024 * 1024
  const MAX_CHUNKS := 255
  const SEGMENT_SUMS := 256

  function NoSums(): (z: seq<bv32>)
    ensures |z| == SEGMENT_SUMS
  {
    seq(SEGMENT_SUMS, i => 0)
  }

  type Segments = s: seq<bv32> | |s| == SEGMENT_SUMS witness NoSums()

  /** What the server announces: the length, a checksum for each segment, and one for the whole file. */
  datatype Sums = Sums(length: int, segments: Segments, sum: bv32)

  datatype State = State(temp: Option<Contents>, cache: Option<Contents>, final: Option<Contents>,
                         named: bool, open: bool, size: int, count: nat, cacheEof: bool, sums: Sums)

  datatype Outcome =
    | Waiting
    | Requested(start: int, length: int)
    | Stopped
    | Restarted
    | Installed
    | Dropped
    | OutOfBounds

  /** `info` is missing when its size is wrong; `named` tells whether it is for the file asked for. */
  datatype Message =
    | FileInit(filesize: int, info: Option<Sums>, rightName: bool, created: bool)
    | Block(filepos: int, data: Contents, written: bool)

  // ------------------------------------------------------------ checking the finished file

  /** The checksum over at most `n` chunks, continued chunk by chunk. */
  function ChunkedSum(f: Contents, n: nat, crc: bv32): bv32 {
    if n == 0 || f == [] then crc
    else
      var k := Min(CHUNK, |f|);
      ChunkedSum(f[k..], n - 1, Checksum(f[..k], crc))
  }

  /** The part of a file the check looks at. */
  function Checked(f: Contents): (r: Contents) { f[..Min(|f|, MAX_CHUNKS * CHUNK)] }

  /** Chunk by chunk or in one go, the checksum is the same. */
  lemma {:induction false} ChunksAreOne(f: Contents, n: nat, crc: bv32)
    ensures n * CHUNK >= 0
    ensures ChunkedSum(f, n, crc) == Checksum(f[..Min(|f|, n * CHUNK)], crc)
    decreases n
  {
    if n == 0 || f == [] {
      assert f[..0] == [];
      NothingSummed(crc);
    } else {
      var k := Min(CHUNK, |f|);
      var rest, m := f[k..], Min(|f|, n * CHUNK);
      ChunksAreOne(rest, n - 1, Checksum(f[..k], crc));
      assert f[..m] == f[..k] + rest[..Min(|rest|, (n - 1) * CHUNK)];
      ChecksumConcat(f[..k], rest[..Min(|rest|, (n - 1) * CHUNK)], crc);
    }
  }

  lemma NothingSummed(crc: bv32)
    ensures Checksum([], crc) == crc
  {
    NotNot(crc);
  }

  predicate Verified(f: Contents, sum: bv32) {
    ChunkedSum(f, MAX_CHUNKS, 0) == sum
  }

  /** A file of up to 255 chunks passes exactly when its checksum is the announced one. */
  lemma VerifiedIff(f: Contents, sum: bv32)
    ensures Verified(f, sum) <==> Checksum(Checked(f), 0) == sum
    ensures |f| <= MAX_CHUNKS * CHUNK ==> (Verified(f, sum) <==> Checksum(f, 0) == sum)
  {
    ChunksAreOne(f, MAX_CHUNKS, 0);
    assert |f| <= MAX_CHUNKS * CHUNK ==> Checked(f) == f;
  }

  /** The file with its last byte damaged. */
  function Damaged(f: Contents): (g: Contents)
    requires |f| > 0
    ensures |g| == |f| && g != f
  {
    Flipped(f[|f| - 1]);
    f[..|f| - 1] + [f[|f| - 1] ^ 1]
  }

  lemma Flipped(b: bv8)
    ensures b ^ 1 != b
  {}

  /** In a longer file damage at the end changes the checksum, but never the verdict. */
  lemma DamageIsUnseen(f: Contents)
    requires |f| > MAX_CHUNKS * CHUNK
    ensures Checksum(Damaged(f), 0) != Checksum(f, 0)
    ensures forall sum :: Verified(Damaged(f), sum) <==> Verified(f, sum)
  {
    var g, n := Damaged(f), |f| - 4;
    assert f == f[..n] + f[n..] + [] && g == f[..n] + g[n..] + [];
    assert f[n..][3] != g[n..][3] by { Flipped(f[|f| - 1]); }
    BurstIsDetected(f[..n], f[n..], g[n..], [], 0);
    assert Checked(f) == Checked(g);
    forall sum
      ensures Verified(g, sum) <==> Verified(f, sum)
    {
      VerifiedIff(f, sum);
      VerifiedIff(g, sum);
    }
  }

  /** The check is that of the whole file, for all files of a length, exactly up to 255 chunks. */
  lemma WholeFileCheckedIff(n: nat)
    ensures (forall f: Contents, sum: bv32 | |f| == n :: Verified(f, sum) <==> Checksum(f, 0) == sum)
      <==> n <= 255 * 2097152
  {
    hide Verified, Checksum;
    if n <= MAX_CHUNKS * CHUNK {
      forall f: Contents, sum: bv32 | |f| == n
        ensures Verified(f, sum) <==> Checksum(f, 0) == sum
      {
        VerifiedIff(f, sum);
      }
    } else {
      var f: Contents := Blank(n);
      DamageIsUnseen(f);
      assert Verified(f, Checksum(f, 0)) <==> Verified(Damaged(f), Checksum(f, 0));
    }
  }

  function Blank(n: nat): (f: Contents)
    ensures |f| == n
  {
    seq(n, i => 0)
  }

  // ------------------------------------------------------------ taking segments out of the cache

  datatype Segment = Eof | Bad | Good(data: Contents) | NoSum

  /** The next segment in the cache file, and whether its checksum is the announced one. */
  function CacheSegment(s: State): (r: Segment)
    ensures r.Good? ==> |r.data| == CHUNK && s.cache.Some? && s.count + CHUNK <= |s.cache.value|
  {
    if s.cache.None? || |s.cache.value| < CHUNK + s.count then Eof
    else if s.count / CHUNK >= SEGMENT_SUMS then NoSum
    else
      var data := s.cache.value[s.count..s.count + CHUNK];
      if Checksum(data, 0) == s.sums.segments[s.count / CHUNK] then Good(data) else Bad
  }

  function Append(s: State, data: Contents): State
    requires s.temp.Some?
  {
    s.(temp := Some(s.temp.value + data), count := s.count + |data|)
  }

  predicate Writing(s: State) { s.open && s.temp.Some? }

  /** What is left to read once the cache gives nothing more. */
  function Remaining(s: State): (State, Outcome, bool) {
    if s.size - s.count > 0 then (s, Requested(s.count, s.size - s.count), false) else (s, Waiting, true)
  }

  /** Copies good segments, and asks the server for the rest; the flag tells that nothing is missing. */
  function NextSegment(s: State): (r: (State, Outcome, bool))
    requires Writing(s)
    ensures Writing(r.0)
    decreases if s.cacheEof || s.cache.None? then 0 else 1 + Max0(|s.cache.value| - s.count)
  {
    if s.cacheEof then Remaining(s)
    else
      match CacheSegment(s)
      case Eof => Remaining(s.(cacheEof := true))
      case Bad => (s, Requested(s.count, CHUNK), false)
      case NoSum => (s, OutOfBounds, false)
      case Good(data) => NextSegment(Append(s, data))
  }

  function Max0(n: int): nat { if n < 0 then 0 else n }

  function GetNextSegment(s: State): (r: (State, Outcome, bool))
    requires Writing(s)
    ensures Writing(r.0)
  {
    if s.size == s.count then (s, Waiting, true) else NextSegment(s)
  }

  // ------------------------------------------------------------ messages

  function Closed(s: State): State { s.(open := false) }

  /** All bytes are there: the check decides. */
  function Finish(s: State, restart: bool): (State, Outcome)
    requires s.temp.Some?
  {
    var t := Closed(s).(cache := None);
    if s.temp.value == [] then (t, Dropped)
    else if Verified(s.temp.value, s.sums.sum) then (t.(final := s.temp, temp := None), Installed)
    else if restart then (Begun(t), Restarted)
    else (t, Dropped)
  }

  function Begun(s: State): State { s.(named := true, count := 0) }

  /** Reads on, and finishes the file when the announced size is reached. */
  function ReadOn(s: State, restart: bool): (State, Outcome)
    requires Writing(s)
  {
    var (t, outcome, done) := GetNextSegment(s);
    if outcome.OutOfBounds? then (t, OutOfBounds)
    else if t.count != t.size then (t, outcome)
    else if done then Finish(t, restart)
    else if restart then (Begun(Closed(t)), Restarted)
    else (Closed(t), Dropped)
  }

  /** An open file can be written to. */
  predicate Sound(s: State) { s.open ==> Writing(s) }

  function OnFileInit(s: State, m: Message): (State, Outcome)
    requires m.FileInit?
  {
    if m.info.None? then (s, Dropped)
    else
      var t := s.(sums := m.info.value);
      if m.filesize != t.sums.length || !m.rightName then (t, Dropped)
      else if t.open then (Closed(t), Dropped)
      else if !t.named then (t, Stopped)
      else
        var moved := t.(cache := t.temp, temp := None);
        if !m.created then (moved, Dropped)
        else
          var started := moved.(temp := Some([]), open := true);
          if started.sums.length < 1 then (Closed(started), Dropped)
          else ReadOn(started.(size := started.sums.length, cacheEof := false), false)
  }

  function OnBlock(s: State, m: Message): (State, Outcome)
    requires m.Block? && Sound(s)
  {
    if !s.open then (s, Dropped)
    else if m.filepos != s.count then (Closed(s), Dropped)
    else if m.data == [] then ReadOn(s, true)
    else if s.count + |m.data| > s.size then (Closed(s), Dropped)
    else if !m.written then (Closed(s), Dropped)
    else (Append(s, m.data), Waiting)
  }

  // ------------------------------------------------------------ what every step keeps

  /** The part of the state reading on does not touch. */
  predicate SameFile(s: State, t: State) {
    t.final == s.final && t.size == s.size && t.sums == s.sums && t.named == s.named
  }

  /** Copying segments only appends, and counts what it appends. */
  lemma {:induction false} NextSegmentKeeps(s: State)
    requires Writing(s)
    ensures var (t, outcome, done) := NextSegment(s);
            && Writing(t) && SameFile(s, t) && s.temp.value <= t.temp.value
            && |t.temp.value| - t.count == |s.temp.value| - s.count
            && (outcome.Waiting? || outcome.Requested? || outcome.OutOfBounds?)
            && (done ==> outcome.Waiting? && t.size <= t.count)
    decreases if s.cacheEof || s.cache.None? then 0 else 1 + Max0(|s.cache.value| - s.count)
  {
    if !s.cacheEof {
      match CacheSegment(s)
      case Good(data) =>
        NextSegmentKeeps(Append(s, data));
      case _ =>
    }
  }

  lemma GetNextSegmentKeeps(s: State)
    requires Writing(s)
    ensures var (t, outcome, done) := GetNextSegment(s);
            && Writing(t) && SameFile(s, t) && s.temp.value <= t.temp.value
            && |t.temp.value| - t.count == |s.temp.value| - s.count
            && (outcome.Waiting? || outcome.Requested? || outcome.OutOfBounds?)
  {
    NextSegmentKeeps(s);
    hide NextSegment;
  }

  /** A file in progress: as many bytes are written as are counted, and the size is the announced one. */
  ghost predicate Consistent(s: State) {
    Writing(s) && |s.temp.value| == s.count && s.size == s.sums.length >= 1
  }

  /** Nothing is installed but a nonempty file that passes the check and is counted in full. */
  ghost predicate Installs(s: State, t: State, o: Outcome) {
    if o.Installed? then
      && t.final.Some? && t.final.value != [] && Verified(t.final.value, t.sums.sum) && t.count == t.size && !t.open
    else t.final == s.final
  }

  predicate Goes(o: Outcome) { o.Waiting? || o.Requested? || o.Restarted? || o.Stopped? }

  lemma ReadOnInstalls(s: State, restart: bool)
    requires Writing(s)
    ensures var (t, o) := ReadOn(s, restart); Sound(t) && Installs(s, t, o)
  {
    GetNextSegmentKeeps(s);
    hide GetNextSegment, Verified;
  }

  function Step(s: State, m: Message): (State, Outcome)
    requires Sound(s)
  {
    if m.FileInit? then OnFileInit(s, m) else OnBlock(s, m)
  }

  /** The file as it is first opened: what an earlier attempt wrote has become the cache. */
  function Started(s: State, sums: Sums): State {
    s.(sums := sums, cache := s.temp, temp := Some([]), open := true, size := sums.length, cacheEof := false)
  }

  /** Whatever state a message finds, even with wrong books: only a verified file gets the final name. */
  lemma StepInstallsVerified(s: State, m: Message)
    requires Sound(s)
    ensures var (t, o) := Step(s, m); Sound(t) && Installs(s, t, o)
  {
    hide ReadOn, Verified;
    if m.FileInit? {
      if m.info.Some? { ReadOnInstalls(Started(s, m.info.value), false); }
    } else if s.open {
      ReadOnInstalls(s, true);
    }
  }

  /** The books are right: of an open file, and between two files when one is asked for. */
  ghost predicate Booked(s: State) {
    if s.open then Consistent(s) else s.named ==> s.count == 0
  }

  lemma ReadOnBooks(s: State, restart: bool)
    requires Consistent(s)
    ensures var (t, o) := ReadOn(s, restart);
            && Installs(s, t, o)
            && if o.Installed? then |t.final.value| == t.sums.length else Goes(o) ==> Booked(t)
  {
    ReadOnInstalls(s, restart);
    GetNextSegmentKeeps(s);
    hide GetNextSegment, Verified;
  }

  /** Each message keeps the books, and what it installs has the announced length. */
  lemma StepKeepsBooks(s: State, m: Message)
    requires Booked(s)
    ensures var (t, o) := Step(s, m);
            && Installs(s, t, o)
            && if o.Installed? then |t.final.value| == t.sums.length else Goes(o) ==> Booked(t)
  {
    StepInstallsVerified(s, m);
    hide ReadOn, Verified;
    if m.FileInit? {
      if !s.open && s.named && m.info.Some? && m.info.value.length >= 1 {
        ReadOnBooks(Started(s, m.info.value), false);
      }
    } else if s.open && m.data == [] {
      ReadOnBooks(s, true);
    }
  }

  /** Starting a file does not reset the count: the books are right afterwards exactly when it was zero. */
  lemma StartsConsistentIff(s: State, m: Message)
    requires m.FileInit? && OnFileInit(s, m).1.Requested?
    ensures Writing(OnFileInit(s, m).0)
    ensures Consistent(OnFileInit(s, m).0) <==> s.count == 0
  {
    GetNextSegmentKeeps(Started(s, m.info.value));
    hide GetNextSegment;
  }

  /** What that means for a file announced again after one was installed, should its name still be set. */
  lemma AnnouncedAgain(s: State, sums: Sums)
    requires !s.open && s.named && s.temp.None? && s.count > 0 && sums.length >= 1
    ensures var (t, o) := OnFileInit(s, FileInit(sums.length, Some(sums), true, true));
            && t.temp == Some([]) && t.count == s.count && t.final == s.final
            && o == if sums.length == s.count then Dropped
                    else if sums.length < s.count then Waiting
                    else Requested(s.count, sums.length - s.count)
  {
    var started := Started(s, sums);
    assert CacheSegment(started) == Eof;
    assert NextSegment(started) == Remaining(started.(cacheEof := true));
  }

  // ------------------------------------------------------------ whole sessions

  /** What is on disk when a file is begun: under its final name, and what an earlier attempt left. */
  datatype OnDisk = OnDisk(final: Option<Contents>, temp: Option<Contents>)

  /** The file in hand, and whether one was begun since the downloads were last complete. */
  datatype Session = Session(file: State, restart: bool)

  /** The files a message finishes, or that are called for, are followed by the `next` on the list, if any. */
  datatype Event =
    | Receive(m: Message, next: Option<OnDisk>)
    | NextDownload(next: Option<OnDisk>)
    | Disconnect

  datatype Install = Install(file: Contents, sums: Sums)

  /** Leaving the server closes the file and forgets its name. */
  function Left(v: Session): Session { v.(file := Closed(v.file).(named := false)) }

  /** The next file on the list is asked for; behind the last one the names are cleared. */
  function Next(v: Session, next: Option<OnDisk>): Session {
    match next
    case Some(d) => Session(Begun(v.file).(final := d.final, temp := d.temp), true)
    case None => if v.restart then Session(v.file.(named := false), false) else v
  }

  /** One event, and what it installed; an error ends the connection, and a file is begun only between two files. */
  function After(v: Session, e: Event): (r: (Session, seq<Install>))
    requires Sound(v.file)
    ensures Sound(r.0.file)
  {
    match e
    case Receive(m, next) =>
      StepInstallsVerified(v.file, m);
      var (t, o) := Step(v.file, m);
      if o.Installed? then (Next(v.(file := t), next), [Install(t.final.value, t.sums)])
      else if Goes(o) then (v.(file := t), [])
      else (Left(v.(file := t)), [])
    case NextDownload(next) => (if v.file.open then v else Next(v, next), [])
    case Disconnect => (Left(v), [])
  }

  /** All events in order, and everything they installed. */
  function Run(v: Session, es: seq<Event>): (r: (Session, seq<Install>))
    requires Sound(v.file)
    ensures Sound(r.0.file)
    decreases |es|
  {
    if es == [] then (v, [])
    else
      var (w, first) := After(v, es[0]);
      var (x, more) := Run(w, es[1..]);
      (x, first + more)
  }

  /** The books are right, and a file is asked for only after one was begun. */
  ghost predicate Regular(v: Session) {
    Booked(v.file) && (v.file.named || v.file.open ==> v.restart)
  }

  ghost predicate Genuine(i: Install) {
    i.file != [] && Verified(i.file, i.sums.sum)
  }

  ghost predicate Complete(i: Install) {
    |i.file| == i.sums.length
  }

  /** Nothing is opened or asked for by a message. */
  lemma StaysIdle(s: State, m: Message)
    requires !s.open && !s.named
    ensures var (t, o) := Step(s, m); !t.open && !t.named && !o.Installed?
  {}

  lemma AfterInstalls(v: Session, e: Event)
    requires Sound(v.file)
    ensures forall i | i in After(v, e).1 :: Genuine(i)
    ensures Regular(v) ==> Regular(After(v, e).0) && forall i | i in After(v, e).1 :: Complete(i)
    ensures e.Receive? && After(v, e).1 == [] ==> After(v, e).0.file.final == v.file.final
  {
    hide Step, Verified;
    if e.Receive? {
      StepInstallsVerified(v.file, e.m);
      if Regular(v) { StepKeepsBooks(v.file, e.m); }
      if !v.file.open && !v.file.named { StaysIdle(v.file, e.m); }
    }
  }

  /**
   Over whole sessions of many files, whatever the server sends: from any state only verified files
   are installed, and from a regular one, such as before the first download, they have the announced length.
   */
  lemma {:induction false} OnlyVerifiedIsInstalled(v: Session, es: seq<Event>)
    requires Sound(v.file)
    ensures forall i | i in Run(v, es).1 :: Genuine(i)
    ensures Regular(v) ==> Regular(Run(v, es).0) && forall i | i in Run(v, es).1 :: Complete(i)
    decreases |es|
  {
    if es != [] {
      hide After, Genuine, Complete, Regular;
      AfterInstalls(v, es[0]);
      OnlyVerifiedIsInstalled(After(v, es[0]).0, es[1..]);
    }
  }

  /** Messages of one file; should it be finished, `next` follows. */
  function Received(ms: seq<Message>, next: Option<OnDisk>): (es: seq<Event>)
    ensures |es| == |ms| && forall i | 0 <= i < |es| :: es[i] == Receive(ms[i], next)
  {
    if ms == [] then [] else [Receive(ms[0], next)] + Received(ms[1..], next)
  }

  // ------------------------------------------------------------ a download that goes well

  /** The file in blocks, each announced with its position. */
  function Blocks(parts: seq<Contents>, at: int): (ms: seq<Message>)
    ensures |ms| == |parts|
  {
    if parts == [] then [] else [Block(at, parts[0], true)] + Blocks(parts[1..], at + |parts[0]|)
  }

  /** In-order blocks are appended, and the run goes on behind them. */
  lemma {:induction false} BlocksAppend(v: Session, parts: seq<Contents>, more: seq<Message>, next: Option<OnDisk>)
    requires Writing(v.file) && v.file.count + |Joined(parts)| <= v.file.size
    requires forall i | 0 <= i < |parts| :: parts[i] != []
    ensures Writing(Append(v.file, Joined(parts)))
    ensures Run(v, Received(Blocks(parts, v.file.count) + more, next))
         == Run(v.(file := Append(v.file, Joined(parts))), Received(more, next))
    decreases |parts|
  {
    hide Run, Received;
    var s := v.file;
    var ms := Blocks(parts, s.count) + more;
    if parts == [] {
      assert ms == more && s.temp.value + [] == s.temp.value;
    } else {
      var part, rest := parts[0], parts[1..];
      JoinedFirst(parts);
      var t := Append(s, part);
      assert ms == [Block(s.count, part, true)] + (Blocks(rest, t.count) + more);
      OneBlock(v, part, Blocks(rest, t.count) + more, next);
      BlocksAppend(v.(file := t), rest, more, next);
      assert s.temp.value + (part + Joined(rest)) == s.temp.value + part + Joined(rest);
    }
  }

  lemma OneBlock(v: Session, part: Contents, more: seq<Message>, next: Option<OnDisk>)
    requires Writing(v.file) && part != [] && v.file.count + |part| <= v.file.size
    ensures Run(v, Received([Block(v.file.count, part, true)] + more, next))
         == Run(v.(file := Append(v.file, part)), Received(more, next))
  {
    var m := Block(v.file.count, part, true);
    assert Step(v.file, m) == (Append(v.file, part), Waiting);
    assert After(v, Receive(m, next)) == (v.(file := Append(v.file, part)), []);
    var w := v.(file := Append(v.file, part));
    hide After, Run;
    ReceivedFirst(v, m, more, next);
    assert [] + Run(w, Received(more, next)).1 == Run(w, Received(more, next)).1;
  }

  /** The first message decides where the run goes on. */
  lemma ReceivedFirst(v: Session, m: Message, more: seq<Message>, next: Option<OnDisk>)
    requires Sound(v.file)
    ensures var (w, first) := After(v, Receive(m, next));
            var (x, rest) := Run(w, Received(more, next));
            Run(v, Received([m] + more, next)) == (x, first + rest)
  {
    hide After;
    var es := Received([m] + more, next);
    assert es[1..] == Received(more, next) by { assert ([m] + more)[1..] == more; }
  }

  /** The announced segment checksums are those of file `f`. */
  predicate SegmentsOf(f: Contents, sums: Sums) {
    && sums.length == |f|
    && forall k | 0 <= k < SEGMENT_SUMS && (k + 1) * CHUNK <= |f| ::
      sums.segments[k] == Checksum(f[k * CHUNK..(k + 1) * CHUNK], 0)
  }

  /** How much of an earlier attempt is taken over: its whole segments. */
  function Kept(n: nat): (k: nat)
    ensures k <= n && n < k + CHUNK && k % CHUNK == 0
  {
    n / CHUNK * CHUNK
  }

  /** The segments of a cache file that holds the beginning of `f` are all taken, from position `count` on. */
  lemma {:induction false} CacheTaken(s: State, f: Contents, p: Contents)
    requires Consistent(s) && !s.cacheEof && s.cache == Some(p) && p <= f && |p| < |f| <= SEGMENT_SUMS * CHUNK
    requires SegmentsOf(f, s.sums) && s.count % CHUNK == 0 && s.count <= |p| && s.temp.value == f[..s.count]
    ensures var k := Kept(|p|);
            NextSegment(s) == (s.(temp := Some(f[..k]), count := k, cacheEof := true), Requested(k, |f| - k), false)
    decreases |p| - s.count
  {
    if |p| < CHUNK + s.count {
      LastSegment(|p|, s.count);
    } else {
      var data, n := p[s.count..s.count + CHUNK], s.count / CHUNK;
      assert n * CHUNK == s.count;
      assert data == f[n * CHUNK..(n + 1) * CHUNK];
      assert CacheSegment(s) == Good(data);
      assert f[..s.count] + data == f[..s.count + CHUNK];
      CacheTaken(Append(s, data), f, p);
    }
  }

  lemma LastSegment(n: nat, count: nat)
    requires count % CHUNK == 0 && count <= n < count + CHUNK
    ensures Kept(n) == count
  {}

  /** The bytes an earlier attempt left. */
  function Earlier(s: State): Contents { if s.temp.Some? then s.temp.value else [] }

  /** Starting takes over the whole segments an earlier attempt left, and asks only for what is missing. */
  lemma StartResumes(s: State, f: Contents, sums: Sums)
    requires !s.open && s.count == 0 && s.named && SegmentsOf(f, sums)
    requires Earlier(s) <= f && |Earlier(s)| < |f| <= SEGMENT_SUMS * CHUNK
    ensures var k := Kept(|Earlier(s)|);
            OnFileInit(s, FileInit(|f|, Some(sums), true, true)) ==
              (Started(s, sums).(temp := Some(f[..k]), count := k, cacheEof := true), Requested(k, |f| - k))
  {
    hide SegmentsOf;
    assert sums.length == |f| by { SegmentsShape(f, sums); }
    var t := Started(s, sums);
    assert f[..0] == [];
    if s.temp.Some? {
      CacheTaken(t, f, s.temp.value);
      hide NextSegment;
    } else {
      assert CacheSegment(t) == Eof;
      LastSegment(0, 0);
    }
  }

  lemma SegmentsShape(f: Contents, sums: Sums)
    requires SegmentsOf(f, sums)
    ensures sums.length == |f|
  {}

  /** The empty block at the end of a good file installs it. */
  lemma EndInstalls(v: Session, f: Contents, next: Option<OnDisk>)
    requires Consistent(v.file) && v.file.temp.value == f && v.file.size == |f| && Verified(f, v.file.sums.sum)
    ensures Run(v, Received([Block(|f|, [], true)], next)).1 == [Install(f, v.file.sums)]
  {
    hide Verified, NextSegment;
    var m := Block(|f|, [], true);
    assert [m] + [] == [m];
    ReceivedFirst(v, m, [], next);
    assert Step(v.file, m).1 == Installed;
  }

  /**
   A download that goes well, started afresh or after an interruption: however the missing part is cut
   into blocks, exactly this file is installed, complete.
   */
  lemma DownloadCompletes(v: Session, f: Contents, sums: Sums, parts: seq<Contents>, next: Option<OnDisk>)
    requires !v.file.open && v.file.count == 0 && v.file.named && SegmentsOf(f, sums) && sums.sum == Checksum(f, 0)
    requires Earlier(v.file) <= f && |Earlier(v.file)| < |f| <= MAX_CHUNKS * CHUNK
    requires Joined(parts) == f[Kept(|Earlier(v.file)|)..] && forall i | 0 <= i < |parts| :: parts[i] != []
    ensures var ms := [FileInit(|f|, Some(sums), true, true)]
                      + (Blocks(parts, Kept(|Earlier(v.file)|)) + [Block(|f|, [], true)]);
            Run(v, Received(ms, next)).1 == [Install(f, sums)]
  {
    var s := v.file;
    var k, init := Kept(|Earlier(s)|), FileInit(|f|, Some(sums), true, true);
    SegmentsShape(f, sums);
    StartResumes(s, f, sums);
    VerifiedIff(f, sums.sum);
    var t := Started(s, sums).(temp := Some(f[..k]), count := k, cacheEof := true);
    hide Verified, SegmentsOf, NextSegment, OnFileInit, Run, Kept;
    assert Consistent(t);
    ReceivedFirst(v, init, Blocks(parts, k) + [Block(|f|, [], true)], next);
    RestCompletes(v.(file := t), f, parts, next);
  }

  /** From the middle of a file on: the missing part in blocks, and the empty block. */
  lemma RestCompletes(v: Session, f: Contents, parts: seq<Contents>, next: Option<OnDisk>)
    requires var t := v.file; Consistent(t) && t.size == |f| && t.count <= |f| && t.temp.value == f[..t.count]
    requires Verified(f, v.file.sums.sum)
    requires Joined(parts) == f[v.file.count..] && forall i | 0 <= i < |parts| :: parts[i] != []
    ensures var ms := Blocks(parts, v.file.count) + [Block(|f|, [], true)];
            Run(v, Received(ms, next)).1 == [Install(f, v.file.sums)]
  {
    hide Verified, Run, Blocks, Joined;
    BlocksAppend(v, parts, [Block(|f|, [], true)], next);
    assert f[..v.file.count] + f[v.file.count..] == f;
    EndInstalls(v.(file := Append(v.file, Joined(parts))), f, next);
  }

  // ------------------------------------------------------------ whatever an earlier attempt left

  /** A segment of the leftover that has the announced checksum is that segment of the file. */
  ghost predicate NoCollision(f: Contents, sums: Sums, p: Contents) {
    forall k: nat | k < SEGMENT_SUMS && (k + 1) * CHUNK <= |p| :: SegmentTells(f, sums, p, k)
  }

  predicate SegmentTells(f: Contents, sums: Sums, p: Contents, k: nat)
    requires k < SEGMENT_SUMS && (k + 1) * CHUNK <= |p|
  {
    Checksum(p[k * CHUNK..(k + 1) * CHUNK], 0) == sums.segments[k] ==>
      (k + 1) * CHUNK <= |f| && p[k * CHUNK..(k + 1) * CHUNK] == f[k * CHUNK..(k + 1) * CHUNK]
  }

  /**
   The leftover goes on by a whole segment behind a file of whole segments, of which it has the last one: the
   client reads on behind the end of the file.
   */
  predicate Overrun(f: Contents, sums: Sums, p: Contents) {
    && 0 < |f| <= MAX_CHUNKS * CHUNK && |f| % CHUNK == 0 && |p| >= |f| + CHUNK
    && Checksum(p[|f| - CHUNK..|f|], 0) == sums.segments[|f| / CHUNK - 1]
  }

  predicate Overruns(s: State, f: Contents) { s.cache.Some? && Overrun(f, s.sums, s.cache.value) }

  /** The first part of `f` is written, and reading on goes on at a segment, or behind the cache. */
  ghost predicate Partly(s: State, f: Contents) {
    && Consistent(s) && s.size == |f| && s.count <= |f| && s.temp.value == f[..s.count]
    && (s.count == |f| || s.cacheEof || s.count % CHUNK == 0)
    && (s.cache.Some? ==> NoCollision(f, s.sums, s.cache.value))
    && (Overruns(s, f) ==> !s.cacheEof && s.count < |f|)
  }

  /** What reading on asks for: a part of the file that is missing, from the count on. */
  ghost predicate Asks(t: State, o: Outcome, f: Contents) {
    && Partly(t, f) && t.count < |f| && o.Requested? && o.start == t.count
    && o.length == (if t.cacheEof then |f| - t.count else CHUNK)
    && (Overruns(t, f) ==> t.count + CHUNK < |f|)
  }

  /** The client may read on, without being behind the end of the file. */
  predicate ReadsOn(s: State, f: Contents) {
    && (s.cacheEof || s.count % CHUNK == 0)
    && (s.count == |f| ==> s.cacheEof || s.cache.None? || |s.cache.value| < CHUNK + s.count)
  }

  lemma RemainingAsks(s: State, f: Contents)
    requires Partly(s, f) && (s.cache.None? || s.cacheEof || |s.cache.value| < CHUNK + s.count)
    ensures var (t, o, done) := Remaining(s.(cacheEof := true));
            && t == s.(cacheEof := true)
            && if s.count == |f| then done && o == Waiting && Partly(t, f) else !done && Asks(t, o, f)
  {
    hide Checksum, NoCollision;
  }

  /** A good segment is taken over; only the last one of the file may lead behind its end. */
  lemma GoodSegment(s: State, f: Contents, data: Contents)
    requires Partly(s, f) && !s.cacheEof && s.count % CHUNK == 0 && CacheSegment(s) == Good(data)
    requires |f| <= MAX_CHUNKS * CHUNK
    ensures s.count + CHUNK <= |f| && Append(s, data).count == s.count + CHUNK
    ensures (Overruns(s, f) && s.count + CHUNK == |f|)
            || (Partly(Append(s, data), f) && ReadsOn(Append(s, data), f))
  {
    var k, p := s.count / CHUNK, s.cache.value;
    assert k * CHUNK == s.count;
    assert SegmentTells(f, s.sums, p, k);
    assert f[..s.count] + data == f[..s.count + CHUNK];
    hide Checksum, NoCollision;
    CountOn(s.count);
    if s.count + CHUNK == |f| { assert |f| / CHUNK - 1 == k; }
  }

  lemma CountOn(count: nat)
    requires count % CHUNK == 0
    ensures (count + CHUNK) % CHUNK == 0
  {}

  /** A bad segment is asked for; where the client is led behind the end, it is not the last one. */
  lemma BadSegment(s: State, f: Contents)
    requires Partly(s, f) && !s.cacheEof && ReadsOn(s, f) && CacheSegment(s).Bad? && |f| <= MAX_CHUNKS * CHUNK
    ensures Asks(s, Requested(s.count, CHUNK), f)
  {
    hide Checksum, NoCollision;
  }

  /** Behind the end of the file nothing fits. */
  lemma BehindEnd(s: State, f: Contents)
    requires Writing(s) && !s.cacheEof && Overruns(s, f) && s.count == |f|
    requires NoCollision(f, s.sums, s.cache.value)
    ensures NextSegment(s) == (s, Requested(|f|, CHUNK), false)
  {
    EndPlace(|f|);
    assert SegmentTells(f, s.sums, s.cache.value, |f| / CHUNK);
    hide Checksum, NoCollision;
  }

  lemma EndPlace(n: nat)
    requires n % CHUNK == 0 && n <= MAX_CHUNKS * CHUNK
    ensures var k := n / CHUNK; k * CHUNK == n && (k + 1) * CHUNK == n + CHUNK && k < SEGMENT_SUMS
  {}

  /** Whatever the cache holds: nothing is missing, or a missing part is asked for, or a part behind the end. */
  lemma {:induction false} NextSegmentAsks(s: State, f: Contents)
    requires Partly(s, f) && |f| <= MAX_CHUNKS * CHUNK && ReadsOn(s, f)
    ensures var (t, o, done) := NextSegment(s);
            && SameFile(s, t) && t.cache == s.cache
            && if done then o == Waiting && Partly(t, f) && t.count == |f|
               else Asks(t, o, f) || (Overruns(s, f) && t.count == |f| && o.Requested?)
    decreases if s.cacheEof || s.cache.None? then 0 else 1 + Max0(|s.cache.value| - s.count)
  {
    hide Overrun, NoCollision, Checksum;
    if s.cacheEof {
      RemainingAsks(s, f);
      assert s.(cacheEof := true) == s;
    } else {
      var segment := CacheSegment(s);
      NextIs(s);
      hide NextSegment, CacheSegment;
      match segment
      case Eof => RemainingAsks(s, f);
      case Bad => BadSegment(s, f);
      case NoSum => NoSumHere(s, f);
      case Good(data) =>
        GoodSegment(s, f, data);
        if Overruns(s, f) && s.count + CHUNK == |f| {
          BehindEnd(Append(s, data), f);
        } else {
          NextSegmentAsks(Append(s, data), f);
        }
    }
  }

  lemma NextIs(s: State)
    requires Writing(s) && !s.cacheEof
    ensures NextSegment(s) ==
      match CacheSegment(s)
      case Eof => Remaining(s.(cacheEof := true))
      case Bad => (s, Requested(s.count, CHUNK), false)
      case NoSum => (s, OutOfBounds, false)
      case Good(data) => NextSegment(Append(s, data))
  {
    hide CacheSegment;
  }

  /** The checksums reach to the end of the file. */
  lemma NoSumHere(s: State, f: Contents)
    requires Partly(s, f) && |f| <= MAX_CHUNKS * CHUNK
    ensures !CacheSegment(s).NoSum?
  {
    hide Checksum, NoCollision, Overrun;
  }

  /** Reading on, when the file will pass the check: it is installed, a missing part is asked for, or it is over. */
  lemma ReadOnAsks(s: State, f: Contents, restart: bool)
    requires Partly(s, f) && 1 <= |f| <= MAX_CHUNKS * CHUNK && Verified(f, s.sums.sum)
    ensures var (t, o) := ReadOn(s, restart);
            && t.sums == s.sums && Sound(t) && (Overruns(t, f) <==> Overruns(s, f))
            && if o == Installed then t.final == Some(f) && !Overruns(s, f)
               else Asks(t, o, f) || (Overruns(s, f) && o == if restart then Restarted else Dropped)
  {
    hide Verified, NextSegment, Overrun, NoCollision;
    if s.size != s.count { NextSegmentAsks(s, f); }
    assert f[..|f|] == f;
  }

  /** The part of the file a request stands for; behind its end there is nothing to send. */
  function Asked(f: Contents, o: Outcome): (part: Contents)
    requires o.Requested? && 0 <= o.start <= |f| && o.length >= 0
  {
    f[o.start..Min(o.start + o.length, |f|)]
  }

  /** `ms` starts with blocks that make up the part asked for, and an empty block; `rest` is what follows. */
  ghost predicate Answers(s: State, o: Outcome, f: Contents, ms: seq<Message>, parts: seq<Contents>, rest: seq<Message>)
    requires o.Requested? && 0 <= o.start <= |f| && o.length >= 0
  {
    && (forall i | 0 <= i < |parts| :: parts[i] != []) && Joined(parts) == Asked(f, o)
    && |rest| < |ms| && ms == Blocks(parts, o.start) + ([Block(o.start + |Asked(f, o)|, [], true)] + rest)
  }

  /** The server answers each request. */
  ghost predicate Serves(s: State, o: Outcome, f: Contents, ms: seq<Message>)
    decreases |ms|
  {
    if !o.Requested? then ms == []
    else
      && Writing(s) && 0 <= o.start <= |f| && o.length >= 0
      && exists parts: seq<Contents>, rest: seq<Message> ::
           && Answers(s, o, f, ms, parts, rest)
           && var (t, more) := ReadOn(Append(s, Asked(f, o)), true); Serves(t, more, f, rest)
  }

  lemma AskedIsWritten(t: State, o: Outcome, f: Contents)
    requires Asks(t, o, f)
    ensures Writing(t) && 0 <= o.start <= |f| && o.length >= 0 && Partly(Append(t, Asked(f, o)), f)
    ensures t.count + |Asked(f, o)| <= t.size
  {
    hide Overrun, NoCollision;
    var part := Asked(f, o);
    assert f[..t.count] + part == f[..t.count + |part|];
    assert !t.cacheEof && t.count + CHUNK <= |f| ==> (t.count + CHUNK) % CHUNK == 0;
  }

  /** The answer to one request, and what the server sends after it. */
  lemma Answered(s: State, o: Outcome, f: Contents, ms: seq<Message>) returns (parts: seq<Contents>, rest: seq<Message>)
    requires o.Requested? && Serves(s, o, f, ms) && Asks(s, o, f)
    ensures Writing(s) && 0 <= o.start <= |f| && o.length >= 0
    ensures (forall i | 0 <= i < |parts| :: parts[i] != []) && Joined(parts) == Asked(f, o)
    ensures s.count == o.start && s.count + |Asked(f, o)| <= s.size
    ensures |rest| < |ms| && ms == Blocks(parts, s.count) + ([Block(s.count + |Asked(f, o)|, [], true)] + rest)
    ensures var t := Append(s, Asked(f, o)); Partly(t, f) && Writing(t) && ServesAfter(t, f, rest)
    ensures var t := Append(s, Asked(f, o));
            t.count == s.count + |Asked(f, o)| && t.sums == s.sums && t.cache == s.cache
  {
    hide ReadOn, Partly, Answers, Append, Asked, Joined, Blocks;
    AskedIsWritten(s, o, f);
    AppendIs(s, Asked(f, o));
    parts, rest :|
      && Answers(s, o, f, ms, parts, rest)
      && var (t, more) := ReadOn(Append(s, Asked(f, o)), true); Serves(t, more, f, rest);
    AnswersAre(s, o, f, ms, parts, rest);
  }

  lemma AnswersAre(s: State, o: Outcome, f: Contents, ms: seq<Message>, parts: seq<Contents>, rest: seq<Message>)
    requires o.Requested? && 0 <= o.start <= |f| && o.length >= 0 && Answers(s, o, f, ms, parts, rest)
    ensures (forall i | 0 <= i < |parts| :: parts[i] != []) && Joined(parts) == Asked(f, o)
    ensures |rest| < |ms| && ms == Blocks(parts, o.start) + ([Block(o.start + |Asked(f, o)|, [], true)] + rest)
  {
    hide Asked, Joined, Blocks;
  }

  lemma AppendIs(s: State, data: Contents)
    requires Writing(s)
    ensures var t := Append(s, data);
            t.count == s.count + |data| && t.sums == s.sums && t.cache == s.cache && Writing(t)
  {}

  /** The server goes on after the empty block of a part. */
  ghost predicate ServesAfter(s: State, f: Contents, rest: seq<Message>)
    requires Writing(s)
  {
    var (t, more) := ReadOn(s, true); Serves(t, more, f, rest)
  }

  /** What gets installed when the server does what it is asked. */
  function Expected(s: State, f: Contents): seq<Install> {
    if Overruns(s, f) then [] else [Install(f, s.sums)]
  }

  /** From a request on, an obedient server gets the file installed, unless the client reads on behind its end. */
  lemma {:induction false} ServedCompletes(v: Session, o: Outcome, f: Contents, ms: seq<Message>, next: Option<OnDisk>)
    requires Asks(v.file, o, f) && |f| <= MAX_CHUNKS * CHUNK && Verified(f, v.file.sums.sum)
    requires Serves(v.file, o, f, ms)
    ensures Sound(v.file) && Run(v, Received(ms, next)).1 == Expected(v.file, f)
    decreases |ms|, 0
  {
    NonEmpty(v.file, o, f);
    var parts, rest := Answered(v.file, o, f, ms);
    var part := Asked(f, o);
    var s := Append(v.file, part);
    hide Asks, Partly, NoCollision, Overrun, Verified, ReadOn, Run, Serves, ServesAfter, Joined, Blocks;
    hide Received, Append, Asked;
    BlocksAppend(v, parts, [Block(s.count, [], true)] + rest, next);
    ServedEnd(v.(file := s), f, rest, next);
  }

  lemma NonEmpty(s: State, o: Outcome, f: Contents)
    requires Asks(s, o, f)
    ensures 1 <= |f| && o.Requested?
  {}

  /** What a handled message does to the session. */
  lemma AfterIs(v: Session, m: Message, next: Option<OnDisk>, t: State, o: Outcome)
    requires Sound(v.file) && Step(v.file, m) == (t, o)
    ensures o.Installed? ==> t.final.Some?
                              && After(v, Receive(m, next))
                                 == (Next(v.(file := t), next), [Install(t.final.value, t.sums)])
    ensures !o.Installed? ==> After(v, Receive(m, next)) == (if Goes(o) then v.(file := t) else Left(v.(file := t)), [])
  {
    StepInstallsVerified(v.file, m);
    hide Step, Next, Left, Verified;
  }

  lemma EndIsRead(s: State)
    requires Writing(s)
    ensures Step(s, Block(s.count, [], true)) == ReadOn(s, true)
  {
    hide ReadOn;
  }

  lemma PartlyIsWriting(s: State, f: Contents)
    requires Partly(s, f)
    ensures Writing(s)
  {}

  lemma AsksGoes(t: State, o: Outcome, f: Contents)
    requires Asks(t, o, f)
    ensures Goes(o) && !o.Installed? && Sound(t)
  {}

  /** The empty block behind a part, and what the server sends after it. */
  lemma {:induction false} ServedEnd(v: Session, f: Contents, rest: seq<Message>, next: Option<OnDisk>)
    requires Partly(v.file, f) && 1 <= |f| <= MAX_CHUNKS * CHUNK && Verified(f, v.file.sums.sum)
    requires Writing(v.file) && ServesAfter(v.file, f, rest)
    ensures Run(v, Received([Block(v.file.count, [], true)] + rest, next)).1 == Expected(v.file, f)
    decreases |rest|, 1
  {
    var end := Block(v.file.count, [], true);
    ReadOnAsks(v.file, f, true);
    EndIsRead(v.file);
    var (t, more) := ReadOn(v.file, true);
    Continued(v, end, f, t, more, rest, next);
    if more.Requested? {
      ServedCompletes(v.(file := t), more, f, rest, next);
    }
  }

  /** A handled message that is not followed by a request ends the run; otherwise the server decides. */
  lemma Continued(v: Session, m: Message, f: Contents, t: State, o: Outcome, ms: seq<Message>, next: Option<OnDisk>)
    requires Sound(v.file) && Step(v.file, m) == (t, o) && Serves(t, o, f, ms) && Sound(t)
    ensures o.Installed? ==> t.final.Some? && Run(v, Received([m] + ms, next)).1 == [Install(t.final.value, t.sums)]
    ensures o.Requested? ==> Run(v, Received([m] + ms, next)).1 == Run(v.(file := t), Received(ms, next)).1
    ensures !o.Installed? && !o.Requested? ==> Run(v, Received([m] + ms, next)).1 == []
  {
    hide Serves, Step, Run, After;
    AfterIs(v, m, next, t, o);
    ReceivedFirst(v, m, ms, next);
    if !o.Requested? {
      NothingServed(t, o, f, ms);
      NothingReceived(After(v, Receive(m, next)).0, ms, next);
    }
  }

  lemma NothingServed(t: State, o: Outcome, f: Contents, ms: seq<Message>)
    requires !o.Requested? && Serves(t, o, f, ms)
    ensures ms == []
  {}

  lemma NothingReceived(v: Session, ms: seq<Message>, next: Option<OnDisk>)
    requires Sound(v.file) && ms == []
    ensures Run(v, Received(ms, next)) == (v, [])
  {}

  /**
   Whatever an earlier attempt left, true or damaged: if no damaged segment has the announced checksum, and
   the server answers each request with that part of the file, the file is installed, unless the leftover
   goes on by a segment behind a file of whole segments and has the last of these; then nothing is.
   */
  lemma CompletesIff(v: Session, f: Contents, sums: Sums, ms: seq<Message>, next: Option<OnDisk>)
    requires !v.file.open && v.file.count == 0 && v.file.named
    requires sums.length == |f| && sums.sum == Checksum(f, 0) && 1 <= |f| <= MAX_CHUNKS * CHUNK
    requires NoCollision(f, sums, Earlier(v.file))
    requires var (t, o) := OnFileInit(v.file, FileInit(|f|, Some(sums), true, true)); Serves(t, o, f, ms)
    ensures var p := Earlier(v.file);
            var overrun := |f| % 2097152 == 0 && |p| >= |f| + 2097152
                           && Checksum(p[|f| - 2097152..|f|], 0) == sums.segments[|f| / 2097152 - 1];
            Run(v, Received([FileInit(|f|, Some(sums), true, true)] + ms, next)).1
            == if overrun then [] else [Install(f, sums)]
  {
    StartsPartly(v.file, f, sums);
    hide Checksum, NoCollision, OnFileInit, Serves, Run, Received, Verified;
    StartedCompletes(v, f, sums, ms, next);
  }

  lemma StartedCompletes(v: Session, f: Contents, sums: Sums, ms: seq<Message>, next: Option<OnDisk>)
    requires !v.file.open && v.file.count == 0 && v.file.named && Partly(Started(v.file, sums), f)
    requires sums.length == |f| && sums.sum == Checksum(f, 0) && 1 <= |f| <= MAX_CHUNKS * CHUNK
    requires var (t, o) := OnFileInit(v.file, FileInit(|f|, Some(sums), true, true)); Serves(t, o, f, ms)
    ensures Run(v, Received([FileInit(|f|, Some(sums), true, true)] + ms, next)).1
         == Expected(Started(v.file, sums), f)
  {
    var init, start := FileInit(|f|, Some(sums), true, true), Started(v.file, sums);
    VerifiedIff(f, sums.sum);
    ReadOnAsks(start, f, false);
    InitReadsOn(v.file, f, sums);
    var (t, o) := ReadOn(start, false);
    hide Asks, Partly, Verified, ReadOn, Run, Step, Received, OnFileInit, Checksum, Serves, Overruns, Started;
    Continued(v, init, f, t, o, ms, next);
    if o.Requested? {
      ServedCompletes(v.(file := t), o, f, ms, next);
    }
  }

  lemma InitReadsOn(s: State, f: Contents, sums: Sums)
    requires !s.open && s.count == 0 && s.named && sums.length == |f| >= 1
    ensures var init := FileInit(|f|, Some(sums), true, true);
            Step(s, init) == OnFileInit(s, init) == ReadOn(Started(s, sums), false)
  {
    hide ReadOn;
  }

  lemma StartsPartly(s: State, f: Contents, sums: Sums)
    requires s.count == 0 && sums.length == |f| >= 1 && NoCollision(f, sums, Earlier(s))
    ensures Partly(Started(s, sums), f)
    ensures Overruns(Started(s, sums), f) <==> Overrun(f, sums, Earlier(s))
  {
    hide NoCollision;
    assert f[..0] == [];
  }

  // ------------------------------------------------------------ what is refused

  /** A block is written exactly when it goes on where the file stands and does not go beyond its size. */
  lemma BlockWritten(s: State, at: int, data: Contents, written: bool)
    requires Consistent(s) && data != []
    ensures var (t, o) := OnBlock(s, Block(at, data, written));
            if at == |s.temp.value| && at + |data| <= s.sums.length && written then
              && o == Waiting && t.open && t.temp == Some(s.temp.value + data) && t.count == |t.temp.value|
              && t.temp.value[at..at + |data|] == data
            else o == Dropped && !t.open && t.temp == s.temp && t.final == s.final
  {}

  /** An announcement is acted on only for the file asked for, of the size in both places, and when none is open. */
  lemma AnnouncementRefused(s: State, m: Message)
    requires m.FileInit? && Sound(s)
    requires m.info.None? || m.filesize != m.info.value.length || !m.rightName || s.open || !s.named || !m.created
             || m.info.value.length < 1
    ensures var (t, o) := OnFileInit(s, m);
            && t.final == s.final && o.Installed? == false && !o.Requested?
            && (o.Stopped? <==> m.info.Some? && m.filesize == m.info.value.length && m.rightName && !s.open && !s.named)
            && (!o.Stopped? ==> o == Dropped)
             && (t.temp != s.temp ==>
                   !s.open && s.named && m.info.Some? && m.filesize == m.info.value.length && m.rightName)
  {}

  /** A file that does not pass the check is asked for again, from the beginning, and what was written is kept. */
  lemma CorruptIsAskedAgain(s: State)
    requires Consistent(s) && s.count == s.size && !Verified(s.temp.value, s.sums.sum)
    ensures var (t, o) := OnBlock(s, Block(s.count, [], true));
            o == Restarted && t.named && !t.open && t.count == 0 && t.temp == s.temp && t.final == s.final
  {
    hide Verified, NextSegment;
  }

  /** The same straight from the leftover of an earlier attempt ends the connection. */
  lemma CorruptLeftoverDrops(s: State, f: Contents, sums: Sums)
    requires !s.open && s.named && s.count == 0
    requires sums.length == |f| && 1 <= |f| <= MAX_CHUNKS * CHUNK && |f| % CHUNK == 0
    requires s.temp == Some(f) && AllTaken(f, sums) && !Verified(f, sums.sum)
    ensures var (t, o) := OnFileInit(s, FileInit(|f|, Some(sums), true, true));
            o == Dropped && t.temp == Some(f) && t.final == s.final
  {
    var start := Started(s, sums);
    assert f[..0] == [];
    WholeTaken(start, f, f);
    AtEnd(start.(temp := Some(f), count := |f|), f, f);
    hide Verified, NextSegment;
  }

  /** Every segment of `f` has its announced checksum. */
  ghost predicate AllTaken(f: Contents, sums: Sums) {
    forall k: nat | k < SEGMENT_SUMS && (k + 1) * CHUNK <= |f| ::
      Checksum(f[k * CHUNK..(k + 1) * CHUNK], 0) == sums.segments[k]
  }

  /** A leftover that starts with all of a file of whole segments is taken up to its end. */
  lemma {:induction false} WholeTaken(s: State, f: Contents, p: Contents)
    requires Consistent(s) && !s.cacheEof && s.cache == Some(p)
    requires f <= p && |f| % CHUNK == 0 && |f| <= MAX_CHUNKS * CHUNK
    requires AllTaken(f, s.sums) && s.size == |f|
    requires s.count % CHUNK == 0 && s.count <= |f| && s.temp.value == f[..s.count]
    ensures NextSegment(s) == NextSegment(s.(temp := Some(f), count := |f|))
    decreases |f| - s.count
  {
    hide NextSegment, AllTaken, CacheSegment;
    assert f[..|f|] == f;
    if s.count < |f| {
      var data := p[s.count..s.count + CHUNK];
      OneTaken(s, f, p);
      NextGood(s, data);
      CountOn(s.count);
      WholeTaken(Append(s, data), f, p);
    } else {
      assert s.(temp := Some(f), count := |f|) == s;
    }
  }

  /** With the whole file taken, what the leftover goes on with decides. */
  lemma AtEnd(s: State, f: Contents, p: Contents)
    requires Writing(s) && !s.cacheEof && s.cache == Some(p) && s.count == s.size == |f| && |f| <= MAX_CHUNKS * CHUNK
    ensures |p| < |f| + CHUNK ==> NextSegment(s) == (s.(cacheEof := true), Waiting, true)
    ensures |f| + CHUNK <= |p| && Checksum(p[|f|..|f| + CHUNK], 0) != s.sums.segments[|f| / CHUNK] ==>
            NextSegment(s) == (s, Requested(|f|, CHUNK), false)
  {
    NextNone(s);
    hide NextSegment, Checksum;
  }

  /** One segment of the file out of the leftover. */
  lemma OneTaken(s: State, f: Contents, p: Contents)
    requires Consistent(s) && s.cache == Some(p) && f <= p && |f| % CHUNK == 0 && |f| <= MAX_CHUNKS * CHUNK
    requires AllTaken(f, s.sums) && s.count % CHUNK == 0 && s.count < |f| && s.temp.value == f[..s.count]
    ensures s.count + CHUNK <= |f|
    ensures var data := p[s.count..s.count + CHUNK];
            CacheSegment(s) == Good(data) && Append(s, data).temp.value == f[..s.count + CHUNK]
  {
    var n, c := s.count / CHUNK, s.count;
    SegmentPlace(c, |f|);
    assert Checksum(f[n * CHUNK..(n + 1) * CHUNK], 0) == s.sums.segments[n];
    hide Checksum, AllTaken;
    assert p[c..c + CHUNK] == f[c..c + CHUNK];
    assert f[..c] + f[c..c + CHUNK] == f[..c + CHUNK];
  }

  lemma SegmentPlace(count: nat, n: nat)
    requires count % CHUNK == 0 && n % CHUNK == 0 && count < n <= MAX_CHUNKS * CHUNK
    ensures var k := count / CHUNK; k * CHUNK == count && (k + 1) * CHUNK == count + CHUNK <= n && k < SEGMENT_SUMS
  {}

  lemma NextGood(s: State, data: Contents)
    requires Writing(s) && !s.cacheEof && CacheSegment(s) == Good(data)
    ensures NextSegment(s) == NextSegment(Append(s, data))
  {
    hide CacheSegment;
  }

  lemma NextNone(s: State)
    requires Writing(s) && !s.cacheEof
    ensures CacheSegment(s).Eof? ==> NextSegment(s) == Remaining(s.(cacheEof := true))
    ensures CacheSegment(s).Bad? ==> NextSegment(s) == (s, Requested(s.count, CHUNK), false)
  {
    hide CacheSegment;
  }

  /**
   A leftover that goes on by a segment behind a whole file of whole segments: all bytes are there, but the
   connection is dropped.
   */
  lemma LongLeftoverDrops(s: State, f: Contents, p: Contents, sums: Sums)
    requires !s.open && s.named && s.count == 0
    requires sums.length == |f| && 1 <= |f| <= MAX_CHUNKS * CHUNK && |f| % CHUNK == 0
    requires s.temp == Some(p) && f <= p && |p| >= |f| + CHUNK && AllTaken(f, sums)
    requires Checksum(p[|f|..|f| + CHUNK], 0) != sums.segments[|f| / CHUNK]
    ensures var (t, o) := OnFileInit(s, FileInit(|f|, Some(sums), true, true));
            o == Dropped && !t.open && t.temp == Some(f) && t.final == s.final
  {
    var start := Started(s, sums);
    assert f[..0] == [];
    WholeTaken(start, f, p);
    AtEnd(start.(temp := Some(f), count := |f|), f, p);
    hide Verified, NextSegment;
  }
}
