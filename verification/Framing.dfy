/**
 Messages over the reliable byte stream.  The sender puts a four-byte length before each
 message; the receiver polls the transport and dispatches a message when all of it is there.
 */
module Framing {
  import opened Common
  import opened Message

  const MAX_MESSAGE := 1024 * 1024

  // ------------------------------------------------------------ the sender

  function Header(n: nat): (h: seq<Byte>)
    ensures |h| == 4
  {
    [n % 256, n / 256 % 256, n / 256 / 256 % 256, n / 256 / 256 / 256 % 256]
  }

  type Body = b: seq<Byte> | |b| + 4 <= MAX_MESSAGE

  function Frame(body: Body): seq<Byte> { Header(|body|) + body }

  /** The stream after sending the messages one after the other. */
  function Frames(ms: seq<Body>): seq<Byte> {
    if ms == [] then [] else Frame(ms[0]) + Frames(ms[1..])
  }

  // ------------------------------------------------------------ the receiver

  /** `buf` is what the receiver took so far for one message, `waiting` what it left in the transport. */
  datatype Receiver = Receiver(buf: seq<Byte>, waiting: seq<Byte>, dispatched: seq<seq<Byte>>, aborted: bool)

  /** A signed 32-bit number, lowest byte first. */
  function Size(h: seq<Byte>): int
    requires |h| >= 4
  {
    var a: int, b: int, c: int, d: int := h[0], h[1], h[2], h[3];
    var n := a + 256 * (b + 256 * (c + 256 * d));
    if n >= 0x8000_0000 then n - 0x1_0000_0000 else n
  }

  /** Takes up to `n` bytes out of the transport. */
  function Taken(r: Receiver, n: nat): Receiver {
    var k := Min(n, |r.waiting|);
    r.(buf := r.buf + r.waiting[..k], waiting := r.waiting[k..])
  }

  function WithHeader(r: Receiver): (h: Receiver)
    ensures |h.buf| + |h.waiting| == |r.buf| + |r.waiting|
  {
    if |r.buf| < 1 then Taken(r, 4) else r
  }

  function WithBody(r: Receiver, size: nat): (b: Receiver)
    ensures |b.buf| + |b.waiting| == |r.buf| + |r.waiting|
  {
    if |r.buf| < size + 4 then Taken(r, size + 4 - |r.buf|) else r
  }

  /** One poll: dispatches messages as long as a whole one can be had. */
  function Poll(r: Receiver): Receiver
    decreases |r.buf| + |r.waiting|
  {
    var h := WithHeader(r);
    if |h.buf| < 4 || Size(h.buf) < 0 then h
    else if Size(h.buf) + 4 > MAX_MESSAGE then h.(aborted := true)
    else
      var b := WithBody(h, Size(h.buf));
      if |b.buf| < Size(h.buf) + 4 then b
      else Poll(b.(buf := [], dispatched := b.dispatched + [b.buf[4..]]))
  }

  // ------------------------------------------------------------ what ought to be dispatched

  /** How many messages are complete in the first `n` bytes of the stream. */
  function Complete(ms: seq<Body>, n: nat): (k: nat)
    ensures k <= |ms|
  {
    if ms == [] || n < |Frame(ms[0])| then 0 else 1 + Complete(ms[1..], n - |Frame(ms[0])|)
  }

  /** How many of the first `n` bytes lie behind the complete messages. */
  function Left(ms: seq<Body>, n: nat): (k: nat)
    ensures k <= n
  {
    if ms == [] || n < |Frame(ms[0])| then n else Left(ms[1..], n - |Frame(ms[0])|)
  }

  /** The first `n` bytes do not end inside a header. */
  predicate HeaderWhole(ms: seq<Body>, n: nat) { Left(ms, n) == 0 || Left(ms, n) >= 4 }

  lemma SizeOfHeader(n: nat)
    requires n < MAX_MESSAGE
    ensures Size(Header(n)) == n
  {}

  /** A length goes out lowest byte first. */
  lemma HeaderIs(n: nat)
    requires n < 0x1_0000_0000
    ensures var a: int, b: int, c: int, d: int := Header(n)[0], Header(n)[1], Header(n)[2], Header(n)[3];
            a + 0x100 * b + 0x1_0000 * c + 0x100_0000 * d == n
  {}

  /** It comes in the same way, as a signed number of 32 bits. */
  lemma SizeIs(h: seq<Byte>)
    requires |h| >= 4
    ensures var a: int, b: int, c: int, d: int := h[0], h[1], h[2], h[3];
            var n := a + 0x100 * b + 0x1_0000 * c + 0x100_0000 * d;
            Size(h) == if d < 128 then n else n - 0x1_0000_0000
  {}

  /** A length that no message has: a negative one stalls the receiver, one above a mebibyte less four aborts. */
  lemma BadLength(r: Receiver)
    requires r.buf == [] && |r.waiting| >= 4 && !(0 <= Size(r.waiting) <= 1048572)
    ensures Poll(r).dispatched == r.dispatched && Poll(r).buf == r.waiting[..4] && Poll(r).waiting == r.waiting[4..]
    ensures Poll(r).aborted == (r.aborted || Size(r.waiting) > 0)
  {
    assert [] + r.waiting[..4] == r.waiting[..4];
    SameSize(r.waiting[..4], r.waiting);
    hide Size;
  }

  lemma SameSize(a: seq<Byte>, b: seq<Byte>)
    requires |a| >= 4 && |b| >= 4 && a[..4] == b[..4]
    ensures Size(a) == Size(b)
  {
    assert forall i | 0 <= i < 4 :: a[i] == a[..4][i] == b[..4][i] == b[i];
  }

  lemma FrameFirst(body: Body, stream: seq<Byte>)
    requires |stream| >= 4 && stream[..4] == Frame(body)[..4]
    ensures Size(stream) == |body|
  {
    assert stream[..4] == Header(|body|);
    assert forall i | 0 <= i < 4 :: stream[i] == stream[..4][i];
    SizeOfHeader(|body|);
  }

  lemma TakenKeeps(r: Receiver, n: nat)
    ensures Taken(r, n).buf + Taken(r, n).waiting == r.buf + r.waiting
    ensures |Taken(r, n).buf| == |r.buf| + Min(n, |r.waiting|)
    ensures Taken(r, n).dispatched == r.dispatched && Taken(r, n).aborted == r.aborted
  {
    var k := Min(n, |r.waiting|);
    assert r.waiting == r.waiting[..k] + r.waiting[k..];
  }

  /** The receiver is in step: everything taken and waiting is the next part of the stream. */
  ghost predicate InStep(r: Receiver, rest: seq<Body>) {
    && r.buf + r.waiting <= Frames(rest)
    && (r.buf == [] || (|r.buf| >= 4 && rest != [] && |r.buf| <= |Frame(rest[0])|))
  }

  lemma FirstOfStream(have: seq<Byte>, rest: seq<Body>, k: nat)
    requires rest != [] && have <= Frames(rest) && k <= |have| && k <= |Frame(rest[0])|
    ensures have[..k] == Frame(rest[0])[..k]
  {
    hide Frame;
    assert Frames(rest)[..k] == Frame(rest[0])[..k];
    assert have[..k] == Frames(rest)[..k];
  }

  lemma BehindFirst(have: seq<Byte>, rest: seq<Body>)
    requires rest != [] && have <= Frames(rest) && |have| >= |Frame(rest[0])|
    ensures have[|Frame(rest[0])|..] <= Frames(rest[1..])
  {
    hide Frame;
    var n := |Frame(rest[0])|;
    assert Frames(rest)[n..] == Frames(rest[1..]);
    assert have == Frames(rest)[..|have|];
  }

  lemma EmptyStream(have: seq<Byte>)
    requires have <= Frames([])
    ensures have == []
  {}

  /** Taking the header of the next message. */
  lemma HeaderTaken(r: Receiver, rest: seq<Body>)
    requires InStep(r, rest) && rest != []
    ensures var h, have := WithHeader(r), r.buf + r.waiting;
            && h.buf + h.waiting == have && h.dispatched == r.dispatched && h.aborted == r.aborted
            && |h.buf| <= |Frame(rest[0])|
            && (|h.buf| < 4 ==> h.buf == have && h.waiting == [] && |have| < 4)
            && (|h.buf| >= 4 ==> Size(h.buf) == |rest[0]|)
  {
    hide Frames, Taken, Size;
    var h, have := WithHeader(r), r.buf + r.waiting;
    TakenKeeps(r, 4);
    if |h.buf| >= 4 {
      assert h.buf[..4] == (h.buf + h.waiting)[..4] == have[..4];
      FirstOfStream(have, rest, 4);
      FrameFirst(rest[0], h.buf);
    }
  }

  /** Taking what is missing of its body. */
  lemma BodyTaken(h: Receiver, rest: seq<Body>)
    requires rest != [] && h.buf + h.waiting <= Frames(rest) && |h.buf| <= |Frame(rest[0])|
    ensures var b, have, f := WithBody(h, |rest[0]|), h.buf + h.waiting, |Frame(rest[0])|;
            && b.dispatched == h.dispatched && b.aborted == h.aborted
            && (|b.buf| < f ==> b.buf == have && b.waiting == [] && |have| < f)
            && (|b.buf| >= f ==>
                  |have| >= f && b.buf[4..] == rest[0] && b.waiting == have[f..] && have[f..] <= Frames(rest[1..]))
  {
    hide Frames, Taken;
    var b, have, f := WithBody(h, |rest[0]|), h.buf + h.waiting, |Frame(rest[0])|;
    TakenKeeps(h, f - |h.buf|);
    assert b.buf + b.waiting == have;
    if |b.buf| >= f {
      FirstOfStream(have, rest, f);
      assert b.buf == have[..f] == Frame(rest[0]);
      BehindFirst(have, rest);
    } else {
      assert b.waiting == [] && b.buf + [] == b.buf;
    }
  }

  /** One turn of the polling loop. */
  lemma PollOnce(r: Receiver, rest: seq<Body>)
    requires InStep(r, rest) && rest != []
    ensures var have, f := r.buf + r.waiting, |Frame(rest[0])|;
            if |have| < f then Poll(r) == Receiver(have, [], r.dispatched, r.aborted)
            else
              var next := Receiver([], have[f..], r.dispatched + [rest[0]], r.aborted);
              Poll(r) == Poll(next) && InStep(next, rest[1..])
  {
    HeaderTaken(r, rest);
    var have, h, f := r.buf + r.waiting, WithHeader(r), |Frame(rest[0])|;
    BodyTaken(h, rest);
    hide Frames, WithHeader, WithBody, Size, InStep;
    if |have| >= f {
      NextInStep(Receiver([], have[f..], r.dispatched + [rest[0]], r.aborted), rest[1..]);
    }
  }

  /** `after` has dispatched exactly the complete messages, and kept the rest of the bytes. */
  ghost predicate Dispatched(r: Receiver, rest: seq<Body>, after: Receiver) {
    var have := r.buf + r.waiting;
    var k, left := Complete(rest, |have|), Left(rest, |have|);
    after == Receiver(have[|have| - left..], [], r.dispatched + rest[..k], r.aborted)
  }

  lemma DispatchedOneMore(r: Receiver, rest: seq<Body>, after: Receiver)
    requires rest != [] && |r.buf + r.waiting| >= |Frame(rest[0])|
    requires Dispatched(Receiver([], (r.buf + r.waiting)[|Frame(rest[0])|..], r.dispatched + [rest[0]], r.aborted),
      rest[1..], after)
    ensures Dispatched(r, rest, after)
  {
    var have, f := r.buf + r.waiting, |Frame(rest[0])|;
    var k, left := Complete(rest[1..], |have| - f), Left(rest[1..], |have| - f);
    CompleteStep(rest, |have|);
    assert |have[f..]| == |have| - f;
    hide Complete, Left, Frame;
    DispatchedFields(have[f..], rest[1..], k, left, r.dispatched + [rest[0]], r.aborted, after);
    DispatchedMore(r.dispatched, rest, k);
    SameTail(have, f, left);
  }

  lemma DispatchedFields(have: seq<Byte>, rest: seq<Body>, k: nat, left: nat, done: seq<seq<Byte>>, aborted: bool,
                         after: Receiver)
    requires k == Complete(rest, |have|) && left == Left(rest, |have|)
    requires Dispatched(Receiver([], have, done, aborted), rest, after)
    ensures after == Receiver(have[|have| - left..], [], done + rest[..k], aborted)
  {
    hide Complete, Left;
    assert [] + have == have;
  }

  lemma SameTail(have: seq<Byte>, f: nat, left: nat)
    requires f + left <= |have|
    ensures have[f..][|have| - f - left..] == have[|have| - left..]
  {}

  lemma DispatchedNone(r: Receiver, rest: seq<Body>)
    requires rest == [] || |r.buf + r.waiting| < |Frame(rest[0])|
    ensures Dispatched(r, rest, Receiver(r.buf + r.waiting, [], r.dispatched, r.aborted))
  {
    var have := r.buf + r.waiting;
    assert have[0..] == have && rest[..0] == [] && r.dispatched + [] == r.dispatched;
  }

  /** One poll dispatches exactly the complete messages, and keeps the rest of the bytes. */
  lemma {:induction false} PollDispatches(r: Receiver, rest: seq<Body>)
    requires InStep(r, rest)
    ensures Dispatched(r, rest, Poll(r))
    decreases rest
  {
    hide *;
    var have := r.buf + r.waiting;
    if rest == [] {
      PollNothing(r);
      DispatchedNone(r, rest);
    } else {
      PollOnce(r, rest);
      if |have| >= |Frame(rest[0])| {
        PollDispatches(Receiver([], have[|Frame(rest[0])|..], r.dispatched + [rest[0]], r.aborted), rest[1..]);
        DispatchedOneMore(r, rest, Poll(r));
      } else {
        DispatchedNone(r, rest);
      }
    }
  }

  lemma PollNothing(r: Receiver)
    requires InStep(r, [])
    ensures r.buf + r.waiting == [] && Poll(r) == Receiver([], [], r.dispatched, r.aborted)
    ensures Complete([], 0) == 0 && Left([], 0) == 0
  {
    EmptyStream(r.buf + r.waiting);
    assert r.buf == [] && r.waiting == [];
    hide Poll;
    NothingToPoll(r);
  }

  lemma NothingToPoll(r: Receiver)
    requires r.buf == [] && r.waiting == []
    ensures Poll(r) == r
  {
    assert r.waiting[..0] == [];
  }

  lemma CompleteStep(rest: seq<Body>, n: nat)
    requires rest != []
    ensures var f := |Frame(rest[0])|;
            if n < f then Complete(rest, n) == 0 && Left(rest, n) == n
            else Complete(rest, n) == 1 + Complete(rest[1..], n - f) && Left(rest, n) == Left(rest[1..], n - f)
  {
    hide Frame;
  }

  lemma DispatchedMore(done: seq<seq<Byte>>, rest: seq<Body>, k: nat)
    requires rest != [] && k < |rest|
    ensures done + [rest[0]] + rest[1..][..k] == done + rest[..k + 1]
  {
    assert rest[..k + 1] == [rest[0]] + rest[1..][..k];
  }

  lemma NextInStep(r: Receiver, rest: seq<Body>)
    requires r.buf == [] && r.waiting <= Frames(rest)
    ensures InStep(r, rest)
  {
    assert [] + r.waiting == r.waiting;
  }

  // ------------------------------------------------------------ a run of polls

  /** The receiver after a poll for each chunk that arrives. */
  function Polled(chunks: seq<seq<Byte>>): Receiver {
    if chunks == [] then Receiver([], [], [], false)
    else
      var r := Polled(chunks[..|chunks| - 1]);
      Poll(r.(waiting := r.waiting + chunks[|chunks| - 1]))
  }

  lemma FramesStep(ms: seq<Body>)
    requires ms != []
    ensures Frames(ms) == Frame(ms[0]) + Frames(ms[1..])
  {}

  lemma SplitLater(ms: seq<Body>, k: nat)
    requires ms != [] && k < |ms|
    requires Frames(ms[1..]) == Frames(ms[1..][..k]) + Frames(ms[1..][k..])
    ensures ms[1..][k..] == ms[k + 1..]
    ensures |Frames(ms[..k + 1])| == |Frame(ms[0])| + |Frames(ms[1..][..k])|
    ensures Frames(ms) == Frames(ms[..k + 1]) + Frames(ms[k + 1..])
  {
    hide Frame, Frames;
    var whole, rest := ms[..k + 1], ms[1..];
    assert whole[0] == ms[0] && whole[1..] == rest[..k];
    FramesStep(ms);
    FramesStep(whole);
    assert rest[k..] == ms[k + 1..];
    assert Frame(ms[0]) + (Frames(rest[..k]) + Frames(rest[k..]))
      == Frame(ms[0]) + Frames(rest[..k]) + Frames(rest[k..]);
  }

  /** The stream splits behind the complete messages. */
  lemma {:induction false} FramesSplit(ms: seq<Body>, n: nat)
    requires n <= |Frames(ms)|
    ensures |Frames(ms[..Complete(ms, n)])| == n - Left(ms, n)
    ensures Frames(ms) == Frames(ms[..Complete(ms, n)]) + Frames(ms[Complete(ms, n)..])
    ensures Left(ms, n) > 0 ==> Complete(ms, n) < |ms|
    decreases ms
  {
    NoneComplete(ms, n);
    hide *;
    if ms != [] {
      CompleteStep(ms, n);
      FramesStep(ms);
      if n >= |Frame(ms[0])| {
        var f := |Frame(ms[0])|;
        FramesSplit(ms[1..], n - f);
        SplitLater(ms, Complete(ms[1..], n - f));
      }
    }
  }

  lemma NoneComplete(ms: seq<Body>, n: nat)
    requires n <= |Frames(ms)|
    ensures ms == [] ==> Complete(ms, n) == 0 && Left(ms, n) == 0
    ensures Frames(ms[..0]) == [] && Frames(ms) == Frames(ms[..0]) + Frames(ms[0..])
  {
    assert ms[..0] == [] && ms[0..] == ms;
    assert [] + Frames(ms) == Frames(ms);
  }

  /** Counting goes on behind what was counted. */
  lemma {:induction false} CompleteAdds(ms: seq<Body>, n: nat, more: nat)
    ensures n >= Left(ms, n) && Complete(ms, n) <= |ms|
    ensures Complete(ms, n + more) == Complete(ms, n) + Complete(ms[Complete(ms, n)..], Left(ms, n) + more)
    ensures Left(ms, n + more) == Left(ms[Complete(ms, n)..], Left(ms, n) + more)
  {
    CompleteOfNone(n);
    CompleteOfNone(n + more);
    hide *;
    assert ms[0..] == ms;
    if ms != [] {
      CompleteStep(ms, n);
      if n >= |Frame(ms[0])| {
        var f, rest := |Frame(ms[0])|, ms[1..];
        CompleteStep(ms, n + more);
        CompleteAdds(rest, n - f, more);
        SameRest(ms, Complete(rest, n - f));
      }
    }
  }

  lemma SameRest(ms: seq<Body>, k: nat)
    requires k < |ms|
    ensures ms[1..][k..] == ms[k + 1..]
  {}

  lemma CompleteOfNone(n: nat)
    ensures Complete([], n) == 0 && Left([], n) == n
  {}

  /** The receiver stands behind the complete messages of the first `n` bytes. */
  ghost predicate Behind(r: Receiver, ms: seq<Body>, stream: seq<Byte>, n: nat) {
    && n <= |stream|
    && Left(ms, n) <= n && Complete(ms, n) <= |ms|
    && r == Receiver(stream[n - Left(ms, n)..n], [], ms[..Complete(ms, n)], false)
  }

  /** One more chunk: still in step if no header was chopped before. */
  lemma ChunkPolled(r: Receiver, ms: seq<Body>, n: nat, chunk: seq<Byte>)
    requires Behind(r, ms, Frames(ms), n) && HeaderWhole(ms, n)
    requires n + |chunk| <= |Frames(ms)| && Frames(ms)[n..n + |chunk|] == chunk
    ensures Behind(Poll(r.(waiting := chunk)), ms, Frames(ms), n + |chunk|)
  {
    hide Poll, Frame, Complete, Left, Frames, InStep;
    hide HeaderWhole;
    var k, left, r1 := Complete(ms, n), Left(ms, n), r.(waiting := chunk);
    FramesSplit(ms, n);
    BehindFrames(Frames(ms), Frames(ms[..k]), Frames(ms[k..]));
    CompleteAdds(ms, n, |chunk|);
    TakenSoFar(Frames(ms), Frames(ms[k..]), n, left, chunk);
    ReadyForMore(r1, ms, n);
    PollDispatches(r1, ms[k..]);
    BehindMore(r1, ms, n, |chunk|);
  }

  lemma BehindFrames(whole: seq<Byte>, first: seq<Byte>, rest: seq<Byte>)
    requires whole == first + rest
    ensures whole[|first|..] == rest
  {}

  lemma TakenSoFar(stream: seq<Byte>, rest: seq<Byte>, n: nat, left: nat, chunk: seq<Byte>)
    requires left <= n && n + |chunk| <= |stream| && stream[n..n + |chunk|] == chunk && stream[n - left..] == rest
    ensures stream[n - left..n] + chunk == stream[n - left..n + |chunk|] <= rest
  {
    assert stream[n - left..n + |chunk|] == stream[n - left..n] + stream[n..n + |chunk|];
    assert stream[n - left..n + |chunk|] == stream[n - left..][..left + |chunk|];
  }

  lemma ReadyForMore(r: Receiver, ms: seq<Body>, n: nat)
    requires n <= |Frames(ms)| && HeaderWhole(ms, n) && |r.buf| == Left(ms, n) && Complete(ms, n) <= |ms|
    requires r.buf + r.waiting <= Frames(ms[Complete(ms, n)..])
    ensures InStep(r, ms[Complete(ms, n)..])
  {
    FramesSplit(ms, n);
    LeftIsShort(ms, n);
    hide Frames, Complete, Left, Frame;
  }

  lemma {:induction false} LeftIsShort(ms: seq<Body>, n: nat)
    ensures Complete(ms, n) < |ms| ==> Left(ms, n) < |Frame(ms[Complete(ms, n)])|
    decreases ms
  {
    if ms != [] {
      CompleteStep(ms, n);
      hide *;
      if n >= |Frame(ms[0])| {
        LeftIsShort(ms[1..], n - |Frame(ms[0])|);
      }
    }
  }

  lemma BehindMore(r: Receiver, ms: seq<Body>, n: nat, more: nat)
    requires n + more <= |Frames(ms)| && !r.aborted
    requires Left(ms, n) <= n && Complete(ms, n) <= |ms| && r.dispatched == ms[..Complete(ms, n)]
    requires r.buf + r.waiting == Frames(ms)[n - Left(ms, n)..n + more]
    requires var k, left, have := Complete(ms, n), Left(ms, n), r.buf + r.waiting;
             && Left(ms, n + more) == Left(ms[k..], left + more)
               && Complete(ms, n + more) == k + Complete(ms[k..], left + more)
             && Poll(r) == Receiver(have[|have| - Left(ms[k..], |have|)..], [],
               r.dispatched + ms[k..][..Complete(ms[k..], |have|)], r.aborted)
    ensures Behind(Poll(r), ms, Frames(ms), n + more)
  {
    hide Frames, Complete, Left, Poll;
    var k, left, have, stream := Complete(ms, n), Left(ms, n), r.buf + r.waiting, Frames(ms);
    assert |have| == left + more;
    var k1, left1 := Complete(ms[k..], left + more), Left(ms[k..], left + more);
    assert ms[..k] + ms[k..][..k1] == ms[..k + k1];
    assert have[|have| - left1..] == stream[n + more - left1..n + more];
  }

  /** The first `i` cuts between chunks fall into no header. */
  ghost predicate NoneChopped(ms: seq<Body>, chunks: seq<seq<Byte>>, i: nat)
    requires i <= |chunks| + 1
  {
    forall j | 0 <= j < i :: HeaderWhole(ms, |Joined(chunks[..j])|)
  }

  /** Up to the first chopped header, exactly the complete messages have been dispatched. */
  lemma {:induction false} PolledInStep(ms: seq<Body>, chunks: seq<seq<Byte>>)
    requires Joined(chunks) <= Frames(ms) && NoneChopped(ms, chunks, |chunks|)
    ensures Behind(Polled(chunks), ms, Frames(ms), |Joined(chunks)|)
    decreases |chunks|
  {
    hide Poll, Complete, Left, HeaderWhole, Frames;
    var stream := Frames(ms);
    if chunks == [] {
      NothingComplete(ms);
    } else {
      var n := |chunks| - 1;
      var before, chunk := chunks[..n], chunks[n];
      assert Joined(before) <= Joined(chunks);
      assert forall j | 0 <= j <= n :: before[..j] == chunks[..j];
      PolledInStep(ms, before);
      assert Joined(chunks) == stream[..|Joined(chunks)|];
      assert stream[|Joined(before)|..|Joined(chunks)|] == chunk;
      assert [] + chunk == chunk;
      ChunkPolled(Polled(before), ms, |Joined(before)|, chunk);
    }
  }

  lemma NothingComplete(ms: seq<Body>)
    ensures Behind(Receiver([], [], [], false), ms, Frames(ms), 0)
  {}

  /** A receiver that took part of a header never gets on. */
  lemma {:induction false} ChoppedStalls(chunks: seq<seq<Byte>>, i: nat)
    requires i <= |chunks| && 1 <= |Polled(chunks[..i]).buf| <= 3
    ensures Polled(chunks).dispatched == Polled(chunks[..i]).dispatched && Polled(chunks).buf == Polled(chunks[..i]).buf
    decreases |chunks|
  {
    hide Poll;
    if i == |chunks| {
      assert chunks[..i] == chunks;
    } else {
      var n := |chunks| - 1;
      assert chunks[..n][..i] == chunks[..i];
      ChoppedStalls(chunks[..n], i);
      var r := Polled(chunks[..n]);
      StalledPoll(r.(waiting := r.waiting + chunks[n]));
    }
  }

  lemma StalledPoll(r: Receiver)
    requires 1 <= |r.buf| <= 3
    ensures Poll(r) == r
  {}

  /** However the stream is cut into chunks, the messages dispatched are the first ones, in order and none twice. */
  lemma DispatchedIsPrefix(ms: seq<Body>, chunks: seq<seq<Byte>>, i: nat)
    requires Joined(chunks) <= Frames(ms) && i <= |chunks|
    requires NoneChopped(ms, chunks, i) && (i < |chunks| ==> !HeaderWhole(ms, |Joined(chunks[..i])|))
    ensures Complete(ms, |Joined(chunks[..i])|) <= |ms|
    ensures Polled(chunks).dispatched == ms[..Complete(ms, |Joined(chunks[..i])|)]
  {
    hide Frames, Polled, Complete, Left;
    FlatPrefix(chunks, i);
    assert forall j | 0 <= j < i :: chunks[..i][..j] == chunks[..j];
    PolledInStep(ms, chunks[..i]);
    if i < |chunks| {
      ChoppedStalls(chunks, i);
    } else {
      assert chunks[..i] == chunks;
    }
  }

  lemma {:induction false} FlatPrefix(chunks: seq<seq<Byte>>, i: nat)
    requires i <= |chunks|
    ensures Joined(chunks[..i]) <= Joined(chunks)
    decreases |chunks|
  {
    if i < |chunks| {
      assert chunks[..|chunks| - 1][..i] == chunks[..i];
      FlatPrefix(chunks[..|chunks| - 1], i);
    } else {
      assert chunks[..i] == chunks;
    }
  }

  /** All messages get through exactly when every header arrives whole. */
  lemma AllDispatchedIff(ms: seq<Body>, chunks: seq<seq<Byte>>)
    requires Joined(chunks) == Frames(ms)
    ensures Polled(chunks).dispatched == ms <==> NoneChopped(ms, chunks, |chunks| + 1)
  {
    AllComplete(ms);
    hide Frames, Polled, Complete, Left, Joined;
    assert chunks[..|chunks|] == chunks;
    if NoneChopped(ms, chunks, |chunks| + 1) {
      DispatchedIsPrefix(ms, chunks, |chunks|);
    } else {
      var i := FirstChopped(ms, chunks, |chunks|);
      assert i < |chunks|;
      DispatchedIsPrefix(ms, chunks, i);
      FlatPrefix(chunks, i);
      FramesSplit(ms, |Joined(chunks[..i])|);
    }
  }

  lemma {:induction false} AllComplete(ms: seq<Body>)
    ensures Complete(ms, |Frames(ms)|) == |ms| && Left(ms, |Frames(ms)|) == 0
  {
    if ms != [] {
      AllComplete(ms[1..]);
    }
  }

  lemma FirstChopped(ms: seq<Body>, chunks: seq<seq<Byte>>, n: nat) returns (i: nat)
    requires n <= |chunks| && !NoneChopped(ms, chunks, n + 1)
    ensures i <= n && NoneChopped(ms, chunks, i) && !HeaderWhole(ms, |Joined(chunks[..i])|)
  {
    hide HeaderWhole, Joined;
    i := 0;
    while HeaderWhole(ms, |Joined(chunks[..i])|)
      invariant i <= n && NoneChopped(ms, chunks, i)
      decreases n - i
    {
      i := i + 1;
    }
  }

  // ------------------------------------------------------------ the polling loop in place

  /** The message being received lies in the first `cursize` bytes of `data`. */
  class Connection {
    const data: array<Byte>
    var cursize: nat
    var waiting: seq<Byte>
    var dispatched: seq<seq<Byte>>
    var aborted: bool

    ghost predicate Valid()
      reads this
    {
      data.Length == MAX_MESSAGE && cursize <= MAX_MESSAGE
    }

    ghost function State(): Receiver
      requires Valid()
      reads this, data
    {
      Receiver(data[..cursize], waiting, dispatched, aborted)
    }

    constructor ()
      ensures Valid() && State() == Polled([]) && fresh(data)
    {
      data := new Byte[MAX_MESSAGE](i => 0);
      cursize, waiting, dispatched, aborted := 0, [], [], false;
    }

    /** Takes up to `n` bytes out of the transport, behind those already there. */
    method Receive(n: nat)
      requires Valid() && cursize + n <= MAX_MESSAGE
      modifies this`cursize, this`waiting, data
      ensures Valid() && State() == Taken(old(State()), n)
    {
      var k, at, source := Min(n, |waiting|), cursize, waiting;
      ghost var was := data[..at];
      for i := 0 to k
        invariant cursize == at && waiting == source
        invariant data[..at] == was && data[at..at + i] == source[..i]
      {
        data[at + i] := source[i];
      }
      assert data[..at + k] == data[..at] + data[at..at + k];
      cursize := at + k;
      waiting := source[k..];
    }

    /** The length in front of the message. */
    method ReadLong() returns (n: int)
      requires Valid()
      ensures n == if cursize < 4 then -1 else Size(data[..cursize])
    {
      if 4 > cursize {
        return -1;
      }
      return Size(data[..4]);
    }

    /** Takes the header of the next message, if it has not been taken. */
    method TakeHeader()
      requires Valid()
      modifies this`cursize, this`waiting, data
      ensures Valid() && State() == WithHeader(old(State()))
    {
      hide Taken;
      if cursize < 1 {
        Receive(4);
      }
    }

    /** Takes what is missing of a message of `size` bytes. */
    method TakeBody(size: nat)
      requires Valid() && size + 4 <= MAX_MESSAGE
      modifies this`cursize, this`waiting, data
      ensures Valid() && State() == WithBody(old(State()), size)
    {
      hide Taken;
      if cursize < size + 4 {
        Receive(size + 4 - cursize);
      }
    }

    /** One turn: dispatches a message if a whole one can be had. */
    method Turn() returns (again: bool)
      requires Valid()
      modifies this, data
      ensures Valid()
      ensures if again then Poll(State()) == Poll(old(State()))
        && |State().buf| + |State().waiting| < |old(State()).buf| + |old(State()).waiting|
              else State() == Poll(old(State()))
    {
      hide Size, WithHeader, WithBody;
      TakeHeader();
      if cursize < 1 {
        return false;
      }
      var messagesize := ReadLong();
      if messagesize < 0 {
        return false;
      }
      if messagesize + 4 > MAX_MESSAGE {
        aborted := true;
        return false;
      }
      TakeBody(messagesize);
      if cursize < messagesize + 4 {
        return false;
      }
      assert State().buf[4..] == data[4..cursize];
      dispatched := dispatched + [data[4..cursize]];
      cursize := 0;
      return true;
    }

    /** Receives and dispatches; nothing happens unless the client is connected. */
    method ReceiveReliableMessages(connected: bool)
      requires Valid()
      modifies this, data
      ensures Valid() && State() == if connected then Poll(old(State())) else old(State())
    {
      if !connected {
        return;
      }
      hide Poll;
      ghost var start := State();
      var again := true;
      while again
        invariant Valid()
        invariant if again then Poll(State()) == Poll(start) else State() == Poll(start)
        decreases again, |State().buf| + |State().waiting|
      {
        again := Turn();
      }
    }
  }
}
