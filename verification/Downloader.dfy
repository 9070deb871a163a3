/**
 The download receiver in place.  Files are their contents; the checksums are computed by
 the table-driven loop of module Crc32.
 */
module Downloader {
  import opened Common
  import opened Crc32
  import opened DownloadX

  class Receiver {
    const table: seq<seq<bv32>>
    var temp: Option<Contents>
    var cache: Option<Contents>
    var final: Option<Contents>
    var named: bool
    var open: bool
    var size: int
    var count: nat
    var cacheEof: bool
    var sums: Sums

    ghost predicate Valid()
      reads this
    {
      IsLookupTable(table) && (open ==> temp.Some?)
    }

    ghost function Value(): State
      reads this
    {
      State(temp, cache, final, named, open, size, count, cacheEof, sums)
    }

    constructor (there: Option<Contents>, leftOver: Option<Contents>)
      ensures Valid() && final == there && temp == leftOver && !open && count == 0 && named && Booked(Value())
    {
      var lookup := BuildLookup();
      table := lookup;
      temp, cache, final := leftOver, None, there;
      named, open, size, count, cacheEof := true, false, 0, 0, false;
      sums := Sums(0, NoSums(), 0);
    }

    /** The checksum of a buffer, continued from `previous`. */
    method Crc(data: Contents, previous: bv32) returns (crc: bv32)
      requires Valid()
      ensures crc == Checksum(data, previous)
    {
      var buffer := new bv8[|data|](i requires 0 <= i < |data| => data[i]);
      assert buffer[..|data|] == data;
      crc := Crc32SixteenBytes(table, buffer, |data|, previous);
    }

    /** Reads the temporary file in chunks, 255 at most. */
    method VerifyFinal() returns (ok: bool)
      requires Valid() && temp.Some?
      ensures ok <==> Verified(temp.value, sums.sum)
    {
      hide Checksum;
      var crc: bv32, at: nat := 0, 0;
      var i := 0;
      assert temp.value[0..] == temp.value;
      while i < MAX_CHUNKS
        invariant 0 <= i <= MAX_CHUNKS && at <= |temp.value|
        invariant ChunkedSum(temp.value[at..], MAX_CHUNKS - i, crc) == ChunkedSum(temp.value, MAX_CHUNKS, 0)
      {
        var readbytes := Min(CHUNK, |temp.value| - at);
        if readbytes < 1 {
          break;
        }
        assert temp.value[at..][..readbytes] == temp.value[at..at + readbytes];
        assert temp.value[at..][readbytes..] == temp.value[at + readbytes..];
        crc := Crc(temp.value[at..at + readbytes], crc);
        at := at + readbytes;
        i := i + 1;
      }
      return crc == sums.sum;
    }

    /** Tries the next segment in the cache file. */
    method SegmentFromCache() returns (r: Segment)
      requires Valid()
      ensures r == DownloadX.CacheSegment(Value())
    {
      if cache.None? || |cache.value| < CHUNK + count {
        return Eof;
      }
      if count / CHUNK >= SEGMENT_SUMS {
        return NoSum;
      }
      var data := cache.value[count..count + CHUNK];
      var crc := Crc(data, 0);
      return if crc == sums.segments[count / CHUNK] then Good(data) else Bad;
    }

    /** Copies segments out of the cache until one is missing or bad. */
    method GetNextSegment() returns (outcome: Outcome, done: bool)
      requires Valid() && open
      modifies this`temp, this`count, this`cacheEof
      ensures Valid() && (Value(), outcome, done) == DownloadX.GetNextSegment(old(Value()))
    {
      hide CacheSegment;
      if size == count {
        return Waiting, true;
      }
      ghost var start := Value();
      while !cacheEof
        invariant Valid() && open && Writing(Value())
        invariant NextSegment(Value()) == NextSegment(start)
        decreases !cacheEof, if cache.Some? then Max0(|cache.value| - count) else 0
      {
        var segment := SegmentFromCache();
        match segment
        case Eof =>
          cacheEof := true;
        case Bad =>
          return Requested(count, CHUNK), false;
        case NoSum =>
          return OutOfBounds, false;
        case Good(data) =>
          temp := Some(temp.value + data);
          count := count + |data|;
      }
      var remaining := size - count;
      if remaining > 0 {
        return Requested(count, remaining), false;
      }
      return Waiting, true;
    }

    method Close()
      modifies this`open
      ensures Value() == Closed(old(Value()))
    {
      open := false;
    }

    /** All bytes are there: the check decides. */
    method Finish(restart: bool) returns (outcome: Outcome)
      requires Valid() && temp.Some?
      modifies this
      ensures Valid() && (Value(), outcome) == DownloadX.Finish(old(Value()), restart)
    {
      hide Verified;
      Close();
      cache := None;
      if |temp.value| < 1 {
        return Dropped;
      }
      var ok := VerifyFinal();
      if ok {
        final := temp;
        temp := None;
        return Installed;
      }
      if !restart {
        return Dropped;
      }
      Begin();
      return Restarted;
    }

    /** Asks for the file from the beginning. */
    method Begin()
      modifies this`named, this`count
      ensures Value() == Begun(old(Value()))
    {
      named := true;
      count := 0;
    }

    method ReadOn(restart: bool) returns (outcome: Outcome)
      requires Valid() && open
      modifies this
      ensures Valid() && (Value(), outcome) == DownloadX.ReadOn(old(Value()), restart)
    {
      hide DownloadX.GetNextSegment, DownloadX.Finish;
      GetNextSegmentKeeps(Value());
      var done;
      outcome, done := GetNextSegment();
      if outcome.OutOfBounds? || count != size {
        return;
      }
      if done {
        outcome := Finish(restart);
        return;
      }
      Close();
      if !restart {
        return Dropped;
      }
      Begin();
      return Restarted;
    }

    /** The server announces the file. */
    method ParseFileInit(filesize: int, info: Option<Sums>, rightName: bool, created: bool) returns (outcome: Outcome)
      requires Valid()
      modifies this
      ensures Valid() && (Value(), outcome) == OnFileInit(old(Value()), FileInit(filesize, info, rightName, created))
    {
      hide DownloadX.ReadOn;
      if info.None? {
        return Dropped;
      }
      sums := info.value;
      if filesize != sums.length || !rightName {
        return Dropped;
      }
      if open {
        Close();
        return Dropped;
      }
      if !named {
        return Stopped;
      }
      cache := temp;
      temp := None;
      if !created {
        return Dropped;
      }
      temp := Some([]);
      open := true;
      if sums.length < 1 {
        Close();
        return Dropped;
      }
      size := sums.length;
      cacheEof := false;
      outcome := ReadOn(false);
    }

    /** A block of the file; an empty one ends what was asked for. */
    method ParseBlock(filepos: int, data: Contents, written: bool) returns (outcome: Outcome)
      requires Valid()
      modifies this
      ensures Valid() && (Value(), outcome) == OnBlock(old(Value()), Block(filepos, data, written))
    {
      hide DownloadX.ReadOn;
      if !open {
        return Dropped;
      }
      if filepos != count {
        Close();
        return Dropped;
      }
      if |data| > 0 {
        if count + |data| > size || !written {
          Close();
          return Dropped;
        }
        temp := Some(temp.value + data);
        count := count + |data|;
        return Waiting;
      }
      outcome := ReadOn(true);
    }
  }
}
