/** What several parts of the client share. */
module Common {
  const MAX_STRING_CHARS := 1024
  const BIG_INFO_STRING := 8192

  datatype Option<T> = None | Some(value: T)

  /** What a file holds. */
  type Contents = seq<bv8>

  function Min(a: int, b: int): int { if a < b then a else b }

  /** A C string in memory: the characters from `p` up to the next zero. */
  function CStr(data: string, p: nat): (s: string)
    decreases |data| - p
  {
    if p >= |data| || data[p] == '\0' then "" else [data[p]] + CStr(data, p + 1)
  }

  /** Reads a string out of memory. */
  method StringAt(data: string, p: nat) returns (s: string)
    ensures s == CStr(data, p)
  {
    s := "";
    var q := p;
    while q < |data| && data[q] != '\0'
      invariant p <= q && s + CStr(data, q) == CStr(data, p)
    {
      s := s + [data[q]];
      q := q + 1;
    }
  }

  /** The parts of something, put together again. */
  function Joined<T>(parts: seq<seq<T>>): seq<T> {
    if parts == [] then [] else Joined(parts[..|parts| - 1]) + parts[|parts| - 1]
  }

  lemma {:induction false} JoinedFirst<T>(parts: seq<seq<T>>)
    requires parts != []
    ensures Joined(parts) == parts[0] + Joined(parts[1..])
  {
    var n := |parts| - 1;
    if n > 0 {
      assert parts[..n][1..] == parts[1..][..n - 1];
      JoinedFirst(parts[..n]);
    } else {
      assert parts[..n] == [] && parts[1..] == [];
    }
  }
}
