/** Cutting lists into pieces and joining them. */
module Pieces {

  function Take<T>(s: seq<T>, n: nat): seq<T> {
    if n <= |s| then s[..n] else s
  }

  /** The list cut into pieces of `limit`; an empty list is one empty piece. */
  function Chunks<T>(s: seq<T>, limit: nat): seq<seq<T>>
    requires limit > 0
  {
    if |s| <= limit then [s] else [s[..limit]] + Chunks(s[limit..], limit)
  }

  function Concat<T>(parts: seq<seq<T>>): seq<T> {
    if parts == [] then [] else parts[0] + Concat(parts[1..])
  }

  /** The pieces lose nothing and repeat nothing. */
  lemma {:induction false} ChunksCover<T>(s: seq<T>, limit: nat)
    requires limit > 0
    ensures Concat(Chunks(s, limit)) == s
  {
    if |s| <= limit {
      assert Concat([s]) == s + Concat<T>([]);
    } else {
      ChunksCover(s[limit..], limit);
      assert Chunks(s, limit)[1..] == Chunks(s[limit..], limit);
    }
  }

  lemma {:induction false} ConcatAppend<T>(parts: seq<seq<T>>, last: seq<T>)
    ensures Concat(parts + [last]) == Concat(parts) + last
  {
    if parts == [] {
      assert Concat([last]) == last + Concat<T>([]);
    } else {
      ConcatAppend(parts[1..], last);
      assert (parts + [last])[1..] == parts[1..] + [last];
    }
  }

  lemma {:induction false} InConcat<T>(parts: seq<seq<T>>, x: T)
    ensures x in Concat(parts) <==> exists k :: 0 <= k < |parts| && x in parts[k]
  {
    if parts != [] {
      var rest := parts[1..];
      InConcat(rest, x);
      assert forall k :: 0 <= k < |rest| ==> rest[k] == parts[k + 1];
      if k :| 0 <= k < |parts| && x in parts[k] {
        assert k > 0 ==> x in rest[k - 1];
      }
    }
  }
}
