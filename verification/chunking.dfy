/**
 This module models how the parallel counter splits the index range
 [0, len) of the sample array among K workers: every chunk but the last
 has len / K elements, and the last chunk runs from (K - 1) * (len / K)
 to the end, absorbing the remainder.
 */
module Chunking {

  /** A half-open index range [lo, hi). */
  datatype Range = Range(lo: nat, hi: nat) {

    predicate Contains(x: int) {
      lo <= x < hi
    }

    function Length(): int {
      hi - lo
    }
  }

  /** The length of every chunk but the last; the divisor must not be zero. */
  function ChunkSize(len: nat, k: nat): (cs: nat)
    requires 1 <= k
    ensures cs * k <= len < (cs + 1) * k
    ensures len < k ==> cs == 0
  {
    len / k
  }

  /**
   The first index of chunk i when the chunks have size cs, that is
   i * cs, written as a running sum so that induction over i is direct;
   OffsetIsProduct shows it equals the product the code computes.
   */
  function Offset(i: nat, cs: nat): nat {
    if i == 0 then 0 else Offset(i - 1, cs) + cs
  }

  /** The running sum is the product `count_elements_multi` computes. */
  lemma {:induction false} OffsetIsProduct(i: nat, cs: nat)
    ensures Offset(i, cs) == i * cs
  {
    if i > 0 {
      OffsetIsProduct(i - 1, cs);
      assert i * cs == (i - 1) * cs + cs;
    }
  }

  /** Offsets grow with the chunk index. */
  lemma {:induction false} OffsetMono(i: nat, j: nat, cs: nat)
    requires i <= j
    ensures Offset(i, cs) <= Offset(j, cs)
  {
    if i < j {
      OffsetMono(i, j - 1, cs);
    }
  }

  /** The k chunks of size len / k fit in len, leaving exactly len % k over. */
  lemma SizesFit(len: nat, k: nat)
    requires 1 <= k
    ensures Offset(k, ChunkSize(len, k)) <= len
    ensures len - Offset(k, ChunkSize(len, k)) == len % k
  {
    OffsetIsProduct(k, ChunkSize(len, k));
  }

  /** Index x lies in the stretch [q * cs, (q + 1) * cs) where q = x / cs. */
  lemma DivBracket(x: nat, cs: nat)
    requires 0 < cs
    ensures Offset(x / cs, cs) <= x < Offset(x / cs + 1, cs)
  {
    OffsetIsProduct(x / cs, cs);
    OffsetIsProduct(x / cs + 1, cs);
    assert (x / cs + 1) * cs == (x / cs) * cs + cs;
  }

  /**
   The index range of chunk i among k. Both slice expressions of
   `count_elements_multi` stay in bounds: the start never passes the end and the end never
   passes len, so neither slice can panic.
   */
  function ChunkRange(len: nat, k: nat, i: nat): (r: Range)
    requires 1 <= k && i < k
    ensures r.lo <= r.hi <= len
    ensures i < k - 1 ==> r.Length() == len / k
    ensures i == k - 1 ==> r.Length() == len / k + len % k
    ensures k == 1 ==> r == Range(0, len)
  {
    var cs := ChunkSize(len, k);
    assert Offset(i + 1, cs) <= Offset(k, cs) <= len && len - Offset(k, cs) == len % k by {
      SizesFit(len, k);
      OffsetMono(i + 1, k, cs);
    }
    if i == k - 1 then Range(Offset(i, cs), len) else Range(Offset(i, cs), Offset(i + 1, cs))
  }

  /**
   The chunks tile [0, len): the first starts at 0, each one ends where the
   next begins, and the last ends at len.
   */
  lemma ChunksContiguous(len: nat, k: nat)
    requires 1 <= k
    ensures ChunkRange(len, k, 0).lo == 0
    ensures ChunkRange(len, k, k - 1).hi == len
    ensures forall i: nat :: i + 1 < k ==> ChunkRange(len, k, i).hi == ChunkRange(len, k, i + 1).lo
  {
  }

  /** A chunk with a smaller index lies entirely before one with a larger index. */
  lemma ChunksOrdered(len: nat, k: nat, i: nat, j: nat)
    requires i < j < k
    ensures ChunkRange(len, k, i).hi <= ChunkRange(len, k, j).lo
  {
    OffsetMono(i + 1, j, ChunkSize(len, k));
  }

  /** No index belongs to two different chunks. */
  lemma ChunksDisjoint(len: nat, k: nat, i: nat, j: nat, x: int)
    requires i < k && j < k && i != j
    ensures !(ChunkRange(len, k, i).Contains(x) && ChunkRange(len, k, j).Contains(x))
  {
    if i < j {
      ChunksOrdered(len, k, i, j);
    } else {
      ChunksOrdered(len, k, j, i);
    }
  }

  /**
   The worker whose chunk holds index x: x / (len / K) for the equal-sized
   chunks, and the last worker for the remainder (or for everything, when
   len / K is zero). The chunk found is the only one that holds x, so the
   chunks cover [0, len) with no gap and no overlap.
   */
  function ChunkOf(len: nat, k: nat, x: nat): (i: nat)
    requires 1 <= k && x < len
    ensures i < k && ChunkRange(len, k, i).Contains(x)
    ensures forall j: nat :: j < k && ChunkRange(len, k, j).Contains(x) ==> j == i
  {
    var cs := ChunkSize(len, k);
    var i := if cs == 0 || x / cs >= k - 1 then k - 1 else x / cs;
    assert ChunkRange(len, k, i).Contains(x) by {
      if cs == 0 {
        OffsetIsProduct(k - 1, cs);
      } else {
        DivBracket(x, cs);
        OffsetMono(i, x / cs, cs);
      }
    }
    forall j: nat | j < k && ChunkRange(len, k, j).Contains(x)
      ensures j == i
    {
      if j != i {
        ChunksDisjoint(len, k, i, j, x);
      }
    }
    i
  }

  /**
   With more workers than elements the chunk size is zero and the last
   chunk is the whole array, so coverage stays complete.
   */
  lemma MoreWorkersThanElements(len: nat, k: nat)
    requires len < k
    ensures ChunkSize(len, k) == 0
    ensures ChunkRange(len, k, k - 1) == Range(0, len)
  {
    OffsetIsProduct(k - 1, 0);
  }

  /** With more workers than elements every chunk before the last is empty. */
  lemma LeadingChunksEmpty(len: nat, k: nat, i: nat)
    requires len < k && i < k - 1
    ensures ChunkRange(len, k, i).Length() == 0
  {
    assert ChunkSize(len, k) == 0;
  }
}
