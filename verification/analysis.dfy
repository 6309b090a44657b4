/**
 This module models the correctness part of main: both counters run on the
 same sample array and their triples are compared for exact equality,
 which aborts the program if it ever fails.
 */
module Analysis {
  import opened Counting
  import opened Parallel
  import opened Chunking

  /** The worker count main hands to the parallel counter. */
  const ThreadCount: nat := 4

  /**
   Runs the sequential counter and then the parallel counter with
   ThreadCount workers on the same array. The two triples are always
   equal, so the equality check in main never fires, and both account for
   every element of the array.
   */
  method RunAndCompare(data: seq<I32>) returns (single: Triple, multi: Triple)
    ensures single == multi
    ensures single == Count(data)
    ensures single.Total() == |data|
  {
    var zs, ps, ns := CountElementsSingle(data);
    single := Triple(zs, ps, ns);
    var zm, pm, nm := CountElementsMulti(data, ThreadCount);
    multi := Triple(zm, pm, nm);
  }

  /** A sample array [-5, -3, 0, 2, 7]: two negatives, one zero, two positives. */
  predicate IsSample(s: seq<I32>) {
    |s| == 5 && s[0] == -5 && s[1] == -3 && s[2] == 0 && s[3] == 2 && s[4] == 7
  }

  /**
   The indices in each bucket of the sample: index 2 holds the zero,
   indices 3 and 4 the positives, indices 0 and 1 the negatives.
   */
  lemma SampleMembers(s: seq<I32>)
    requires IsSample(s)
    ensures Members(s, Zeros) == {2}
    ensures Members(s, Positives) == {3, 4}
    ensures Members(s, Negatives) == {0, 1}
  {
  }

  /** The sequential count of the sample: one zero, two positives, two negatives. */
  lemma SampleCount(s: seq<I32>)
    requires IsSample(s)
    ensures Count(s) == Triple(1, 2, 2)
  {
    SampleMembers(s);
    CountIsMembership(s, Zeros);
    CountIsMembership(s, Positives);
    CountIsMembership(s, Negatives);
  }

  /**
   Five elements on two workers: the chunks are [0, 2) and [2, 5), the
   second absorbing the remainder.
   */
  lemma SampleChunks(s: seq<I32>)
    requires IsSample(s)
    ensures ChunkRange(|s|, 2, 0) == Range(0, 2) && ChunkRange(|s|, 2, 1) == Range(2, 5)
  {
    assert Offset(1, ChunkSize(|s|, 2)) == 2;
  }

  /**
   The array [-5, -3, 0, 2, 7] on two workers: both counters report one
   zero, two positives and two negatives.
   */
  lemma FiveOnTwo(s: seq<I32>)
    requires IsSample(s)
    ensures Count(s) == CountMulti(s, 2) == Triple(1, 2, 2)
  {
    SampleCount(s);
    ResultsMatch(s, 2);
  }

  /** An array of zeros counts as all zeros. */
  lemma {:induction false} ZerosOnly(data: seq<I32>)
    requires forall i :: 0 <= i < |data| ==> data[i] == 0
    ensures Count(data) == Triple(|data|, 0, 0)
  {
    if |data| > 0 {
      var init := data[..|data| - 1];
      assert forall i :: 0 <= i < |init| ==> init[i] == data[i];
      ZerosOnly(init);
    }
  }

  /** An array of zeros counts as all zeros for every worker count, whatever the chunks. */
  lemma AllZeros(data: seq<I32>, k: nat)
    requires forall i :: 0 <= i < |data| ==> data[i] == 0
    requires 1 <= k
    ensures CountMulti(data, k) == Triple(|data|, 0, 0)
  {
    ZerosOnly(data);
    ResultsMatch(data, k);
  }
}
