/**
 This module models the parallel counter (count_elements_multi) without
 its threads. Each worker owns a private copy of its chunk and returns a
 triple, and the join loop folds those triples in spawn order, so the whole
 operation is a map of the sequential count over the chunks followed by a
 component-wise sum.
 */
module Parallel {
  import opened Counting
  import opened Chunking

  /** The slice of the sample array handed to worker i of k. */
  function Chunk(data: seq<I32>, k: nat, i: nat): (c: seq<I32>)
    requires 1 <= k && i < k
    ensures i < k - 1 ==> |c| == |data| / k
    ensures i == k - 1 ==> |c| == |data| / k + |data| % k
    ensures k == 1 ==> c == data
  {
    var r := ChunkRange(|data|, k, i);
    data[r.lo..r.hi]
  }

  /**
   The triples returned by the first n of k workers, in the order they
   were spawned: worker i returns the count of chunk i.
   */
  function Spawned(data: seq<I32>, k: nat, n: nat): (ps: seq<Triple>)
    requires 1 <= k && n <= k
    ensures |ps| == n
  {
    if n == 0 then [] else Spawned(data, k, n - 1) + [Count(Chunk(data, k, n - 1))]
  }

  /** Handle i, once spawned, yields the count of chunk i and of no other slice. */
  lemma {:induction false} WorkerResult(data: seq<I32>, k: nat, n: nat, i: nat)
    requires 1 <= k && i < n <= k
    ensures Spawned(data, k, n)[i] == Count(Chunk(data, k, i))
  {
    var earlier := Spawned(data, k, n - 1);
    var last := Count(Chunk(data, k, n - 1));
    assert Spawned(data, k, n) == earlier + [last];
    if i < n - 1 {
      WorkerResult(data, k, n - 1, i);
      assert (earlier + [last])[i] == earlier[i];
    } else {
      assert (earlier + [last])[i] == last;
    }
  }

  /** The triples all k workers return. */
  function Partials(data: seq<I32>, k: nat): (ps: seq<Triple>)
    requires 1 <= k
    ensures |ps| == k
    ensures forall i :: 0 <= i < k ==> ps[i] == Count(Chunk(data, k, i))
  {
    assert forall i :: 0 <= i < k ==> Spawned(data, k, k)[i] == Count(Chunk(data, k, i)) by {
      forall i | 0 <= i < k
        ensures Spawned(data, k, k)[i] == Count(Chunk(data, k, i))
      {
        WorkerResult(data, k, k, i);
      }
    }
    Spawned(data, k, k)
  }

  /** The join loop: the partial triples summed component-wise, first to last. */
  function Merge(ps: seq<Triple>): Triple {
    if |ps| == 0 then Empty else Add(Merge(ps[..|ps| - 1]), ps[|ps| - 1])
  }

  /** The result of the parallel counter with k workers. */
  function CountMulti(data: seq<I32>, k: nat): Triple
    requires 1 <= k
  {
    Merge(Partials(data, k))
  }

  /** Merging one more partial adds it to the merge of the others. */
  lemma MergeSnoc(ps: seq<Triple>, t: Triple)
    ensures Merge(ps + [t]) == Add(Merge(ps), t)
  {
    assert (ps + [t])[..|ps|] == ps;
  }

  /** Merging distributes over concatenation of the list of partials. */
  lemma {:induction false} MergeConcat(a: seq<Triple>, b: seq<Triple>)
    ensures Merge(a + b) == Add(Merge(a), Merge(b))
  {
    if |b| == 0 {
      assert a + b == a;
      AddEmpty(Merge(a));
    } else {
      var n := |b| - 1;
      var ab := a + b;
      assert ab[..|ab| - 1] == a + b[..n];
      assert ab[|ab| - 1] == b[n];
      calc {
        Merge(ab);
        Add(Merge(a + b[..n]), b[n]);
        { MergeConcat(a, b[..n]); }
        Add(Add(Merge(a), Merge(b[..n])), b[n]);
        { AddAssoc(Merge(a), Merge(b[..n]), b[n]); }
        Add(Merge(a), Add(Merge(b[..n]), b[n]));
        Add(Merge(a), Merge(b));
      }
    }
  }

  /** Cutting the list of partials in two and adding the merges of the parts gives the merge of the whole. */
  lemma MergeSplit(b: seq<Triple>, i: nat)
    requires i <= |b|
    ensures Merge(b) == Add(Merge(b[..i]), Merge(b[i..]))
  {
    assert b == b[..i] + b[i..];
    MergeConcat(b[..i], b[i..]);
  }

  /** Taking element i out of a list leaves the rest of its multiset. */
  lemma MultisetRemove(b: seq<Triple>, i: nat)
    requires i < |b|
    ensures multiset(b[..i] + b[i + 1..]) == multiset(b) - multiset{b[i]}
  {
    assert b == b[..i] + [b[i]] + b[i + 1..];
    assert multiset(b) == multiset(b[..i]) + multiset{b[i]} + multiset(b[i + 1..]);
  }

  /** Merging a list equals merging it without element i, then adding element i. */
  lemma MergeRemove(b: seq<Triple>, i: nat)
    requires i < |b|
    ensures Merge(b) == Add(Merge(b[..i] + b[i + 1..]), b[i])
  {
    var front, x, back := b[..i], b[i], b[i + 1..];
    calc {
      Merge(b);
      { MergeSplit(b, i + 1); }
      Add(Merge(b[..i + 1]), Merge(back));
      { assert b[..i + 1] == front + [x]; MergeSnoc(front, x); }
      Add(Add(Merge(front), x), Merge(back));
      { AddAssoc(Merge(front), x, Merge(back)); AddCommutes(x, Merge(back)); AddAssoc(Merge(front), Merge(back), x); }
      Add(Add(Merge(front), Merge(back)), x);
      { MergeConcat(front, back); }
      Add(Merge(front + back), x);
    }
  }

  /**
   The merged triple does not depend on the order in which the partials
   are joined: any rearrangement of the same partials merges to the same
   triple.
   */
  lemma {:induction false} MergeReorder(a: seq<Triple>, b: seq<Triple>)
    requires multiset(a) == multiset(b)
    ensures Merge(a) == Merge(b)
  {
    if |a| == 0 {
      assert |b| == |multiset(b)| == 0;
    } else {
      var n := |a| - 1;
      var x := a[n];
      assert x in multiset(a) by {
        assert a[n] in a;
      }
      var i :| 0 <= i < |b| && b[i] == x;
      var rest := b[..i] + b[i + 1..];
      MultisetRemove(a, n);
      MultisetRemove(b, i);
      assert a[..n] + a[n + 1..] == a[..n];
      MergeReorder(a[..n], rest);
      MergeRemove(a, n);
      MergeRemove(b, i);
    }
  }

  /** Chunk i is the stretch of the array its range names. */
  lemma ChunkIsSlice(data: seq<I32>, k: nat, i: nat)
    requires 1 <= k && i < k
    ensures Chunk(data, k, i) == data[ChunkRange(|data|, k, i).lo..ChunkRange(|data|, k, i).hi]
  {
  }

  /** Spawning worker n - 1 adds the count of its chunk to the merge of the earlier workers. */
  lemma SpawnStep(data: seq<I32>, k: nat, n: nat)
    requires 1 <= k && 0 < n <= k
    ensures Merge(Spawned(data, k, n)) == Add(Merge(Spawned(data, k, n - 1)), Count(Chunk(data, k, n - 1)))
  {
    MergeSnoc(Spawned(data, k, n - 1), Count(Chunk(data, k, n - 1)));
  }

  /**
   The partials of the first j workers (j < k) merge to the count of the
   prefix of the array that ends where chunk j begins.
   */
  lemma {:induction false} MergePrefix(data: seq<I32>, k: nat, j: nat)
    requires 1 <= k && j < k
    ensures Merge(Spawned(data, k, j)) == Count(data[..ChunkRange(|data|, k, j).lo])
  {
    if j == 0 {
      assert data[..ChunkRange(|data|, k, 0).lo] == [];
    } else {
      var prev := ChunkRange(|data|, k, j - 1);
      ChunkIsSlice(data, k, j - 1);
      ChunksContiguous(|data|, k);
      assert prev.hi == ChunkRange(|data|, k, j).lo;
      MergePrefix(data, k, j - 1);
      SpawnStep(data, k, j);
      CountPrefixSplit(data, prev.lo, prev.hi);
    }
  }

  /**
   The parallel counter agrees exactly with the sequential counter for
   every worker count k >= 1: this is the self-check main performs after
   running both.
   */
  lemma ResultsMatch(data: seq<I32>, k: nat)
    requires 1 <= k
    ensures CountMulti(data, k) == Count(data)
  {
    var last := ChunkRange(|data|, k, k - 1);
    ChunkIsSlice(data, k, k - 1);
    ChunksContiguous(|data|, k);
    assert last.hi == |data|;
    MergePrefix(data, k, k - 1);
    SpawnStep(data, k, k);
    CountPrefixSplit(data, last.lo, last.hi);
    assert data[..last.hi] == data;
  }

  /** The parallel counter's three counts add up to the length of the array. */
  lemma MultiTotal(data: seq<I32>, k: nat)
    requires 1 <= k
    ensures CountMulti(data, k).Total() == |data|
  {
    ResultsMatch(data, k);
    CountTotal(data);
  }

  /** With one worker there is a single chunk, the whole array, and its count is the result. */
  lemma SingleWorker(data: seq<I32>)
    ensures Partials(data, 1) == [Count(data)]
    ensures CountMulti(data, 1) == Count(data)
  {
    assert Chunk(data, 1, 0) == data;
    ResultsMatch(data, 1);
  }

  /** An empty array gives every worker an empty chunk, and the merge is the zero triple. */
  lemma EmptyArray(k: nat)
    requires 1 <= k
    ensures forall i :: 0 <= i < k ==> Chunk([], k, i) == []
    ensures CountMulti([], k) == Empty
  {
    forall i | 0 <= i < k
      ensures Chunk([], k, i) == []
    {
      ChunkIsSlice([], k, i);
    }
    ResultsMatch([], k);
  }

  /**
   One iteration of the spawn loop: cut chunk i out of the array with the
   slice bounds of `count_elements_multi`, and count it as the worker does.
   */
  method CountChunk(data: seq<I32>, numThreads: nat, i: nat) returns (t: Triple)
    requires 1 <= numThreads && i < numThreads
    ensures t == Count(Chunk(data, numThreads, i))
  {
    var chunkSize := |data| / numThreads;
    ghost var r := ChunkRange(|data|, numThreads, i);
    OffsetIsProduct(i, chunkSize);
    OffsetIsProduct(i + 1, chunkSize);
    var chunk;
    if i == numThreads - 1 {
      assert r == Range(i * chunkSize, |data|);
      chunk := data[i * chunkSize..];
    } else {
      assert r == Range(i * chunkSize, (i + 1) * chunkSize);
      chunk := data[i * chunkSize..(i + 1) * chunkSize];
    }
    assert chunk == Chunk(data, numThreads, i);
    var z, p, n := CountElementsSingle(chunk);
    t := Triple(z, p, n);
  }

  /** The spawn loop: one handle per worker, in spawn order. */
  method SpawnWorkers(data: seq<I32>, numThreads: nat) returns (handles: seq<Triple>)
    requires 1 <= numThreads
    ensures handles == Partials(data, numThreads)
  {
    handles := [];
    var i := 0;
    while i < numThreads
      invariant i <= numThreads
      invariant handles == Spawned(data, numThreads, i)
    {
      var t := CountChunk(data, numThreads, i);
      handles := handles + [t];
      i := i + 1;
    }
  }

  /** Joining handle j adds its triple to the merge of the handles before it. */
  lemma MergeTake(ps: seq<Triple>, j: nat)
    requires j < |ps|
    ensures Merge(ps[..j + 1]) == Add(Merge(ps[..j]), ps[j])
  {
    assert ps[..j + 1][..j] == ps[..j];
  }

  /** The prefix of full length is the whole list of handles. */
  lemma MergeWhole(ps: seq<Triple>)
    ensures Merge(ps[..|ps|]) == Merge(ps)
  {
    assert ps[..|ps|] == ps;
  }

  /** The body of the join loop: add one worker's triple to the running sums. */
  method JoinOne(zeros: nat, pos: nat, neg: nat, h: Triple) returns (zeros': nat, pos': nat, neg': nat)
    ensures Triple(zeros', pos', neg') == Add(Triple(zeros, pos, neg), h)
  {
    AddFields(Triple(zeros, pos, neg), h);
    zeros' := zeros + h.zeros;
    pos' := pos + h.positives;
    neg' := neg + h.negatives;
  }

  /** The join loop: the partial triples added component-wise in spawn order. */
  method JoinWorkers(handles: seq<Triple>) returns (zeros: nat, pos: nat, neg: nat)
    ensures Triple(zeros, pos, neg) == Merge(handles)
  {
    zeros, pos, neg := 0, 0, 0;
    var j := 0;
    while j < |handles|
      invariant j <= |handles|
      invariant Triple(zeros, pos, neg) == Merge(handles[..j])
    {
      MergeTake(handles, j);
      zeros, pos, neg := JoinOne(zeros, pos, neg, handles[j]);
      j := j + 1;
    }
    MergeWhole(handles);
  }

  /**
   The parallel counter (count_elements_multi): spawn one worker per
   chunk, then join them. It returns exactly the sequential count.
   */
  method CountElementsMulti(data: seq<I32>, numThreads: nat) returns (zeros: nat, pos: nat, neg: nat)
    requires 1 <= numThreads
    ensures Triple(zeros, pos, neg) == Count(data)
    ensures zeros + pos + neg == |data|
  {
    var handles := SpawnWorkers(data, numThreads);
    zeros, pos, neg := JoinWorkers(handles);
    ResultsMatch(data, numThreads);
    CountTotal(data);
  }
}
