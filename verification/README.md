# Multithreaded array analysis: the partition-count-merge core

This project models the part of `src/main.rs` that does the work: it counts how many
elements of an `i32` array are zero, positive or negative. The array is counted twice:

- once by a sequential pass (`count_elements_single`);
- once by splitting the array into `K` contiguous chunks (`count_elements_multi`). One
  worker counts each chunk, and the per-worker triples are summed field by field.

`main` then checks that the two count triples are exactly equal. The Dafny model proves
that this check can never fail, for every array and every worker count `K >= 1`.

Modules:

- `Counting` (`counting.dfy`):
  - the sign classifier, the count triple and the sequential counter;
  - an independent reference definition of each bucket count, as a set of indices;
  - the fact that counting distributes over concatenation.
- `Chunking` (`chunking.dfy`):
  - the partition of `[0, len)` into `K` chunks: every chunk but the last has
    `len / K` indices, and the last runs to `len`;
  - the facts that the chunks stay in bounds, are contiguous and disjoint, and cover
    every index exactly once;
  - what happens when `K > len`.
- `Parallel` (`parallel.dfy`):
  - the spawn loop and the join loop of the parallel counter, with threads replaced by
    their results;
  - the proof that the merge does not depend on join order;
  - the proof that the parallel result equals the sequential one.
- `Analysis` (`analysis.dfy`): the correctness part of `main`, which runs both counters
  with 4 workers and compares them, plus a few scenarios.

The model works with unbounded integers. The chunk start `i * chunk_size` of
`count_elements_multi` is modelled as the running sum `Offset(i, cs)`, which has no contract
of its own: its meaning comes only from `Chunking.OffsetIsProduct`, which proves the two are
equal. `Parallel.CountChunk` cuts the chunk with the products `count_elements_multi` computes.

The code does not restrict `K` beyond `K >= 1`: with `K > len`, `chunk_size` is 0, the
first `K - 1` chunks are empty and the last chunk is the whole array. The model follows the
code, and proves that coverage stays complete in that case.

`Counting.Count`, `Parallel.Merge` and `Parallel.CountMulti` are plain definitions
without a contract of their own; what they mean is stated by the lemmas named in their rows.

## Model

| member | source | states |
|---|---|---|
| Counting.Classify | src/main.rs:21-27 | every element falls into exactly one bucket: zero iff it equals 0, positive iff it is greater than 0, negative iff it is less than 0 |
| Counting.Add | src/main.rs:72-74 | merging two partial triples accounts for exactly the elements of both; with Counting.AddGet, Counting.AddCommutes, Counting.AddAssoc and Counting.AddEmpty, the merge is a per-bucket sum that is commutative and associative with (0, 0, 0) as its unit |
| Counting.AddGet | src/main.rs:72-74 | each bucket of the merged triple is the sum of that bucket in the two parts |
| Counting.AddCommutes | src/main.rs:72-74 | the merge of two partial triples does not depend on their order |
| Counting.AddAssoc | src/main.rs:69-75 | partial sums may be regrouped without changing the merged triple |
| Counting.AddEmpty | src/main.rs:66-68 | the zero-initialised sums of the join loop are the unit of merging |
| Counting.Count | src/main.rs:18-28 | the sequential count of an array; its meaning is stated by Counting.CountIsMembership (each bucket counts the indices whose element belongs there), Counting.CountTotal and Counting.CountConcat |
| Counting.Tally | src/main.rs:21-27 | scanning one element adds one to its own bucket, leaves the other two buckets alone, and raises the total by one |
| Counting.ScanElement | src/main.rs:51-58 | the worker's loop body (the same if/else-if/else chain) performs exactly one tally step |
| Counting.CountElementsSingle | src/main.rs:16-32 | the sequential loop returns the count triple of the whole array, and its three counts add up to the array's length |
| Counting.CountTotal | src/main.rs:18-28 | zeros + positives + negatives equals the number of elements scanned |
| Counting.CountIsMembership | src/main.rs:20-28 | each bucket's count equals the number of indices whose element falls into that bucket, so each element is counted once, in its own bucket |
| Counting.CountConcat | src/main.rs:66-75 | the count of two arrays laid end to end is the field-wise sum of their counts, which is what makes merging partial counts exact |
| Chunking.ChunkSize | src/main.rs:37 | chunk_size is the largest c with c * K <= len (the quotient rounded down), and it is 0 when K > len |
| Chunking.Offset | src/main.rs:42-44 | the start index of chunk i; Chunking.OffsetIsProduct proves it equals i * chunk_size |
| Chunking.OffsetIsProduct | src/main.rs:42-44 | the running start index of chunk i equals i * chunk_size as `count_elements_multi` computes it |
| Chunking.ChunkRange | src/main.rs:37-45 | each chunk lies inside [0, len); each of the first K-1 chunks has len/K indices; the last has len/K + len%K; with K = 1 the only chunk is the whole array |
| Chunking.ChunksContiguous | src/main.rs:40-45 | the first chunk starts at 0, each chunk ends where the next begins, and the last ends at len |
| Chunking.ChunksOrdered | src/main.rs:40-45 | a chunk with a smaller index lies entirely before a chunk with a larger index |
| Chunking.ChunksDisjoint | src/main.rs:40-45 | no index lies in two different chunks |
| Chunking.ChunkOf | src/main.rs:37-45 | every index of the array lies in some chunk, and that chunk is the only one holding it |
| Chunking.MoreWorkersThanElements | src/main.rs:37-45 | with more workers than elements, chunk_size is 0 and the last chunk is the whole array |
| Chunking.LeadingChunksEmpty | src/main.rs:37-45 | with more workers than elements, every chunk before the last is empty |
| Parallel.Chunk | src/main.rs:41-45 | the chunk of worker i has len/K elements, except the last, which has len/K + len%K; with K = 1 it is the whole array |
| Parallel.Spawned | src/main.rs:40-64 | after the first n iterations of the spawn loop there are exactly n handles |
| Parallel.Partials | src/main.rs:40-64 | the spawn loop yields exactly K results, and result i is the count of chunk i |
| Parallel.Merge | src/main.rs:66-75 | the join loop's field-wise sum of a list of triples; its meaning is stated by Parallel.MergeConcat and Parallel.MergeReorder (cut anywhere, in any order) and by Parallel.JoinWorkers |
| Parallel.CountMulti | src/main.rs:35-79 | the parallel counter's result: merge of the K partial counts; Parallel.ResultsMatch proves it equals the sequential count |
| Parallel.CountChunk | src/main.rs:41-60 | slicing with the bounds of `count_elements_multi` (open-ended for the last worker) and counting gives the count of that worker's chunk |
| Parallel.SpawnWorkers | src/main.rs:38-64 | the spawn loop produces one handle per worker, in worker order, each holding its chunk's count |
| Parallel.WorkerResult | src/main.rs:49-63 | handle i yields the count of chunk i |
| Parallel.JoinWorkers | src/main.rs:66-75 | the join loop's three sums equal the field-wise merge of all handle results |
| Parallel.JoinOne | src/main.rs:71-74 | adding one handle's triple to the three running sums is one Add step |
| Parallel.MergeConcat | src/main.rs:70-75 | merging a list of partial triples that is cut in two gives the sum of the merges of the two parts |
| Parallel.MergeReorder | src/main.rs:70-75 | any permutation of the partial triples merges to the same triple, so the result does not depend on join order |
| Parallel.ResultsMatch | src/main.rs:35-79 | for every K >= 1 the parallel counter's triple equals the sequential count of the whole array |
| Parallel.MultiTotal | src/main.rs:66-78 | the parallel counter's three counts add up to the array's length |
| Parallel.SingleWorker | src/main.rs:37-45 | with one worker there is exactly one partial, the count of the whole array, and the result equals the sequential count |
| Parallel.EmptyArray | src/main.rs:35-79 | an empty array gives every worker an empty chunk, and the result is (0, 0, 0) |
| Parallel.CountElementsMulti | src/main.rs:35-79 | spawn then join returns exactly the sequential count, and its counts add up to the array's length |
| Analysis.RunAndCompare | src/main.rs:91-98 | the sequential and the 4-worker triples are equal, so the equality assertion in main never fails, and both account for every element |
| Analysis.SampleCount | src/main.rs:20-28 | the sequential count of [-5, -3, 0, 2, 7] is one zero, two positives and two negatives |
| Analysis.SampleChunks | src/main.rs:37-45 | the sample on two workers splits as [0, 2) and [2, 5), with the last chunk absorbing the remainder |
| Analysis.FiveOnTwo | src/main.rs:35-98 | on the sample with two workers, both counters return (1, 2, 2) |
| Analysis.ZerosOnly | src/main.rs:20-28 | an array of zeros counts as (length, 0, 0) |
| Analysis.AllZeros | src/main.rs:35-79 | an array of zeros counts as (length, 0, 0) for every worker count |

## Left out

- `generate_data` (src/main.rs:10-13) is not modelled, because it draws random numbers. The model takes any array of `i32` values, which includes every array the generator can produce.
- The timing is not modelled: the `Instant` measurements and the millisecond durations the counters return. The faster/slower report at the end of `main` is left out for the same reason. Clocks are outside the model, so the counters return only their triples.
- Threads are not modelled: `thread::spawn`, `join().unwrap()` and the `to_vec` copy of each chunk. Each worker is replaced by the triple it returns. A worker only reads its private copy of its chunk, and joining waits for all of them. So the parallel counter equals this sequential map and merge, and no interleaving can change the result. The model has no worker panic, because a worker's loop cannot fail.
- Console output (`println!`) is left out.
- `usize` overflow is not modelled: counts and indices are unbounded naturals. The model does not need it:
  - each count is at most the array's length;
  - `i * chunk_size` and `(i + 1) * chunk_size` are at most the length for every chunk `count_elements_multi` slices (`Chunking.ChunkRange` with `Chunking.OffsetIsProduct` proves the bounds).
- `num_threads == 0` makes `count_elements_multi` divide by zero and panic. The model demands `K >= 1` of its callers instead of modelling the panic.
- Of `main`'s constants, only the worker count (4) takes part. The array size and value range only parameterise the generator.
