# Cache-latency benchmark kernels, modelled in Dafny

The benchmark measures how much slower scattered, data-dependent reads are than
sequential ones, and what it costs to pass one dependency chain back and forth
between two threads. Its measured kernels are small integer loops over two
read-only arrays: `payload` (the memory being probed) and `indices` (the access
pattern, every entry a valid payload position). This project models those
kernels and proves what each one computes.

- `cache.dfy`, module `Cache` (cache.cc): `gather`, the indirect sum
  `Σ payload[indices[k]]`, and `seq_sum`, the direct sum `Σ indices[k]`. Both
  are methods with loop invariants over the recursive specification `Sum`.
  cache_smt.cc has an identical `seq_sum` (cache_smt.cc:143-150); `Cache.SeqSum`
  models both.
- `scatter_gather.dfy`, module `ScatterGather` (cache_smt.cc `gather`): the
  pointer-chasing kernel. Position `i` sums the window `indices[i..i + L]`
  through the payload (`tmp`), then reads the payload at
  `abs(indices[i] + off) % M` and moves the running offset
  `off' = off + tmp + payload[real_index]`. The kernel returns the sum of the
  successive offsets. `Offset` and `Chain` state this recurrence as functions.
  `Gather` and `WindowSum` are the C++ loops, proved to compute it.
- `lock_step.dfy`, module `LockStep` (cache_smt.cc `gather_thread` and
  `parallel_gather`): two workers share the chain. Worker `t` handles
  positions `t, t + 2, ...`. It may commit a position only when the shared
  turn counter `count` equals its `local_count`. A commit updates the shared
  offset `index_comm`, increments `count`, and sets `local_count` to
  `count + 1`. `SharedTurn` holds the two atomics. `Worker` holds one thread's
  locals and does one loop iteration per `Commit`. `ParallelGather` runs the
  workers one commit at a time and always picks a worker whose spin test
  passes. The proofs show three things. Exactly one worker's test passes at
  every point, and it is worker `p % 2` (`CommitNext`). A worker's expected
  turn always equals the position it handles next (`Worker.Valid`). The two
  private sums add up to `gather`'s result (`ParallelGather`, via
  `ParitySplit`). This last fact is the check the commented-out assertion at
  cache_smt.cc:223 was written for.

The source fixes the array sizes at compile time. Here they are parameters:
payload length `M > 0`, index length `n` and inner length `L`. The outer loop
runs `NumOuterLoop(n, L) = n - L` times, or not at all when `L > n`, as the C++
loop would with a negative bound. The random generator's promise that each
index lies in `[0, M)` becomes the precondition `IndicesInRange`. The kernels
take the arrays as parameters and have no `modifies` clause, so the verifier
checks that they leave `payload` and `indices` unchanged. `seq_sum` takes no
payload at all, so its result cannot depend on it.

One observation, proved by `NumOuterLoop`'s contract but not treated as a
defect: with the bound `i < n - L` and `L >= 1`, the last index `indices[n - 1]` is never
read by the scatter-gather kernels. The highest index read is `n - 2`.

## Model

| member | source | states |
|---|---|---|
| `Cache.Gather` | cache.cc:39-46 | returns the sum of `payload[indices[k]]` over all k, given every index lies in the payload; each read is in bounds; neither array is modified |
| `Cache.SeqSum` | cache.cc:48-55 | returns the sum of all `indices[k]`; takes no payload, so it cannot depend on it; the array is not modified |
| `Cache.SumBounds` | cache.cc:41-45 | a sum of values that all lie in `[lo, hi]` lies in `[count * lo, count * hi]` |
| `Cache.PrefixSumsFitInt32` | cache.cc:41-45 | if `count * b < 2^31` and every value lies in `[-b, b]`, every running total of the loop fits a 32-bit `int` (so the C++ result equals the mathematical one) |
| `Cache.GatherOfIdentityIsSeqSum` | cache.cc:39-55 | over a payload that maps each slot to its own position, `gather` and `seq_sum` return the same sum |
| `Cache.SeqSumTrace` | cache_smt.cc:143-150 | `seq_sum` on indices `[1,3,0,2,1,3,0,2]` is 12 |
| `Cache.SumPrefixStep` | cache.cc:42-44 | extending the processed prefix by one element adds that element to the running sum (the loop invariant's step) |
| `ScatterGather.Abs` | cache_smt.cc:119 | `std::abs` returns x or -x and is never negative |
| `ScatterGather.NumOuterLoop` | cache_smt.cc:27 | the outer loop count is at most n, and when it is positive the windows `i + x` with `i < count` and `x < L` stay below n |
| `ScatterGather.RealIndex` | cache_smt.cc:119 | `real_index` always lies in `[0, M)`, so `payload[real_index]` is in bounds; an address already inside the payload is used unchanged |
| `ScatterGather.WindowSum` | cache_smt.cc:121-124 | the inner loop returns `tmp`, the sum of `payload[indices[i + x]]` for `x < L`, reading only in-bounds slots |
| `ScatterGather.Gather` | cache_smt.cc:113-141 | returns `off_1 + ... + off_N`, where `off_0 = 0` and `off_{i+1} = off_i + tmp_i + payload[abs(indices[i] + off_i) % M]`; every access is in bounds; neither array is modified |
| `ScatterGather.InnerSumGrow` | cache_smt.cc:122-124 | growing the window by one slot adds that slot's payload value to `tmp` |
| `ScatterGather.InnerSumBound` | cache_smt.cc:121-124 | with payload values in `[-b, b]`, `tmp` lies in `[-L * b, L * b]` |
| `ScatterGather.OffsetBound` | cache_smt.cc:130-132 | with payload values in `[-b, b]`, `abs(off_k) <= k * (L + 1) * b`, which bounds the sizes for which the C++ `int` offset cannot overflow |
| `ScatterGather.OffsetUnfold` | cache_smt.cc:118-132 | one dependent step: the new offset is the old one plus `tmp` plus the payload slot the old offset selects |
| `ScatterGather.SmallTraceWindows` | cache_smt.cc:121-124 | on payload `[10,20,30,40]` and indices `[1,3,0,2,1,3,0,2]` with `L = 2`, the six window sums are 60, 50, 40, 50, 60, 50 |
| `ScatterGather.SmallTraceOffsets` | cache_smt.cc:117-139 | on the same input the offsets are 80, 170, 240, 320, 400, 490 |
| `ScatterGather.SmallTrace` | cache_smt.cc:115-140 | on the same input the first two steps give offsets 80 and 170 and running sum 250, and the kernel returns 1700 |
| `LockStep.PositionsAt` | cache_smt.cc:57 | worker `t` handles positions `t, t + 2, t + 4, ...` below n, in increasing order, `(n + 1 - t) / 2` of them |
| `LockStep.PositionsMembers` | cache_smt.cc:57 | position `i` is handled by worker `t` exactly when `0 <= i < n` and `i % 2 == t`, so every position belongs to exactly one worker |
| `LockStep.ParitySplit` | cache_smt.cc:110 | the sum of the offsets at even positions plus the sum at odd positions is `gather`'s chain sum (`futures[0] + futures[1]`) |
| `LockStep.SharedTurn.constructor` | cache_smt.cc:89-90 | both shared atomics start at 0 |
| `LockStep.Worker.constructor` | cache_smt.cc:55-56 | a worker starts at position `local_count_init` with zero sum, and its expected turn equals that position |
| `LockStep.Worker.Commit` | cache_smt.cc:58-83 | one iteration after the spin-wait passes: the shared offset becomes the recurrence's next offset, `count` grows by one, the worker's next expected turn is `count + 1`, which equals its next position `i + 2`, and the new offset is added to the private sum |
| `LockStep.CommitNext` | cache_smt.cc:66-77 | while positions remain, exactly one worker's spin test `count == local_count` passes, and it belongs to worker `p % 2`; its commit keeps `count` equal to the number of committed positions and `index_comm` equal to `off_p` |
| `LockStep.ParallelGather` | cache_smt.cc:88-111 | the sum of the two workers' results equals `gather`'s result on the same arrays, and worker t handled exactly `Positions(t, N)` |

## Left out

- Threads, `std::thread`, `std::promise`/`std::future`, the atomics' memory ordering and the busy-wait loop (cache_smt.cc:66-67, 93-106). The model replaces them with a sequential interleaving that commits one position at a time. It proves that this interleaving is the only one the turn protocol admits. It does not model preemption, fairness or timing.
- Random filling with `mt19937`/`random_device` (cache.cc:24-37, cache_smt.cc:35-48). The ranges it guarantees become the `IndicesInRange` precondition and the value bounds in the overflow lemmas.
- `flush_cache` and the `flusher` array (cache.cc:27-30, cache_smt.cc:38-41). It is a throwaway accumulate used only to evict caches.
- `main`: timing with `std::chrono`, the `double` conversions and console output (cache.cc:59-110, cache_smt.cc:154-227).
- Cache.Gather: sums with unbounded integers, not 32-bit `int`. Equality with the C++ result assumes no overflow; `Cache.PrefixSumsFitInt32` states a sufficient condition.
- Cache.SeqSum: sums with unbounded integers. With the source's sizes (about 42 million indices, each up to 16 million), the C++ `int` sum can overflow, which is undefined behaviour; the model states the mathematical sum.
- ScatterGather.Gather: the offset and sum are unbounded integers; `std::abs(INT_MIN)` and signed overflow, both undefined in C++, are not modelled. `ScatterGather.OffsetBound` bounds the offsets.
- LockStep.ParallelGather: same unbounded arithmetic as `ScatterGather.Gather`.
- The fixed sizes (`CacheSize`, `CacheLineSize`, `IntSize`, `ArraySize`, `InnerLoopCount`) are parameters; `CacheLineSize` and `IntPerLine` are unused by the kernels.
