/**
 * Model of the single-thread scatter-gather kernel `gather` of cache_smt.cc.
 *
 * Outer position `i` reads `InnerLoopCount` (here `l`) payload slots through
 * `indices[i..i + l]` and then one slot whose address depends on the running
 * offset, which makes every iteration wait for the previous one. The pure
 * functions `Offset` and `Chain` are the recurrence; the methods are the C++
 * loops, proved to compute it.
 */
module ScatterGather {
  import opened Cache

  /** `std::abs` on a mathematical integer. */
  function Abs(x: int): (r: nat)
    ensures r == x || r == -x
  {
    if x < 0 then -x else x
  }

  /** The arrays the kernels read: a non-empty payload and indices that address it. */
  predicate WellFormed(payload: seq<int>, indices: seq<int>)
  {
    |payload| > 0 && IndicesInRange(indices, |payload|)
  }

  /**
   * `NumOuterLoop = IndexArraySize - InnerLoopCount`: the positions whose
   * inner window `indices[i..i + l]` stays inside the index array. When the
   * window is longer than the array the C++ loop does not run at all.
   */
  function NumOuterLoop(n: nat, l: nat): (r: nat)
    ensures r <= n
    ensures r == 0 || r + l <= n
    ensures l <= n ==> r + l == n
  {
    if l <= n then n - l else 0
  }

  /**
   * `real_index = abs(index + index_offset) % PayloadArraySize`. The left
   * operand is never negative, so C++'s truncating `%` and Dafny's `%` agree.
   */
  function RealIndex(m: int, index: int, offset: int): (r: int)
    requires m > 0
    ensures 0 <= r < m
    ensures Abs(index + offset) < m ==> r == Abs(index + offset)
  {
    Abs(index + offset) % m
  }

  /** `tmp` at position `i`: cache.cc's indirect sum over the window `indices[i..i + l]`. */
  function InnerSum(payload: seq<int>, indices: seq<int>, i: nat, l: nat): int
    requires WellFormed(payload, indices)
    requires i + l <= |indices|
  {
    Sum(Gathered(payload, indices[i..i + l]))
  }

  /** The dependent step of position `i`: the offset after it, given the offset before it. */
  function NextOffset(payload: seq<int>, indices: seq<int>, l: nat, i: nat, offset: int): int
    requires WellFormed(payload, indices)
    requires i < NumOuterLoop(|indices|, l)
  {
    offset + InnerSum(payload, indices, i, l) + payload[RealIndex(|payload|, indices[i], offset)]
  }

  /** `off_k`: the running offset after the first `k` positions (`off_0 = 0`). */
  function Offset(payload: seq<int>, indices: seq<int>, l: nat, k: nat): int
    requires WellFormed(payload, indices)
    requires k <= NumOuterLoop(|indices|, l)
  {
    if k == 0 then 0
    else NextOffset(payload, indices, l, k - 1, Offset(payload, indices, l, k - 1))
  }

  /** `off_1 + ... + off_k`: what the kernel's `sum` holds after the first `k` positions. */
  function Chain(payload: seq<int>, indices: seq<int>, l: nat, k: nat): int
    requires WellFormed(payload, indices)
    requires k <= NumOuterLoop(|indices|, l)
  {
    if k == 0 then 0
    else Chain(payload, indices, l, k - 1) + Offset(payload, indices, l, k)
  }

  /** The value `gather` returns: the chain summed over every outer position. */
  function GatherSpec(payload: seq<int>, indices: seq<int>, l: nat): int
    requires WellFormed(payload, indices)
  {
    Chain(payload, indices, l, NumOuterLoop(|indices|, l))
  }

  /** The inner loop of `gather` (and of `gather_thread`): `tmp` at position `i`. */
  method WindowSum(payload: array<int>, indices: array<int>, i: nat, l: nat) returns (tmp: int)
    requires WellFormed(payload[..], indices[..])
    requires i + l <= indices.Length
    ensures tmp == InnerSum(payload[..], indices[..], i, l)
  {
    ghost var g := Gathered(payload[..], indices[i..i + l]);
    tmp := 0;
    for x := 0 to l
      invariant tmp == Sum(g[..x])
    {
      SumPrefixStep(g, x);
      assert g[x] == payload[indices[i + x]];
      tmp := tmp + payload[indices[i + x]];
    }
    assert g[..l] == g;
  }

  /** `gather` (cache_smt.cc): follows the dependency chain and sums its offsets. */
  method Gather(payload: array<int>, indices: array<int>, l: nat) returns (sum: int)
    requires WellFormed(payload[..], indices[..])
    ensures sum == GatherSpec(payload[..], indices[..], l)
  {
    var n := NumOuterLoop(indices.Length, l);
    sum := 0;
    var offset := 0;
    for i := 0 to n
      invariant offset == Offset(payload[..], indices[..], l, i)
      invariant sum == Chain(payload[..], indices[..], l, i)
    {
      var index := indices[i];
      var realIndex := RealIndex(payload.Length, index, offset);
      var tmp := WindowSum(payload, indices, i, l);
      offset := offset + tmp + payload[realIndex];
      sum := sum + offset;
    }
  }

  /**
   * With payload values in `[-b, b]`, each step moves the offset by at most
   * `(l + 1) * b`, so `|off_k| <= k * (l + 1) * b`: the bound that says for
   * which sizes the C++ `int` offset cannot overflow.
   */
  lemma {:induction false} OffsetBound(payload: seq<int>, indices: seq<int>, l: nat, k: nat, b: int)
    requires WellFormed(payload, indices)
    requires k <= NumOuterLoop(|indices|, l)
    requires 0 <= b
    requires forall j :: 0 <= j < |payload| ==> -b <= payload[j] <= b
    ensures -(k * ((l + 1) * b)) <= Offset(payload, indices, l, k) <= k * ((l + 1) * b)
  {
    if k > 0 {
      OffsetBound(payload, indices, l, k - 1, b);
      var prev := Offset(payload, indices, l, k - 1);
      var slot := payload[RealIndex(|payload|, indices[k - 1], prev)];
      InnerSumBound(payload, indices, k - 1, l, b);
      StepBound(k, l, b, prev, InnerSum(payload, indices, k - 1, l), slot);
    }
  }

  /** A window of `l` payload values in `[-b, b]` sums to at most `l * b` in magnitude. */
  lemma InnerSumBound(payload: seq<int>, indices: seq<int>, i: nat, l: nat, b: int)
    requires WellFormed(payload, indices)
    requires i + l <= |indices|
    requires 0 <= b
    requires forall j :: 0 <= j < |payload| ==> -b <= payload[j] <= b
    ensures -(l * b) <= InnerSum(payload, indices, i, l) <= l * b
  {
    SumBounds(Gathered(payload, indices[i..i + l]), -b, b);
    NegMul(l, b);
  }

  /** The arithmetic of one step of `OffsetBound`. */
  lemma StepBound(k: nat, l: nat, b: int, prev: int, tmp: int, slot: int)
    requires 0 < k && 0 <= b
    requires -((k - 1) * ((l + 1) * b)) <= prev <= (k - 1) * ((l + 1) * b)
    requires -(l * b) <= tmp <= l * b
    requires -b <= slot <= b
    ensures -(k * ((l + 1) * b)) <= prev + tmp + slot <= k * ((l + 1) * b)
  {
    var c := (l + 1) * b;
    MulSucc(l, b);
    MulSucc(k - 1, c);
  }

  lemma NegMul(x: int, y: int)
    ensures x * -y == -(x * y)
  {
  }

  lemma MulSucc(x: int, y: int)
    ensures x * y + y == (x + 1) * y
  {
  }

  /** Growing the window by one slot adds that slot's payload value to `tmp`. */
  lemma InnerSumGrow(payload: seq<int>, indices: seq<int>, i: nat, l: nat)
    requires WellFormed(payload, indices)
    requires i + l < |indices|
    ensures InnerSum(payload, indices, i, l + 1) == InnerSum(payload, indices, i, l) + payload[indices[i + l]]
  {
    var g := Gathered(payload, indices[i..i + l + 1]);
    assert g[..l] == Gathered(payload, indices[i..i + l]);
  }

  /**
   * The two-step trace on a four-slot payload: position 0 reads slot 1 and
   * moves the offset to 80, position 1 reads slot 83 % 4 = 3 and moves it to
   * 170; the full six-position chain sums to 1700.
   */
  lemma SmallTrace(payload: seq<int>, indices: seq<int>)
    requires payload == [10, 20, 30, 40]
    requires indices == [1, 3, 0, 2, 1, 3, 0, 2]
    ensures WellFormed(payload, indices) && NumOuterLoop(|indices|, 2) == 6
    ensures Offset(payload, indices, 2, 1) == 80
    ensures Offset(payload, indices, 2, 2) == 170
    ensures Chain(payload, indices, 2, 2) == 250
    ensures GatherSpec(payload, indices, 2) == 1700
  {
    SmallTraceOffsets(payload, indices);
    assert Chain(payload, indices, 2, 1) == 80;
    assert Chain(payload, indices, 2, 2) == 250;
    assert Chain(payload, indices, 2, 3) == 490;
    assert Chain(payload, indices, 2, 4) == 810;
    assert Chain(payload, indices, 2, 5) == 1210;
  }

  /** The offsets of the small trace, one dependent step at a time. */
  lemma SmallTraceOffsets(payload: seq<int>, indices: seq<int>)
    requires payload == [10, 20, 30, 40]
    requires indices == [1, 3, 0, 2, 1, 3, 0, 2]
    ensures WellFormed(payload, indices) && NumOuterLoop(|indices|, 2) == 6
    ensures Offset(payload, indices, 2, 1) == 80
    ensures Offset(payload, indices, 2, 2) == 170
    ensures Offset(payload, indices, 2, 3) == 240
    ensures Offset(payload, indices, 2, 4) == 320
    ensures Offset(payload, indices, 2, 5) == 400
    ensures Offset(payload, indices, 2, 6) == 490
  {
    SmallTraceWindows(payload, indices);
    OffsetUnfold(payload, indices, 2, 0, 0, 60, 1);
    OffsetUnfold(payload, indices, 2, 1, 80, 50, 3);
    OffsetUnfold(payload, indices, 2, 2, 170, 40, 2);
    OffsetUnfold(payload, indices, 2, 3, 240, 50, 2);
    OffsetUnfold(payload, indices, 2, 4, 320, 60, 1);
    OffsetUnfold(payload, indices, 2, 5, 400, 50, 3);
  }

  /** The window sums `tmp` of the small trace. */
  lemma SmallTraceWindows(payload: seq<int>, indices: seq<int>)
    requires payload == [10, 20, 30, 40]
    requires indices == [1, 3, 0, 2, 1, 3, 0, 2]
    ensures WellFormed(payload, indices)
    ensures InnerSum(payload, indices, 0, 2) == 60 && InnerSum(payload, indices, 1, 2) == 50
    ensures InnerSum(payload, indices, 2, 2) == 40 && InnerSum(payload, indices, 3, 2) == 50
    ensures InnerSum(payload, indices, 4, 2) == 60 && InnerSum(payload, indices, 5, 2) == 50
  {
    InnerSumPair(payload, indices, 0);
    InnerSumPair(payload, indices, 1);
    InnerSumPair(payload, indices, 2);
    InnerSumPair(payload, indices, 3);
    InnerSumPair(payload, indices, 4);
    InnerSumPair(payload, indices, 5);
  }

  /** A two-slot window, as in the small trace. */
  lemma InnerSumPair(payload: seq<int>, indices: seq<int>, i: nat)
    requires WellFormed(payload, indices)
    requires i + 2 <= |indices|
    ensures InnerSum(payload, indices, i, 2) == payload[indices[i]] + payload[indices[i + 1]]
  {
    InnerSumGrow(payload, indices, i, 0);
    InnerSumGrow(payload, indices, i, 1);
  }

  /** One step of the recurrence, with the offset before it, its window sum and the slot it reads named. */
  lemma OffsetUnfold(payload: seq<int>, indices: seq<int>, l: nat, k: nat, before: int, tmp: int, slot: nat)
    requires WellFormed(payload, indices)
    requires k < NumOuterLoop(|indices|, l)
    requires Offset(payload, indices, l, k) == before
    requires InnerSum(payload, indices, k, l) == tmp
    requires slot == Abs(indices[k] + before) % |payload|
    ensures Offset(payload, indices, l, k + 1) == before + tmp + payload[slot]
  {
  }
}
