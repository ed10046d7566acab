/**
 * Model of cache.cc: the two read-only kernels of the cache-latency benchmark.
 *
 * `SeqSum` is the sequential baseline (sum the index array in layout order);
 * `Gather` is the scattered read (sum the payload slots the indices point at).
 * The source keeps both arrays as fixed-size globals; here they are parameters
 * of any length, and the generator's range for the indices becomes the
 * precondition `IndicesInRange`.
 */
module Cache {

  /** Sum of a sequence, adding the elements front to back as a for-loop does. */
  function Sum(s: seq<int>): int
  {
    if |s| == 0 then 0 else Sum(s[..|s| - 1]) + s[|s| - 1]
  }

  /** Every index addresses a slot of a payload of length `m`. */
  predicate IndicesInRange(indices: seq<int>, m: int)
  {
    forall k :: 0 <= k < |indices| ==> 0 <= indices[k] < m
  }

  /** The payload values the indices point at, in index order. */
  function Gathered(payload: seq<int>, indices: seq<int>): seq<int>
    requires IndicesInRange(indices, |payload|)
  {
    seq(|indices|, k requires 0 <= k < |indices| => payload[indices[k]])
  }

  /** The range of a C++ `int` on the platforms the benchmark targets. */
  predicate InInt32(x: int)
  {
    -0x8000_0000 <= x < 0x8000_0000
  }

  /** `gather` (cache.cc): one indirect read per index, accumulated into `sum`. */
  method Gather(payload: array<int>, indices: array<int>) returns (sum: int)
    requires IndicesInRange(indices[..], payload.Length)
    ensures sum == Sum(Gathered(payload[..], indices[..]))
  {
    ghost var g := Gathered(payload[..], indices[..]);
    sum := 0;
    for k := 0 to indices.Length
      invariant sum == Sum(g[..k])
    {
      SumPrefixStep(g, k);
      sum := sum + payload[indices[k]];
    }
    assert g[..indices.Length] == g;
  }

  /** `seq_sum` (cache.cc, and the identical one in cache_smt.cc): the indices summed directly. */
  method SeqSum(indices: array<int>) returns (sum: int)
    ensures sum == Sum(indices[..])
  {
    sum := 0;
    for k := 0 to indices.Length
      invariant sum == Sum(indices[..k])
    {
      SumPrefixStep(indices[..], k);
      sum := sum + indices[k];
    }
    assert indices[..indices.Length] == indices[..];
  }

  /** A sum of `|s|` values, each in `[lo, hi]`, lies in `[|s| * lo, |s| * hi]`. */
  lemma {:induction false} SumBounds(s: seq<int>, lo: int, hi: int)
    requires forall k :: 0 <= k < |s| ==> lo <= s[k] <= hi
    ensures |s| * lo <= Sum(s) <= |s| * hi
  {
    if |s| > 0 {
      var init := s[..|s| - 1];
      SumBounds(init, lo, hi);
      assert |s| * lo == |init| * lo + lo;
      assert |s| * hi == |init| * hi + hi;
    }
  }

  /**
   * When `|s| * b` fits in an `int`, no running total of values in `[-b, b]`
   * leaves the `int` range, so the C++ loop's `sum` never overflows and equals
   * the mathematical `Sum` at every step.
   */
  lemma PrefixSumsFitInt32(s: seq<int>, b: int)
    requires 0 <= b
    requires forall k :: 0 <= k < |s| ==> -b <= s[k] <= b
    requires |s| * b < 0x8000_0000
    ensures forall k :: 0 <= k <= |s| ==> InInt32(Sum(s[..k]))
  {
    forall k | 0 <= k <= |s|
      ensures InInt32(Sum(s[..k]))
    {
      SumBounds(s[..k], -b, b);
      assert k * b <= |s| * b by {
        MulMonotone(k, |s|, b);
      }
    }
  }

  lemma MulMonotone(x: nat, y: nat, b: nat)
    requires x <= y
    ensures x * b <= y * b
  {
  }

  /**
   * The two kernels perform the same additions when the payload maps every
   * slot to its own position: `gather` over the identity payload is `seq_sum`.
   */
  lemma GatherOfIdentityIsSeqSum(payload: seq<int>, indices: seq<int>)
    requires IndicesInRange(indices, |payload|)
    requires forall j :: 0 <= j < |payload| ==> payload[j] == j
    ensures Sum(Gathered(payload, indices)) == Sum(indices)
  {
    assert Gathered(payload, indices) == indices;
  }

  /** The sequential baseline on an eight-entry index array. */
  lemma SeqSumTrace(indices: seq<int>)
    requires indices == [1, 3, 0, 2, 1, 3, 0, 2]
    ensures Sum(indices) == 12
  {
    SumPrefixStep(indices, 0);
    SumPrefixStep(indices, 1);
    SumPrefixStep(indices, 2);
    SumPrefixStep(indices, 3);
    SumPrefixStep(indices, 4);
    SumPrefixStep(indices, 5);
    SumPrefixStep(indices, 6);
    SumPrefixStep(indices, 7);
    assert indices[..8] == indices;
  }

  /** Extending a prefix by one element adds that element to its sum. */
  lemma SumPrefixStep(s: seq<int>, k: nat)
    requires k < |s|
    ensures Sum(s[..k + 1]) == Sum(s[..k]) + s[k]
  {
    assert s[..k + 1][..k] == s[..k];
  }
}
