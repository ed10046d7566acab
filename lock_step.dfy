/**
 * Model of the two-worker lock-step kernel of cache_smt.cc (`gather_thread`
 * and `parallel_gather`).
 *
 * Two workers share one dependency chain. Worker `t` handles outer positions
 * `t, t + 2, t + 4, ...`; it computes its window sum on its own, then spins
 * until the shared `count` equals its `local_count`, updates the shared
 * offset `index_comm`, bumps `count` and expects its next turn at
 * `count + 1`. The threads are not modelled: `ParallelGather` runs the workers
 * one commit at a time, always choosing a worker whose spin test passes, and
 * proves that exactly one passes at every point, that it passes for the next
 * position of the chain, and that the two private sums add up to `gather`.
 */
module LockStep {
  import opened Cache
  import opened ScatterGather

  /** The positions below `n` that worker `t` handles, in the order it handles them. */
  function Positions(t: nat, n: nat): seq<nat>
  {
    if n == 0 then []
    else Positions(t, n - 1) + (if (n - 1) % 2 == t then [n - 1] else [])
  }

  /** Worker `t < 2` handles exactly the positions of its parity, in increasing order. */
  lemma {:induction false} PositionsAt(t: nat, n: nat)
    requires t < 2
    ensures |Positions(t, n)| == (n + 1 - t) / 2
    ensures forall j :: 0 <= j < |Positions(t, n)| ==> Positions(t, n)[j] == 2 * j + t
  {
    if n > 0 {
      PositionsAt(t, n - 1);
    }
  }

  /** Membership form of `PositionsAt`: `i` is handled by worker `i % 2`, and by no other. */
  lemma {:induction false} PositionsMembers(t: nat, n: nat, i: int)
    requires t < 2
    ensures i in Positions(t, n) <==> 0 <= i < n && i % 2 == t
  {
    PositionsAt(t, n);
    var ps := Positions(t, n);
    if 0 <= i < n && i % 2 == t {
      var j := (i - t) / 2;
      assert 0 <= j < |ps| && ps[j] == i;
    }
  }

  /** The next position of worker `t` once the first `p` positions are committed. */
  function NextPosition(t: nat, p: nat): nat
  {
    if p % 2 == t then p else p + 1
  }

  /** The private `sum` of worker `t` once the first `p` positions are committed. */
  function PartialSum(payload: seq<int>, indices: seq<int>, l: nat, t: nat, p: nat): int
    requires WellFormed(payload, indices)
    requires p <= NumOuterLoop(|indices|, l)
  {
    if p == 0 then 0
    else
      var own := if (p - 1) % 2 == t then Offset(payload, indices, l, p) else 0;
      PartialSum(payload, indices, l, t, p - 1) + own
  }

  /** The two private sums together are the whole chain: `futures[0] + futures[1] == gather()`. */
  lemma {:induction false} ParitySplit(payload: seq<int>, indices: seq<int>, l: nat, p: nat)
    requires WellFormed(payload, indices)
    requires p <= NumOuterLoop(|indices|, l)
    ensures PartialSum(payload, indices, l, 0, p) + PartialSum(payload, indices, l, 1, p)
         == Chain(payload, indices, l, p)
  {
    if p > 0 {
      ParitySplit(payload, indices, l, p - 1);
    }
  }

  /** The shared atomics `count` (turn counter) and `index_comm` (offset of the chain). */
  class SharedTurn {
    var count: int
    var indexComm: int

    /** `parallel_gather` resets both before starting the workers. */
    constructor ()
      ensures count == 0 && indexComm == 0
    {
      count := 0;
      indexComm := 0;
    }
  }

  /** One `gather_thread`: its loop position, expected turn and private sum. */
  class Worker {
    const id: nat
    var i: nat
    var localCount: int
    var sum: int
    ghost var handled: seq<nat>

    /** The expected turn is the position about to be handled, of the worker's parity. */
    ghost predicate Valid()
      reads this
    {
      id < 2 && localCount == i && i % 2 == id
    }

    constructor (id: nat)
      requires id < 2
      ensures Valid() && this.id == id
      ensures i == id && sum == 0 && handled == []
    {
      this.id := id;
      i := id;
      localCount := id;
      sum := 0;
      handled := [];
    }

    /** The spin-wait `while (count.load() != local_count)` has ended and the loop has work left. */
    predicate MayCommit(turn: SharedTurn, n: nat)
      reads this, turn
    {
      i < n && turn.count == localCount
    }

    /**
     * One iteration of the loop in `gather_thread`, entered once its spin-wait
     * has ended: the window sum, the dependent read through the shared offset,
     * the release of the turn and the worker's next expected turn.
     */
    method Commit(turn: SharedTurn, payload: array<int>, indices: array<int>, l: nat)
      requires Valid()
      requires WellFormed(payload[..], indices[..])
      requires MayCommit(turn, NumOuterLoop(indices.Length, l))
      modifies this, turn
      ensures Valid()
      ensures turn.indexComm == NextOffset(payload[..], indices[..], l, old(i), old(turn.indexComm))
      ensures turn.count == old(turn.count) + 1
      ensures i == old(i) + 2 && localCount == turn.count + 1
      ensures sum == old(sum) + turn.indexComm
      ensures handled == old(handled) + [old(i)]
    {
      var index := indices[i];
      var tmp := WindowSum(payload, indices, i, l);
      var indexOffset := turn.indexComm;
      var realIndex := RealIndex(payload.Length, index, indexOffset);
      indexOffset := indexOffset + tmp + payload[realIndex];
      turn.indexComm := indexOffset;
      turn.count := turn.count + 1;
      localCount := turn.count + 1;
      sum := sum + indexOffset;
      handled := handled + [i];
      i := i + 2;
    }
  }

  /**
   * The protocol's state once the chain's first `p` positions are committed:
   * `count` is `p`, each worker expects its turn at its next position, the
   * shared offset is `off_p` and each private sum holds the offsets of the
   * positions that worker committed.
   */
  ghost predicate Committed(turn: SharedTurn, w0: Worker, w1: Worker,
                            payload: seq<int>, indices: seq<int>, l: nat, p: nat)
    reads turn, w0, w1
    requires WellFormed(payload, indices)
  {
    && w0 != w1 && w0.Valid() && w1.Valid() && w0.id == 0 && w1.id == 1
    && p <= NumOuterLoop(|indices|, l) && turn.count == p
    && w0.i == NextPosition(0, p) && w1.i == NextPosition(1, p)
    && turn.indexComm == Offset(payload, indices, l, p)
    && w0.sum == PartialSum(payload, indices, l, 0, p)
    && w1.sum == PartialSum(payload, indices, l, 1, p)
    && w0.handled == Positions(0, p) && w1.handled == Positions(1, p)
  }

  /**
   * The next commit of the interleaving: while positions remain, the spin test
   * of exactly one worker passes (the one whose turn is position `p`), and
   * its commit advances the protocol to `p + 1`.
   */
  method CommitNext(turn: SharedTurn, w0: Worker, w1: Worker,
                    payload: array<int>, indices: array<int>, l: nat, ghost p: nat)
    requires WellFormed(payload[..], indices[..])
    requires Committed(turn, w0, w1, payload[..], indices[..], l, p)
    requires p < NumOuterLoop(indices.Length, l)
    modifies turn, w0, w1
    ensures old(w0.MayCommit(turn, NumOuterLoop(indices.Length, l)))
         != old(w1.MayCommit(turn, NumOuterLoop(indices.Length, l)))
    ensures old(w0.MayCommit(turn, NumOuterLoop(indices.Length, l))) <==> p % 2 == 0
    ensures Committed(turn, w0, w1, payload[..], indices[..], l, p + 1)
  {
    var n := NumOuterLoop(indices.Length, l);
    if w0.MayCommit(turn, n) {
      w0.Commit(turn, payload, indices, l);
    } else {
      w1.Commit(turn, payload, indices, l);
    }
  }

  /**
   * `parallel_gather`: two workers, run until both have left their loops, and
   * the sum of their results. Returns, besides the result, the positions each
   * worker handled.
   */
  method ParallelGather(payload: array<int>, indices: array<int>, l: nat)
    returns (result: int, ghost handled0: seq<nat>, ghost handled1: seq<nat>)
    requires WellFormed(payload[..], indices[..])
    ensures result == GatherSpec(payload[..], indices[..], l)
    ensures handled0 == Positions(0, NumOuterLoop(indices.Length, l))
    ensures handled1 == Positions(1, NumOuterLoop(indices.Length, l))
  {
    var n := NumOuterLoop(indices.Length, l);
    var turn := new SharedTurn();
    var w0 := new Worker(0);
    var w1 := new Worker(1);
    ghost var p: nat := 0;
    while w0.i < n || w1.i < n
      invariant Committed(turn, w0, w1, payload[..], indices[..], l, p)
      decreases n - p
    {
      CommitNext(turn, w0, w1, payload, indices, l, p);
      p := p + 1;
    }
    assert p == n;
    result := w0.sum + w1.sum;
    ParitySplit(payload[..], indices[..], l, n);
    handled0, handled1 := w0.handled, w1.handled;
  }
}
