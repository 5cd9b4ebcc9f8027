/**
 * The workload the child runs: a ring of ten slots, each iteration
 * allocating a fresh array into the current slot and advancing the
 * position modulo the ring length.
 */
module Workload {

  const RingSize := 10
  const Iterations := 1000
  /** The length of every array the workload allocates. */
  const ChunkLength := 10000

  /**
   * A ring slot: empty (a null reference), or the array allocated by the
   * iteration numbered `allocation`.
   */
  datatype Slot = Empty | Chunk(allocation: nat, length: nat)

  /** The last iteration before iteration `i` that wrote slot `k` (iteration `n` writes slot `n % RingSize`). */
  function LastWriter(i: nat, k: nat): (n: nat)
    requires k < RingSize && k < i
    ensures n < i && n % RingSize == k
    ensures forall m :: n < m < i ==> m % RingSize != k
  {
    i - 1 - (i - 1 - k) % RingSize
  }

  /** Iteration `i` becomes the last writer of its own slot and of no other. */
  lemma LastWriterStep(i: nat, k: nat)
    requires k < RingSize && k <= i
    ensures k == i % RingSize ==> LastWriter(i + 1, k) == i
    ensures k != i % RingSize && k < i ==> LastWriter(i + 1, k) == LastWriter(i, k)
    ensures k != i % RingSize ==> k < i
  {
  }

  /** Advancing the position modulo the ring length keeps it equal to the iteration count modulo the ring length. */
  lemma NextPosition(i: nat, j: nat)
    requires j == i % RingSize
    ensures (j + 1) % RingSize == (i + 1) % RingSize
  {
  }

  /** After all iterations, slot `k` was last written by the `k`-th of the final ten. */
  lemma LastWritersAtEnd()
    ensures forall k :: 0 <= k < RingSize ==> LastWriter(Iterations, k) == Iterations - RingSize + k
  {
    forall k | 0 <= k < RingSize ensures LastWriter(Iterations, k) == Iterations - RingSize + k {
      assert Iterations - 1 - k == RingSize * 99 + (RingSize - 1 - k);
    }
  }

  class GarbageProducer {
    /** The ring the workload writes into. */
    const garbage: array<Slot>

    constructor ()
      ensures fresh(garbage) && garbage.Length == RingSize
      ensures forall k :: 0 <= k < RingSize ==> garbage[k] == Empty
    {
      garbage := new Slot[RingSize](_ => Empty);
    }

    /**
     * The workload's loop. Returns the ring position after the last
     * iteration; every slot then holds the array from the last of the
     * iterations that wrote it.
     */
    method Run() returns (j: nat)
      requires garbage.Length == RingSize
      modifies garbage
      ensures j == 0
      ensures forall k :: 0 <= k < RingSize ==>
        garbage[k] == Chunk(Iterations - RingSize + k, ChunkLength)
    {
      j := 0;
      for i := 0 to Iterations
        invariant j == i % RingSize
        invariant forall k :: 0 <= k < RingSize ==>
          garbage[k] == if k < i then Chunk(LastWriter(i, k), ChunkLength) else old(garbage[k])
      {
        ghost var before := garbage[..];
        garbage[j] := Chunk(i, ChunkLength);
        assert forall k :: 0 <= k < RingSize && k != j ==> garbage[k] == before[k];
        forall k | 0 <= k < RingSize
          ensures garbage[k] == if k < i + 1 then Chunk(LastWriter(i + 1, k), ChunkLength) else old(garbage[k])
        {
          if k <= i { LastWriterStep(i, k); }
        }
        NextPosition(i, j);
        j := (j + 1) % garbage.Length;
      }
      LastWritersAtEnd();
    }
  }
}
