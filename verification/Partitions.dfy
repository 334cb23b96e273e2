/** Range partitions of the transfer tables, created on demand. */
module Partitions {

  const BLOCK_PARTITION_SIZE: nat := 100_000

  /** One partition holds the block numbers `from..to` (upper bound excluded). */
  datatype Range = Range(from: nat, to: nat) {
    predicate Holds(block: nat) {
      from <= block < to
    }
  }

  function StartOf(block: nat): nat {
    (block / BLOCK_PARTITION_SIZE) * BLOCK_PARTITION_SIZE
  }

  predicate AlignedRange(r: Range) {
    r.from % BLOCK_PARTITION_SIZE == 0 && r.to == r.from + BLOCK_PARTITION_SIZE
  }

  ghost predicate Aligned(parts: set<Range>) {
    forall r :: r in parts ==> AlignedRange(r)
  }

  /** Exactly one partition takes a row of this block. */
  ghost predicate HeldOnce(parts: set<Range>, block: nat) {
    && (exists r :: r in parts && r.Holds(block))
    && (forall r, q :: r in parts && q in parts && r.Holds(block) && q.Holds(block) ==> r == q)
  }

  /** Aligned partitions never overlap. */
  lemma AlignedDisjoint(parts: set<Range>, r: Range, q: Range, block: nat)
    requires Aligned(parts) && r in parts && q in parts
    requires r.Holds(block) && q.Holds(block)
    ensures r == q
  {
    assert AlignedRange(r) && AlignedRange(q);
    var i, j := r.from / BLOCK_PARTITION_SIZE, q.from / BLOCK_PARTITION_SIZE;
    assert r.from == i * BLOCK_PARTITION_SIZE && q.from == j * BLOCK_PARTITION_SIZE;
  }

  /**
   * Creates the missing partitions for the blocks `first..last`.  The new catalogue keeps the old partitions,
   * stays aligned, and holds each block of the range once; the loop visits one partition per step of
   * the range.
   */
  method EnsurePartitions(parts: set<Range>, first: nat, last: nat) returns (created: set<Range>, visited: nat)
    requires first <= last
    requires Aligned(parts)
    ensures parts <= created && Aligned(created)
    ensures forall block: nat :: first <= block <= last ==> HeldOnce(created, block)
    ensures forall r :: r in created && r !in parts ==> exists block: nat :: first <= block <= last && r.Holds(block)
    ensures visited == last / 100_000 - first / 100_000 + 1
    ensures forall r :: r in created && r !in parts ==> r.from % 100_000 == 0 && r.to == r.from + 100_000
  {
    var firstStart := StartOf(first);
    var lastStart := StartOf(last);
    created, visited := parts, 0;
    var start := firstStart;
    assert first / BLOCK_PARTITION_SIZE <= last / BLOCK_PARTITION_SIZE;
    while start <= lastStart
      invariant start == firstStart + visited * BLOCK_PARTITION_SIZE
      invariant start <= lastStart + BLOCK_PARTITION_SIZE
      invariant parts <= created && Aligned(created)
      invariant forall block: nat :: first <= block <= last && block < start ==> Covered(created, block)
      invariant forall r :: r in created && r !in parts ==> Needed(r, first, last)
      decreases lastStart + BLOCK_PARTITION_SIZE - start
    {
      var range := Range(start, start + BLOCK_PARTITION_SIZE);
      NewRangeIsNeeded(range, first, last);
      forall block: nat | first <= block <= last && block < range.to ensures Covered(created + {range}, block) {
        if block >= start {
          assert range.Holds(block) && range in created + {range};
        } else {
          assert Covered(created, block);
        }
      }
      created := created + {range};
      start := start + BLOCK_PARTITION_SIZE;
      visited := visited + 1;
    }
    forall block: nat | first <= block <= last ensures HeldOnce(created, block) {
      assert Covered(created, block);
      forall r, q | r in created && q in created && r.Holds(block) && q.Holds(block) ensures r == q {
        AlignedDisjoint(created, r, q, block);
      }
    }
  }

  ghost predicate Covered(parts: set<Range>, block: nat) {
    exists r :: r in parts && r.Holds(block)
  }

  ghost predicate Needed(r: Range, first: nat, last: nat) {
    exists block: nat :: first <= block <= last && r.Holds(block)
  }

  lemma NewRangeIsNeeded(r: Range, first: nat, last: nat)
    requires first <= last && AlignedRange(r)
    requires StartOf(first) <= r.from <= StartOf(last)
    ensures Needed(r, first, last)
  {
    if r.from >= first {
      assert r.Holds(r.from);
    } else {
      assert r.from == StartOf(first);
      assert r.Holds(first);
    }
  }

  /** A row that has its partition keeps exactly one, whatever partitions later inserts create. */
  lemma HeldOnceStays(parts: set<Range>, more: set<Range>, block: nat)
    requires parts <= more && Aligned(more)
    requires HeldOnce(parts, block)
    ensures HeldOnce(more, block)
  {
    forall r, q | r in more && q in more && r.Holds(block) && q.Holds(block) ensures r == q {
      AlignedDisjoint(more, r, q, block);
    }
  }
}
