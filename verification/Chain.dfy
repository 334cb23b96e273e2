/**
 * The chain as the RPC provider shows it.  A ledger gives, for every block hash, the header and the events
 * behind it; a chain is the sequence of hashes from block 0 to the head.  Because a header names its parent,
 * a hash fixes all of its ancestors: that is a theorem here, not an assumption.
 */
module Chain {
  import opened Types
  import opened Decoder

  datatype EventLog = EventLog(data: LogData, txn: Hash, index: nat)

  datatype Header = Header(parent: Hash, timestamp: nat, events: seq<EventLog>)

  type Ledger = Hash -> Header

  type View = seq<Hash>

  /** The number of the newest block. */
  function Head(c: View): nat {
    SatSub(|c|, 1)
  }

  ghost predicate ParentLink(ledger: Ledger, child: Hash, parent: Hash) {
    ledger(child).parent == parent
  }

  ghost predicate LinkedAt(ledger: Ledger, c: View, n: nat) {
    0 < n < |c| ==> ParentLink(ledger, c[n], c[n - 1])
  }

  ghost predicate ValidChain(ledger: Ledger, c: View) {
    forall n: nat :: LinkedAt(ledger, c, n)
  }

  ghost predicate AgreesAt(blocks: map<nat, Hash>, c: View, b: nat) {
    b in blocks ==> b < |c| && blocks[b] == c[b]
  }

  /** Every stored block is a block of `c`. */
  ghost predicate Agrees(blocks: map<nat, Hash>, c: View) {
    forall b: nat :: AgreesAt(blocks, c, b)
  }

  ghost predicate StoredLinkAt(ledger: Ledger, blocks: map<nat, Hash>, b: nat) {
    b in blocks && b + 1 in blocks ==> ParentLink(ledger, blocks[b + 1], blocks[b])
  }

  /** Neighbouring stored blocks are parent and child. */
  ghost predicate Linked(ledger: Ledger, blocks: map<nat, Hash>) {
    forall b: nat :: StoredLinkAt(ledger, blocks, b)
  }

  /** Two chains that share a block share everything below it. */
  lemma {:induction false} SameAncestors(ledger: Ledger, c: View, d: View, n: nat)
    requires ValidChain(ledger, c) && ValidChain(ledger, d)
    requires n < |c| && n < |d| && c[n] == d[n]
    ensures c[..n + 1] == d[..n + 1]
  {
    if n > 0 {
      assert LinkedAt(ledger, c, n) && LinkedAt(ledger, d, n);
      SameAncestors(ledger, c, d, n - 1);
      assert c[..n + 1] == c[..n] + [c[n]];
      assert d[..n + 1] == d[..n] + [d[n]];
    } else {
      assert c[..1] == [c[0]] && d[..1] == [d[0]];
    }
  }

  /** One agreeing block of a linked store vouches for all stored blocks below it. */
  lemma {:induction false} AgreementDescends(ledger: Ledger, blocks: map<nat, Hash>, c: View, lo: nat, hi: nat)
    requires ValidChain(ledger, c) && Linked(ledger, blocks)
    requires lo <= hi && forall b :: lo <= b <= hi ==> b in blocks
    requires AgreesAt(blocks, c, hi)
    ensures AgreesAt(blocks, c, lo)
    decreases hi - lo
  {
    if lo < hi {
      assert StoredLinkAt(ledger, blocks, hi - 1) && LinkedAt(ledger, c, hi);
      AgreementDescends(ledger, blocks, c, lo, hi - 1);
    }
  }
}
