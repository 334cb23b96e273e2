/**
 * The cold lane against the chain.  The backfill checks only a window behind its checkpoint; because the lane
 * stays hash-linked, the window vouches for everything below it.  Reorganisations between iterations are
 * arbitrary, and the live worker does whatever it likes.
 */
module ColdAgreement {
  import opened Types
  import opened Chain
  import opened Payload
  import opened Lanes
  import opened Storage
  import opened Protocol
  import opened Integrity

  ghost predicate ColdInv(cfg: Config, ledger: Ledger, db: Db) {
    Linked(ledger, db.cold.blocks) && Complete(ledger, cfg.contract, db.cold)
  }

  /** A clean window means a clean lane. */
  lemma WindowVouches(cfg: Config, ledger: Ledger, db: Db, c: View)
    requires ColdContiguous(cfg, db) && Linked(ledger, db.cold.blocks)
    requires ValidChain(ledger, c) && WindowAgrees(cfg, db, c)
    ensures Agrees(db.cold.blocks, c)
  {
    forall b: nat ensures AgreesAt(db.cold.blocks, c, b) {
      if b in db.cold.blocks {
        assert StoredAt(db.cold.blocks, c, db.checkpoint);
        AgreementDescends(ledger, db.cold.blocks, c, b, db.checkpoint);
      }
    }
  }

  lemma CommitKeepsLinks(ledger: Ledger, blocks: map<nat, Hash>, after: map<nat, Hash>, c: View, next: nat, hi: nat)
    requires ValidChain(ledger, c) && Linked(ledger, blocks) && Agrees(blocks, c)
    requires hi <= |c|
    requires forall b: nat :: b in blocks ==> b < next
    requires forall b: nat :: b in after <==> b in blocks || next <= b < hi
    requires forall b: nat :: b in after ==> after[b] == if next <= b < hi then c[b] else blocks[b]
    ensures Linked(ledger, after) && Agrees(after, c)
  {
    forall b: nat ensures StoredLinkAt(ledger, after, b) {
      assert LinkedAt(ledger, c, b + 1);
      assert StoredLinkAt(ledger, blocks, b) && AgreesAt(blocks, c, b) && AgreesAt(blocks, c, b + 1);
    }
    forall b: nat ensures AgreesAt(after, c, b) {
      assert AgreesAt(blocks, c, b);
    }
  }

  /** Indexing the next blocks of a chain that the lane agrees with. */
  lemma ExtendCold(cfg: Config, ledger: Ledger, db: Db, c: View, next: nat, last: nat)
    requires ColdContiguous(cfg, db) && ColdInv(cfg, ledger, db)
    requires ValidChain(ledger, c) && WindowAgrees(cfg, db, c)
    requires next == cfg.NextFinalized(db.checkpoint) && next <= last < |c|
    ensures var after := db.cold.Insert(RangePayload(ledger, cfg.contract, c, next, last));
            && after == AddRange(ledger, cfg.contract, db.cold, c, next, last + 1)
            && Linked(ledger, after.blocks) && Complete(ledger, cfg.contract, after) && Agrees(after.blocks, c)
  {
    WindowVouches(cfg, ledger, db, c);
    var hi := last + 1;
    var after := db.cold.Insert(RangePayload(ledger, cfg.contract, c, next, last));
    InsertKeepsComplete(ledger, cfg.contract, db.cold, c, next, last);
    assert after == AddRange(ledger, cfg.contract, db.cold, c, next, hi);
    AddRangeBlocks(ledger, cfg.contract, db.cold, c, next, hi);
    CommitKeepsLinks(ledger, db.cold.blocks, after.blocks, c, next, hi);
  }

  lemma CommitKeepsColdInv(cfg: Config, ledger: Ledger, s: State, ev: Event)
    requires cfg.Valid() && Inv(cfg, s) && ColdInv(cfg, ledger, s.db)
    requires ev.BackCommit? && BackEnabled(cfg, s.db, ev) && BackFaithful(cfg, ledger, s, ev)
    ensures ColdInv(cfg, ledger, Apply(cfg, s, ev).db)
    ensures Agrees(Apply(cfg, s, ev).db.cold.blocks, ev.view)
    ensures Apply(cfg, s, ev).db.cold
         == AddRange(ledger, cfg.contract, s.db.cold, ev.view, cfg.NextFinalized(s.db.checkpoint), ev.last + 1)
  {
    ExtendCold(cfg, ledger, s.db, ev.view, cfg.NextFinalized(s.db.checkpoint), ev.last);
  }

  lemma StepKeepsColdInv(cfg: Config, ledger: Ledger, s: State, ev: Event)
    requires cfg.Valid() && Inv(cfg, s) && ColdInv(cfg, ledger, s.db)
    requires BackFaithful(cfg, ledger, s, ev)
    ensures ColdInv(cfg, ledger, Apply(cfg, s, ev).db)
  {
    var after := Apply(cfg, s, ev);
    if ev.IsBack() && BackEnabled(cfg, s.db, ev) {
      if ev.BackCommit? {
        CommitKeepsColdInv(cfg, ledger, s, ev);
      } else {
        WholePart(s.db.cold);
        assert PartOf(s.db.cold, after.db.cold);
        PartKeepsLinked(ledger, s.db.cold, after.db.cold);
        PartKeepsComplete(ledger, cfg.contract, s.db.cold, after.db.cold);
      }
    } else if !ev.IsBack() {
      WorkersMeetInHot(cfg, s, ev);
    }
  }

  /** The cold lane stays hash-linked and complete: its transfers are exactly the logs of its blocks. */
  lemma {:induction false} ColdLaneIsLinkedAndComplete(cfg: Config, ledger: Ledger, evs: seq<Event>)
    requires cfg.Valid() && BackFaithfulRun(cfg, ledger, evs)
    ensures Linked(ledger, Exec(cfg, evs).db.cold.blocks)
    ensures Complete(ledger, cfg.contract, Exec(cfg, evs).db.cold)
  {
    if evs == [] {
      EmptyIsComplete(ledger, cfg.contract);
      forall b: nat ensures StoredLinkAt(ledger, EMPTY_LANE.blocks, b) {}
    } else {
      var before := evs[..|evs| - 1];
      ColdLaneIsLinkedAndComplete(cfg, ledger, before);
      AlwaysInv(cfg, before);
      StepKeepsColdInv(cfg, ledger, Exec(cfg, before), evs[|evs| - 1]);
    }
  }

  /**
   * Reorg safety over whole runs: whenever the window check passes against a chain, every cold block from the
   * start block to the checkpoint is a block of that chain, however deep earlier reorganisations were, and
   * the lane is that chain's naive index.
   */
  lemma CleanWindowMeansColdAgrees(cfg: Config, ledger: Ledger, evs: seq<Event>, c: View)
    requires cfg.Valid() && BackFaithfulRun(cfg, ledger, evs)
    requires ValidChain(ledger, c) && WindowAgrees(cfg, Exec(cfg, evs).db, c)
    ensures var db := Exec(cfg, evs).db;
            && (forall b: nat :: cfg.start <= b <= db.checkpoint ==> StoredAt(db.cold.blocks, c, b))
            && (cfg.NextFinalized(db.checkpoint) > cfg.start ==> db.checkpoint < |c|)
            && db.cold == NaiveIndex(ledger, cfg.contract, c, cfg.start, cfg.NextFinalized(db.checkpoint))
  {
    var db := Exec(cfg, evs).db;
    AlwaysInv(cfg, evs);
    ColdLaneIsLinkedAndComplete(cfg, ledger, evs);
    WindowVouches(cfg, ledger, db, c);
    forall b: nat | cfg.start <= b <= db.checkpoint ensures StoredAt(db.cold.blocks, c, b) {
      assert AgreesAt(db.cold.blocks, c, b);
    }
    if db.checkpoint >= cfg.start {
      assert StoredAt(db.cold.blocks, c, db.checkpoint);
    }
    CompleteIsNaive(ledger, cfg.contract, db.cold, c, cfg.start, cfg.NextFinalized(db.checkpoint));
  }

  // ---------- minimal rollback ----------

  /** Stale blocks of a linked lane form a suffix. */
  lemma StaleIsSuffix(cfg: Config, ledger: Ledger, db: Db, c: View, n: nat, b: nat)
    requires ColdContiguous(cfg, db) && Linked(ledger, db.cold.blocks) && ValidChain(ledger, c)
    requires n in db.cold.blocks && b in db.cold.blocks && n <= b
    requires !StoredAt(db.cold.blocks, c, n)
    ensures !StoredAt(db.cold.blocks, c, b)
  {
    if StoredAt(db.cold.blocks, c, b) {
      AgreementDescends(ledger, db.cold.blocks, c, n, b);
    }
  }

  /** A rollback deletes only blocks that the chain no longer has, and no window block before it was stale. */
  lemma RollbackIsMinimal(cfg: Config, ledger: Ledger, evs: seq<Event>, ev: Event)
    requires cfg.Valid() && BackFaithfulRun(cfg, ledger, evs)
    requires ev.BackMismatch? && BackEnabled(cfg, Exec(cfg, evs).db, ev)
    requires BackFaithful(cfg, ledger, Exec(cfg, evs), ev)
    ensures var s := Exec(cfg, evs);
            var after := Apply(cfg, s, ev).db;
            forall b: nat :: b in s.db.cold.blocks && StoredAt(s.db.cold.blocks, ev.view, b) ==>
              b in after.cold.blocks && after.cold.blocks[b] == s.db.cold.blocks[b]
    ensures forall b: nat :: b in Apply(cfg, Exec(cfg, evs), ev).db.cold.blocks
                             && b >= cfg.FinalizedWindow(Exec(cfg, evs).db.checkpoint) ==>
              StoredAt(Exec(cfg, evs).db.cold.blocks, ev.view, b)
  {
    var s := Exec(cfg, evs);
    AlwaysInv(cfg, evs);
    ColdLaneIsLinkedAndComplete(cfg, ledger, evs);
    forall b: nat | b in s.db.cold.blocks && b >= ev.block ensures !StoredAt(s.db.cold.blocks, ev.view, b) {
      StaleIsSuffix(cfg, ledger, s.db, ev.view, ev.block, b);
    }
  }

  // ---------- confirmation-depth finality ----------

  /** The chain that this backfill event saw keeps every block that the last one had buried deeply enough. */
  ghost predicate KeepsBuried(cfg: Config, s: State, ev: Event) {
    ev.IsBack() && BackEnabled(cfg, s.db, ev) ==>
      && |ev.view| >= |s.backView|
      && forall n: nat :: n + cfg.confirmationDepth < |s.backView| ==> ev.view[n] == s.backView[n]
  }

  ghost predicate BuriedStaysRun(cfg: Config, evs: seq<Event>) {
    evs == [] ||
    (BuriedStaysRun(cfg, evs[..|evs| - 1]) && KeepsBuried(cfg, Exec(cfg, evs[..|evs| - 1]), evs[|evs| - 1]))
  }

  /** Every cold block is buried in the chain of the last iteration. */
  ghost predicate ColdBuried(cfg: Config, s: State) {
    forall b: nat :: b in s.db.cold.blocks ==>
      b + cfg.confirmationDepth < |s.backView| && s.db.cold.blocks[b] == s.backView[b]
  }

  /** All rows are still there, unchanged. */
  ghost predicate LaneExtends(before: Lane, after: Lane) {
    && (forall b: nat :: b in before.blocks ==> b in after.blocks && after.blocks[b] == before.blocks[b])
    && (forall k :: k in before.transfers ==> k in after.transfers && after.transfers[k] == before.transfers[k])
  }

  ghost predicate ColdExtends(before: Db, after: Db) {
    before.checkpoint <= after.checkpoint && LaneExtends(before.cold, after.cold)
  }

  lemma InsertExtends(lane: Lane, p: Payload, first: nat, last: nat)
    requires ValidPayload(p, first, last) && forall b: nat :: first <= b <= last ==> b !in lane.blocks
    ensures LaneExtends(lane, lane.Insert(p))
    ensures forall b: nat :: b in lane.Insert(p).blocks ==> b in lane.blocks || b <= last
  {
    BlocksAfterInsert(lane.blocks, p.blocks, first);
    InsertedTransfers(lane.transfers, p.records);
  }

  /** A batch that ends below the confirmation depth leaves buried blocks only, and the old rows as they were. */
  lemma ExtendBuried(cfg: Config, ledger: Ledger, db: Db, c: View, next: nat, last: nat)
    requires ColdContiguous(cfg, db) && ColdInv(cfg, ledger, db)
    requires ValidChain(ledger, c) && WindowAgrees(cfg, db, c)
    requires next == cfg.NextFinalized(db.checkpoint) && next <= last && last + cfg.confirmationDepth < |c|
    ensures var after := db.cold.Insert(RangePayload(ledger, cfg.contract, c, next, last));
            && LaneExtends(db.cold, after)
            && forall b: nat :: b in after.blocks ==> b <= last && after.blocks[b] == c[b]
  {
    var p := RangePayload(ledger, cfg.contract, c, next, last);
    var after := db.cold.Insert(p);
    BuildIsRange(ledger, cfg.contract, c, next, last);
    InsertExtends(db.cold, p, next, last);
    assert Agrees(after.blocks, c) by {
      ExtendCold(cfg, ledger, db, c, next, last);
    }
    forall b: nat | b in after.blocks ensures b <= last && after.blocks[b] == c[b] {
      assert AgreesAt(after.blocks, c, b);
    }
  }

  lemma BuriedNeverMismatches(cfg: Config, ledger: Ledger, s: State, ev: Event)
    requires ColdBuried(cfg, s) && ev.BackMismatch?
    requires BackFaithful(cfg, ledger, s, ev) && KeepsBuried(cfg, s, ev)
    ensures !BackEnabled(cfg, s.db, ev)
  {
  }

  lemma FinalityStep(cfg: Config, ledger: Ledger, s: State, ev: Event)
    requires cfg.Valid() && Inv(cfg, s) && ColdInv(cfg, ledger, s.db) && ColdBuried(cfg, s)
    requires BackFaithful(cfg, ledger, s, ev) && KeepsBuried(cfg, s, ev)
    ensures ColdBuried(cfg, Apply(cfg, s, ev))
    ensures ev.BackMismatch? ==> !BackEnabled(cfg, s.db, ev)
    ensures ColdExtends(s.db, Apply(cfg, s, ev).db)
  {
    if !ev.IsBack() {
      WorkersMeetInHot(cfg, s, ev);
    } else if ev.BackMismatch? {
      BuriedNeverMismatches(cfg, ledger, s, ev);
    } else if ev.BackCommit? && BackEnabled(cfg, s.db, ev) {
      ExtendBuried(cfg, ledger, s.db, ev.view, cfg.NextFinalized(s.db.checkpoint), ev.last);
    }
  }

  lemma {:induction false} ColdStaysBuried(cfg: Config, ledger: Ledger, evs: seq<Event>)
    requires cfg.Valid() && BackFaithfulRun(cfg, ledger, evs) && BuriedStaysRun(cfg, evs)
    ensures ColdBuried(cfg, Exec(cfg, evs))
  {
    if evs != [] {
      var before := evs[..|evs| - 1];
      ColdStaysBuried(cfg, ledger, before);
      AlwaysInv(cfg, before);
      ColdLaneIsLinkedAndComplete(cfg, ledger, before);
      FinalityStep(cfg, ledger, Exec(cfg, before), evs[|evs| - 1]);
    }
  }

  /** If no reorganisation reaches a buried block, the backfill never rolls back. */
  lemma FinalizedNeverRollsBack(cfg: Config, ledger: Ledger, evs: seq<Event>, ev: Event)
    requires cfg.Valid() && BackFaithfulRun(cfg, ledger, evs) && BuriedStaysRun(cfg, evs)
    requires BackFaithful(cfg, ledger, Exec(cfg, evs), ev) && KeepsBuried(cfg, Exec(cfg, evs), ev)
    ensures ev.BackMismatch? || ev.BackMissing? || ev.BackConflict? ==> !BackEnabled(cfg, Exec(cfg, evs).db, ev)
  {
    ColdStaysBuried(cfg, ledger, evs);
    AlwaysInv(cfg, evs);
    ColdLaneIsLinkedAndComplete(cfg, ledger, evs);
    FinalityStep(cfg, ledger, Exec(cfg, evs), ev);
  }

  /** ... and over the whole run the cold lane is append-only and its checkpoint never decreases. */
  lemma {:induction false} FinalizedOnlyGrows(cfg: Config, ledger: Ledger, evs: seq<Event>, n: nat)
    requires cfg.Valid() && BackFaithfulRun(cfg, ledger, evs) && BuriedStaysRun(cfg, evs)
    requires n <= |evs|
    ensures ColdExtends(Exec(cfg, evs[..n]).db, Exec(cfg, evs).db)
  {
    if n == |evs| {
      assert evs[..n] == evs;
    } else {
      var before := evs[..|evs| - 1];
      assert before[..n] == evs[..n];
      FinalizedOnlyGrows(cfg, ledger, before, n);
      ColdStaysBuried(cfg, ledger, before);
      AlwaysInv(cfg, before);
      ColdLaneIsLinkedAndComplete(cfg, ledger, before);
      FinalityStep(cfg, ledger, Exec(cfg, before), evs[|evs| - 1]);
    }
  }

  /** A finalized range has the next ten blocks, as far as they are buried by the confirmation depth. */
  lemma CommitsAreBuried(cfg: Config, ledger: Ledger, s: State, ev: Event)
    requires cfg.Valid() && ev.BackCommit? && BackFaithful(cfg, ledger, s, ev)
    ensures ev.last + cfg.confirmationDepth <= Head(ev.view)
    ensures var first := Max(s.db.checkpoint + 1, cfg.start);
            forall n: nat :: InRange(n, first, ev.last)
                        <==> first <= n < first + 10 && n + cfg.confirmationDepth <= Head(ev.view)
  {
    SafeHeadExactly(cfg, Head(ev.view), ev.last);
  }

  predicate InRange(n: nat, first: nat, last: nat) {
    first <= n <= last
  }
}
