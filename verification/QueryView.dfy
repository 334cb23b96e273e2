/**
 * What a query reads once both lanes agree with the chain: the chain's index and nothing else.  And when the two
 * workers, both at rest, leave blocks near the head in no lane.
 */
module QueryView {
  import opened Types
  import opened Chain
  import opened Lanes
  import opened Storage
  import opened Protocol
  import opened Integrity
  import opened Coverage
  import opened ColdAgreement
  import opened HotAgreement
  import opened HotWindow
  import opened ApiView
  import opened Convergence
  import opened Interleaving

  /** Both lanes as one. */
  function Merged(db: Db): Lane {
    Lane(db.cold.blocks + db.hot.blocks, db.cold.transfers + db.hot.transfers)
  }

  /** With disjoint lanes no row is in both tables, so the UNION ALL counts each row of the merged lane once. */
  lemma UnionIsMerged(db: Db)
    requires RowsMatch(db.cold) && RowsMatch(db.hot) && Disjoint(db)
    ensures CombinedTransfers(db) == multiset(Merged(db).transfers.Values)
  {
    RowsMatchKeyed(db.cold);
    RowsMatchKeyed(db.hot);
    forall r ensures CombinedTransfers(db)[r] == multiset(Merged(db).transfers.Values)[r] {
      RowOccursOnce(db.cold.transfers, r);
      RowOccursOnce(db.hot.transfers, r);
      RowOccursOnce(Merged(db).transfers, r);
      assert RowMatches(db.cold, r.RowKey()) && RowMatches(db.hot, r.RowKey());
    }
  }

  lemma MergedComplete(cfg: Config, ledger: Ledger, db: Db)
    requires Complete(ledger, cfg.contract, db.cold) && Complete(ledger, cfg.contract, db.hot) && Disjoint(db)
    ensures Complete(ledger, cfg.contract, Merged(db))
  {
    forall k ensures CompleteAt(ledger, cfg.contract, Merged(db), k) {
      assert CompleteAt(ledger, cfg.contract, db.cold, k) && CompleteAt(ledger, cfg.contract, db.hot, k);
    }
  }

  /** The block after the last one that some lane should have. */
  function Reach(cfg: Config, db: Db): nat {
    Max(cfg.NextFinalized(db.checkpoint), db.liveCheckpoint + 1)
  }

  lemma MergedBlocks(cfg: Config, s: State, c: View)
    requires cfg.Valid() && Inv(cfg, s) && Gapless(s) && s.pruned <= cfg.NextFinalized(s.db.checkpoint)
    requires Agrees(s.db.cold.blocks, c) && Agrees(s.db.hot.blocks, c)
    ensures forall b: nat :: b in Merged(s.db).blocks <==> cfg.start <= b < Reach(cfg, s.db)
    ensures Agrees(Merged(s.db).blocks, c)
    ensures Reach(cfg, s.db) <= cfg.start || Reach(cfg, s.db) <= |c|
  {
    forall b: nat ensures b in Merged(s.db).blocks <==> cfg.start <= b < Reach(cfg, s.db) {
      assert s.pruned <= b <= s.db.liveCheckpoint ==> Covered(s.db, b);
    }
    forall b: nat ensures AgreesAt(Merged(s.db).blocks, c, b) {
      assert AgreesAt(s.db.cold.blocks, c, b) && AgreesAt(s.db.hot.blocks, c, b);
    }
    if Reach(cfg, s.db) > cfg.start {
      assert Reach(cfg, s.db) - 1 in Merged(s.db).blocks;
      assert AgreesAt(Merged(s.db).blocks, c, Reach(cfg, s.db) - 1);
    }
  }

  /**
   * When the window check passes against a chain, the hot lane agrees with it, the lanes are disjoint and without a
   * gap, and pruning has not outrun finalization, a query reads exactly the index of the chain from the start block
   * on.
   */
  lemma QueriesReadTheChain(cfg: Config, ledger: Ledger, evs: seq<Event>, c: View)
    requires cfg.Valid() && BackFaithfulRun(cfg, ledger, evs) && LiveFaithfulRun(cfg, ledger, evs)
    requires ValidChain(ledger, c) && WindowAgrees(cfg, Exec(cfg, evs).db, c) && Agrees(Exec(cfg, evs).db.hot.blocks, c)
    requires Gapless(Exec(cfg, evs)) && Disjoint(Exec(cfg, evs).db)
    requires Exec(cfg, evs).pruned <= cfg.NextFinalized(Exec(cfg, evs).db.checkpoint)
    ensures var db := Exec(cfg, evs).db;
            && (Reach(cfg, db) <= cfg.start || Reach(cfg, db) <= |c|)
            && CombinedTransfers(db)
               == multiset(NaiveIndex(ledger, cfg.contract, c, cfg.start, Reach(cfg, db)).transfers.Values)
  {
    var s := Exec(cfg, evs);
    AlwaysInv(cfg, evs);
    ColdLaneIsLinkedAndComplete(cfg, ledger, evs);
    HotLaneIsComplete(cfg, ledger, evs);
    WindowVouches(cfg, ledger, s.db, c);
    MergedBlocks(cfg, s, c);
    MergedComplete(cfg, ledger, s.db);
    CompleteIsNaive(ledger, cfg.contract, Merged(s.db), c, cfg.start, Reach(cfg, s.db));
    UnionIsMerged(s.db);
  }

  // ---------- can finalization keep up with pruning? ----------

  /** The configuration condition: the live window reaches down to the safe head, or to the start block. */
  predicate WindowsMeet(cfg: Config, head: nat) {
    cfg.confirmationDepth <= cfg.LiveDepth() || head + 1 <= cfg.start + cfg.LiveDepth()
  }

  lemma PruningMeetsFinalization(cfg: Config, head: nat)
    requires cfg.Valid()
    ensures cfg.LiveStart(cfg.start, head) <= Max(cfg.SafeHead(head) + 1, cfg.start) <==> WindowsMeet(cfg, head)
  {
  }

  /** On long chains only the two depths matter. */
  lemma WindowsMeetOnEveryChain(cfg: Config)
    ensures (forall head: nat :: WindowsMeet(cfg, head)) <==> cfg.confirmationDepth <= cfg.LiveDepth()
  {
    assert WindowsMeet(cfg, cfg.start + cfg.LiveDepth()) <==> cfg.confirmationDepth <= cfg.LiveDepth();
  }

  /** Every block from the start block to the head is in some lane. */
  ghost predicate CoversChain(cfg: Config, db: Db, c: View) {
    forall b: nat :: cfg.start <= b <= Head(c) ==> Covered(db, b)
  }

  /** The blocks of the chain in no lane are those from the next block to finalize to the prune bound. */
  ghost predicate HoleIs(cfg: Config, db: Db, c: View, lo: nat, hi: nat) {
    forall b: nat :: cfg.start <= b <= Head(c) ==> (Covered(db, b) <==> !(lo <= b < hi))
  }

  lemma RestPosition(cfg: Config, ledger: Ledger, db: Db, c: View)
    requires AtRest(cfg, ledger, db, c)
    ensures cfg.NextFinalized(db.checkpoint) > cfg.SafeHead(Head(c)) && WindowAgrees(cfg, db, c)
    ensures cfg.start <= Head(c) ==> db.liveCheckpoint >= Head(c)
  {
    CheckFinds(cfg, db, c);
  }

  lemma HoleAtRest(cfg: Config, ledger: Ledger, s: State, c: View)
    requires cfg.Valid() && Inv(cfg, s) && InsideWindow(cfg, s) && AtRest(cfg, ledger, s.db, c) && Gapless(s)
    ensures HoleIs(cfg, s.db, c, cfg.NextFinalized(s.db.checkpoint), s.pruned)
    ensures CoversChain(cfg, s.db, c)
       <==> s.pruned <= cfg.NextFinalized(s.db.checkpoint) || cfg.NextFinalized(s.db.checkpoint) > Head(c)
  {
    RestPosition(cfg, ledger, s.db, c);
    var next := cfg.NextFinalized(s.db.checkpoint);
    forall b: nat | cfg.start <= b <= Head(c) ensures Covered(s.db, b) <==> !(next <= b < s.pruned) {
      assert b >= s.pruned ==> Covered(s.db, b);
    }
    if s.pruned > next && next <= Head(c) {
      assert !Covered(s.db, next);
    }
  }

  /**
   * At rest, the blocks of the chain in no lane are exactly those from the next block to finalize to the prune bound,
   * so every block is in some lane if and only if pruning has not outrun finalization or all blocks are finalized.
   */
  lemma RestCoversExactly(cfg: Config, ledger: Ledger, evs: seq<Event>, c: View)
    requires cfg.Valid() && RisingHeads(cfg, evs)
    requires AtRest(cfg, ledger, Exec(cfg, evs).db, c) && Gapless(Exec(cfg, evs))
    ensures var s := Exec(cfg, evs);
            var next := cfg.NextFinalized(s.db.checkpoint);
            && HoleIs(cfg, s.db, c, next, s.pruned)
            && (CoversChain(cfg, s.db, c) <==> s.pruned <= next || next > Head(c))
  {
    AlwaysInv(cfg, evs);
    HotStaysInside(cfg, evs);
    HoleAtRest(cfg, ledger, Exec(cfg, evs), c);
  }

  // ---------- ... in terms of the configuration ----------

  /** The heads of the chains that the backfill sees never decrease. */
  ghost predicate RisingBackHeads(cfg: Config, evs: seq<Event>) {
    evs == [] ||
    (var s, ev := Exec(cfg, evs[..|evs| - 1]), evs[|evs| - 1];
     RisingBackHeads(cfg, evs[..|evs| - 1])
     && (ev.IsBack() && BackEnabled(cfg, s.db, ev) ==> |ev.view| >= |s.backView|))
  }

  /** Whatever the backfill saw before, meeting windows mean that pruning has not outrun finalization at rest. */
  lemma MeetingWindowsSuffice(cfg: Config, ledger: Ledger, evs: seq<Event>, c: View)
    requires cfg.Valid() && RisingHeads(cfg, evs) && Exec(cfg, evs).liveHead == Head(c)
    requires AtRest(cfg, ledger, Exec(cfg, evs).db, c) && WindowsMeet(cfg, Head(c))
    ensures Exec(cfg, evs).pruned <= cfg.NextFinalized(Exec(cfg, evs).db.checkpoint)
  {
    HotStaysInside(cfg, evs);
    RestPosition(cfg, ledger, Exec(cfg, evs).db, c);
    PruningMeetsFinalization(cfg, Head(c));
  }

  lemma SafeHeadRises(cfg: Config, low: nat, high: nat)
    requires low <= high
    ensures cfg.SafeHead(low) <= cfg.SafeHead(high)
  {
  }

  /** Then nothing above the safe head of the last chain is finalized. */
  lemma {:induction false} CheckpointIsSafe(cfg: Config, ledger: Ledger, evs: seq<Event>)
    requires cfg.Valid() && BackFaithfulRun(cfg, ledger, evs) && RisingBackHeads(cfg, evs)
    ensures Exec(cfg, evs).db.checkpoint <= cfg.SafeHead(Head(Exec(cfg, evs).backView))
  {
    if evs != [] {
      var before, ev := evs[..|evs| - 1], evs[|evs| - 1];
      CheckpointIsSafe(cfg, ledger, before);
      AlwaysInv(cfg, before);
      CheckpointStaysSafe(cfg, ledger, Exec(cfg, before), ev);
    }
  }

  lemma CheckpointStaysSafe(cfg: Config, ledger: Ledger, s: State, ev: Event)
    requires cfg.Valid() && Inv(cfg, s) && s.db.checkpoint <= cfg.SafeHead(Head(s.backView))
    requires BackFaithful(cfg, ledger, s, ev)
    requires ev.IsBack() && BackEnabled(cfg, s.db, ev) ==> |ev.view| >= |s.backView|
    ensures var after := Apply(cfg, s, ev); after.db.checkpoint <= cfg.SafeHead(Head(after.backView))
  {
    if !ev.IsBack() {
      WorkersMeetInHot(cfg, s, ev);
    } else if BackEnabled(cfg, s.db, ev) {
      SafeHeadRises(cfg, Head(s.backView), Head(ev.view));
    }
  }

  /**
   * With heads that never decrease for both workers, every block of the chain is in some lane at rest if and only if
   * the confirmation depth is at most the live depth, or the chain has at most so many blocks from the start block on.
   */
  lemma DepthsDecideCoverage(cfg: Config, ledger: Ledger, evs: seq<Event>, c: View)
    requires cfg.Valid() && BackFaithfulRun(cfg, ledger, evs) && RisingHeads(cfg, evs) && RisingBackHeads(cfg, evs)
    requires |c| >= |Exec(cfg, evs).backView| && Exec(cfg, evs).liveHead == Head(c)
    requires AtRest(cfg, ledger, Exec(cfg, evs).db, c) && Gapless(Exec(cfg, evs))
    ensures CoversChain(cfg, Exec(cfg, evs).db, c) <==> WindowsMeet(cfg, Head(c))
    ensures WindowsMeet(cfg, Head(c)) <==> Exec(cfg, evs).pruned <= cfg.NextFinalized(Exec(cfg, evs).db.checkpoint)
  {
    var s := Exec(cfg, evs);
    AlwaysInv(cfg, evs);
    HotStaysInside(cfg, evs);
    HoleAtRest(cfg, ledger, s, c);
    CheckpointIsSafe(cfg, ledger, evs);
    SafeHeadRises(cfg, Head(s.backView), Head(c));
    RestPosition(cfg, ledger, s.db, c);
    PruningMeetsFinalization(cfg, Head(c));
  }

  // ---------- what a query reads at rest ----------

  lemma RestReach(cfg: Config, ledger: Ledger, db: Db, c: View)
    requires cfg.Valid() && AtRest(cfg, ledger, db, c)
    requires Reach(cfg, db) <= cfg.start || Reach(cfg, db) <= |c|
    ensures NaiveIndex(ledger, cfg.contract, c, cfg.start, Reach(cfg, db))
         == NaiveIndex(ledger, cfg.contract, c, cfg.start, |c|)
  {
    RestPosition(cfg, ledger, db, c);
    if |c| <= cfg.start {
      assert NaiveIndex(ledger, cfg.contract, c, cfg.start, Reach(cfg, db)) == EMPTY_LANE;
      assert NaiveIndex(ledger, cfg.contract, c, cfg.start, |c|) == EMPTY_LANE;
    } else {
      assert Reach(cfg, db) == |c|;
    }
  }

  /**
   * At rest with nothing pruned ahead of finalization, two agreeing, disjoint and gapless lanes serve the whole
   * chain.
   */
  lemma RestServesTheChain(cfg: Config, ledger: Ledger, evs: seq<Event>, c: View)
    requires cfg.Valid() && BackFaithfulRun(cfg, ledger, evs) && LiveFaithfulRun(cfg, ledger, evs)
    requires ValidChain(ledger, c) && AtRest(cfg, ledger, Exec(cfg, evs).db, c)
    requires Agrees(Exec(cfg, evs).db.hot.blocks, c)
    requires Gapless(Exec(cfg, evs)) && Disjoint(Exec(cfg, evs).db)
    requires Exec(cfg, evs).pruned <= cfg.NextFinalized(Exec(cfg, evs).db.checkpoint)
    ensures CombinedTransfers(Exec(cfg, evs).db)
         == multiset(NaiveIndex(ledger, cfg.contract, c, cfg.start, |c|).transfers.Values)
  {
    RestPosition(cfg, ledger, Exec(cfg, evs).db, c);
    QueriesReadTheChain(cfg, ledger, evs, c);
    RestReach(cfg, ledger, Exec(cfg, evs).db, c);
  }

  /** The conditions on a run under which its lanes agree with the settled chain, have no gap and stay disjoint. */
  ghost predicate OrderlyRun(cfg: Config, ledger: Ledger, evs: seq<Event>) {
    && BackFaithfulRun(cfg, ledger, evs) && LiveFaithfulRun(cfg, ledger, evs)
    && RisingHeads(cfg, evs) && ShallowReorgs(cfg, evs)
    && UndisturbedRun(cfg, evs) && CommitsAboveCheckpoint(cfg, evs)
  }

  lemma OrderlyLanes(cfg: Config, ledger: Ledger, evs: seq<Event>)
    requires cfg.Valid() && OrderlyRun(cfg, ledger, evs)
    ensures Agrees(Exec(cfg, evs).db.hot.blocks, Exec(cfg, evs).settledView)
    ensures Gapless(Exec(cfg, evs)) && Disjoint(Exec(cfg, evs).db)
  {
    ShallowReorgsAreHealed(cfg, ledger, evs);
    UndisturbedRunsHaveNoGaps(cfg, evs);
    LanesDisjointExactly(cfg, evs);
  }

  /**
   * After an orderly run that has come to rest on the chain of its last live iteration, a query reads exactly the
   * index of the whole chain, provided that the two windows meet.
   */
  lemma OrderlyRestServesTheChain(cfg: Config, ledger: Ledger, evs: seq<Event>, c: View)
    requires cfg.Valid() && OrderlyRun(cfg, ledger, evs) && ValidChain(ledger, c)
    requires Exec(cfg, evs).settledView == c && Exec(cfg, evs).liveHead == Head(c)
    requires AtRest(cfg, ledger, Exec(cfg, evs).db, c) && WindowsMeet(cfg, Head(c))
    ensures CombinedTransfers(Exec(cfg, evs).db)
         == multiset(NaiveIndex(ledger, cfg.contract, c, cfg.start, |c|).transfers.Values)
  {
    OrderlyLanes(cfg, ledger, evs);
    MeetingWindowsSuffice(cfg, ledger, evs, c);
    RestServesTheChain(cfg, ledger, evs, c);
  }
}
