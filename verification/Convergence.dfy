/**
 * The backfill loop on a chain that no longer changes: how many rollbacks and commits it needs, when it can
 * not proceed at all, and where it ends.
 */
module Convergence {
  import opened Types
  import opened Chain
  import opened Payload
  import opened Lanes
  import opened Storage
  import opened Protocol
  import opened Integrity
  import opened ColdAgreement

  datatype Scan = Clean | Bad(block: nat) | NotFound(block: nat)

  /** The revalidation loop, from block `b` up to the checkpoint. */
  ghost function ScanFrom(blocks: map<nat, Hash>, c: View, b: nat, checkpoint: nat): Scan
    decreases checkpoint + 1 - b
  {
    if b > checkpoint then Clean
    else if b >= |c| then NotFound(b)
    else if StoredAt(blocks, c, b) then ScanFrom(blocks, c, b + 1, checkpoint)
    else Bad(b)
  }

  datatype Outcome = Failed | RolledBack(db: Db) | Committed(db: Db) | CaughtUp

  /** What the revalidation finds; it runs only once something has been finalized. */
  ghost function Check(cfg: Config, db: Db, c: View): Scan {
    if db.checkpoint >= cfg.start
    then ScanFrom(db.cold.blocks, c, cfg.FinalizedWindow(db.checkpoint), db.checkpoint)
    else Clean
  }

  /** The end of the next batch; below its start when there is nothing to finalize. */
  ghost function BatchEnd(cfg: Config, db: Db, c: View): nat {
    Min(cfg.NextFinalized(db.checkpoint) + BLOCK_BATCH_SIZE - 1, cfg.SafeHead(Head(c)))
  }

  /** One loop iteration of the backfill whose answers all come from `c`. */
  ghost function BackfillStep(cfg: Config, ledger: Ledger, db: Db, c: View): Outcome {
    match Check(cfg, db, c)
    case NotFound(_) => Failed
    case Bad(n) => RolledBack(RollbackFrom(db, n))
    case Clean =>
      var next, last := cfg.NextFinalized(db.checkpoint), BatchEnd(cfg, db, c);
      if next <= last then
        Committed(CommitFinalized(db, RangePayload(ledger, cfg.contract, c, next, last), next, last))
      else CaughtUp
  }

  lemma {:induction false} ScanFinds(blocks: map<nat, Hash>, c: View, b: nat, checkpoint: nat)
    ensures match ScanFrom(blocks, c, b, checkpoint)
            case Clean => forall x: nat :: b <= x <= checkpoint ==> StoredAt(blocks, c, x)
            case Bad(n) => b <= n <= checkpoint && n < |c| && !StoredAt(blocks, c, n)
                           && forall x: nat :: b <= x < n ==> StoredAt(blocks, c, x)
            case NotFound(n) => b <= n <= checkpoint && n >= |c|
                                && forall x: nat :: b <= x < n ==> StoredAt(blocks, c, x)
    decreases checkpoint + 1 - b
  {
    if b <= checkpoint && b < |c| && StoredAt(blocks, c, b) {
      ScanFinds(blocks, c, b + 1, checkpoint);
    }
  }

  lemma CheckFinds(cfg: Config, db: Db, c: View)
    ensures match Check(cfg, db, c)
            case Clean => WindowAgrees(cfg, db, c)
            case Bad(n) => InWindow(cfg, db, n) && n < |c| && !StoredAt(db.cold.blocks, c, n)
                           && forall b: nat :: cfg.FinalizedWindow(db.checkpoint) <= b < n ==>
                                StoredAt(db.cold.blocks, c, b)
            case NotFound(n) => InWindow(cfg, db, n) && n >= |c|
                                && forall b: nat :: cfg.FinalizedWindow(db.checkpoint) <= b < n ==>
                                     StoredAt(db.cold.blocks, c, b)
  {
    ScanFinds(db.cold.blocks, c, cfg.FinalizedWindow(db.checkpoint), db.checkpoint);
  }

  /** What every reachable database offers the backfill. */
  ghost predicate Sound(cfg: Config, ledger: Ledger, db: Db) {
    cfg.Valid() && ColdContiguous(cfg, db) && ColdInv(cfg, ledger, db)
  }

  // ---------- the iteration is a step of the protocol ----------

  ghost function EventOf(cfg: Config, ledger: Ledger, db: Db, c: View): Event {
    match Check(cfg, db, c)
    case NotFound(_) => BackIdle(c)
    case Bad(n) => if n < |c| then BackMismatch(c, n, c[n]) else BackIdle(c)
    case Clean =>
      var next, last := cfg.NextFinalized(db.checkpoint), BatchEnd(cfg, db, c);
      if next <= last then BackCommit(c, RangePayload(ledger, cfg.contract, c, next, last), last) else BackIdle(c)
  }

  /** An iteration that does not fail performs one enabled, faithful event, and that event alone. */
  lemma StepIsEvent(cfg: Config, ledger: Ledger, s: State, c: View)
    requires Sound(cfg, ledger, s.db) && ValidChain(ledger, c)
    requires !BackfillStep(cfg, ledger, s.db, c).Failed?
    ensures var ev := EventOf(cfg, ledger, s.db, c);
            ev.IsBack() && BackEnabled(cfg, s.db, ev) && BackFaithful(cfg, ledger, s, ev)
    ensures var after := Apply(cfg, s, EventOf(cfg, ledger, s.db, c)).db;
            match BackfillStep(cfg, ledger, s.db, c)
            case RolledBack(db) => EventOf(cfg, ledger, s.db, c).BackMismatch? && after == db
            case Committed(db) => EventOf(cfg, ledger, s.db, c).BackCommit? && after == db
            case _ => EventOf(cfg, ledger, s.db, c) == BackIdle(c) && after == s.db
  {
    CheckFinds(cfg, s.db, c);
    var next, last := cfg.NextFinalized(s.db.checkpoint), BatchEnd(cfg, s.db, c);
    if Check(cfg, s.db, c).Clean? && next <= last {
      CommitIsEvent(cfg, ledger, s, c, next, last);
    }
  }

  lemma CommitIsEvent(cfg: Config, ledger: Ledger, s: State, c: View, next: nat, last: nat)
    requires ValidChain(ledger, c) && cfg.Valid() && WindowAgrees(cfg, s.db, c)
    requires next == cfg.NextFinalized(s.db.checkpoint) && last == BatchEnd(cfg, s.db, c) && next <= last
    ensures last < |c|
    ensures var ev := BackCommit(c, RangePayload(ledger, cfg.contract, c, next, last), last);
            BackEnabled(cfg, s.db, ev) && BackFaithful(cfg, ledger, s, ev)
  {
    BuildIsRange(ledger, cfg.contract, c, next, last);
  }

  // ---------- stale blocks ----------

  /** The lowest block such that it and all blocks up to `hi` are stale. */
  ghost function FirstStale(blocks: map<nat, Hash>, c: View, lo: nat, hi: nat): (k: nat)
    requires lo <= hi
    ensures lo <= k <= hi
    ensures forall b: nat :: k <= b < hi ==> !StoredAt(blocks, c, b)
    ensures k > lo ==> StoredAt(blocks, c, k - 1)
    decreases hi
  {
    if lo == hi || StoredAt(blocks, c, hi - 1) then hi else FirstStale(blocks, c, lo, hi - 1)
  }

  /** The stored cold blocks that the chain does not have. */
  ghost function StaleBlocks(db: Db, c: View): set<nat> {
    set b | b in db.cold.blocks && !StoredAt(db.cold.blocks, c, b)
  }

  /** The lowest block that the backfill has to index (again). */
  ghost function Frontier(cfg: Config, db: Db, c: View): (k: nat)
    ensures cfg.start <= k <= cfg.NextFinalized(db.checkpoint)
  {
    FirstStale(db.cold.blocks, c, cfg.start, cfg.NextFinalized(db.checkpoint))
  }

  lemma FrontierSplits(cfg: Config, ledger: Ledger, db: Db, c: View)
    requires Sound(cfg, ledger, db) && ValidChain(ledger, c)
    ensures forall b: nat :: cfg.start <= b < Frontier(cfg, db, c) ==> StoredAt(db.cold.blocks, c, b)
    ensures forall b: nat :: Frontier(cfg, db, c) <= b < cfg.NextFinalized(db.checkpoint) ==>
              !StoredAt(db.cold.blocks, c, b)
  {
    var k := Frontier(cfg, db, c);
    forall b: nat | cfg.start <= b < k ensures StoredAt(db.cold.blocks, c, b) {
      AgreementDescends(ledger, db.cold.blocks, c, b, k - 1);
    }
  }

  lemma StaleCount(cfg: Config, ledger: Ledger, db: Db, c: View)
    requires Sound(cfg, ledger, db) && ValidChain(ledger, c)
    ensures |StaleBlocks(db, c)| == cfg.NextFinalized(db.checkpoint) - Frontier(cfg, db, c)
  {
    FrontierSplits(cfg, ledger, db, c);
    assert StaleBlocks(db, c) == Interval(Frontier(cfg, db, c), cfg.NextFinalized(db.checkpoint));
    IntervalSize(Frontier(cfg, db, c), cfg.NextFinalized(db.checkpoint));
  }

  lemma FrontierUnique(cfg: Config, ledger: Ledger, db: Db, c: View, k: nat)
    requires Sound(cfg, ledger, db) && ValidChain(ledger, c)
    requires cfg.start <= k <= cfg.NextFinalized(db.checkpoint)
    requires forall b: nat :: cfg.start <= b < k ==> StoredAt(db.cold.blocks, c, b)
    requires forall b: nat :: k <= b < cfg.NextFinalized(db.checkpoint) ==>
              !StoredAt(db.cold.blocks, c, b)
    ensures Frontier(cfg, db, c) == k
  {
    FrontierSplits(cfg, ledger, db, c);
    var f: nat := Frontier(cfg, db, c);
    assert f < k ==> StoredAt(db.cold.blocks, c, f);
    assert k < f ==> StoredAt(db.cold.blocks, c, k);
  }

  // ---------- progress ----------

  ghost function Missing(cfg: Config, db: Db, c: View): nat {
    SatSub(cfg.SafeHead(Head(c)) + 1, cfg.NextFinalized(db.checkpoint))
  }

  ghost function Stale(cfg: Config, db: Db, c: View): nat {
    cfg.NextFinalized(db.checkpoint) - Frontier(cfg, db, c)
  }

  /** A rollback removes one window of stale blocks, keeps the frontier, and cannot be followed by a failure. */
  lemma RollbackProgress(cfg: Config, ledger: Ledger, db: Db, c: View, n: nat)
    requires Sound(cfg, ledger, db) && ValidChain(ledger, c)
    requires Check(cfg, db, c) == Bad(n)
    ensures var after := RollbackFrom(db, n);
            && Sound(cfg, ledger, after)
            && Stale(cfg, db, c) > 0
            && Stale(cfg, after, c) == SatSub(Stale(cfg, db, c), cfg.Lookback())
            && Frontier(cfg, after, c) == Frontier(cfg, db, c)
            && !Check(cfg, after, c).NotFound?
  {
    var after := RollbackFrom(db, n);
    var k := Frontier(cfg, db, c);
    CheckFinds(cfg, db, c);
    FrontierSplits(cfg, ledger, db, c);
    var below: nat := SatSub(n, 1);
    assert n > k && n > cfg.FinalizedWindow(db.checkpoint) ==> StoredAt(db.cold.blocks, c, below);
    assert k <= n && (n == k || n == cfg.FinalizedWindow(db.checkpoint));
    RollbackSound(cfg, ledger, db, n);
    assert forall b: nat :: b < n ==> (StoredAt(after.cold.blocks, c, b) <==> StoredAt(db.cold.blocks, c, b));
    FrontierUnique(cfg, ledger, after, c, k);
    CheckFinds(cfg, after, c);
  }

  lemma RollbackSound(cfg: Config, ledger: Ledger, db: Db, n: nat)
    requires Sound(cfg, ledger, db) && InWindow(cfg, db, n)
    ensures Sound(cfg, ledger, RollbackFrom(db, n))
  {
    var after := RollbackFrom(db, n);
    PartKeepsLinked(ledger, db.cold, after.cold);
    PartKeepsComplete(ledger, cfg.contract, db.cold, after.cold);
  }

  lemma CleanFrontier(cfg: Config, ledger: Ledger, db: Db, c: View)
    requires Sound(cfg, ledger, db) && ValidChain(ledger, c) && Agrees(db.cold.blocks, c)
    ensures Stale(cfg, db, c) == 0
    ensures cfg.NextFinalized(db.checkpoint) > cfg.start ==> db.checkpoint < |c|
  {
    forall b: nat | cfg.start <= b < cfg.NextFinalized(db.checkpoint) ensures StoredAt(db.cold.blocks, c, b) {
      assert AgreesAt(db.cold.blocks, c, b);
    }
    FrontierUnique(cfg, ledger, db, c, cfg.NextFinalized(db.checkpoint));
  }

  lemma CommitSound(cfg: Config, ledger: Ledger, db: Db, c: View, next: nat, last: nat)
    requires Sound(cfg, ledger, db) && ValidChain(ledger, c) && WindowAgrees(cfg, db, c)
    requires next == cfg.NextFinalized(db.checkpoint) && next <= last < |c|
    ensures var after := CommitFinalized(db, RangePayload(ledger, cfg.contract, c, next, last), next, last);
            Sound(cfg, ledger, after) && Agrees(after.cold.blocks, c)
  {
    ExtendCold(cfg, ledger, db, c, next, last);
    AddRangeBlocks(ledger, cfg.contract, db.cold, c, next, last + 1);
  }

  lemma CommitReaches(cfg: Config, ledger: Ledger, db: Db, c: View)
    requires Sound(cfg, ledger, db) && ValidChain(ledger, c)
    requires BackfillStep(cfg, ledger, db, c).Committed?
    ensures var after := BackfillStep(cfg, ledger, db, c).db;
            && Sound(cfg, ledger, after)
            && Agrees(db.cold.blocks, c) && Agrees(after.cold.blocks, c)
            && after.checkpoint == BatchEnd(cfg, db, c) && after.checkpoint < |c|
  {
    var next, last := cfg.NextFinalized(db.checkpoint), BatchEnd(cfg, db, c);
    CheckFinds(cfg, db, c);
    CommitSound(cfg, ledger, db, c, next, last);
    WindowVouches(cfg, ledger, db, c);
  }

  /** No block of the window lies above the end of the chain. */
  lemma ShortEnough(cfg: Config, db: Db, c: View)
    requires db.checkpoint < |c|
    ensures !Check(cfg, db, c).NotFound?
  {
    CheckFinds(cfg, db, c);
  }

  /** A commit follows only a clean lane, and adds up to one batch of the missing blocks. */
  lemma CommitProgress(cfg: Config, ledger: Ledger, db: Db, c: View)
    requires Sound(cfg, ledger, db) && ValidChain(ledger, c)
    requires BackfillStep(cfg, ledger, db, c).Committed?
    ensures var after := BackfillStep(cfg, ledger, db, c).db;
            && Sound(cfg, ledger, after)
            && Stale(cfg, db, c) == 0 && Stale(cfg, after, c) == 0
            && Missing(cfg, db, c) > 0
            && Missing(cfg, after, c) == SatSub(Missing(cfg, db, c), BLOCK_BATCH_SIZE)
            && !Check(cfg, after, c).NotFound?
  {
    var after := BackfillStep(cfg, ledger, db, c).db;
    CommitReaches(cfg, ledger, db, c);
    CleanFrontier(cfg, ledger, db, c);
    CleanFrontier(cfg, ledger, after, c);
    ShortEnough(cfg, after, c);
    assert cfg.NextFinalized(db.checkpoint) <= BatchEnd(cfg, db, c);
  }

  /**
   * An iteration fails exactly when the chain ends below the checkpoint and the window has no mismatch below its end.
   */
  lemma FailsExactly(cfg: Config, ledger: Ledger, db: Db, c: View)
    ensures BackfillStep(cfg, ledger, db, c).Failed? <==>
            && db.checkpoint >= cfg.start && db.checkpoint >= |c|
            && forall b: nat :: cfg.FinalizedWindow(db.checkpoint) <= b < |c| && b <= db.checkpoint ==>
                 StoredAt(db.cold.blocks, c, b)
  {
    CheckFinds(cfg, db, c);
    assert Check(cfg, db, c).Clean? && db.checkpoint >= cfg.start ==> StoredAt(db.cold.blocks, c, db.checkpoint);
  }

  /**
   * Why the start block must be at least 1: on the empty database, an iteration ends in a rollback that changes
   * nothing, so that the loop never gets anywhere, exactly when the start block is 0.
   */
  lemma StartZeroNeverStarts(cfg: Config, ledger: Ledger, c: View)
    requires c != []
    ensures BackfillStep(cfg, ledger, EMPTY_DB, c) == RolledBack(EMPTY_DB) <==> cfg.start == 0
  {
    assert EMPTY_LANE.DropFrom(0) == EMPTY_LANE;
    if cfg.start == 0 {
      assert !StoredAt(EMPTY_DB.cold.blocks, c, 0);
      assert Check(cfg, EMPTY_DB, c) == Bad(0);
    }
  }

  // ---------- running to rest ----------

  /** A state from which the backfill can go on with this chain. */
  ghost predicate Ready(cfg: Config, ledger: Ledger, s: State, c: View) {
    Inv(cfg, s) && Sound(cfg, ledger, s.db) && ValidChain(ledger, c) && !BackfillStep(cfg, ledger, s.db, c).Failed?
  }

  ghost function Next(cfg: Config, ledger: Ledger, s: State, c: View): State {
    Apply(cfg, s, EventOf(cfg, ledger, s.db, c))
  }

  lemma NextAfterRollback(cfg: Config, ledger: Ledger, s: State, c: View)
    requires Ready(cfg, ledger, s, c) && BackfillStep(cfg, ledger, s.db, c).RolledBack?
    ensures Ready(cfg, ledger, Next(cfg, ledger, s, c), c)
    ensures var after := Next(cfg, ledger, s, c).db;
            && Stale(cfg, s.db, c) > 0
            && Stale(cfg, after, c) == SatSub(Stale(cfg, s.db, c), cfg.Lookback())
            && Frontier(cfg, after, c) == Frontier(cfg, s.db, c)
  {
    StepIsEvent(cfg, ledger, s, c);
    BackKeepsInv(cfg, s, EventOf(cfg, ledger, s.db, c));
    RollbackProgress(cfg, ledger, s.db, c, Check(cfg, s.db, c).block);
  }

  lemma NextAfterCommit(cfg: Config, ledger: Ledger, s: State, c: View)
    requires Ready(cfg, ledger, s, c) && BackfillStep(cfg, ledger, s.db, c).Committed?
    ensures Ready(cfg, ledger, Next(cfg, ledger, s, c), c)
    ensures var after := Next(cfg, ledger, s, c).db;
            && Stale(cfg, s.db, c) == 0 && Stale(cfg, after, c) == 0
            && Missing(cfg, s.db, c) > 0
            && Missing(cfg, after, c) == SatSub(Missing(cfg, s.db, c), BLOCK_BATCH_SIZE)
  {
    StepIsEvent(cfg, ledger, s, c);
    BackKeepsInv(cfg, s, EventOf(cfg, ledger, s.db, c));
    CommitProgress(cfg, ledger, s.db, c);
  }

  lemma NextAtRest(cfg: Config, ledger: Ledger, s: State, c: View)
    requires Ready(cfg, ledger, s, c) && BackfillStep(cfg, ledger, s.db, c).CaughtUp?
    ensures Ready(cfg, ledger, Next(cfg, ledger, s, c), c)
    ensures Next(cfg, ledger, s, c).db == s.db && Stale(cfg, s.db, c) == 0 && Missing(cfg, s.db, c) == 0
  {
    StepIsEvent(cfg, ledger, s, c);
    BackKeepsInv(cfg, s, EventOf(cfg, ledger, s.db, c));
    CheckFinds(cfg, s.db, c);
    WindowVouches(cfg, ledger, s.db, c);
    CleanFrontier(cfg, ledger, s.db, c);
  }

  /** The termination measure: stale blocks first, then missing ones. */
  lemma Progress(cfg: Config, ledger: Ledger, s: State, c: View)
    requires Ready(cfg, ledger, s, c)
    ensures Ready(cfg, ledger, Next(cfg, ledger, s, c), c)
    ensures BackfillStep(cfg, ledger, s.db, c).RolledBack? ==>
              var after := Next(cfg, ledger, s, c).db;
              && Stale(cfg, s.db, c) > 0
              && Stale(cfg, after, c) == SatSub(Stale(cfg, s.db, c), cfg.Lookback())
              && Frontier(cfg, after, c) == Frontier(cfg, s.db, c)
    ensures BackfillStep(cfg, ledger, s.db, c).Committed? ==>
              var after := Next(cfg, ledger, s, c).db;
              && Stale(cfg, s.db, c) == 0 && Stale(cfg, after, c) == 0
              && Missing(cfg, s.db, c) > 0
              && Missing(cfg, after, c) == SatSub(Missing(cfg, s.db, c), BLOCK_BATCH_SIZE)
    ensures BackfillStep(cfg, ledger, s.db, c).CaughtUp? ==>
              Next(cfg, ledger, s, c).db == s.db && Stale(cfg, s.db, c) == 0 && Missing(cfg, s.db, c) == 0
  {
    if BackfillStep(cfg, ledger, s.db, c).RolledBack? {
      NextAfterRollback(cfg, ledger, s, c);
    } else if BackfillStep(cfg, ledger, s.db, c).Committed? {
      NextAfterCommit(cfg, ledger, s, c);
    } else {
      NextAtRest(cfg, ledger, s, c);
    }
  }

  datatype Settled = Settled(rollbacks: nat, commits: nat, state: State)

  /** Iterations on one chain until the backfill has nothing to do. */
  ghost function Settle(cfg: Config, ledger: Ledger, s: State, c: View): Settled
    requires Ready(cfg, ledger, s, c)
    decreases Stale(cfg, s.db, c), Missing(cfg, s.db, c)
  {
    Progress(cfg, ledger, s, c);
    var step := BackfillStep(cfg, ledger, s.db, c);
    if step.RolledBack? || step.Committed? then
      var rest := Settle(cfg, ledger, Next(cfg, ledger, s, c), c);
      if step.RolledBack? then rest.(rollbacks := rest.rollbacks + 1) else rest.(commits := rest.commits + 1)
    else Settled(0, 0, s)
  }

  /** How many blocks are to be indexed, again or for the first time. */
  ghost function ToIndex(cfg: Config, db: Db, c: View): nat {
    SatSub(cfg.SafeHead(Head(c)) + 1, Frontier(cfg, db, c))
  }

  /** `after` is one iteration further on than `before`. */
  ghost predicate StepsDown(cfg: Config, ledger: Ledger, before: Db, after: Db, c: View) {
    var outcome := BackfillStep(cfg, ledger, before, c);
    && Frontier(cfg, after, c) + ToIndex(cfg, after, c) == Frontier(cfg, before, c) + ToIndex(cfg, before, c)
    && CeilDiv(Stale(cfg, before, c), cfg.Lookback())
       == CeilDiv(Stale(cfg, after, c), cfg.Lookback()) + (if outcome.RolledBack? then 1 else 0)
    && CeilDiv(ToIndex(cfg, before, c), BLOCK_BATCH_SIZE)
       == CeilDiv(ToIndex(cfg, after, c), BLOCK_BATCH_SIZE) + (if outcome.Committed? then 1 else 0)
    && (outcome.RolledBack? ==> Stale(cfg, after, c) < Stale(cfg, before, c))
    && (outcome.Committed? ==>
          Stale(cfg, after, c) == Stale(cfg, before, c) && Missing(cfg, after, c) < Missing(cfg, before, c))
  }

  lemma RollbackStepsDown(cfg: Config, ledger: Ledger, s: State, c: View)
    requires Ready(cfg, ledger, s, c) && BackfillStep(cfg, ledger, s.db, c).RolledBack?
    ensures StepsDown(cfg, ledger, s.db, Next(cfg, ledger, s, c).db, c)
  {
    NextAfterRollback(cfg, ledger, s, c);
    CeilDivStep(Stale(cfg, s.db, c), cfg.Lookback());
  }

  lemma CommitStepsDown(cfg: Config, ledger: Ledger, s: State, c: View)
    requires Ready(cfg, ledger, s, c) && BackfillStep(cfg, ledger, s.db, c).Committed?
    ensures StepsDown(cfg, ledger, s.db, Next(cfg, ledger, s, c).db, c)
  {
    NextAfterCommit(cfg, ledger, s, c);
    CeilDivStep(ToIndex(cfg, s.db, c), BLOCK_BATCH_SIZE);
  }

  lemma NextStepsDown(cfg: Config, ledger: Ledger, s: State, c: View)
    requires Ready(cfg, ledger, s, c)
    ensures StepsDown(cfg, ledger, s.db, Next(cfg, ledger, s, c).db, c)
  {
    if BackfillStep(cfg, ledger, s.db, c).RolledBack? {
      RollbackStepsDown(cfg, ledger, s, c);
    } else if BackfillStep(cfg, ledger, s.db, c).Committed? {
      CommitStepsDown(cfg, ledger, s, c);
    } else {
      NextAtRest(cfg, ledger, s, c);
    }
  }

  lemma {:induction false} SettleRests(cfg: Config, ledger: Ledger, s: State, c: View)
    requires Ready(cfg, ledger, s, c)
    ensures Ready(cfg, ledger, Settle(cfg, ledger, s, c).state, c)
    ensures BackfillStep(cfg, ledger, Settle(cfg, ledger, s, c).state.db, c) == CaughtUp
    decreases Stale(cfg, s.db, c), Missing(cfg, s.db, c)
  {
    var step := BackfillStep(cfg, ledger, s.db, c);
    if step.RolledBack? || step.Committed? {
      Progress(cfg, ledger, s, c);
      SettleRests(cfg, ledger, Next(cfg, ledger, s, c), c);
    }
  }

  lemma {:induction false} SettleCounts(cfg: Config, ledger: Ledger, s: State, c: View)
    requires Ready(cfg, ledger, s, c)
    ensures Settle(cfg, ledger, s, c).rollbacks == CeilDiv(Stale(cfg, s.db, c), cfg.Lookback())
    ensures Settle(cfg, ledger, s, c).commits == CeilDiv(ToIndex(cfg, s.db, c), BLOCK_BATCH_SIZE)
    ensures cfg.NextFinalized(Settle(cfg, ledger, s, c).state.db.checkpoint)
         == Frontier(cfg, s.db, c) + ToIndex(cfg, s.db, c)
    decreases Stale(cfg, s.db, c), Missing(cfg, s.db, c)
  {
    var step := BackfillStep(cfg, ledger, s.db, c);
    if step.RolledBack? || step.Committed? {
      Progress(cfg, ledger, s, c);
      NextStepsDown(cfg, ledger, s, c);
      SettleCounts(cfg, ledger, Next(cfg, ledger, s, c), c);
    } else {
      NextAtRest(cfg, ledger, s, c);
    }
  }

  lemma SettledIsNaive(cfg: Config, ledger: Ledger, db: Db, c: View)
    requires Sound(cfg, ledger, db) && ValidChain(ledger, c)
    requires BackfillStep(cfg, ledger, db, c) == CaughtUp
    ensures var hi := cfg.NextFinalized(db.checkpoint);
            && (hi <= cfg.start || hi <= |c|)
            && db.cold == NaiveIndex(ledger, cfg.contract, c, cfg.start, hi)
  {
    CheckFinds(cfg, db, c);
    WindowVouches(cfg, ledger, db, c);
    CleanFrontier(cfg, ledger, db, c);
    CompleteIsNaive(ledger, cfg.contract, db.cold, c, cfg.start, cfg.NextFinalized(db.checkpoint));
  }

  /** What an iteration leaves in the cold lane, whatever it or the live worker does to the hot one. */
  ghost predicate Leaves(outcome: Outcome, before: Db, after: Db) {
    match outcome
    case RolledBack(db) => after.cold == db.cold && after.checkpoint == db.checkpoint
    case Committed(db) => after.cold == db.cold && after.checkpoint == db.checkpoint
    case _ => after.cold == before.cold && after.checkpoint == before.checkpoint
  }

  /** The measures look at the cold lane and its checkpoint only. */
  lemma MeasuresOfCold(cfg: Config, ledger: Ledger, a: Db, b: Db, c: View)
    requires a.cold == b.cold && a.checkpoint == b.checkpoint
    ensures Frontier(cfg, a, c) == Frontier(cfg, b, c) && Stale(cfg, a, c) == Stale(cfg, b, c)
    ensures ToIndex(cfg, a, c) == ToIndex(cfg, b, c) && Missing(cfg, a, c) == Missing(cfg, b, c)
    ensures Check(cfg, a, c) == Check(cfg, b, c) && BatchEnd(cfg, a, c) == BatchEnd(cfg, b, c)
  {
  }

  lemma LeavesNext(cfg: Config, ledger: Ledger, s: State, c: View, after: Db)
    requires Ready(cfg, ledger, s, c) && Leaves(BackfillStep(cfg, ledger, s.db, c), s.db, after)
    ensures after.cold == Next(cfg, ledger, s, c).db.cold && after.checkpoint == Next(cfg, ledger, s, c).db.checkpoint
  {
    StepIsEvent(cfg, ledger, s, c);
  }

  lemma StepsDownOfCold(cfg: Config, ledger: Ledger, before: Db, a: Db, b: Db, c: View)
    requires a.cold == b.cold && a.checkpoint == b.checkpoint && StepsDown(cfg, ledger, before, a, c)
    ensures StepsDown(cfg, ledger, before, b, c)
  {
    MeasuresOfCold(cfg, ledger, a, b, c);
  }

  /** The measures after one iteration, in terms of the cold lane alone. */
  lemma IterationMeasures(cfg: Config, ledger: Ledger, s: State, c: View, after: Db)
    requires Ready(cfg, ledger, s, c) && Leaves(BackfillStep(cfg, ledger, s.db, c), s.db, after)
    ensures !Check(cfg, after, c).NotFound?
    ensures StepsDown(cfg, ledger, s.db, after, c)
  {
    var next := Next(cfg, ledger, s, c).db;
    LeavesNext(cfg, ledger, s, c, after);
    NextStepsDown(cfg, ledger, s, c);
    StepsDownOfCold(cfg, ledger, s.db, next, after, c);
    MeasuresOfCold(cfg, ledger, next, after, c);
    assert !Check(cfg, next, c).NotFound? by {
      Progress(cfg, ledger, s, c);
    }
  }

  /** Where the backfill rests: at the safe head, or at the frontier where that is higher. */
  ghost function RestingPoint(cfg: Config, db: Db, c: View): nat {
    var reindex := SatSub(cfg.NextFinalized(db.checkpoint), |StaleBlocks(db, c)|);
    reindex + SatSub(cfg.SafeHead(Head(c)) + 1, reindex)
  }

  ghost function MissingBlocks(cfg: Config, db: Db, c: View): nat {
    var reindex := SatSub(cfg.NextFinalized(db.checkpoint), |StaleBlocks(db, c)|);
    SatSub(cfg.SafeHead(Head(c)) + 1, reindex)
  }

  // ---------- iterations as the worker loop reports them ----------

  /** The revalidation did to the cold lane what the scan calls for. */
  ghost predicate Reconciled(cfg: Config, before: Db, after: Db, c: View, r: Option<bool>) {
    match Check(cfg, before, c)
    case NotFound(_) => r == None && SameCold(before, after)
    case Clean => r == Some(false) && SameCold(before, after)
    case Bad(n) => r == Some(true) && after.cold == before.cold.DropFrom(n) && after.checkpoint == SatSub(n, 1)
  }

  ghost predicate SameCold(before: Db, after: Db) {
    after.cold == before.cold && after.checkpoint == before.checkpoint
  }

  /** The revalidation has found no difference below block `b`. */
  ghost predicate ScannedTo(cfg: Config, db: Db, c: View, b: nat) {
    && (forall x: nat :: cfg.FinalizedWindow(db.checkpoint) <= x < b ==> StoredAt(db.cold.blocks, c, x))
    && ScanFrom(db.cold.blocks, c, b, db.checkpoint) == Check(cfg, db, c)
  }

  /** The revalidation goes on at block `b`, or has ended with this report. */
  ghost predicate ScanIsAt(cfg: Config, before: Db, db: Db, c: View, b: nat, r: Option<bool>) {
    if r == Some(false) then ScannedTo(cfg, before, c, b) && SameCold(before, db)
    else Reconciled(cfg, before, db, c, r)
  }

  lemma ScanEnds(cfg: Config, before: Db, db: Db, c: View, b: nat, r: Option<bool>)
    requires ScanIsAt(cfg, before, db, c, b, r) && (r == Some(false) ==> b > before.checkpoint)
    ensures Reconciled(cfg, before, db, c, r)
  {
  }

  /** What the revalidation of one block reports: no such block, or whether the stored one differs. */
  ghost function Revalidated(db: Db, c: View, b: nat): Option<bool> {
    if b >= |c| then None else Some(!StoredAt(db.cold.blocks, c, b))
  }

  lemma SameScan(cfg: Config, a: Db, b: Db, c: View, x: nat)
    requires SameCold(a, b)
    ensures ScannedTo(cfg, a, c, x) <==> ScannedTo(cfg, b, c, x)
    ensures Revalidated(a, c, x) == Revalidated(b, c, x)
  {
  }

  lemma ScanGoesOn(cfg: Config, db: Db, c: View, b: nat)
    requires ScannedTo(cfg, db, c, b) && b <= db.checkpoint && Revalidated(db, c, b) == Some(false)
    ensures ScannedTo(cfg, db, c, b + 1)
  {
  }

  lemma ScanStops(cfg: Config, before: Db, after: Db, c: View, b: nat)
    requires ScannedTo(cfg, before, c, b) && b <= before.checkpoint && Revalidated(before, c, b) != Some(false)
    requires if Revalidated(before, c, b) == None then SameCold(before, after)
             else after.cold == before.cold.DropFrom(b) && after.checkpoint == SatSub(b, 1)
    ensures Reconciled(cfg, before, after, c, Revalidated(before, c, b))
  {
  }

  /** The second half of an iteration indexed the next batch, or found nothing to do. */
  ghost predicate Advanced(cfg: Config, ledger: Ledger, before: Db, after: Db, c: View, status: Status) {
    var next, last := cfg.NextFinalized(before.checkpoint), BatchEnd(cfg, before, c);
    if next <= last then
      && status == Indexed && last < |c| && after.checkpoint == last
      && after.cold == before.cold.Insert(RangePayload(ledger, cfg.contract, c, next, last))
    else status == Resting && SameCold(before, after)
  }

  /** The iteration ended as the step on this chain does, and left the cold lane as it does. */
  ghost predicate Iterated(cfg: Config, ledger: Ledger, before: Db, after: Db, c: View, status: Status) {
    var outcome := BackfillStep(cfg, ledger, before, c);
    && Leaves(outcome, before, after)
    && status == match outcome
                 case Failed => Aborted
                 case RolledBack(_) => Repaired
                 case Committed(_) => Indexed
                 case CaughtUp => Resting
  }

  lemma StoppedIteration(cfg: Config, ledger: Ledger, before: Db, after: Db, c: View, r: Option<bool>)
    requires Reconciled(cfg, before, after, c, r) && r != Some(false)
    ensures Iterated(cfg, ledger, before, after, c, if r.None? then Aborted else Repaired)
  {
  }

  lemma FullIteration(cfg: Config, ledger: Ledger, before: Db, mid: Db, after: Db, c: View, status: Status)
    requires Reconciled(cfg, before, mid, c, Some(false)) && Advanced(cfg, ledger, mid, after, c, status)
    ensures Iterated(cfg, ledger, before, after, c, status)
  {
  }

  /** The step on the cold lane does not depend on the hot one. */
  lemma StepOfCold(cfg: Config, ledger: Ledger, a: Db, b: Db, c: View)
    requires SameCold(a, b)
    ensures var x, y := BackfillStep(cfg, ledger, a, c), BackfillStep(cfg, ledger, b, c);
            && (x.Failed? <==> y.Failed?) && (x.CaughtUp? <==> y.CaughtUp?)
            && (x.RolledBack? <==> y.RolledBack?) && (x.Committed? <==> y.Committed?)
            && (x.RolledBack? || x.Committed? ==> SameCold(x.db, y.db))
  {
    MeasuresOfCold(cfg, ledger, a, b, c);
    var next, last := cfg.NextFinalized(a.checkpoint), BatchEnd(cfg, a, c);
    assert cfg.NextFinalized(b.checkpoint) == next && BatchEnd(cfg, b, c) == last;
    assert Check(cfg, a, c) == Check(cfg, b, c);
  }

  /** Nor does what an iteration reports. */
  lemma IteratedFromCold(cfg: Config, ledger: Ledger, a: Db, b: Db, after: Db, c: View, status: Status)
    requires SameCold(a, b)
    ensures Iterated(cfg, ledger, a, after, c, status) <==> Iterated(cfg, ledger, b, after, c, status)
  {
    StepOfCold(cfg, ledger, a, b, c);
  }

  /** On the way from `start` to rest: what is done and what is left to do add up. */
  ghost predicate OnCourse(cfg: Config, start: Db, db: Db, c: View, rollbacks: nat, commits: nat) {
    && rollbacks + CeilDiv(Stale(cfg, db, c), cfg.Lookback()) == CeilDiv(Stale(cfg, start, c), cfg.Lookback())
    && commits + CeilDiv(ToIndex(cfg, db, c), BLOCK_BATCH_SIZE) == CeilDiv(ToIndex(cfg, start, c), BLOCK_BATCH_SIZE)
    && Frontier(cfg, db, c) + ToIndex(cfg, db, c) == Frontier(cfg, start, c) + ToIndex(cfg, start, c)
  }

  lemma IterationKeepsCourse(cfg: Config, ledger: Ledger, start: Db, s: State, c: View, after: Db, status: Status,
                             rollbacks: nat, commits: nat)
    requires Ready(cfg, ledger, s, c) && Iterated(cfg, ledger, s.db, after, c, status)
    requires OnCourse(cfg, start, s.db, c, rollbacks, commits)
    ensures !BackfillStep(cfg, ledger, after, c).Failed?
    ensures OnCourse(cfg, start, after, c, rollbacks + (if status == Repaired then 1 else 0),
                     commits + (if status == Indexed then 1 else 0))
    ensures status == Repaired || status == Indexed || status == Resting
    ensures status == Repaired ==> Stale(cfg, after, c) < Stale(cfg, s.db, c)
    ensures status == Indexed ==>
              Stale(cfg, after, c) == Stale(cfg, s.db, c) && Missing(cfg, after, c) < Missing(cfg, s.db, c)
    ensures status == Resting ==> BackfillStep(cfg, ledger, after, c) == CaughtUp
  {
    IterationMeasures(cfg, ledger, s, c, after);
    MeasuresOfCold(cfg, ledger, s.db, after.(cold := s.db.cold, checkpoint := s.db.checkpoint), c);
  }

  /** A run of the loop that began in `start`: on its way to rest, or bound to fail because the chain is too short. */
  ghost predicate UnderWay(cfg: Config, ledger: Ledger, start: Db, db: Db, c: View, rollbacks: nat, commits: nat) {
    if BackfillStep(cfg, ledger, start, c).Failed? then SameCold(start, db) && rollbacks == 0 && commits == 0
    else !BackfillStep(cfg, ledger, db, c).Failed? && OnCourse(cfg, start, db, c, rollbacks, commits)
  }

  /** One more iteration; only the first can fail, and then every one does. */
  lemma IterationGoesOn(cfg: Config, ledger: Ledger, start: Db, s: State, c: View, after: Db, status: Status,
                        rollbacks: nat, commits: nat)
    requires Inv(cfg, s) && Sound(cfg, ledger, s.db) && ValidChain(ledger, c)
    requires Iterated(cfg, ledger, s.db, after, c, status) && UnderWay(cfg, ledger, start, s.db, c, rollbacks, commits)
    ensures UnderWay(cfg, ledger, start, after, c, rollbacks + (if status == Repaired then 1 else 0),
                     commits + (if status == Indexed then 1 else 0))
    ensures status == Repaired || status == Indexed || status == Resting || status == Aborted
    ensures status == Aborted <==> BackfillStep(cfg, ledger, start, c).Failed?
    ensures status == Repaired ==> Stale(cfg, after, c) < Stale(cfg, s.db, c)
    ensures status == Indexed ==>
              Stale(cfg, after, c) == Stale(cfg, s.db, c) && Missing(cfg, after, c) < Missing(cfg, s.db, c)
    ensures status == Resting ==> BackfillStep(cfg, ledger, after, c) == CaughtUp
  {
    if BackfillStep(cfg, ledger, start, c).Failed? {
      MeasuresOfCold(cfg, ledger, start, s.db, c);
    } else {
      IterationKeepsCourse(cfg, ledger, start, s, c, after, status, rollbacks, commits);
    }
  }

  /** At rest: the predicted numbers of rollbacks and commits are done, and the cold lane is the naive index. */
  ghost predicate SettledAs(cfg: Config, ledger: Ledger, start: Db, end: Db, c: View, rollbacks: nat, commits: nat) {
    var hi := RestingPoint(cfg, start, c);
    && rollbacks == CeilDiv(|StaleBlocks(start, c)|, cfg.Lookback())
    && commits == CeilDiv(MissingBlocks(cfg, start, c), BLOCK_BATCH_SIZE)
    && (hi <= cfg.start || hi <= |c|)
    && end.cold == NaiveIndex(ledger, cfg.contract, c, cfg.start, hi)
  }

  lemma RestOnCourse(cfg: Config, ledger: Ledger, start: Db, s: State, c: View, rollbacks: nat, commits: nat)
    requires Sound(cfg, ledger, start) && Ready(cfg, ledger, s, c)
    requires OnCourse(cfg, start, s.db, c, rollbacks, commits)
    requires BackfillStep(cfg, ledger, s.db, c) == CaughtUp
    ensures SettledAs(cfg, ledger, start, s.db, c, rollbacks, commits)
  {
    CountsAgree(cfg, ledger, start, c);
    NextAtRest(cfg, ledger, s, c);
    RestIsNaive(cfg, ledger, start, s.db, c);
  }

  lemma RestIsNaive(cfg: Config, ledger: Ledger, db: Db, end: Db, c: View)
    requires Sound(cfg, ledger, db) && Sound(cfg, ledger, end) && ValidChain(ledger, c)
    requires BackfillStep(cfg, ledger, end, c) == CaughtUp
    requires cfg.NextFinalized(end.checkpoint) == Frontier(cfg, db, c) + ToIndex(cfg, db, c)
    ensures var hi := RestingPoint(cfg, db, c);
            && (hi <= cfg.start || hi <= |c|)
            && end.cold == NaiveIndex(ledger, cfg.contract, c, cfg.start, hi)
  {
    CountsAgree(cfg, ledger, db, c);
    SettledIsNaive(cfg, ledger, end, c);
  }

  lemma CountsAgree(cfg: Config, ledger: Ledger, db: Db, c: View)
    requires Sound(cfg, ledger, db) && ValidChain(ledger, c)
    ensures |StaleBlocks(db, c)| == Stale(cfg, db, c)
    ensures MissingBlocks(cfg, db, c) == ToIndex(cfg, db, c)
  {
    StaleCount(cfg, ledger, db, c);
  }

  /**
   * Convergence from any reachable state.  With D stale cold blocks and W the revalidation depth, the backfill does
   * exactly ceil(D/W) rollbacks, then exactly ceil(missing/10) commits, and rests with the cold lane equal to
   * the naive index of the chain.
   */
  lemma BackfillConverges(cfg: Config, ledger: Ledger, evs: seq<Event>, c: View)
    requires cfg.Valid() && BackFaithfulRun(cfg, ledger, evs) && ValidChain(ledger, c)
    requires !BackfillStep(cfg, ledger, Exec(cfg, evs).db, c).Failed?
    ensures Ready(cfg, ledger, Exec(cfg, evs), c)
    ensures var r := Settle(cfg, ledger, Exec(cfg, evs), c);
            && r.rollbacks == CeilDiv(|StaleBlocks(Exec(cfg, evs).db, c)|, cfg.Lookback())
            && r.commits == CeilDiv(MissingBlocks(cfg, Exec(cfg, evs).db, c), BLOCK_BATCH_SIZE)
            && BackfillStep(cfg, ledger, r.state.db, c) == CaughtUp
    ensures var hi := RestingPoint(cfg, Exec(cfg, evs).db, c);
            && (hi <= cfg.start || hi <= |c|)
            && Settle(cfg, ledger, Exec(cfg, evs), c).state.db.cold
               == NaiveIndex(ledger, cfg.contract, c, cfg.start, hi)
  {
    AlwaysInv(cfg, evs);
    ColdLaneIsLinkedAndComplete(cfg, ledger, evs);
    SettleCounts(cfg, ledger, Exec(cfg, evs), c);
    SettleRests(cfg, ledger, Exec(cfg, evs), c);
    CountsAgree(cfg, ledger, Exec(cfg, evs).db, c);
    RestIsNaive(cfg, ledger, Exec(cfg, evs).db, Settle(cfg, ledger, Exec(cfg, evs), c).state.db, c);
  }
}
