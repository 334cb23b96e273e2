/**
 * Both workers on a chain that no longer changes, in any interleaving of their actions: each write brings the tables
 * nearer to rest, so that there are only boundedly many.
 */
module Interleaving {
  import opened Types
  import opened Chain
  import opened Payload
  import opened Lanes
  import opened Storage
  import opened Protocol
  import opened Integrity
  import opened ColdAgreement
  import opened HotAgreement
  import opened Convergence
  import opened LiveConvergence

  /** Neither worker has anything left to do on this chain: the next iteration of each one changes nothing. */
  ghost predicate AtRest(cfg: Config, ledger: Ledger, db: Db, c: View) {
    && c != []
    && BackfillStep(cfg, ledger, db, c) == CaughtUp
    && LiveStep(cfg, ledger, db, c) == HotResting(db)
  }

  // ---------- runs on one chain ----------

  ghost predicate SeesOnly(cfg: Config, ledger: Ledger, s: State, ev: Event, c: View) {
    && BackFaithful(cfg, ledger, s, ev) && LiveFaithful(cfg, ledger, s, ev)
    && (ev.IsBack() || ev.LiveBegin? ==> ev.view == c)
  }

  /** From action number `i` on, every answer comes from `c`. */
  ghost predicate StableSince(cfg: Config, ledger: Ledger, evs: seq<Event>, i: nat, c: View) {
    && i <= |evs|
    && (i == |evs|
        || (var before := evs[..|evs| - 1];
            StableSince(cfg, ledger, before, i, c) && SeesOnly(cfg, ledger, Exec(cfg, before), evs[|evs| - 1], c)))
  }

  ghost predicate PcOnChain(cfg: Config, live: LivePc, c: View) {
    match live
    case Top => true
    case Pruned(liveStart, latest) => liveStart == LiveFloor(cfg, c) && latest == Head(c)
    case Scanning(liveStart, latest, _, _) => liveStart == LiveFloor(cfg, c) && latest == Head(c)
    case Condemned(n) => ValidationStart(cfg, c) <= n < |c|
    case Scanned(liveStart, latest) => liveStart == LiveFloor(cfg, c) && latest == Head(c)
    case Building(first, last) => LiveFloor(cfg, c) <= first <= last == Min(first + BLOCK_BATCH_SIZE - 1, Head(c))
    case Checking(first, last, _, _) => LiveFloor(cfg, c) <= first <= last == Min(first + BLOCK_BATCH_SIZE - 1, Head(c))
  }

  /** What holds at every point of a run of both workers on `c`. */
  ghost predicate OnChain(cfg: Config, ledger: Ledger, s: State, c: View) {
    && c != [] && ValidChain(ledger, c)
    && Inv(cfg, s) && Sound(cfg, ledger, s.db) && ScanInv(cfg, ledger, s)
    && (!s.live.Top? ==> s.liveView == c) && PcOnChain(cfg, s.live, c)
  }

  // ---------- what is left to do ----------

  /** The live worker has a rollback before it, or may have. */
  ghost predicate Unmended(cfg: Config, s: State, c: View) {
    s.live.Condemned? || exists b: nat :: StaleHot(cfg, s.db.hot.blocks, c, b)
  }

  /** The live checkpoint, or what it will be at most after the pending commit if that comes from an older reading. */
  ghost function Level(s: State): nat {
    match s.live
    case Building(first, _) => Min(s.db.liveCheckpoint, SatSub(first, 1))
    case Checking(first, _, _, _) => Min(s.db.liveCheckpoint, SatSub(first, 1))
    case _ => s.db.liveCheckpoint
  }

  /** How many blocks the live worker has before it. */
  ghost function HotLeft(cfg: Config, s: State, c: View): nat {
    SatSub(|c|, Max(Level(s) + 1, LiveFloor(cfg, c)))
  }

  datatype Write = ColdRollback | ColdCommit | HotRollback | HotCommit

  /** The action is a write of this kind. */
  ghost predicate Is(cfg: Config, s: State, ev: Event, w: Write) {
    match w
    case ColdRollback => (ev.BackMismatch? || ev.BackMissing? || ev.BackConflict?) && BackEnabled(cfg, s.db, ev)
    case ColdCommit => ev.BackCommit? && BackEnabled(cfg, s.db, ev)
    case HotRollback => ev.LiveRollback? && s.live.Condemned?
    case HotCommit => Writes(s, ev)
  }

  /** How many writes of a kind there were from action number `i` on. */
  ghost function Count(cfg: Config, evs: seq<Event>, i: nat, w: Write): nat {
    if |evs| <= i then 0
    else Count(cfg, evs[..|evs| - 1], i, w) + if Is(cfg, Exec(cfg, evs[..|evs| - 1]), evs[|evs| - 1], w) then 1 else 0
  }

  // ---------- where the live worker goes on after a finalized rollback ----------

  /**
   * A finalized rollback to block `n` takes everything from `n` on out of both lanes, and both checkpoints below it.
   */
  lemma FinalizedRollbackLeaves(cfg: Config, s: State, ev: Event)
    requires cfg.Valid() && Is(cfg, s, ev, ColdRollback)
    ensures var after := Apply(cfg, s, ev).db;
            && KeptBelow(s.db.cold, after.cold, ev.block) && KeptBelow(s.db.hot, after.hot, ev.block)
            && after.checkpoint + 1 == after.liveCheckpoint + 1 == ev.block
  {
  }

  ghost predicate LiveCheckpointUnwritten(cfg: Config, evs: seq<Event>, i: nat) {
    Count(cfg, evs, i, ColdRollback) == Count(cfg, evs, i, HotRollback) == Count(cfg, evs, i, HotCommit) == 0
  }

  lemma {:induction false} LiveCheckpointStays(cfg: Config, evs: seq<Event>, i: nat)
    requires i <= |evs| && LiveCheckpointUnwritten(cfg, evs, i)
    ensures Exec(cfg, evs).db.liveCheckpoint == Exec(cfg, evs[..i]).db.liveCheckpoint
  {
    if i == |evs| {
      assert evs[..i] == evs;
    } else {
      var before := evs[..|evs| - 1];
      assert before[..i] == evs[..i];
      LiveCheckpointStays(cfg, before, i);
      LiveCheckpointKept(cfg, Exec(cfg, before), evs[|evs| - 1]);
    }
  }

  lemma LiveCheckpointKept(cfg: Config, s: State, ev: Event)
    requires !Is(cfg, s, ev, ColdRollback) && !Is(cfg, s, ev, HotRollback) && !Is(cfg, s, ev, HotCommit)
    ensures Apply(cfg, s, ev).db.liveCheckpoint == s.db.liveCheckpoint
  {
  }

  /**
   * After a finalized rollback to block `n`, the live worker goes on at block `n`, or at its live start where that is
   * higher: whatever happens until then, unless another rollback or hot commit writes the live checkpoint.
   */
  lemma NextLiveRange(cfg: Config, evs: seq<Event>, i: nat)
    requires cfg.Valid() && i < |evs| && Is(cfg, Exec(cfg, evs[..i]), evs[i], ColdRollback)
    requires LiveCheckpointUnwritten(cfg, evs, i + 1)
    ensures Exec(cfg, evs).db.liveCheckpoint + 1 == evs[i].block
    ensures GoesOnAt(cfg, Exec(cfg, evs), evs[i].block)
  {
    assert evs[..i + 1][..i] == evs[..i];
    FinalizedRollbackLeaves(cfg, Exec(cfg, evs[..i]), evs[i]);
    LiveCheckpointStays(cfg, evs, i + 1);
    GoesOnAboveCheckpoint(cfg, Exec(cfg, evs), evs[i].block);
  }

  /** When the live worker reads its checkpoint now, its next range starts at block `n` or at the live start. */
  ghost predicate GoesOnAt(cfg: Config, s: State, n: nat) {
    s.live.Scanned? ==>
      var first := Max(n, s.live.liveStart);
      Apply(cfg, s, LiveReadCheckpoint).live
      == if first <= s.live.latest then Building(first, Min(first + 9, s.live.latest)) else Top
  }

  lemma GoesOnAboveCheckpoint(cfg: Config, s: State, n: nat)
    requires s.db.liveCheckpoint + 1 == n
    ensures GoesOnAt(cfg, s, n)
  {
  }

  // ---------- one action ----------

  lemma {:induction false} ScanMeets(blocks: map<nat, Hash>, c: View, b: nat, checkpoint: nat, n: nat)
    requires b <= n <= checkpoint && n < |c| && !StoredAt(blocks, c, n)
    requires forall x: nat :: b <= x < n ==> StoredAt(blocks, c, x)
    ensures ScanFrom(blocks, c, b, checkpoint) == Bad(n)
    decreases n - b
  {
    if b < n {
      assert StoredAt(blocks, c, b);
      ScanMeets(blocks, c, b + 1, checkpoint, n);
    }
  }

  lemma {:induction false} ScanPasses(blocks: map<nat, Hash>, c: View, b: nat, checkpoint: nat)
    requires forall x: nat :: b <= x <= checkpoint ==> StoredAt(blocks, c, x)
    ensures ScanFrom(blocks, c, b, checkpoint) == Clean
    decreases checkpoint + 1 - b
  {
    if b <= checkpoint {
      assert StoredAt(blocks, c, b);
      ScanPasses(blocks, c, b + 1, checkpoint);
    }
  }

  /** A faithful backfill write is the one that the step on its chain prescribes. */
  lemma BackWriteIsNext(cfg: Config, ledger: Ledger, s: State, ev: Event, c: View)
    requires OnChain(cfg, ledger, s, c) && SeesOnly(cfg, ledger, s, ev, c)
    requires Is(cfg, s, ev, ColdRollback) || Is(cfg, s, ev, ColdCommit)
    ensures Ready(cfg, ledger, s, c) && Apply(cfg, s, ev) == Next(cfg, ledger, s, c)
    ensures Is(cfg, s, ev, ColdRollback) <==> BackfillStep(cfg, ledger, s.db, c).RolledBack?
    ensures Is(cfg, s, ev, ColdCommit) <==> BackfillStep(cfg, ledger, s.db, c).Committed?
  {
    CheckFinds(cfg, s.db, c);
    if ev.BackMismatch? {
      ScanMeets(s.db.cold.blocks, c, cfg.FinalizedWindow(s.db.checkpoint), s.db.checkpoint, ev.block);
    } else if s.db.checkpoint >= cfg.start {
      ScanPasses(s.db.cold.blocks, c, cfg.FinalizedWindow(s.db.checkpoint), s.db.checkpoint);
    }
  }

  lemma BackStaysOnChain(cfg: Config, ledger: Ledger, s: State, ev: Event, c: View)
    requires OnChain(cfg, ledger, s, c) && SeesOnly(cfg, ledger, s, ev, c) && ev.IsBack()
    ensures OnChain(cfg, ledger, Apply(cfg, s, ev), c)
  {
    BackKeepsInv(cfg, s, ev);
    StepKeepsColdInv(cfg, ledger, s, ev);
    BackKeepsScan(cfg, ledger, s, ev);
  }

  lemma LivePcOnChain(cfg: Config, ledger: Ledger, s: State, ev: Event, c: View)
    requires OnChain(cfg, ledger, s, c) && SeesOnly(cfg, ledger, s, ev, c) && !ev.IsBack()
    ensures var after := Apply(cfg, s, ev);
            && (!after.live.Top? ==> after.liveView == c)
            && (!after.live.Condemned? ==> PcOnChain(cfg, after.live, c))
  {
  }

  lemma LiveStaysOnChain(cfg: Config, ledger: Ledger, s: State, ev: Event, c: View)
    requires OnChain(cfg, ledger, s, c) && SeesOnly(cfg, ledger, s, ev, c) && !ev.IsBack()
    ensures OnChain(cfg, ledger, Apply(cfg, s, ev), c)
  {
    WorkersMeetInHot(cfg, s, ev);
    LiveKeepsInv(cfg, s, ev);
    StepKeepsScan(cfg, ledger, s, ev);
    LivePcOnChain(cfg, ledger, s, ev, c);
  }

  lemma RollbackMends(cfg: Config, ledger: Ledger, s: State, c: View)
    requires OnChain(cfg, ledger, s, c) && s.live.Condemned?
    ensures !Unmended(cfg, Apply(cfg, s, LiveRollback), c)
  {
    var after := Apply(cfg, s, LiveRollback).db.hot.blocks;
    forall b: nat ensures !StaleHot(cfg, after, c, b) {
      assert b in after && ValidationStart(cfg, c) <= b ==> AgreesAt(s.db.hot.blocks, c, b);
    }
  }

  lemma CommitBringsNoStale(cfg: Config, ledger: Ledger, s: State, ev: Event, c: View)
    requires OnChain(cfg, ledger, s, c) && Writes(s, ev)
    ensures Unmended(cfg, Apply(cfg, s, ev), c) ==> Unmended(cfg, s, c)
  {
    var p, first := s.live.payload, s.live.first;
    assert Apply(cfg, s, ev) == s.(db := CommitHot(s.db, p, s.live.last), live := Top, settledView := s.liveView);
    RangeBringsNoStale(cfg, ledger, s.db.hot, c, first, s.live.last);
    UnmendedFromStale(cfg, s, Apply(cfg, s, ev), c);
  }

  lemma UnmendedFromStale(cfg: Config, s: State, after: State, c: View)
    requires !after.live.Condemned?
    requires forall b: nat :: StaleHot(cfg, after.db.hot.blocks, c, b) ==> StaleHot(cfg, s.db.hot.blocks, c, b)
    ensures Unmended(cfg, after, c) ==> Unmended(cfg, s, c)
  {
  }

  /** A range of the chain brings no stale blocks. */
  lemma RangeBringsNoStale(cfg: Config, ledger: Ledger, lane: Lane, c: View, first: nat, last: nat)
    requires first <= last < |c|
    ensures var after := lane.Insert(RangePayload(ledger, cfg.contract, c, first, last));
            forall b: nat :: StaleHot(cfg, after.blocks, c, b) ==> StaleHot(cfg, lane.blocks, c, b)
  {
    var p := RangePayload(ledger, cfg.contract, c, first, last);
    BuildIsRange(ledger, cfg.contract, c, first, last);
    InsertGrows(lane, p, first, last);
    BatchBringsNoStale(cfg, lane.blocks, lane.Insert(p).blocks, c, p.blocks, first);
  }

  lemma BatchBringsNoStale(cfg: Config, before: map<nat, Hash>, after: map<nat, Hash>, c: View, rows: seq<BlockRow>,
                           first: nat)
    requires first + |rows| <= |c| && forall j :: 0 <= j < |rows| ==> rows[j].hash == c[first + j]
    requires GrownBy(before, after, rows, first)
    ensures forall b: nat :: StaleHot(cfg, after, c, b) ==> StaleHot(cfg, before, c, b)
  {
    forall b: nat | first <= b < first + |rows| ensures b in after && after[b] == c[b] {
      assert rows[b - first].hash == c[first + (b - first)];
    }
  }

  /** A block is condemned only because it is stored and stale. */
  lemma CondemnedIsStale(cfg: Config, ledger: Ledger, s: State, ev: Event, c: View)
    requires OnChain(cfg, ledger, s, c) && SeesOnly(cfg, ledger, s, ev, c)
    requires !s.live.Condemned? && Apply(cfg, s, ev).live.Condemned?
    ensures StaleHot(cfg, s.db.hot.blocks, c, Apply(cfg, s, ev).live.block)
  {
  }

  lemma ShrinkingBringsNoStale(cfg: Config, before: map<nat, Hash>, after: map<nat, Hash>, c: View)
    requires forall b :: b in after ==> b in before && after[b] == before[b]
    ensures forall b: nat :: StaleHot(cfg, after, c, b) ==> StaleHot(cfg, before, c, b)
  {
  }

  /** The live worker's rollback removes what was stale in its window, and nothing later brings it back. */
  lemma UnmendedFalls(cfg: Config, ledger: Ledger, s: State, ev: Event, c: View)
    requires OnChain(cfg, ledger, s, c) && SeesOnly(cfg, ledger, s, ev, c)
    ensures Unmended(cfg, Apply(cfg, s, ev), c) ==> Unmended(cfg, s, c)
    ensures Is(cfg, s, ev, HotRollback) ==> Unmended(cfg, s, c) && !Unmended(cfg, Apply(cfg, s, ev), c)
  {
    var after := Apply(cfg, s, ev);
    if Writes(s, ev) {
      CommitBringsNoStale(cfg, ledger, s, ev, c);
    } else if Is(cfg, s, ev, HotRollback) {
      RollbackMends(cfg, ledger, s, c);
    } else if after.live.Condemned? {
      if !s.live.Condemned? {
        CondemnedIsStale(cfg, ledger, s, ev, c);
      }
    } else {
      HotOnlyShrinks(cfg, s, ev);
      ShrinkingBringsNoStale(cfg, s.db.hot.blocks, after.db.hot.blocks, c);
    }
  }

  lemma LeftAfterBack(cfg: Config, s: State, ev: Event, c: View)
    requires ev.IsBack() && !Is(cfg, s, ev, ColdRollback)
    ensures HotLeft(cfg, Apply(cfg, s, ev), c) == HotLeft(cfg, s, c)
  {
  }

  lemma LeftAfterCommit(cfg: Config, ledger: Ledger, s: State, ev: Event, c: View)
    requires OnChain(cfg, ledger, s, c) && Writes(s, ev)
    ensures HotLeft(cfg, s, c) > 0
    ensures HotLeft(cfg, Apply(cfg, s, ev), c) <= SatSub(HotLeft(cfg, s, c), BLOCK_BATCH_SIZE)
  {
    var after := Apply(cfg, s, ev);
    assert after.live.Top? && after.db.liveCheckpoint == s.live.last;
    assert Level(s) < s.live.first;
  }

  lemma LeftAfterLive(cfg: Config, ledger: Ledger, s: State, ev: Event, c: View)
    requires OnChain(cfg, ledger, s, c) && SeesOnly(cfg, ledger, s, ev, c)
    requires !ev.IsBack() && !Writes(s, ev) && !Is(cfg, s, ev, HotRollback)
    ensures HotLeft(cfg, Apply(cfg, s, ev), c) <= HotLeft(cfg, s, c)
  {
    assert Apply(cfg, s, ev).db.liveCheckpoint == s.db.liveCheckpoint;
  }

  /** Only rollbacks give the live worker more to index; each of its commits leaves up to ten blocks fewer. */
  lemma LeftAfter(cfg: Config, ledger: Ledger, s: State, ev: Event, c: View)
    requires OnChain(cfg, ledger, s, c) && SeesOnly(cfg, ledger, s, ev, c)
    ensures !Is(cfg, s, ev, ColdRollback) && !Is(cfg, s, ev, HotRollback) ==>
              HotLeft(cfg, Apply(cfg, s, ev), c) <= HotLeft(cfg, s, c)
    ensures Is(cfg, s, ev, HotCommit) ==>
              && HotLeft(cfg, s, c) > 0
              && HotLeft(cfg, Apply(cfg, s, ev), c) <= SatSub(HotLeft(cfg, s, c), BLOCK_BATCH_SIZE)
  {
    if Writes(s, ev) {
      LeftAfterCommit(cfg, ledger, s, ev, c);
    } else if ev.IsBack() {
      if !Is(cfg, s, ev, ColdRollback) {
        LeftAfterBack(cfg, s, ev, c);
      }
    } else if !Is(cfg, s, ev, HotRollback) {
      LeftAfterLive(cfg, ledger, s, ev, c);
    }
  }

  // ---------- whole runs ----------

  lemma StaysOnChain(cfg: Config, ledger: Ledger, s: State, ev: Event, c: View)
    requires OnChain(cfg, ledger, s, c) && SeesOnly(cfg, ledger, s, ev, c)
    ensures OnChain(cfg, ledger, Apply(cfg, s, ev), c)
  {
    if ev.IsBack() {
      BackStaysOnChain(cfg, ledger, s, ev, c);
    } else {
      LiveStaysOnChain(cfg, ledger, s, ev, c);
    }
  }

  lemma {:induction false} RunStaysOnChain(cfg: Config, ledger: Ledger, evs: seq<Event>, i: nat, c: View)
    requires StableSince(cfg, ledger, evs, i, c) && OnChain(cfg, ledger, Exec(cfg, evs[..i]), c)
    ensures OnChain(cfg, ledger, Exec(cfg, evs), c)
  {
    if i == |evs| {
      assert evs[..i] == evs;
    } else {
      var before := evs[..|evs| - 1];
      assert before[..i] == evs[..i];
      RunStaysOnChain(cfg, ledger, before, i, c);
      StaysOnChain(cfg, ledger, Exec(cfg, before), evs[|evs| - 1], c);
    }
  }

  /** One action's share of the cold counts. */
  lemma ColdShare(cfg: Config, ledger: Ledger, s: State, ev: Event, c: View)
    requires OnChain(cfg, ledger, s, c) && SeesOnly(cfg, ledger, s, ev, c)
    ensures var after := Apply(cfg, s, ev).db;
            && CeilDiv(Stale(cfg, s.db, c), cfg.Lookback())
               == CeilDiv(Stale(cfg, after, c), cfg.Lookback()) + (if Is(cfg, s, ev, ColdRollback) then 1 else 0)
            && CeilDiv(ToIndex(cfg, s.db, c), BLOCK_BATCH_SIZE)
               == CeilDiv(ToIndex(cfg, after, c), BLOCK_BATCH_SIZE) + (if Is(cfg, s, ev, ColdCommit) then 1 else 0)
  {
    if Is(cfg, s, ev, ColdRollback) || Is(cfg, s, ev, ColdCommit) {
      BackWriteIsNext(cfg, ledger, s, ev, c);
      NextStepsDown(cfg, ledger, s, c);
    } else {
      QuietForCold(cfg, s, ev);
      MeasuresOfCold(cfg, ledger, s.db, Apply(cfg, s, ev).db, c);
    }
  }

  lemma QuietForCold(cfg: Config, s: State, ev: Event)
    requires !Is(cfg, s, ev, ColdRollback) && !Is(cfg, s, ev, ColdCommit)
    ensures SameCold(s.db, Apply(cfg, s, ev).db)
  {
    WorkersMeetInHot(cfg, s, ev);
  }

  /**
   * In every interleaving on a chain that stays, the backfill's writes are exactly those predicted, whatever the live
   * worker does between them.
   */
  lemma {:induction false} ColdWritesAddUp(cfg: Config, ledger: Ledger, evs: seq<Event>, i: nat, c: View)
    requires StableSince(cfg, ledger, evs, i, c) && OnChain(cfg, ledger, Exec(cfg, evs[..i]), c)
    ensures Count(cfg, evs, i, ColdRollback) + CeilDiv(Stale(cfg, Exec(cfg, evs).db, c), cfg.Lookback())
         == CeilDiv(Stale(cfg, Exec(cfg, evs[..i]).db, c), cfg.Lookback())
    ensures Count(cfg, evs, i, ColdCommit) + CeilDiv(ToIndex(cfg, Exec(cfg, evs).db, c), BLOCK_BATCH_SIZE)
         == CeilDiv(ToIndex(cfg, Exec(cfg, evs[..i]).db, c), BLOCK_BATCH_SIZE)
  {
    if i == |evs| {
      assert evs[..i] == evs;
    } else {
      var before := evs[..|evs| - 1];
      assert before[..i] == evs[..i];
      ColdWritesAddUp(cfg, ledger, before, i, c);
      RunStaysOnChain(cfg, ledger, before, i, c);
      ColdShare(cfg, ledger, Exec(cfg, before), evs[|evs| - 1], c);
    }
  }

  /** In every such interleaving the live worker rolls back at most once, and only if it had to at the beginning. */
  lemma {:induction false} OneHotRollback(cfg: Config, ledger: Ledger, evs: seq<Event>, i: nat, c: View)
    requires StableSince(cfg, ledger, evs, i, c) && OnChain(cfg, ledger, Exec(cfg, evs[..i]), c)
    ensures Count(cfg, evs, i, HotRollback) + (if Unmended(cfg, Exec(cfg, evs), c) then 1 else 0)
         <= if Unmended(cfg, Exec(cfg, evs[..i]), c) then 1 else 0
  {
    if i == |evs| {
      assert evs[..i] == evs;
    } else {
      var before := evs[..|evs| - 1];
      assert before[..i] == evs[..i];
      OneHotRollback(cfg, ledger, before, i, c);
      RunStaysOnChain(cfg, ledger, before, i, c);
      UnmendedFalls(cfg, ledger, Exec(cfg, before), evs[|evs| - 1], c);
    }
  }

  lemma {:induction false} CeilDivRises(a: nat, b: nat, size: nat)
    requires size > 0 && a <= b
    ensures CeilDiv(a, size) <= CeilDiv(b, size)
    decreases b
  {
    if a > 0 {
      CeilDivRises(SatSub(a, size), SatSub(b, size), size);
    }
  }

  /** One action's share of the live worker's commits. */
  ghost predicate HasShare(cfg: Config, s: State, after: State, ev: Event, c: View) {
    (if Is(cfg, s, ev, HotCommit) then 1 else 0) + CeilDiv(HotLeft(cfg, after, c), BLOCK_BATCH_SIZE)
    <= CeilDiv(HotLeft(cfg, s, c), BLOCK_BATCH_SIZE)
       + (if IsRollback(cfg, s, ev) then CeilDiv(|c|, BLOCK_BATCH_SIZE) else 0)
  }

  lemma HotShare(cfg: Config, ledger: Ledger, s: State, ev: Event, c: View)
    requires OnChain(cfg, ledger, s, c) && SeesOnly(cfg, ledger, s, ev, c)
    ensures HasShare(cfg, s, Apply(cfg, s, ev), ev, c)
  {
    var left, leftAfter := HotLeft(cfg, s, c), HotLeft(cfg, Apply(cfg, s, ev), c);
    LeftAfter(cfg, ledger, s, ev, c);
    if Is(cfg, s, ev, ColdRollback) || Is(cfg, s, ev, HotRollback) {
      CeilDivRises(leftAfter, |c|, BLOCK_BATCH_SIZE);
    } else if Is(cfg, s, ev, HotCommit) {
      CeilDivStep(left, BLOCK_BATCH_SIZE);
      CeilDivRises(leftAfter, SatSub(left, BLOCK_BATCH_SIZE), BLOCK_BATCH_SIZE);
    } else {
      CeilDivRises(leftAfter, left, BLOCK_BATCH_SIZE);
    }
  }

  /** `k` for each of `n`, as a sum. */
  function Allowed(n: nat, k: nat): nat {
    if n == 0 then 0 else Allowed(n - 1, k) + k
  }

  lemma {:induction false} AllowedIsProduct(n: nat, k: nat)
    ensures Allowed(n, k) == n * k
  {
    if n > 0 {
      AllowedIsProduct(n - 1, k);
      assert n * k == (n - 1) * k + k;
    }
  }

  lemma {:induction false} AllowedRises(a: nat, b: nat, k: nat)
    requires a <= b
    ensures Allowed(a, k) <= Allowed(b, k)
    decreases b
  {
    if a < b {
      AllowedRises(a, b - 1, k);
    }
  }

  /** How many rollbacks of either worker there were. */
  ghost function Rollbacks(cfg: Config, evs: seq<Event>, i: nat): nat {
    Count(cfg, evs, i, ColdRollback) + Count(cfg, evs, i, HotRollback)
  }

  ghost predicate IsRollback(cfg: Config, s: State, ev: Event) {
    Is(cfg, s, ev, ColdRollback) || Is(cfg, s, ev, HotRollback)
  }

  lemma RollbacksSnoc(cfg: Config, evs: seq<Event>, i: nat)
    requires i < |evs|
    ensures var before, ev := evs[..|evs| - 1], evs[|evs| - 1];
            Rollbacks(cfg, evs, i)
            == Rollbacks(cfg, before, i) + if IsRollback(cfg, Exec(cfg, before), ev) then 1 else 0
  {
  }

  /** Commits so far and to come stay within the blocks there were, and a whole chain for each rollback. */
  ghost predicate HotBound(cfg: Config, s: State, c: View, base: nat, commits: nat, rollbacks: nat) {
    commits + CeilDiv(HotLeft(cfg, s, c), BLOCK_BATCH_SIZE)
    <= CeilDiv(base, BLOCK_BATCH_SIZE) + Allowed(rollbacks, CeilDiv(|c|, BLOCK_BATCH_SIZE))
  }

  lemma HotBoundStep(cfg: Config, s: State, after: State, ev: Event, c: View, base: nat, commits: nat, rollbacks: nat,
                     moreCommits: nat, moreRollbacks: nat)
    requires HasShare(cfg, s, after, ev, c) && HotBound(cfg, s, c, base, commits, rollbacks)
    requires moreCommits == commits + if Is(cfg, s, ev, HotCommit) then 1 else 0
    requires moreRollbacks == rollbacks + if IsRollback(cfg, s, ev) then 1 else 0
    ensures HotBound(cfg, after, c, base, moreCommits, moreRollbacks)
  {
  }

  lemma CountSnoc(cfg: Config, evs: seq<Event>, i: nat, w: Write)
    requires i < |evs|
    ensures var before, ev := evs[..|evs| - 1], evs[|evs| - 1];
            Count(cfg, evs, i, w) == Count(cfg, before, i, w) + if Is(cfg, Exec(cfg, before), ev, w) then 1 else 0
  {
  }

  lemma HotBoundGoesOn(cfg: Config, ledger: Ledger, evs: seq<Event>, i: nat, c: View, base: nat)
    requires i < |evs|
    requires OnChain(cfg, ledger, Exec(cfg, evs[..|evs| - 1]), c)
    requires SeesOnly(cfg, ledger, Exec(cfg, evs[..|evs| - 1]), evs[|evs| - 1], c)
    requires HotBound(cfg, Exec(cfg, evs[..|evs| - 1]), c, base, Count(cfg, evs[..|evs| - 1], i, HotCommit),
                      Rollbacks(cfg, evs[..|evs| - 1], i))
    ensures HotBound(cfg, Exec(cfg, evs), c, base, Count(cfg, evs, i, HotCommit), Rollbacks(cfg, evs, i))
  {
    var before, ev := evs[..|evs| - 1], evs[|evs| - 1];
    HotShare(cfg, ledger, Exec(cfg, before), ev, c);
    CountSnoc(cfg, evs, i, HotCommit);
    RollbacksSnoc(cfg, evs, i);
    HotBoundStep(cfg, Exec(cfg, before), Exec(cfg, evs), ev, c, base, Count(cfg, before, i, HotCommit),
                 Rollbacks(cfg, before, i), Count(cfg, evs, i, HotCommit), Rollbacks(cfg, evs, i));
  }

  /** In every such interleaving the live worker's commits are bounded: only a rollback gives it more to index. */
  lemma {:induction false} HotCommitsAreBounded(cfg: Config, ledger: Ledger, evs: seq<Event>, i: nat, c: View)
    requires StableSince(cfg, ledger, evs, i, c) && OnChain(cfg, ledger, Exec(cfg, evs[..i]), c)
    ensures HotBound(cfg, Exec(cfg, evs), c, HotLeft(cfg, Exec(cfg, evs[..i]), c), Count(cfg, evs, i, HotCommit),
                     Rollbacks(cfg, evs, i))
  {
    if i == |evs| {
      assert evs[..i] == evs;
    } else {
      var before := evs[..|evs| - 1];
      assert before[..i] == evs[..i];
      HotCommitsAreBounded(cfg, ledger, before, i, c);
      RunStaysOnChain(cfg, ledger, before, i, c);
      HotBoundGoesOn(cfg, ledger, evs, i, c, HotLeft(cfg, Exec(cfg, evs[..i]), c));
    }
  }

  /** Every state between two live iterations of a faithful run is such a beginning, for every chain. */
  lemma ReachableIsOnChain(cfg: Config, ledger: Ledger, evs: seq<Event>, c: View)
    requires cfg.Valid() && BackFaithfulRun(cfg, ledger, evs) && LiveFaithfulRun(cfg, ledger, evs)
    requires Exec(cfg, evs).live.Top? && c != [] && ValidChain(ledger, c)
    ensures OnChain(cfg, ledger, Exec(cfg, evs), c)
  {
    AlwaysInv(cfg, evs);
    ScanHolds(cfg, ledger, evs);
    ColdLaneIsLinkedAndComplete(cfg, ledger, evs);
  }

  /**
   * From any state between two live iterations, once the chain stays, every interleaving of both workers has a bounded
   * number of writes: the predicted ones of the backfill, at most one hot rollback, and the hot commits that the
   * rollbacks allow.
   */
  lemma WritesAreBounded(cfg: Config, ledger: Ledger, evs: seq<Event>, i: nat, c: View)
    requires StableSince(cfg, ledger, evs, i, c) && cfg.Valid() && c != [] && ValidChain(ledger, c)
    requires BackFaithfulRun(cfg, ledger, evs[..i]) && LiveFaithfulRun(cfg, ledger, evs[..i])
    requires Exec(cfg, evs[..i]).live.Top?
    ensures WithinBounds(cfg, Exec(cfg, evs[..i]), c, Count(cfg, evs, i, ColdRollback), Count(cfg, evs, i, ColdCommit),
                         Count(cfg, evs, i, HotRollback), Count(cfg, evs, i, HotCommit))
  {
    ReachableIsOnChain(cfg, ledger, evs[..i], c);
    BoundedFrom(cfg, ledger, evs, i, c);
  }

  lemma BoundedFrom(cfg: Config, ledger: Ledger, evs: seq<Event>, i: nat, c: View)
    requires StableSince(cfg, ledger, evs, i, c) && OnChain(cfg, ledger, Exec(cfg, evs[..i]), c)
    ensures WithinBounds(cfg, Exec(cfg, evs[..i]), c, Count(cfg, evs, i, ColdRollback), Count(cfg, evs, i, ColdCommit),
                         Count(cfg, evs, i, HotRollback), Count(cfg, evs, i, HotCommit))
  {
    ColdWritesAddUp(cfg, ledger, evs, i, c);
    OneHotRollback(cfg, ledger, evs, i, c);
    HotCommitsAreBounded(cfg, ledger, evs, i, c);
    CountsAgree(cfg, ledger, Exec(cfg, evs[..i]).db, c);
    SumsAreBounds(cfg, Exec(cfg, evs[..i]), Exec(cfg, evs), c, Count(cfg, evs, i, ColdRollback),
                  Count(cfg, evs, i, ColdCommit), Count(cfg, evs, i, HotRollback), Count(cfg, evs, i, HotCommit),
                  Rollbacks(cfg, evs, i));
  }

  lemma SumsAreBounds(cfg: Config, s: State, end: State, c: View, coldRollbacks: nat, coldCommits: nat,
                      hotRollbacks: nat, hotCommits: nat, rollbacks: nat)
    requires rollbacks == coldRollbacks + hotRollbacks
    requires Stale(cfg, s.db, c) == |StaleBlocks(s.db, c)| && ToIndex(cfg, s.db, c) == MissingBlocks(cfg, s.db, c)
    requires coldRollbacks <= CeilDiv(Stale(cfg, s.db, c), cfg.Lookback())
    requires coldCommits <= CeilDiv(ToIndex(cfg, s.db, c), BLOCK_BATCH_SIZE) && hotRollbacks <= 1
    requires HotBound(cfg, end, c, HotLeft(cfg, s, c), hotCommits, rollbacks)
    ensures WithinBounds(cfg, s, c, coldRollbacks, coldCommits, hotRollbacks, hotCommits)
  {
    var most := CeilDiv(|StaleBlocks(s.db, c)|, cfg.Lookback()) + 1;
    AllowedRises(rollbacks, most, CeilDiv(|c|, BLOCK_BATCH_SIZE));
    AllowedIsProduct(most, CeilDiv(|c|, BLOCK_BATCH_SIZE));
  }

  ghost predicate WithinBounds(cfg: Config, s: State, c: View, coldRollbacks: nat, coldCommits: nat,
                               hotRollbacks: nat, hotCommits: nat)
  {
    && coldRollbacks <= CeilDiv(|StaleBlocks(s.db, c)|, cfg.Lookback())
    && coldCommits <= CeilDiv(MissingBlocks(cfg, s.db, c), BLOCK_BATCH_SIZE)
    && hotRollbacks <= 1
    && hotCommits <= CeilDiv(HotLeft(cfg, s, c), BLOCK_BATCH_SIZE)
                     + (CeilDiv(|StaleBlocks(s.db, c)|, cfg.Lookback()) + 1) * CeilDiv(|c|, BLOCK_BATCH_SIZE)
  }
}
