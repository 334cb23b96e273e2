/**
 * The live loop on its own, on a chain that no longer changes: at most one rollback, then a commit for every ten
 * missing blocks, then rest at the head.
 */
module LiveConvergence {
  import opened Types
  import opened Decoder
  import opened Chain
  import opened Payload
  import opened Lanes
  import opened Storage
  import opened Protocol
  import opened Integrity
  import opened HotAgreement

  /** The revalidation loop from block `b` to the head: the first stored block that the chain does not have. */
  ghost function HotScanFrom(blocks: map<nat, Hash>, c: View, b: nat): Option<nat>
    decreases |c| - b
  {
    if b >= |c| then None
    else if b in blocks && blocks[b] != c[b] then Some(b)
    else HotScanFrom(blocks, c, b + 1)
  }

  lemma {:induction false} HotScanFinds(blocks: map<nat, Hash>, c: View, b: nat)
    ensures match HotScanFrom(blocks, c, b)
            case None => forall x: nat :: b <= x < |c| && x in blocks ==> blocks[x] == c[x]
            case Some(n) => b <= n < |c| && n in blocks && blocks[n] != c[n]
                            && forall x: nat :: b <= x < n && x in blocks ==> blocks[x] == c[x]
    decreases |c| - b
  {
    if b < |c| && !(b in blocks && blocks[b] != c[b]) {
      HotScanFinds(blocks, c, b + 1);
    }
  }

  lemma {:induction false} HotScanMeets(blocks: map<nat, Hash>, c: View, b: nat, n: nat)
    requires b <= n < |c| && n in blocks && blocks[n] != c[n]
    requires forall x: nat :: b <= x < n && x in blocks ==> blocks[x] == c[x]
    ensures HotScanFrom(blocks, c, b) == Some(n)
    decreases n - b
  {
    if b < n {
      HotScanMeets(blocks, c, b + 1, n);
    }
  }

  lemma {:induction false} HotScanPasses(blocks: map<nat, Hash>, c: View, b: nat)
    requires forall x: nat :: b <= x < |c| && x in blocks ==> blocks[x] == c[x]
    ensures HotScanFrom(blocks, c, b) == None
    decreases |c| - b
  {
    if b < |c| {
      HotScanPasses(blocks, c, b + 1);
    }
  }

  ghost function HotScan(cfg: Config, blocks: map<nat, Hash>, c: View): Option<nat> {
    HotScanFrom(blocks, c, ValidationStart(cfg, c))
  }

  /** Where an iteration on this chain starts to index when nothing is stored. */
  function LiveFloor(cfg: Config, c: View): nat {
    cfg.LiveStart(cfg.start, Head(c))
  }

  /** The first block that the next commit would index. */
  function NextHot(cfg: Config, db: Db, c: View): nat {
    Max(db.liveCheckpoint + 1, LiveFloor(cfg, c))
  }

  /** A stored row inside the validation window that the chain does not have. */
  ghost predicate StaleHot(cfg: Config, blocks: map<nat, Hash>, c: View, b: nat) {
    b in blocks && ValidationStart(cfg, c) <= b < |c| && blocks[b] != c[b]
  }

  datatype LiveOutcome = HotRolledBack(db: Db) | HotCommitted(db: Db) | HotResting(db: Db)

  /** What remains of the tables once the iteration has pruned and revalidated. */
  ghost function Repair(cfg: Config, db: Db, c: View): Db {
    var pruned := PruneHot(db, LiveFloor(cfg, c));
    match HotScan(cfg, pruned.hot.blocks, c)
    case None => pruned
    case Some(n) => RollbackHot(pruned, n)
  }

  ghost function CommitNext(cfg: Config, ledger: Ledger, db: Db, c: View): Db
    requires NextHot(cfg, db, c) < |c|
  {
    var first := NextHot(cfg, db, c);
    var last := Min(first + BLOCK_BATCH_SIZE - 1, Head(c));
    CommitHot(db, RangePayload(ledger, cfg.contract, c, first, last), last)
  }

  /** One iteration of the live loop without backfill actions, all answers from `c`. */
  ghost function LiveStep(cfg: Config, ledger: Ledger, db: Db, c: View): LiveOutcome {
    var repaired := Repair(cfg, db, c);
    if HotScan(cfg, PruneHot(db, LiveFloor(cfg, c)).hot.blocks, c).Some? then HotRolledBack(repaired)
    else if NextHot(cfg, repaired, c) < |c| then HotCommitted(CommitNext(cfg, ledger, repaired, c))
    else HotResting(repaired)
  }

  // ---------- progress ----------

  /** What every reachable state offers the live worker. */
  ghost predicate HotSound(db: Db) {
    HotBelow(db, db.liveCheckpoint + 1) && RowsMatch(db.hot)
  }

  /** Pruned for this chain, and clean inside the validation window. */
  ghost predicate Mended(cfg: Config, db: Db, c: View) {
    && HotSound(db)
    && (forall b: nat :: b in db.hot.blocks ==> b >= LiveFloor(cfg, c))
    && forall b: nat :: b in db.hot.blocks && ValidationStart(cfg, c) <= b < |c| ==> db.hot.blocks[b] == c[b]
  }

  lemma RepairMends(cfg: Config, db: Db, c: View)
    requires HotSound(db)
    ensures Mended(cfg, Repair(cfg, db, c), c)
  {
    var pruned := PruneHot(db, LiveFloor(cfg, c));
    PartKeepsRows(db.hot, pruned.hot);
    HotScanFinds(pruned.hot.blocks, c, ValidationStart(cfg, c));
    if HotScan(cfg, pruned.hot.blocks, c).Some? {
      PartKeepsRows(pruned.hot, Repair(cfg, db, c).hot);
    }
  }

  lemma KeepAll(lane: Lane, n: nat)
    requires RowsMatch(lane) && forall b: nat :: b in lane.blocks ==> b >= n
    ensures lane.DropBefore(n) == lane
  {
    forall k | k in lane.transfers ensures k.block >= n {
      assert RowMatches(lane, k);
    }
  }

  /** A repaired lane has nothing left to repair. */
  lemma MendedStays(cfg: Config, db: Db, c: View)
    requires Mended(cfg, db, c)
    ensures Repair(cfg, db, c) == db && HotScan(cfg, PruneHot(db, LiveFloor(cfg, c)).hot.blocks, c) == None
  {
    KeepAll(db.hot, LiveFloor(cfg, c));
    assert PruneHot(db, LiveFloor(cfg, c)) == db;
    HotScanFinds(db.hot.blocks, c, ValidationStart(cfg, c));
  }

  lemma TransfersBelow(lane: Lane, n: nat)
    requires RowsMatch(lane) && forall b: nat :: b in lane.blocks ==> b < n
    ensures forall k :: k in lane.transfers ==> k.block < n
  {
    forall k | k in lane.transfers ensures k.block < n {
      assert RowMatches(lane, k);
    }
  }

  lemma InsertKeepsRange(ledger: Ledger, contract: Option<Address>, lane: Lane, c: View, first: nat, last: nat)
    requires RowsMatch(lane) && first <= last < |c| && forall b: nat :: b in lane.blocks ==> b < first
    ensures RowsMatch(lane.Insert(RangePayload(ledger, contract, c, first, last)))
  {
    BuildIsRange(ledger, contract, c, first, last);
    InsertKeepsRows(lane, RangePayload(ledger, contract, c, first, last), first, last);
  }

  lemma InsertIsRange(ledger: Ledger, contract: Option<Address>, lane: Lane, c: View, first: nat, hi: nat)
    requires first < hi <= |c| && forall k :: k in lane.transfers ==> k.block < first
    ensures lane.Insert(RangePayload(ledger, contract, c, first, hi - 1))
         == AddRange(ledger, contract, lane, c, first, hi)
  {
    BatchIsNaive(ledger, contract, lane, c, first, hi);
  }

  /** The block after the next commit. */
  function HotBatchEnd(cfg: Config, db: Db, c: View): nat {
    Min(NextHot(cfg, db, c) + BLOCK_BATCH_SIZE, |c|)
  }

  /** The lane after blocks `first..hi` (upper bound excluded) of the chain were added and the checkpoint moved. */
  ghost function Added(cfg: Config, ledger: Ledger, db: Db, c: View, first: nat, hi: nat): Db
    requires first < hi <= |c|
  {
    db.(hot := AddRange(ledger, cfg.contract, db.hot, c, first, hi), liveCheckpoint := hi - 1)
  }

  lemma CommitOfRange(cfg: Config, ledger: Ledger, db: Db, c: View, first: nat, hi: nat)
    requires HotSound(db) && db.liveCheckpoint < first < hi <= |c|
    ensures var after := CommitHot(db, RangePayload(ledger, cfg.contract, c, first, hi - 1), hi - 1);
            after == Added(cfg, ledger, db, c, first, hi) && RowsMatch(after.hot)
  {
    TransfersBelow(db.hot, first);
    InsertIsRange(ledger, cfg.contract, db.hot, c, first, hi);
    InsertKeepsRange(ledger, cfg.contract, db.hot, c, first, hi - 1);
  }

  lemma CommitIsAdded(cfg: Config, ledger: Ledger, db: Db, c: View)
    requires HotSound(db) && NextHot(cfg, db, c) < |c|
    ensures CommitNext(cfg, ledger, db, c) == Added(cfg, ledger, db, c, NextHot(cfg, db, c), HotBatchEnd(cfg, db, c))
    ensures RowsMatch(CommitNext(cfg, ledger, db, c).hot)
  {
    var first, hi := NextHot(cfg, db, c), HotBatchEnd(cfg, db, c);
    assert Min(first + BLOCK_BATCH_SIZE - 1, Head(c)) == hi - 1;
    CommitOfRange(cfg, ledger, db, c, first, hi);
  }

  lemma AddedIsMended(cfg: Config, ledger: Ledger, db: Db, c: View, first: nat, hi: nat)
    requires Mended(cfg, db, c) && LiveFloor(cfg, c) <= first < hi <= |c|
    requires RowsMatch(Added(cfg, ledger, db, c, first, hi).hot) && db.liveCheckpoint < hi
    ensures Mended(cfg, Added(cfg, ledger, db, c, first, hi), c)
  {
    AddRangeBlocks(ledger, cfg.contract, db.hot, c, first, hi);
  }

  /** One commit on a repaired lane, block by block. */
  lemma CommitKeepsMended(cfg: Config, ledger: Ledger, db: Db, c: View)
    requires Mended(cfg, db, c) && NextHot(cfg, db, c) < |c|
    ensures Mended(cfg, CommitNext(cfg, ledger, db, c), c)
  {
    CommitIsAdded(cfg, ledger, db, c);
    AddedIsMended(cfg, ledger, db, c, NextHot(cfg, db, c), HotBatchEnd(cfg, db, c));
  }

  // ---------- running to rest ----------

  /** Does the revalidation find a stale block in the window? */
  ghost predicate NeedsRepair(cfg: Config, db: Db, c: View) {
    HotScan(cfg, PruneHot(db, LiveFloor(cfg, c)).hot.blocks, c).Some?
  }

  /** How many blocks up to the head are still to be indexed. */
  ghost function HotMissing(cfg: Config, db: Db, c: View): nat {
    SatSub(|c|, NextHot(cfg, db, c))
  }

  /** The termination measure: a stale window first, then missing blocks. */
  lemma LiveProgress(cfg: Config, ledger: Ledger, db: Db, c: View)
    requires HotSound(db)
    ensures match LiveStep(cfg, ledger, db, c)
            case HotRolledBack(after) => NeedsRepair(cfg, db, c) && Mended(cfg, after, c)
            case HotCommitted(after) =>
              && Mended(cfg, after, c) && !NeedsRepair(cfg, db, c)
              && HotMissing(cfg, db, c) > 0
              && HotMissing(cfg, after, c) == SatSub(HotMissing(cfg, db, c), BLOCK_BATCH_SIZE)
            case HotResting(after) => Mended(cfg, after, c) && HotMissing(cfg, after, c) == 0
  {
    RepairMends(cfg, db, c);
    var repaired := Repair(cfg, db, c);
    var first := NextHot(cfg, repaired, c);
    if first < |c| {
      CommitKeepsMended(cfg, ledger, repaired, c);
    }
  }

  lemma MendedNeedsNone(cfg: Config, db: Db, c: View)
    requires Mended(cfg, db, c)
    ensures !NeedsRepair(cfg, db, c) && Repair(cfg, db, c) == db
  {
    MendedStays(cfg, db, c);
  }

  datatype LiveSettled = LiveSettled(rollbacks: nat, commits: nat, db: Db)

  /** Iterations on one chain until the live worker has nothing to do. */
  ghost function SettleLive(cfg: Config, ledger: Ledger, db: Db, c: View): LiveSettled
    requires HotSound(db)
    decreases NeedsRepair(cfg, db, c), HotMissing(cfg, db, c)
  {
    LiveProgress(cfg, ledger, db, c);
    match LiveStep(cfg, ledger, db, c)
    case HotRolledBack(after) =>
      MendedNeedsNone(cfg, after, c);
      var rest := SettleLive(cfg, ledger, after, c);
      rest.(rollbacks := rest.rollbacks + 1)
    case HotCommitted(after) =>
      MendedNeedsNone(cfg, after, c);
      var rest := SettleLive(cfg, ledger, after, c);
      rest.(commits := rest.commits + 1)
    case HotResting(after) => LiveSettled(0, 0, after)
  }

  /** A repaired database with the missing blocks of the chain added one by one. */
  ghost function IndexedToHead(cfg: Config, ledger: Ledger, db: Db, c: View): Db {
    var first := NextHot(cfg, db, c);
    if first < |c| then Added(cfg, ledger, db, c, first, |c|) else db
  }

  lemma {:induction false} AddRangeInParts(ledger: Ledger, contract: Option<Address>, lane: Lane, c: View, lo: nat,
                                           mid: nat, hi: nat)
    requires lo <= mid <= hi <= |c|
    ensures AddRange(ledger, contract, AddRange(ledger, contract, lane, c, lo, mid), c, mid, hi)
         == AddRange(ledger, contract, lane, c, lo, hi)
    decreases hi
  {
    if mid < hi {
      AddRangeInParts(ledger, contract, lane, c, lo, mid, hi - 1);
    }
  }

  lemma AddedOnTheWay(cfg: Config, ledger: Ledger, db: Db, c: View, first: nat, hi: nat)
    requires first == NextHot(cfg, db, c) < hi <= |c|
    ensures IndexedToHead(cfg, ledger, Added(cfg, ledger, db, c, first, hi), c) == Added(cfg, ledger, db, c, first, |c|)
  {
    AddRangeInParts(ledger, cfg.contract, db.hot, c, first, hi, |c|);
  }

  lemma CommitOnTheWay(cfg: Config, ledger: Ledger, db: Db, c: View)
    requires Mended(cfg, db, c) && NextHot(cfg, db, c) < |c|
    ensures IndexedToHead(cfg, ledger, CommitNext(cfg, ledger, db, c), c) == IndexedToHead(cfg, ledger, db, c)
  {
    CommitIsAdded(cfg, ledger, db, c);
    AddedOnTheWay(cfg, ledger, db, c, NextHot(cfg, db, c), HotBatchEnd(cfg, db, c));
  }

  lemma {:induction false} MendedSettles(cfg: Config, ledger: Ledger, db: Db, c: View)
    requires Mended(cfg, db, c)
    ensures var r := SettleLive(cfg, ledger, db, c);
            && r.rollbacks == 0 && r.commits == CeilDiv(HotMissing(cfg, db, c), BLOCK_BATCH_SIZE)
            && r.db == IndexedToHead(cfg, ledger, db, c)
    decreases HotMissing(cfg, db, c)
  {
    MendedNeedsNone(cfg, db, c);
    LiveProgress(cfg, ledger, db, c);
    if NextHot(cfg, db, c) < |c| {
      var after := CommitNext(cfg, ledger, db, c);
      assert LiveStep(cfg, ledger, db, c) == HotCommitted(after);
      CeilDivStep(HotMissing(cfg, db, c), BLOCK_BATCH_SIZE);
      CommitOnTheWay(cfg, ledger, db, c);
      MendedSettles(cfg, ledger, after, c);
    }
  }

  /**
   * From any state that any run of both workers reaches, the live loop alone does one rollback if its window has a
   * stale block and none otherwise, then exactly ceil(missing/10) commits, and rests with the repaired hot lane
   * extended block by block up to the head.
   */
  lemma LiveConverges(cfg: Config, ledger: Ledger, evs: seq<Event>, c: View)
    requires cfg.Valid()
    ensures HotSound(Exec(cfg, evs).db)
    ensures var db := Exec(cfg, evs).db;
            var r, repaired := SettleLive(cfg, ledger, db, c), Repair(cfg, db, c);
            && r.rollbacks == (if NeedsRepair(cfg, db, c) then 1 else 0)
            && r.commits == CeilDiv(HotMissing(cfg, repaired, c), BLOCK_BATCH_SIZE)
            && r.db == IndexedToHead(cfg, ledger, repaired, c)
  {
    AlwaysInv(cfg, evs);
    SettlesFrom(cfg, ledger, Exec(cfg, evs).db, c);
  }

  /** A window with a stale block: one rollback, and then the lane is repaired. */
  lemma SettlesByRollback(cfg: Config, ledger: Ledger, db: Db, c: View)
    requires HotSound(db) && NeedsRepair(cfg, db, c)
    ensures Mended(cfg, Repair(cfg, db, c), c)
    ensures var rest := SettleLive(cfg, ledger, Repair(cfg, db, c), c);
            SettleLive(cfg, ledger, db, c) == rest.(rollbacks := rest.rollbacks + 1)
  {
    RepairMends(cfg, db, c);
    MendedNeedsNone(cfg, Repair(cfg, db, c), c);
  }

  /** A clean window: pruning is all the repair there is, and the iteration goes on as from the pruned lane. */
  lemma SettlesWithoutRollback(cfg: Config, ledger: Ledger, db: Db, c: View)
    requires HotSound(db) && !NeedsRepair(cfg, db, c)
    ensures Mended(cfg, Repair(cfg, db, c), c)
    ensures SettleLive(cfg, ledger, db, c) == SettleLive(cfg, ledger, Repair(cfg, db, c), c)
  {
    RepairMends(cfg, db, c);
    MendedNeedsNone(cfg, Repair(cfg, db, c), c);
    assert LiveStep(cfg, ledger, db, c) == LiveStep(cfg, ledger, Repair(cfg, db, c), c);
  }

  lemma SettlesFrom(cfg: Config, ledger: Ledger, db: Db, c: View)
    requires HotSound(db)
    ensures var r, repaired := SettleLive(cfg, ledger, db, c), Repair(cfg, db, c);
            && r.rollbacks == (if NeedsRepair(cfg, db, c) then 1 else 0)
            && r.commits == CeilDiv(HotMissing(cfg, repaired, c), BLOCK_BATCH_SIZE)
            && r.db == IndexedToHead(cfg, ledger, repaired, c)
  {
    if NeedsRepair(cfg, db, c) {
      SettlesByRollback(cfg, ledger, db, c);
    } else {
      SettlesWithoutRollback(cfg, ledger, db, c);
    }
    MendedSettles(cfg, ledger, Repair(cfg, db, c), c);
  }

  // ---------- the iteration is a stretch of the protocol ----------

  /** How far the iteration on `c` has come that began with the tables `db`, with no backfill action since. */
  ghost predicate OnStep(cfg: Config, ledger: Ledger, db: Db, c: View, s: State) {
    var pruned := PruneHot(db, LiveFloor(cfg, c));
    var scan := HotScan(cfg, pruned.hot.blocks, c);
    && c != [] && s.liveView == c && s.db == pruned
    && match s.live
       case Top => false
       case Pruned(liveStart, latest) => liveStart == LiveFloor(cfg, c) && latest == Head(c)
       case Scanning(liveStart, latest, at, until) =>
         && liveStart == LiveFloor(cfg, c) && latest == Head(c) && until == Head(c)
         && HotScanFrom(pruned.hot.blocks, c, at) == scan
       case Condemned(n) => scan == Some(n)
       case Scanned(liveStart, latest) => liveStart == LiveFloor(cfg, c) && latest == Head(c) && scan == None
       case Building(first, last) => NextRangeIs(cfg, pruned, c, first, last) && scan == None
       case Checking(first, last, p, _) =>
         NextRangeIs(cfg, pruned, c, first, last) && scan == None
         && p == RangePayload(ledger, cfg.contract, c, first, last)
  }

  ghost predicate NextRangeIs(cfg: Config, db: Db, c: View, first: nat, last: nat) {
    first == NextHot(cfg, db, c) < |c| && last == Min(first + BLOCK_BATCH_SIZE - 1, Head(c))
  }

  ghost predicate StepGoesOn(cfg: Config, ledger: Ledger, db: Db, c: View, after: State) {
    if after.live.Top? then after.db == LiveStep(cfg, ledger, db, c).db && after.settledView == c
    else OnStep(cfg, ledger, db, c, after)
  }

  lemma ScanActionOnStep(cfg: Config, ledger: Ledger, db: Db, c: View, s: State, ev: Event)
    requires OnStep(cfg, ledger, db, c, s) && LiveFaithful(cfg, ledger, s, ev)
    requires ev.LiveHead? || ev.LiveScan?
    ensures StepGoesOn(cfg, ledger, db, c, Apply(cfg, s, ev))
  {
  }

  lemma LateActionOnStep(cfg: Config, ledger: Ledger, db: Db, c: View, s: State, ev: Event)
    requires OnStep(cfg, ledger, db, c, s) && LiveFaithful(cfg, ledger, s, ev)
    requires ev.LiveBuild? || ev.LiveCommit?
    ensures StepGoesOn(cfg, ledger, db, c, Apply(cfg, s, ev))
  {
  }

  /** A hot commit's validation finds nothing, because its blocks are not stored. */
  lemma CheckPasses(cfg: Config, s: State)
    requires Inv(cfg, s)
    ensures var after := Apply(cfg, s, LiveCheck);
            after == s || (s.live.Checking? && after == s.(live := s.live.(checked := s.live.checked + 1)))
  {
    if s.live.Checking? && s.live.checked < |s.live.payload.blocks| {
      assert s.live.payload.blocks[s.live.checked].number >= s.live.first;
    }
  }

  lemma CheckActionOnStep(cfg: Config, ledger: Ledger, db: Db, c: View, s: State)
    requires Inv(cfg, s) && OnStep(cfg, ledger, db, c, s)
    ensures StepGoesOn(cfg, ledger, db, c, Apply(cfg, s, LiveCheck))
  {
    CheckPasses(cfg, s);
  }

  /** A faithful live action moves the iteration on, or ends it with what the step prescribes. */
  lemma ActionOnStep(cfg: Config, ledger: Ledger, db: Db, c: View, s: State, ev: Event)
    requires cfg.Valid() && Inv(cfg, s) && OnStep(cfg, ledger, db, c, s)
    requires !ev.IsBack() && !ev.LiveAbort? && LiveFaithful(cfg, ledger, s, ev)
    ensures StepGoesOn(cfg, ledger, db, c, Apply(cfg, s, ev))
  {
    if ev.LiveHead? || ev.LiveScan? {
      ScanActionOnStep(cfg, ledger, db, c, s, ev);
    } else if ev.LiveBuild? || ev.LiveCommit? {
      LateActionOnStep(cfg, ledger, db, c, s, ev);
    } else if ev.LiveCheck? {
      CheckActionOnStep(cfg, ledger, db, c, s);
    }
  }

  lemma {:induction false} InsideStep(cfg: Config, ledger: Ledger, evs: seq<Event>, i: nat)
    requires cfg.Valid() && LiveFaithfulRun(cfg, ledger, evs) && InIteration(cfg, evs, i)
    requires forall j :: i < j < |evs| ==> !evs[j].IsBack()
    ensures evs[i].LiveBegin? && OnStep(cfg, ledger, Exec(cfg, evs[..i]).db, evs[i].view, Exec(cfg, evs))
  {
    var before, ev := evs[..|evs| - 1], evs[|evs| - 1];
    if i < |evs| - 1 {
      assert before[..i] == evs[..i];
      InsideStep(cfg, ledger, before, i);
      AlwaysInv(cfg, before);
      ActionOnStep(cfg, ledger, Exec(cfg, evs[..i]).db, evs[i].view, Exec(cfg, before), ev);
    }
  }

  /**
   * Every finished live iteration without backfill actions in between has exactly the effect of the step on its
   * chain.
   */
  lemma IterationIsLiveStep(cfg: Config, ledger: Ledger, evs: seq<Event>, i: nat, ev: Event)
    requires cfg.Valid() && LiveFaithfulRun(cfg, ledger, evs) && InIteration(cfg, evs, i)
    requires forall j :: i < j < |evs| ==> !evs[j].IsBack()
    requires !ev.IsBack() && LiveFaithful(cfg, ledger, Exec(cfg, evs), ev) && Finishes(cfg, Exec(cfg, evs), ev)
    ensures evs[i].LiveBegin?
    ensures Apply(cfg, Exec(cfg, evs), ev).db == LiveStep(cfg, ledger, Exec(cfg, evs[..i]).db, evs[i].view).db
  {
    InsideStep(cfg, ledger, evs, i);
    AlwaysInv(cfg, evs);
    ActionOnStep(cfg, ledger, Exec(cfg, evs[..i]).db, evs[i].view, Exec(cfg, evs), ev);
  }

  // ---------- iterations as the worker loop reports them ----------

  /** The revalidation did to the tables what its scan calls for. */
  ghost predicate HotReconciled(before: Db, after: Db, scan: Option<nat>, r: Option<bool>) {
    match scan
    case None => r == Some(false) && after == before
    case Some(n) => r == Some(true) && after == RollbackHot(before, n)
  }

  /** The second half of an iteration indexed the next range, or found nothing to do. */
  ghost predicate HotExtended(cfg: Config, ledger: Ledger, before: Db, after: Db, c: View, status: Status) {
    if NextHot(cfg, before, c) < |c| then status == Indexed && after == CommitNext(cfg, ledger, before, c)
    else status == Resting && after == before
  }

  lemma CommitExtends(cfg: Config, ledger: Ledger, before: Db, after: Db, c: View, first: nat, last: nat)
    requires first == NextHot(cfg, before, c) <= Head(c) < |c| && last == Min(first + BLOCK_BATCH_SIZE - 1, Head(c))
    requires after == CommitHot(before, RangePayload(ledger, cfg.contract, c, first, last), last)
    ensures HotExtended(cfg, ledger, before, after, c, Indexed)
  {
  }

  /** The iteration ended as the step on this chain does, and left the tables as it does. */
  ghost predicate LiveIterated(cfg: Config, ledger: Ledger, before: Db, after: Db, c: View, status: Status) {
    match LiveStep(cfg, ledger, before, c)
    case HotRolledBack(db) => status == Repaired && after == db
    case HotCommitted(db) => status == Indexed && after == db
    case HotResting(db) => status == Resting && after == db
  }

  /** On the way from `start` to rest: what is done and what is left to do add up. */
  ghost predicate LiveOnCourse(cfg: Config, ledger: Ledger, start: Db, db: Db, c: View, rollbacks: nat, commits: nat) {
    && HotSound(start) && HotSound(db)
    && var whole, rest := SettleLive(cfg, ledger, start, c), SettleLive(cfg, ledger, db, c);
       rollbacks + rest.rollbacks == whole.rollbacks && commits + rest.commits == whole.commits && rest.db == whole.db
  }

  ghost predicate IdleOnCourse(cfg: Config, ledger: Ledger, start: Db, db: Db, c: View, status: Status,
                               rollbacks: nat, commits: nat)
  {
    && LiveOnCourse(cfg, ledger, start, db, c, rollbacks, commits)
    && (status == Resting ==> LiveStep(cfg, ledger, db, c) == HotResting(db))
  }

  /** From `start`, the live worker alone came to rest in the predicted way. */
  ghost predicate SettledAlone(cfg: Config, ledger: Ledger, start: Db, db: Db, c: View, rollbacks: nat, commits: nat) {
    var repaired := Repair(cfg, start, c);
    && rollbacks == (if NeedsRepair(cfg, start, c) then 1 else 0)
    && commits == CeilDiv(HotMissing(cfg, repaired, c), BLOCK_BATCH_SIZE)
    && db == IndexedToHead(cfg, ledger, repaired, c)
  }

  lemma IdleSettles(cfg: Config, ledger: Ledger, start: Db, db: Db, c: View, rollbacks: nat, commits: nat)
    requires IdleOnCourse(cfg, ledger, start, db, c, Resting, rollbacks, commits)
    ensures SettledAlone(cfg, ledger, start, db, c, rollbacks, commits)
  {
    SettlesFrom(cfg, ledger, start, c);
  }

  lemma LiveKeepsCourse(cfg: Config, ledger: Ledger, start: Db, db: Db, after: Db, c: View, status: Status,
                        rollbacks: nat, commits: nat)
    requires LiveOnCourse(cfg, ledger, start, db, c, rollbacks, commits)
    requires LiveIterated(cfg, ledger, db, after, c, status)
    ensures LiveOnCourse(cfg, ledger, start, after, c, rollbacks + (if status == Repaired then 1 else 0),
                         commits + (if status == Indexed then 1 else 0))
    ensures status == Repaired || status == Indexed || status == Resting
    ensures !NeedsRepair(cfg, after, c)
    ensures status == Repaired ==> NeedsRepair(cfg, db, c)
    ensures status == Indexed ==> !NeedsRepair(cfg, db, c) && HotMissing(cfg, after, c) < HotMissing(cfg, db, c)
    ensures status == Resting ==> LiveStep(cfg, ledger, after, c) == HotResting(after)
  {
    LiveProgress(cfg, ledger, db, c);
    MendedNeedsNone(cfg, after, c);
  }

  // ---------- iterations with backfill actions in between ----------

  /** Rows were only deleted. */
  ghost predicate Thinned(before: map<nat, Hash>, after: map<nat, Hash>) {
    forall b: nat :: b in after ==> b in before && after[b] == before[b]
  }

  /** The stored rows from block `lo` on are those of the chain. */
  ghost predicate CleanFrom(blocks: map<nat, Hash>, c: View, lo: nat) {
    forall b: nat :: lo <= b < |c| && b in blocks ==> blocks[b] == c[b]
  }

  /** What the revalidation from block `start` on leaves; `at` is the block that it condemned, if it did. */
  ghost predicate ScanLeaves(before: map<nat, Hash>, after: Db, c: View, start: nat, r: Option<bool>, at: nat) {
    && r.Some? && Thinned(before, after.hot.blocks) && CleanFrom(after.hot.blocks, c, start)
    && (r.value ==>
          && start <= at < |c| && at in before && before[at] != c[at] && after.liveCheckpoint == SatSub(at, 1)
          && forall b: nat :: b in after.hot.blocks ==> b < at)
  }

  /** The rows of the blocks `first..last` are those of the chain, and the others were there before. */
  ghost predicate Grown(before: map<nat, Hash>, after: map<nat, Hash>, c: View, first: nat, last: nat) {
    && last < |c|
    && (forall b: nat :: first <= b <= last ==> b in after && after[b] == c[b])
    && forall b: nat :: b in after && !(first <= b <= last) ==> b in before && after[b] == before[b]
  }

  /** What the second half of an iteration leaves; `at` is the first block of the range that it indexed, if it did. */
  ghost predicate ExtendLeaves(cfg: Config, before: Db, after: Db, c: View, status: Status, at: nat) {
    match status
    case Indexed =>
      && LiveFloor(cfg, c) <= at <= after.liveCheckpoint == Min(at + BLOCK_BATCH_SIZE - 1, Head(c))
      && Grown(before.hot.blocks, after.hot.blocks, c, at, after.liveCheckpoint)
    case Resting => Thinned(before.hot.blocks, after.hot.blocks)
    case _ => false
  }

  /**
   * What one live iteration leaves, whatever the backfill does between its actions: a pruned lane with a clean
   * window, and either a rollback to a stale block, or the next range of the chain, or nothing new.
   */
  ghost predicate LiveLeaves(cfg: Config, before: Db, after: Db, c: View, status: Status, at: nat) {
    && (forall b: nat :: b in after.hot.blocks ==> b >= LiveFloor(cfg, c))
    && CleanFrom(after.hot.blocks, c, ValidationStart(cfg, c))
    && if status == Repaired then
         ScanLeaves(before.hot.blocks, after, c, ValidationStart(cfg, c), Some(true), at)
       else ExtendLeaves(cfg, before, after, c, status, at)
  }

  /** The range follows the live checkpoint that the iteration began with; at rest there is none. */
  ghost predicate FollowsCheckpoint(cfg: Config, before: Db, after: Db, c: View, status: Status, at: nat) {
    && (status == Indexed ==> at == NextHot(cfg, before, c))
    && (status == Resting ==> NextHot(cfg, before, c) >= |c| && after.liveCheckpoint == before.liveCheckpoint)
  }

  lemma RangeLeaves(cfg: Config, before: Db, after: Db, c: View, first: nat, last: nat)
    requires first == NextHot(cfg, before, c) <= last < |c| && last == Min(first + BLOCK_BATCH_SIZE - 1, Head(c))
    requires after.liveCheckpoint == last && Grown(before.hot.blocks, after.hot.blocks, c, first, last)
    ensures ExtendLeaves(cfg, before, after, c, Indexed, first)
    ensures FollowsCheckpoint(cfg, before, after, c, Indexed, first)
  {
  }

  /** What the second half of an iteration leaves when it indexed the next range; exactly so with an idle backfill. */
  lemma RangeEnds(cfg: Config, ledger: Ledger, before: Db, after: Db, c: View, first: nat, last: nat, idle: bool)
    requires first == NextHot(cfg, before, c) <= last < |c| && last == Min(first + BLOCK_BATCH_SIZE - 1, Head(c))
    requires after.liveCheckpoint == last && Grown(before.hot.blocks, after.hot.blocks, c, first, last)
    requires idle ==> after == CommitHot(before, RangePayload(ledger, cfg.contract, c, first, last), last)
    ensures ExtendLeaves(cfg, before, after, c, Indexed, first)
    ensures FollowsCheckpoint(cfg, before, after, c, Indexed, first)
    ensures idle ==> HotExtended(cfg, ledger, before, after, c, Indexed)
  {
    RangeLeaves(cfg, before, after, c, first, last);
    if idle {
      CommitExtends(cfg, ledger, before, after, c, first, last);
    }
  }

  lemma ThinnedAgain(a: map<nat, Hash>, b: map<nat, Hash>, c: map<nat, Hash>)
    requires Thinned(a, b) && Thinned(b, c)
    ensures Thinned(a, c)
  {
  }

  /** The two halves of an iteration that did not roll back. */
  lemma LeavesTogether(cfg: Config, before: Db, mid: Db, after: Db, c: View, x: nat, status: Status, at: nat)
    requires c != []
    requires var pruned := PruneHot(before, LiveFloor(cfg, c)).hot.blocks;
             ScanLeaves(pruned, mid, c, ValidationStart(cfg, c), Some(false), x)
    requires ExtendLeaves(cfg, mid, after, c, status, at)
    ensures LiveLeaves(cfg, before, after, c, status, at)
  {
    assert ValidationStart(cfg, c) >= LiveFloor(cfg, c);
  }

  lemma LeavesRollback(cfg: Config, before: Db, after: Db, c: View, at: nat)
    requires var pruned := PruneHot(before, LiveFloor(cfg, c)).hot.blocks;
             ScanLeaves(pruned, after, c, ValidationStart(cfg, c), Some(true), at)
    ensures LiveLeaves(cfg, before, after, c, Repaired, at)
  {
  }

  /** How far the revalidation from block `start` has come: the lane only lost rows, and is clean up to block `b`. */
  ghost predicate ScannedHot(before: map<nat, Hash>, blocks: map<nat, Hash>, c: View, start: nat, b: nat) {
    && Thinned(before, blocks)
    && forall x: nat :: start <= x < b && x < |c| && x in blocks ==> blocks[x] == c[x]
  }

  /** The revalidation has come to block `b`: it goes on there, or it has rolled back to it. */
  ghost predicate ScanStands(before: map<nat, Hash>, db: Db, c: View, start: nat, r: Option<bool>, b: nat) {
    && r.Some?
    && if r.value then ScanLeaves(before, db, c, start, r, b) else ScannedHot(before, db.hot.blocks, c, start, b)
  }

  /** The same with an idle backfill, whose rollback is exact if the provider showed the chain. */
  ghost predicate ScannedAlone(before: Db, db: Db, c: View, start: nat, r: Option<bool>, b: nat, shown: bool) {
    && db == (if r == Some(true) then RollbackHot(before, b) else before)
    && (shown && r == Some(true) ==> HotScanFrom(before.hot.blocks, c, start) == Some(b))
  }

  /** The rows of the batch are in the lane, and the others were there before. */
  ghost predicate GrownBy(before: map<nat, Hash>, after: map<nat, Hash>, rows: seq<BlockRow>, first: nat) {
    && (forall b: nat :: first <= b < first + |rows| ==> b in after && after[b] == rows[b - first].hash)
    && forall b: nat :: b in after && !(first <= b < first + |rows|) ==> b in before && after[b] == before[b]
  }

  lemma InsertGrows(lane: Lane, p: Payload, first: nat, last: nat)
    requires ValidPayload(p, first, last)
    ensures GrownBy(lane.blocks, lane.Insert(p).blocks, p.blocks, first)
  {
    BlocksAfterInsert(lane.blocks, p.blocks, first);
  }

  lemma GrownFromThinned(a: map<nat, Hash>, b: map<nat, Hash>, after: map<nat, Hash>, rows: seq<BlockRow>, first: nat)
    requires Thinned(a, b) && GrownBy(b, after, rows, first)
    ensures GrownBy(a, after, rows, first)
  {
  }

  lemma GrownByRange(ledger: Ledger, contract: Option<Address>, before: map<nat, Hash>, after: map<nat, Hash>, c: View,
                     first: nat, last: nat)
    requires first <= last < |c|
    requires GrownBy(before, after, RangePayload(ledger, contract, c, first, last).blocks, first)
    ensures Grown(before, after, c, first, last)
  {
    assert RangePayload(ledger, contract, c, first, last).blocks == RangeRows(c, first, last + 1);
  }

  lemma ScanOneMore(before: map<nat, Hash>, blocks: map<nat, Hash>, after: map<nat, Hash>, c: View, start: nat, b: nat)
    requires ScannedHot(before, blocks, c, start, b) && Thinned(blocks, after)
    requires b < |c| && b in blocks ==> blocks[b] == c[b]
    ensures ScannedHot(before, after, c, start, b + 1)
  {
  }

  lemma ScanCondemns(before: map<nat, Hash>, blocks: map<nat, Hash>, after: Db, c: View, start: nat, b: nat)
    requires ScannedHot(before, blocks, c, start, b) && Thinned(blocks, after.hot.blocks)
    requires start <= b < |c| && b in blocks && blocks[b] != c[b]
    requires after.liveCheckpoint == SatSub(b, 1) && forall x: nat :: x in after.hot.blocks ==> x < b
    ensures ScanLeaves(before, after, c, start, Some(true), b)
    ensures HotScanFrom(blocks, c, start) == Some(b)
  {
    HotScanMeets(blocks, c, start, b);
  }

  lemma ScanClears(before: map<nat, Hash>, blocks: map<nat, Hash>, after: Db, c: View, start: nat, b: nat)
    requires ScannedHot(before, blocks, c, start, b) && Thinned(blocks, after.hot.blocks) && b >= |c|
    ensures ScanLeaves(before, after, c, start, Some(false), b)
    ensures HotScanFrom(blocks, c, start) == None
  {
    HotScanPasses(blocks, c, start);
  }

  lemma ScanFromThinned(a: map<nat, Hash>, b: map<nat, Hash>, after: Db, c: View, start: nat, r: Option<bool>, at: nat)
    requires Thinned(a, b) && ScanLeaves(b, after, c, start, r, at)
    ensures ScanLeaves(a, after, c, start, r, at)
  {
  }

  /** An iteration from its beginning: pruned and revalidated, and then extended unless the scan found a stale block. */
  lemma IterationLeaves(cfg: Config, before: Db, mid: Db, after: Db, c: View, r: Option<bool>, condemned: nat,
                        status: Status, at: nat)
    requires c != []
    requires ScanLeaves(PruneHot(before, LiveFloor(cfg, c)).hot.blocks, mid, c, ValidationStart(cfg, c), r, condemned)
    requires if r == Some(true) then status == Repaired && after == mid && at == condemned
             else ExtendLeaves(cfg, mid, after, c, status, at)
    ensures LiveLeaves(cfg, before, after, c, status, at)
  {
    if r == Some(true) {
      LeavesRollback(cfg, before, after, c, at);
    } else {
      LeavesTogether(cfg, before, mid, after, c, condemned, status, at);
    }
  }

  lemma IterationIsStep(cfg: Config, ledger: Ledger, before: Db, mid: Db, after: Db, c: View, r: Option<bool>,
                        status: Status)
    requires var pruned := PruneHot(before, LiveFloor(cfg, c));
             HotReconciled(pruned, mid, HotScan(cfg, pruned.hot.blocks, c), r)
    requires if r == Some(true) then status == Repaired && after == mid
             else HotExtended(cfg, ledger, mid, after, c, status)
    ensures LiveIterated(cfg, ledger, before, after, c, status)
  {
  }

  /** Both, and where the range begins, for a backfill that is idle or only promotes. */
  lemma IterationEnds(cfg: Config, ledger: Ledger, before: Db, mid: Db, after: Db, c: View, r: Option<bool>,
                      condemned: nat, status: Status, at: nat, idle: bool, promotes: bool)
    requires c != []
    requires ScanLeaves(PruneHot(before, LiveFloor(cfg, c)).hot.blocks, mid, c, ValidationStart(cfg, c), r, condemned)
    requires if r == Some(true) then status == Repaired && after == mid && at == condemned
             else ExtendLeaves(cfg, mid, after, c, status, at) && FollowsCheckpoint(cfg, mid, after, c, status, at)
    requires promotes && r == Some(false) ==> mid.liveCheckpoint == before.liveCheckpoint
    requires idle ==>
               var pruned := PruneHot(before, LiveFloor(cfg, c));
               HotReconciled(pruned, mid, HotScan(cfg, pruned.hot.blocks, c), r)
    requires idle && r == Some(false) ==> HotExtended(cfg, ledger, mid, after, c, status)
    ensures LiveLeaves(cfg, before, after, c, status, at)
    ensures promotes ==> FollowsCheckpoint(cfg, before, after, c, status, at)
    ensures idle ==> LiveIterated(cfg, ledger, before, after, c, status)
  {
    IterationLeaves(cfg, before, mid, after, c, r, condemned, status, at);
    if idle {
      IterationIsStep(cfg, ledger, before, mid, after, c, r, status);
    }
  }

  /** Deletions before the iteration change nothing about what it leaves. */
  lemma LeavesFromThinned(cfg: Config, a: Db, b: Db, after: Db, c: View, status: Status, at: nat)
    requires Thinned(a.hot.blocks, b.hot.blocks) && LiveLeaves(cfg, b, after, c, status, at)
    ensures LiveLeaves(cfg, a, after, c, status, at)
  {
  }

  // ---------- the live loop with a backfill that promotes ----------

  /** How many blocks are left to index above this checkpoint. */
  function LeftAbove(cfg: Config, c: View, checkpoint: nat): nat {
    SatSub(|c|, Max(checkpoint + 1, LiveFloor(cfg, c)))
  }

  /**
   * The books of the live loop: at most one rollback, to a block that was stale in the beginning, before any commit;
   * and as many commits as the blocks above `base` take, less what is still missing.
   */
  ghost predicate LiveTally(cfg: Config, start: Db, db: Db, c: View, rollbacks: nat, commits: nat, base: nat) {
    && rollbacks <= 1
    && (rollbacks == 0 ==> base == start.liveCheckpoint)
    && (rollbacks == 1 ==> StaleHot(cfg, start.hot.blocks, c, base + 1))
    && (rollbacks == 0 && commits == 0 ==> db == start)
    && (rollbacks + commits > 0 ==> CleanFrom(db.hot.blocks, c, ValidationStart(cfg, c)))
    && commits + CeilDiv(HotMissing(cfg, db, c), BLOCK_BATCH_SIZE) == CeilDiv(LeftAbove(cfg, c, base), BLOCK_BATCH_SIZE)
  }

  ghost predicate CleanWindow(cfg: Config, db: Db, c: View) {
    CleanFrom(db.hot.blocks, c, ValidationStart(cfg, c))
  }

  lemma TallyRollback(cfg: Config, start: Db, db: Db, after: Db, c: View, at: nat, rollbacks: nat, commits: nat,
                      base: nat)
    requires cfg.Valid() && LiveTally(cfg, start, db, c, rollbacks, commits, base)
    requires LiveLeaves(cfg, db, after, c, Repaired, at)
    ensures at > 0 && rollbacks == 0 && LiveTally(cfg, start, after, c, 1, commits, at - 1)
    ensures !CleanWindow(cfg, db, c) && CleanWindow(cfg, after, c)
  {
    assert ValidationStart(cfg, c) >= LiveFloor(cfg, c) >= 1;
    assert !CleanWindow(cfg, db, c);
  }

  lemma TallyCommit(cfg: Config, start: Db, db: Db, after: Db, c: View, at: nat, rollbacks: nat, commits: nat,
                    base: nat)
    requires LiveTally(cfg, start, db, c, rollbacks, commits, base)
    requires LiveLeaves(cfg, db, after, c, Indexed, at) && FollowsCheckpoint(cfg, db, after, c, Indexed, at)
    ensures LiveTally(cfg, start, after, c, rollbacks, commits + 1, base)
    ensures CleanWindow(cfg, after, c) && HotMissing(cfg, after, c) < HotMissing(cfg, db, c)
  {
    CeilDivStep(HotMissing(cfg, db, c), BLOCK_BATCH_SIZE);
  }

  /** At rest the books are closed. */
  lemma TallyRest(cfg: Config, start: Db, db: Db, after: Db, c: View, at: nat, rollbacks: nat, commits: nat, base: nat)
    requires LiveTally(cfg, start, db, c, rollbacks, commits, base)
    requires LiveLeaves(cfg, db, after, c, Resting, at) && FollowsCheckpoint(cfg, db, after, c, Resting, at)
    ensures LiveClosed(cfg, start, after, c, rollbacks, commits, base)
  {
  }

  /**
   * The live loop at rest: at most one rollback, and then only to a stale block; exactly the commits that the blocks
   * above the checkpoint took, or above that block; and a pruned lane with a clean window that is indexed up to the
   * head.
   */
  ghost predicate LiveClosed(cfg: Config, start: Db, db: Db, c: View, rollbacks: nat, commits: nat, base: nat) {
    && rollbacks <= 1
    && (rollbacks == 0 ==> base == start.liveCheckpoint)
    && (rollbacks == 1 ==> StaleHot(cfg, start.hot.blocks, c, base + 1))
    && commits == CeilDiv(LeftAbove(cfg, c, base), BLOCK_BATCH_SIZE)
    && NextHot(cfg, db, c) >= |c| && CleanWindow(cfg, db, c)
    && forall b: nat :: b in db.hot.blocks ==> b >= LiveFloor(cfg, c)
  }

  /** The books after an iteration that ended like this. */
  ghost predicate Booked(cfg: Config, start: Db, db: Db, c: View, status: Status, rollbacks: nat, commits: nat,
                         base: nat)
  {
    if status == Resting then LiveClosed(cfg, start, db, c, rollbacks, commits, base)
    else LiveTally(cfg, start, db, c, rollbacks, commits, base)
  }

  /** The window is clean now, and if it was before, fewer blocks are missing. */
  ghost predicate Nearer(cfg: Config, before: Db, after: Db, c: View) {
    && CleanWindow(cfg, after, c)
    && (CleanWindow(cfg, before, c) ==> HotMissing(cfg, after, c) < HotMissing(cfg, before, c))
  }

  lemma TallyGoesOn(cfg: Config, start: Db, db: Db, after: Db, c: View, status: Status, at: nat,
                    rollbacks: nat, commits: nat, base: nat)
    requires cfg.Valid() && LiveTally(cfg, start, db, c, rollbacks, commits, base)
    requires LiveLeaves(cfg, db, after, c, status, at) && FollowsCheckpoint(cfg, db, after, c, status, at)
    ensures Booked(cfg, start, after, c, status, if status == Repaired then rollbacks + 1 else rollbacks,
                   if status == Indexed then commits + 1 else commits,
                   if status == Repaired then SatSub(at, 1) else base)
    ensures status != Resting ==> Nearer(cfg, db, after, c)
  {
    match status {
      case Repaired => TallyRollback(cfg, start, db, after, c, at, rollbacks, commits, base);
      case Indexed => TallyCommit(cfg, start, db, after, c, at, rollbacks, commits, base);
      case Resting => TallyRest(cfg, start, db, after, c, at, rollbacks, commits, base);
    }
  }
}
