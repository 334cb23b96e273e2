/**
 * What holds in every reachable state, for every interleaving of the two workers, every crash of the live
 * worker, and every answer of the provider, even when each RPC call shows another chain.
 */
module Integrity {
  import opened Chain
  import opened Payload
  import opened Lanes
  import opened Storage
  import opened Protocol

  /** The cold lane holds exactly the blocks from the start block to the finalized checkpoint. */
  ghost predicate ColdContiguous(cfg: Config, db: Db) {
    forall b: nat :: b in db.cold.blocks <==> cfg.start <= b <= db.checkpoint
  }

  ghost predicate HotBelow(db: Db, bound: nat) {
    forall b: nat :: b in db.hot.blocks ==> b < bound
  }

  ghost predicate PcInv(cfg: Config, s: State) {
    match s.live
    case Top => true
    case Pruned(liveStart, _) => cfg.start <= liveStart <= s.pruned
    case Scanning(liveStart, _, at, _) => cfg.start <= liveStart <= s.pruned && cfg.start <= at
    case Condemned(n) => cfg.start <= n
    case Scanned(liveStart, _) => cfg.start <= liveStart <= s.pruned
    case Building(first, last) => cfg.start <= first <= last && HotBelow(s.db, first)
    case Checking(first, last, p, checked) =>
      cfg.start <= first && HotBelow(s.db, first) && ValidPayload(p, first, last) && checked <= |p.blocks|
  }

  ghost predicate Inv(cfg: Config, s: State) {
    && cfg.start <= s.pruned
    && ColdContiguous(cfg, s.db)
    && HotBelow(s.db, s.db.liveCheckpoint + 1)
    && (forall b: nat :: b in s.db.hot.blocks ==> cfg.start <= b)
    && RowsMatch(s.db.cold)
    && RowsMatch(s.db.hot)
    && PcInv(cfg, s)
  }

  /** The backfill worker only ever deletes from the hot lane, and the live worker never touches the cold one. */
  lemma WorkersMeetInHot(cfg: Config, s: State, ev: Event)
    ensures ev.IsBack() ==> PartOf(s.db.hot, Apply(cfg, s, ev).db.hot) && Apply(cfg, s, ev).live == s.live
    ensures !ev.IsBack() ==>
              Apply(cfg, s, ev).db.cold == s.db.cold && Apply(cfg, s, ev).db.checkpoint == s.db.checkpoint
  {
    WholePart(s.db.hot);
  }

  lemma BackKeepsInv(cfg: Config, s: State, ev: Event)
    requires cfg.Valid() && Inv(cfg, s) && ev.IsBack()
    ensures Inv(cfg, Apply(cfg, s, ev))
  {
    WorkersMeetInHot(cfg, s, ev);
    var after := Apply(cfg, s, ev);
    PartBlocks(s.db.hot, after.db.hot);
    PartKeepsRows(s.db.hot, after.db.hot);
    if BackEnabled(cfg, s.db, ev) {
      match ev {
        case BackMismatch(_, n, _) =>
          PartKeepsRows(s.db.cold, after.db.cold);
        case BackMissing(_, n) =>
          assert false;
        case BackConflict(_, n) =>
          assert false;
        case BackCommit(_, p, last) =>
          var next := cfg.NextFinalized(s.db.checkpoint);
          InsertKeepsRows(s.db.cold, p, next, last);
          BlocksAfterInsert(s.db.cold.blocks, p.blocks, next);
        case BackIdle(_) =>
      }
    }
  }

  /** A hot commit brings rows for blocks above all stored ones. */
  lemma CommitKeepsInv(cfg: Config, s: State)
    requires cfg.Valid() && Inv(cfg, s) && s.live.Checking? && s.live.checked >= |s.live.payload.blocks|
    ensures Inv(cfg, Apply(cfg, s, LiveCommit))
  {
    InsertKeepsRows(s.db.hot, s.live.payload, s.live.first, s.live.last);
    BlocksAfterInsert(s.db.hot.blocks, s.live.payload.blocks, s.live.first);
  }

  lemma LiveKeepsInv(cfg: Config, s: State, ev: Event)
    requires cfg.Valid() && Inv(cfg, s) && !ev.IsBack()
    ensures Inv(cfg, Apply(cfg, s, ev))
  {
    if ev.LiveCommit? && s.live.Checking? && s.live.checked >= |s.live.payload.blocks| {
      CommitKeepsInv(cfg, s);
    } else if ev.LiveBegin? || ev.LiveRollback? {
      WholePart(s.db.hot);
      PartKeepsRows(s.db.hot, Apply(cfg, s, ev).db.hot);
    }
  }

  lemma {:induction false} AlwaysInv(cfg: Config, evs: seq<Event>)
    requires cfg.Valid()
    ensures Inv(cfg, Exec(cfg, evs))
  {
    if evs == [] {
      forall k ensures RowMatches(EMPTY_LANE, k) {}
    } else {
      var before := evs[..|evs| - 1];
      AlwaysInv(cfg, before);
      if evs[|evs| - 1].IsBack() {
        BackKeepsInv(cfg, Exec(cfg, before), evs[|evs| - 1]);
      } else {
        LiveKeepsInv(cfg, Exec(cfg, before), evs[|evs| - 1]);
      }
    }
  }

  // ---------- what a reader of the tables and the workers may rely on ----------

  /** Cold contiguity: so the missing-metadata and the conflict branches of the backfill never fire. */
  lemma ColdLaneIsContiguous(cfg: Config, evs: seq<Event>)
    requires cfg.Valid()
    ensures ColdContiguous(cfg, Exec(cfg, evs).db)
    ensures forall view, n :: !BackEnabled(cfg, Exec(cfg, evs).db, BackMissing(view, n))
    ensures forall view, n :: !BackEnabled(cfg, Exec(cfg, evs).db, BackConflict(view, n))
  {
    AlwaysInv(cfg, evs);
  }

  /** Referential integrity of both lanes in every reachable state. */
  lemma TransfersHaveBlocks(cfg: Config, evs: seq<Event>, k: Key)
    requires cfg.Valid()
    ensures var db := Exec(cfg, evs).db;
            && (k in db.cold.transfers ==>
                  && k.block in db.cold.blocks
                  && db.cold.transfers[k].block == k.block
                  && db.cold.transfers[k].blockHash == db.cold.blocks[k.block])
            && (k in db.hot.transfers ==>
                  && k.block in db.hot.blocks
                  && db.hot.transfers[k].block == k.block
                  && db.hot.transfers[k].blockHash == db.hot.blocks[k.block])
  {
    AlwaysInv(cfg, evs);
    assert RowMatches(Exec(cfg, evs).db.cold, k) && RowMatches(Exec(cfg, evs).db.hot, k);
  }

  lemma FreshKeys(lane: Lane, p: Payload, first: nat, last: nat)
    requires RowsMatch(lane) && ValidPayload(p, first, last)
    requires forall b :: first <= b <= last ==> b !in lane.blocks
    ensures forall r :: r in p.records ==> r.RowKey() !in lane.transfers
    ensures |lane.Insert(p).transfers| - |lane.transfers| == |KeysOf(p.records)|
  {
    forall r | r in p.records ensures r.RowKey() !in lane.transfers {
      assert RecordFits(r, p.blocks, first);
      assert RowMatches(lane, r.RowKey());
    }
    InsertCountsKeys(lane.transfers, p.records);
  }

  /**
   * A hot commit meets no stored row of its range, so a transfer counts as a duplicate only when its key
   * repeats inside the payload.
   */
  lemma HotCommitsMeetNoRows(cfg: Config, evs: seq<Event>)
    requires cfg.Valid() && Exec(cfg, evs).live.Checking?
    ensures var s := Exec(cfg, evs);
            && HotBelow(s.db, s.live.first)
            && (forall r :: r in s.live.payload.records ==> r.RowKey() !in s.db.hot.transfers)
            && |s.db.hot.Insert(s.live.payload).transfers| - |s.db.hot.transfers| == |KeysOf(s.live.payload.records)|
  {
    AlwaysInv(cfg, evs);
    var s := Exec(cfg, evs);
    FreshKeys(s.db.hot, s.live.payload, s.live.first, s.live.last);
  }

  /** The validation reads before a hot commit never condemn a block. */
  lemma HotValidationNeverFires(cfg: Config, evs: seq<Event>)
    requires cfg.Valid() && Exec(cfg, evs).live.Checking?
    ensures Apply(cfg, Exec(cfg, evs), LiveCheck).live.Checking?
  {
    AlwaysInv(cfg, evs);
  }

  lemma ColdCommitsMeetNoRows(cfg: Config, evs: seq<Event>, view: View, p: Payload, last: nat)
    requires cfg.Valid() && BackEnabled(cfg, Exec(cfg, evs).db, BackCommit(view, p, last))
    ensures var db := Exec(cfg, evs).db;
            && (forall b :: cfg.NextFinalized(db.checkpoint) <= b ==> b !in db.cold.blocks)
            && (forall r :: r in p.records ==> r.RowKey() !in db.cold.transfers)
            && |db.cold.Insert(p).transfers| - |db.cold.transfers| == |KeysOf(p.records)|
  {
    AlwaysInv(cfg, evs);
    var db := Exec(cfg, evs).db;
    FreshKeys(db.cold, p, cfg.NextFinalized(db.checkpoint), last);
  }

  /** In every interleaving the live checkpoint is at or above every hot block. */
  lemma HotStaysBelowCheckpoint(cfg: Config, evs: seq<Event>, b: nat)
    requires cfg.Valid() && b in Exec(cfg, evs).db.hot.blocks
    ensures b <= Exec(cfg, evs).db.liveCheckpoint
  {
    AlwaysInv(cfg, evs);
  }
}
