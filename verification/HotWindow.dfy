/** The size and the shape of the hot lane. */
module HotWindow {
  import opened Types
  import opened Lanes
  import opened Storage
  import opened Protocol
  import opened Integrity

  /** The heads that the live worker starts its iterations with never decrease. */
  ghost predicate RisingHeads(cfg: Config, evs: seq<Event>) {
    evs == [] ||
    (var s, ev := Exec(cfg, evs[..|evs| - 1]), evs[|evs| - 1];
     RisingHeads(cfg, evs[..|evs| - 1]) && (ev.LiveBegin? && s.live.Top? ==> ev.latest >= s.liveHead))
  }

  ghost predicate LiveOnly(evs: seq<Event>) {
    forall ev :: ev in evs ==> !ev.IsBack()
  }

  ghost predicate InsideWindow(cfg: Config, s: State) {
    && s.pruned == cfg.LiveStart(cfg.start, s.liveHead)
    && (forall b: nat :: b in s.db.hot.blocks ==> cfg.LiveStart(cfg.start, s.liveHead) <= b <= s.liveHead)
    && match s.live
       case Pruned(liveStart, latest) => latest == s.liveHead && liveStart == cfg.LiveStart(cfg.start, latest)
       case Scanning(liveStart, latest, _, _) => latest == s.liveHead && liveStart == cfg.LiveStart(cfg.start, latest)
       case Scanned(liveStart, latest) => latest == s.liveHead && liveStart == cfg.LiveStart(cfg.start, latest)
       case Building(first, last) => cfg.LiveStart(cfg.start, s.liveHead) <= first && last <= s.liveHead
       case Checking(first, last, _, _) => cfg.LiveStart(cfg.start, s.liveHead) <= first && last <= s.liveHead
       case _ => true
  }

  lemma StepStaysInside(cfg: Config, s: State, ev: Event)
    requires cfg.Valid() && Inv(cfg, s) && InsideWindow(cfg, s)
    requires ev.LiveBegin? && s.live.Top? ==> ev.latest >= s.liveHead
    ensures InsideWindow(cfg, Apply(cfg, s, ev))
  {
    if ev.IsBack() {
      WorkersMeetInHot(cfg, s, ev);
      PartBlocks(s.db.hot, Apply(cfg, s, ev).db.hot);
    } else if ev.LiveCommit? && s.live.Checking? {
      BlocksAfterInsert(s.db.hot.blocks, s.live.payload.blocks, s.live.first);
    }
  }

  lemma {:induction false} HotStaysInside(cfg: Config, evs: seq<Event>)
    requires cfg.Valid() && RisingHeads(cfg, evs)
    ensures InsideWindow(cfg, Exec(cfg, evs))
  {
    if evs != [] {
      HotStaysInside(cfg, evs[..|evs| - 1]);
      AlwaysInv(cfg, evs[..|evs| - 1]);
      StepStaysInside(cfg, Exec(cfg, evs[..|evs| - 1]), evs[|evs| - 1]);
    }
  }

  /**
   * With heads that never decrease, the hot lane never holds more blocks than the live depth: in every state of
   * every run, catch-up jumps, rollbacks, crashes and the backfill worker included.
   */
  lemma HotLaneIsBounded(cfg: Config, evs: seq<Event>)
    requires cfg.Valid() && RisingHeads(cfg, evs)
    ensures |Exec(cfg, evs).db.hot.blocks| <= cfg.LiveDepth()
  {
    var s := Exec(cfg, evs);
    HotStaysInside(cfg, evs);
    var lo := cfg.LiveStart(cfg.start, s.liveHead);
    KeysInInterval(s.db.hot.blocks, lo, s.liveHead + 1);
  }

  lemma KeysInInterval(blocks: map<nat, Hash>, lo: nat, hi: nat)
    requires forall b: nat :: b in blocks ==> lo <= b < hi
    ensures |blocks| <= SatSub(hi, lo)
  {
    assert |blocks| == |blocks.Keys|;
    if lo <= hi {
      SubsetSize(blocks.Keys, Interval(lo, hi));
      IntervalSize(lo, hi);
    } else {
      assert blocks.Keys == {};
    }
  }

  /** No hole between a hot block and the live checkpoint. */
  ghost predicate ReachesCheckpoint(db: Db) {
    forall b: nat, c: nat :: b in db.hot.blocks && b <= c <= db.liveCheckpoint ==> c in db.hot.blocks
  }

  ghost predicate ShapeInv(s: State) {
    && ReachesCheckpoint(s.db)
    && match s.live
       case Building(first, _) => first == s.db.liveCheckpoint + 1 || s.db.hot.blocks == map[]
       case Checking(first, _, _, _) => first == s.db.liveCheckpoint + 1 || s.db.hot.blocks == map[]
       case Condemned(n) => n <= s.db.liveCheckpoint
       case Pruned(liveStart, _) => forall b: nat :: b in s.db.hot.blocks ==> liveStart <= b
       case Scanning(liveStart, _, _, _) => forall b: nat :: b in s.db.hot.blocks ==> liveStart <= b
       case Scanned(liveStart, _) => forall b: nat :: b in s.db.hot.blocks ==> liveStart <= b
       case _ => true
  }

  lemma LiveStepKeepsShape(cfg: Config, s: State, ev: Event)
    requires cfg.Valid() && Inv(cfg, s) && ShapeInv(s) && !ev.IsBack()
    ensures ShapeInv(Apply(cfg, s, ev))
  {
    var after := Apply(cfg, s, ev);
    match (ev, s.live) {
      case (LiveCommit, Checking(first, last, p, checked)) =>
        BlocksAfterInsert(s.db.hot.blocks, p.blocks, first);
      case (LiveReadCheckpoint, Scanned(liveStart, latest)) =>
        if s.db.liveCheckpoint + 1 < liveStart {
          assert forall b: nat :: b !in s.db.hot.blocks;
          assert s.db.hot.blocks == map[];
        }
      case _ =>
    }
  }

  /**
   * With the live worker alone, the hot lane is empty or one interval that ends at the live checkpoint:
   * a block is stored exactly when it lies between some stored block and the checkpoint.
   */
  lemma {:induction false} LiveOnlyHotIsInterval(cfg: Config, evs: seq<Event>)
    requires cfg.Valid() && LiveOnly(evs)
    ensures ShapeInv(Exec(cfg, evs))
    ensures var db := Exec(cfg, evs).db;
            forall c: nat :: c in db.hot.blocks
                        <==> c <= db.liveCheckpoint && exists b: nat :: b in db.hot.blocks && b <= c
  {
    if evs != [] {
      assert evs[|evs| - 1] in evs;
      LiveOnlyHotIsInterval(cfg, evs[..|evs| - 1]);
      AlwaysInv(cfg, evs[..|evs| - 1]);
      LiveStepKeepsShape(cfg, Exec(cfg, evs[..|evs| - 1]), evs[|evs| - 1]);
    }
    AlwaysInv(cfg, evs);
  }
}
