/**
 * Gaps across the lanes.  In hybrid mode every block from the highest prune bound so far to the live checkpoint
 * should be in one of the lanes.  A finalized rollback that lands between a live worker's read and its
 * write can break this; here is exactly when it does.
 */
module Coverage {
  import opened Types
  import opened Lanes
  import opened Storage
  import opened Protocol
  import opened Integrity

  ghost predicate Covered(db: Db, b: nat) {
    b in db.hot.blocks || b in db.cold.blocks
  }

  ghost predicate Gapless(s: State) {
    forall b: nat :: s.pruned <= b <= s.db.liveCheckpoint ==> Covered(s.db, b)
  }

  /** One of the checkpoints still reaches the block below `bound`, or nothing below it is expected. */
  ghost predicate Bridged(s: State, bound: nat) {
    bound <= s.pruned || bound <= Max(s.db.liveCheckpoint, s.db.checkpoint) + 1
  }

  /** The live worker is about to write: a commit from this block, or a rollback to this block. */
  ghost predicate LiveWrites(s: State, ev: Event) {
    || (ev.LiveCommit? && s.live.Checking? && s.live.checked >= |s.live.payload.blocks|)
    || (ev.LiveRollback? && s.live.Condemned?)
  }

  ghost predicate IsPending(live: LivePc) {
    live.Building? || live.Checking? || live.Condemned?
  }

  ghost function Pending(live: LivePc): nat
    requires IsPending(live)
  {
    if live.Condemned? then live.block else live.first
  }

  /** A live write leaves a gap exactly when its lower bound is no longer bridged. */
  lemma WriteGap(cfg: Config, s: State, ev: Event)
    requires cfg.Valid() && Inv(cfg, s) && Gapless(s) && LiveWrites(s, ev)
    ensures Gapless(Apply(cfg, s, ev)) <==> Bridged(s, Pending(s.live))
  {
    var bound := Pending(s.live);
    var after := Apply(cfg, s, ev);
    if ev.LiveCommit? {
      BlocksAfterInsert(s.db.hot.blocks, s.live.payload.blocks, s.live.first);
    }
    if Bridged(s, bound) {
      forall b: nat | after.pruned <= b <= after.db.liveCheckpoint ensures Covered(after.db, b) {
        assert b <= s.db.liveCheckpoint ==> Covered(s.db, b);
      }
    } else {
      assert !Covered(after.db, bound - 1);
    }
  }

  lemma OtherStepsKeepGapless(cfg: Config, s: State, ev: Event)
    requires cfg.Valid() && Inv(cfg, s) && Gapless(s) && !LiveWrites(s, ev)
    ensures Gapless(Apply(cfg, s, ev))
  {
    var after := Apply(cfg, s, ev);
    if ev.BackCommit? && BackEnabled(cfg, s.db, ev) {
      BlocksAfterInsert(s.db.cold.blocks, ev.payload.blocks, cfg.NextFinalized(s.db.checkpoint));
    }
    forall b: nat | after.pruned <= b <= after.db.liveCheckpoint ensures Covered(after.db, b) {
      assert b <= s.db.liveCheckpoint ==> Covered(s.db, b);
    }
  }

  // ---------- whole runs ----------

  /** No state of the run has a gap. */
  ghost predicate GaplessRun(cfg: Config, evs: seq<Event>) {
    Gapless(Exec(cfg, evs)) && (evs == [] || GaplessRun(cfg, evs[..|evs| - 1]))
  }

  /** Every live write of the run was bridged when it happened. */
  ghost predicate BridgedRun(cfg: Config, evs: seq<Event>) {
    evs == [] ||
    (var s := Exec(cfg, evs[..|evs| - 1]);
     BridgedRun(cfg, evs[..|evs| - 1]) && (LiveWrites(s, evs[|evs| - 1]) ==> Bridged(s, Pending(s.live))))
  }

  /** A run has no gap at any time if and only if every live write in it was bridged. */
  lemma {:induction false} GaplessExactly(cfg: Config, evs: seq<Event>)
    requires cfg.Valid()
    ensures GaplessRun(cfg, evs) <==> BridgedRun(cfg, evs)
  {
    if evs != [] {
      var before, ev := evs[..|evs| - 1], evs[|evs| - 1];
      var s := Exec(cfg, before);
      GaplessExactly(cfg, before);
      AlwaysInv(cfg, before);
      if GaplessRun(cfg, before) {
        if LiveWrites(s, ev) {
          WriteGap(cfg, s, ev);
        } else {
          OtherStepsKeepGapless(cfg, s, ev);
        }
      }
    }
  }

  /** A finalized rollback below what the live worker is about to write. */
  ghost predicate Disturbs(cfg: Config, s: State, ev: Event) {
    && (ev.BackMismatch? || ev.BackMissing? || ev.BackConflict?)
    && BackEnabled(cfg, s.db, ev)
    && IsPending(s.live)
    && ev.block < Pending(s.live)
  }

  ghost predicate UndisturbedRun(cfg: Config, evs: seq<Event>) {
    evs == [] ||
    (UndisturbedRun(cfg, evs[..|evs| - 1]) && !Disturbs(cfg, Exec(cfg, evs[..|evs| - 1]), evs[|evs| - 1]))
  }

  lemma StepKeepsBridge(cfg: Config, s: State, ev: Event)
    requires cfg.Valid() && Inv(cfg, s)
    requires IsPending(s.live) ==> Bridged(s, Pending(s.live))
    requires !Disturbs(cfg, s, ev)
    ensures var after := Apply(cfg, s, ev); IsPending(after.live) ==> Bridged(after, Pending(after.live))
  {
    if ev.IsBack() {
      WorkersMeetInHot(cfg, s, ev);
    }
  }

  /**
   * Without a finalized rollback between the live worker's read and its write, no gap ever opens: not by
   * promotion, pruning, either rollback (a finalized rollback may raise the live checkpoint), or hot commits.
   */
  lemma {:induction false} UndisturbedRunsHaveNoGaps(cfg: Config, evs: seq<Event>)
    requires cfg.Valid() && UndisturbedRun(cfg, evs)
    ensures BridgedRun(cfg, evs) && GaplessRun(cfg, evs)
    ensures var s := Exec(cfg, evs); IsPending(s.live) ==> Bridged(s, Pending(s.live))
  {
    GaplessExactly(cfg, evs);
    if evs != [] {
      var before, ev := evs[..|evs| - 1], evs[|evs| - 1];
      UndisturbedRunsHaveNoGaps(cfg, before);
      AlwaysInv(cfg, before);
      StepKeepsBridge(cfg, Exec(cfg, before), ev);
    }
  }

  /** At the moment it lands, a finalized rollback unbridges a pending write exactly when it goes below it. */
  lemma RollbackUnbridges(cfg: Config, s: State, ev: Event)
    requires cfg.Valid() && Inv(cfg, s) && IsPending(s.live) && Bridged(s, Pending(s.live))
    requires (ev.BackMismatch? || ev.BackMissing? || ev.BackConflict?) && BackEnabled(cfg, s.db, ev)
    ensures Bridged(Apply(cfg, s, ev), Pending(s.live))
       <==> Pending(s.live) <= s.pruned || !Disturbs(cfg, s, ev)
  {
  }
}
