/**
 * Why both workers come to rest on a chain that no longer changes: their writes are bounded, and a stretch of the run
 * without a write in which each of them completes an iteration is one in which both of them found nothing to do.
 */
module Rounds {
  import opened Types
  import opened Chain
  import opened Lanes
  import opened Storage
  import opened Protocol
  import opened HotAgreement
  import opened Convergence
  import opened LiveConvergence
  import opened Interleaving

  // ---------- completed iterations ----------

  /** A backfill iteration ends: with a write, or because the safe head is reached. */
  ghost predicate BackEnds(cfg: Config, s: State, ev: Event) {
    || Is(cfg, s, ev, ColdRollback) || Is(cfg, s, ev, ColdCommit)
    || (ev.BackIdle? && cfg.NextFinalized(s.db.checkpoint) > cfg.SafeHead(Head(ev.view)))
  }

  /** From action number `lo` on, the backfill worker has completed an iteration. */
  ghost predicate BackCompleted(cfg: Config, evs: seq<Event>, lo: nat) {
    && lo < |evs|
    && (|| BackCompleted(cfg, evs[..|evs| - 1], lo)
        || BackEnds(cfg, Exec(cfg, evs[..|evs| - 1]), evs[|evs| - 1]))
  }

  /** From action number `lo` on, the live worker has begun an iteration ... */
  ghost predicate LiveBegun(cfg: Config, evs: seq<Event>, lo: nat) {
    lo < |evs| && (LiveBegun(cfg, evs[..|evs| - 1], lo) || Begins(Exec(cfg, evs[..|evs| - 1]), evs[|evs| - 1]))
  }

  ghost predicate Begins(s: State, ev: Event) {
    ev.LiveBegin? && s.live.Top?
  }

  /** ... and has completed one after that. */
  ghost predicate LiveCompleted(cfg: Config, evs: seq<Event>, lo: nat) {
    && lo < |evs|
    && (|| LiveCompleted(cfg, evs[..|evs| - 1], lo)
        || (LiveBegun(cfg, evs[..|evs| - 1], lo) && Finishes(cfg, Exec(cfg, evs[..|evs| - 1]), evs[|evs| - 1])))
  }

  /** Both workers have completed an iteration since action number `lo`. */
  ghost predicate Round(cfg: Config, evs: seq<Event>, lo: nat) {
    BackCompleted(cfg, evs, lo) && LiveCompleted(cfg, evs, lo)
  }

  /** The run from action number `i` on is cut into rounds, which begin at these action numbers. */
  ghost predicate CutInRounds(cfg: Config, evs: seq<Event>, i: nat, cuts: seq<nat>)
    decreases |cuts|
  {
    && i <= |evs|
    && (cuts == []
        || (var m := cuts[|cuts| - 1];
            i <= m <= |evs| && Round(cfg, evs, m) && CutInRounds(cfg, evs[..m], i, cuts[..|cuts| - 1])))
  }

  /** How many writes there were from action number `i` on. */
  ghost function Written(cfg: Config, evs: seq<Event>, i: nat): nat {
    Count(cfg, evs, i, ColdRollback) + Count(cfg, evs, i, ColdCommit)
    + Count(cfg, evs, i, HotRollback) + Count(cfg, evs, i, HotCommit)
  }

  ghost predicate IsWrite(cfg: Config, s: State, ev: Event) {
    || Is(cfg, s, ev, ColdRollback) || Is(cfg, s, ev, ColdCommit)
    || Is(cfg, s, ev, HotRollback) || Is(cfg, s, ev, HotCommit)
  }

  lemma WrittenSnoc(cfg: Config, evs: seq<Event>, i: nat)
    requires i < |evs|
    ensures var before, ev := evs[..|evs| - 1], evs[|evs| - 1];
            Written(cfg, evs, i) == Written(cfg, before, i) + if IsWrite(cfg, Exec(cfg, before), ev) then 1 else 0
  {
  }

  lemma {:induction false} WrittenInParts(cfg: Config, evs: seq<Event>, i: nat, m: nat)
    requires i <= m <= |evs|
    ensures Written(cfg, evs, i) == Written(cfg, evs[..m], i) + Written(cfg, evs, m)
  {
    if m == |evs| {
      assert evs[..m] == evs;
    } else {
      assert evs[..|evs| - 1][..m] == evs[..m];
      WrittenInParts(cfg, evs[..|evs| - 1], i, m);
      WrittenSnoc(cfg, evs, i);
      WrittenSnoc(cfg, evs, m);
    }
  }

  // ---------- nothing to do ----------

  /** The hot lane holds nothing below the live start. */
  ghost predicate PrunedFor(cfg: Config, db: Db, c: View) {
    forall b: nat :: b in db.hot.blocks ==> b >= LiveFloor(cfg, c)
  }

  /** The live worker has nothing to do, and has nothing pending either. */
  ghost predicate HotAtRest(cfg: Config, s: State, c: View) {
    && (s.live.Top? || s.live.Pruned? || s.live.Scanning? || s.live.Scanned?)
    && PrunedFor(cfg, s.db, c) && CleanWindow(cfg, s.db, c) && NextHot(cfg, s.db, c) >= |c|
  }

  ghost predicate ColdAtRest(cfg: Config, ledger: Ledger, s: State, c: View) {
    BackfillStep(cfg, ledger, s.db, c) == CaughtUp
  }

  lemma RestingMeansAtRest(cfg: Config, ledger: Ledger, s: State, c: View)
    requires OnChain(cfg, ledger, s, c) && HotAtRest(cfg, s, c) && ColdAtRest(cfg, ledger, s, c)
    ensures AtRest(cfg, ledger, s.db, c)
  {
    MendedStays(cfg, s.db, c);
  }

  lemma BeginPrunes(cfg: Config, ledger: Ledger, s: State, ev: Event, c: View)
    requires SeesOnly(cfg, ledger, s, ev, c) && Begins(s, ev)
    ensures PrunedFor(cfg, Apply(cfg, s, ev).db, c)
  {
  }

  lemma StaysPruned(cfg: Config, ledger: Ledger, s: State, ev: Event, c: View)
    requires OnChain(cfg, ledger, s, c) && SeesOnly(cfg, ledger, s, ev, c) && PrunedFor(cfg, s.db, c)
    ensures PrunedFor(cfg, Apply(cfg, s, ev).db, c)
  {
    if Writes(s, ev) {
      BlocksAfterInsert(s.db.hot.blocks, s.live.payload.blocks, s.live.first);
    } else {
      HotOnlyShrinks(cfg, s, ev);
    }
  }

  /** An iteration that ends without a write on a pruned lane found the window clean and the head reached. */
  lemma FinishWithoutWrite(cfg: Config, ledger: Ledger, s: State, ev: Event, c: View)
    requires OnChain(cfg, ledger, s, c) && SeesOnly(cfg, ledger, s, ev, c) && PrunedFor(cfg, s.db, c)
    requires Finishes(cfg, s, ev) && !IsWrite(cfg, s, ev)
    ensures HotAtRest(cfg, Apply(cfg, s, ev), c)
  {
    assert ev.LiveReadCheckpoint? && s.live.Scanned?;
    forall b: nat | ValidationStart(cfg, c) <= b < |c| && b in s.db.hot.blocks ensures s.db.hot.blocks[b] == c[b] {
      assert AgreesAt(s.db.hot.blocks, c, b);
    }
  }

  lemma EndWithoutWrite(cfg: Config, ledger: Ledger, s: State, ev: Event, c: View)
    requires OnChain(cfg, ledger, s, c) && SeesOnly(cfg, ledger, s, ev, c)
    requires BackEnds(cfg, s, ev) && !IsWrite(cfg, s, ev)
    ensures ColdAtRest(cfg, ledger, Apply(cfg, s, ev), c)
  {
    if s.db.checkpoint >= cfg.start {
      ScanPasses(s.db.cold.blocks, c, cfg.FinalizedWindow(s.db.checkpoint), s.db.checkpoint);
    }
  }

  lemma ColdStaysAtRest(cfg: Config, ledger: Ledger, s: State, ev: Event, c: View)
    requires ColdAtRest(cfg, ledger, s, c) && !IsWrite(cfg, s, ev)
    ensures ColdAtRest(cfg, ledger, Apply(cfg, s, ev), c)
  {
    QuietForCold(cfg, s, ev);
    StepOfCold(cfg, ledger, s.db, Apply(cfg, s, ev).db, c);
  }

  /** Pruning a lane that is pruned already changes nothing. */
  lemma HotStaysAtRest(cfg: Config, ledger: Ledger, s: State, ev: Event, c: View)
    requires OnChain(cfg, ledger, s, c) && SeesOnly(cfg, ledger, s, ev, c)
    requires HotAtRest(cfg, s, c) && !IsWrite(cfg, s, ev)
    ensures HotAtRest(cfg, Apply(cfg, s, ev), c) && Apply(cfg, s, ev).db == s.db
  {
    KeepAll(s.db.hot, LiveFloor(cfg, c));
  }

  /** A stretch without a write in which a worker completed an iteration leaves that worker with nothing to do. */
  lemma {:induction false} QuietStretch(cfg: Config, ledger: Ledger, evs: seq<Event>, i: nat, lo: nat, c: View)
    requires StableSince(cfg, ledger, evs, i, c) && OnChain(cfg, ledger, Exec(cfg, evs[..i]), c)
    requires i <= lo <= |evs| && Written(cfg, evs, lo) == 0
    ensures LiveBegun(cfg, evs, lo) ==> PrunedFor(cfg, Exec(cfg, evs).db, c)
    ensures LiveCompleted(cfg, evs, lo) ==> HotAtRest(cfg, Exec(cfg, evs), c)
    ensures BackCompleted(cfg, evs, lo) ==> ColdAtRest(cfg, ledger, Exec(cfg, evs), c)
  {
    if lo < |evs| {
      var before, ev := evs[..|evs| - 1], evs[|evs| - 1];
      assert before[..i] == evs[..i];
      WrittenSnoc(cfg, evs, lo);
      QuietStretch(cfg, ledger, before, i, lo, c);
      RunStaysOnChain(cfg, ledger, before, i, c);
      QuietAction(cfg, ledger, Exec(cfg, before), ev, c);
    }
  }

  lemma QuietAction(cfg: Config, ledger: Ledger, s: State, ev: Event, c: View)
    requires OnChain(cfg, ledger, s, c) && SeesOnly(cfg, ledger, s, ev, c) && !IsWrite(cfg, s, ev)
    ensures var after := Apply(cfg, s, ev);
            && (PrunedFor(cfg, s.db, c) || Begins(s, ev) ==> PrunedFor(cfg, after.db, c))
            && (HotAtRest(cfg, s, c) || (PrunedFor(cfg, s.db, c) && Finishes(cfg, s, ev)) ==> HotAtRest(cfg, after, c))
            && (ColdAtRest(cfg, ledger, s, c) || BackEnds(cfg, s, ev) ==> ColdAtRest(cfg, ledger, after, c))
  {
    if PrunedFor(cfg, s.db, c) {
      StaysPruned(cfg, ledger, s, ev, c);
    } else if Begins(s, ev) {
      BeginPrunes(cfg, ledger, s, ev, c);
    }
    if HotAtRest(cfg, s, c) {
      HotStaysAtRest(cfg, ledger, s, ev, c);
    } else if PrunedFor(cfg, s.db, c) && Finishes(cfg, s, ev) {
      FinishWithoutWrite(cfg, ledger, s, ev, c);
    }
    if ColdAtRest(cfg, ledger, s, c) {
      ColdStaysAtRest(cfg, ledger, s, ev, c);
    } else if BackEnds(cfg, s, ev) {
      EndWithoutWrite(cfg, ledger, s, ev, c);
    }
  }

  // ---------- rest is final, and is reached ----------

  lemma NoWriteAtRest(cfg: Config, ledger: Ledger, s: State, ev: Event, c: View)
    requires OnChain(cfg, ledger, s, c) && SeesOnly(cfg, ledger, s, ev, c)
    requires HotAtRest(cfg, s, c) && ColdAtRest(cfg, ledger, s, c)
    ensures !IsWrite(cfg, s, ev)
  {
    if Is(cfg, s, ev, ColdRollback) || Is(cfg, s, ev, ColdCommit) {
      BackWriteIsNext(cfg, ledger, s, ev, c);
    }
  }

  lemma {:induction false} StaysAtRest(cfg: Config, ledger: Ledger, evs: seq<Event>, i: nat, m: nat, c: View)
    requires StableSince(cfg, ledger, evs, i, c) && OnChain(cfg, ledger, Exec(cfg, evs[..i]), c) && i <= m <= |evs|
    requires HotAtRest(cfg, Exec(cfg, evs[..m]), c) && ColdAtRest(cfg, ledger, Exec(cfg, evs[..m]), c)
    ensures HotAtRest(cfg, Exec(cfg, evs), c) && ColdAtRest(cfg, ledger, Exec(cfg, evs), c)
    ensures Exec(cfg, evs).db == Exec(cfg, evs[..m]).db
  {
    if m == |evs| {
      assert evs[..m] == evs;
    } else {
      var before, ev := evs[..|evs| - 1], evs[|evs| - 1];
      assert before[..i] == evs[..i] && before[..m] == evs[..m];
      StaysAtRest(cfg, ledger, before, i, m, c);
      RunStaysOnChain(cfg, ledger, before, i, c);
      NoWriteAtRest(cfg, ledger, Exec(cfg, before), ev, c);
      HotStaysAtRest(cfg, ledger, Exec(cfg, before), ev, c);
      ColdStaysAtRest(cfg, ledger, Exec(cfg, before), ev, c);
    }
  }

  /** Rest is final: whatever either worker does on the same chain, the tables stay as they are. */
  lemma RestIsFinal(cfg: Config, ledger: Ledger, evs: seq<Event>, i: nat, c: View)
    requires StableSince(cfg, ledger, evs, i, c) && cfg.Valid() && c != [] && ValidChain(ledger, c)
    requires BackFaithfulRun(cfg, ledger, evs[..i]) && LiveFaithfulRun(cfg, ledger, evs[..i])
    requires Exec(cfg, evs[..i]).live.Top? && AtRest(cfg, ledger, Exec(cfg, evs[..i]).db, c)
    ensures Exec(cfg, evs).db == Exec(cfg, evs[..i]).db
  {
    var s := Exec(cfg, evs[..i]);
    ReachableIsOnChain(cfg, ledger, evs[..i], c);
    RepairMends(cfg, s.db, c);
    StaysAtRest(cfg, ledger, evs, i, i, c);
  }

  lemma {:induction false} StablePrefix(cfg: Config, ledger: Ledger, evs: seq<Event>, i: nat, m: nat, c: View)
    requires StableSince(cfg, ledger, evs, i, c) && i <= m <= |evs|
    ensures StableSince(cfg, ledger, evs[..m], i, c)
  {
    if m == |evs| {
      assert evs[..m] == evs;
    } else {
      assert evs[..|evs| - 1][..m] == evs[..m];
      StablePrefix(cfg, ledger, evs[..|evs| - 1], i, m, c);
    }
  }

  /** Both workers are at rest, or there were at least `n` writes. */
  ghost predicate WrittenOrRested(cfg: Config, ledger: Ledger, evs: seq<Event>, i: nat, n: nat, c: View) {
    Written(cfg, evs, i) >= n || (HotAtRest(cfg, Exec(cfg, evs), c) && ColdAtRest(cfg, ledger, Exec(cfg, evs), c))
  }

  lemma OneMoreRound(cfg: Config, ledger: Ledger, evs: seq<Event>, i: nat, m: nat, n: nat, c: View)
    requires StableSince(cfg, ledger, evs, i, c) && OnChain(cfg, ledger, Exec(cfg, evs[..i]), c)
    requires i <= m <= |evs| && Round(cfg, evs, m) && WrittenOrRested(cfg, ledger, evs[..m], i, n, c)
    ensures WrittenOrRested(cfg, ledger, evs, i, n + 1, c)
  {
    if Written(cfg, evs[..m], i) < n {
      StaysAtRest(cfg, ledger, evs, i, m, c);
    } else if Written(cfg, evs, m) == 0 {
      QuietStretch(cfg, ledger, evs, i, m, c);
    } else {
      WrittenInParts(cfg, evs, i, m);
    }
  }

  /** Each round has a write, or both workers are at rest by then. */
  lemma {:induction false} RoundsWriteOrRest(cfg: Config, ledger: Ledger, evs: seq<Event>, i: nat, cuts: seq<nat>,
                                             c: View)
    requires StableSince(cfg, ledger, evs, i, c) && OnChain(cfg, ledger, Exec(cfg, evs[..i]), c)
    requires CutInRounds(cfg, evs, i, cuts)
    ensures WrittenOrRested(cfg, ledger, evs, i, |cuts|, c)
    decreases |cuts|
  {
    if cuts != [] {
      var m := cuts[|cuts| - 1];
      assert evs[..m][..i] == evs[..i];
      StablePrefix(cfg, ledger, evs, i, m, c);
      RoundsWriteOrRest(cfg, ledger, evs[..m], i, cuts[..|cuts| - 1], c);
      OneMoreRound(cfg, ledger, evs, i, m, |cuts| - 1, c);
    }
  }

  /** A bound on all writes on this chain. */
  ghost function MostWrites(cfg: Config, s: State, c: View): nat {
    var coldRollbacks := CeilDiv(|StaleBlocks(s.db, c)|, cfg.Lookback());
    coldRollbacks + CeilDiv(MissingBlocks(cfg, s.db, c), BLOCK_BATCH_SIZE) + 1
    + CeilDiv(HotLeft(cfg, s, c), BLOCK_BATCH_SIZE) + (coldRollbacks + 1) * CeilDiv(|c|, BLOCK_BATCH_SIZE)
  }

  lemma BoundsAddUp(cfg: Config, s: State, c: View, coldRollbacks: nat, coldCommits: nat, hotRollbacks: nat,
                    hotCommits: nat)
    requires WithinBounds(cfg, s, c, coldRollbacks, coldCommits, hotRollbacks, hotCommits)
    ensures coldRollbacks + coldCommits + hotRollbacks + hotCommits <= MostWrites(cfg, s, c)
  {
  }

  lemma WrittenIsBounded(cfg: Config, ledger: Ledger, evs: seq<Event>, i: nat, c: View)
    requires StableSince(cfg, ledger, evs, i, c) && OnChain(cfg, ledger, Exec(cfg, evs[..i]), c)
    ensures Written(cfg, evs, i) <= MostWrites(cfg, Exec(cfg, evs[..i]), c)
  {
    BoundedFrom(cfg, ledger, evs, i, c);
    BoundsAddUp(cfg, Exec(cfg, evs[..i]), c, Count(cfg, evs, i, ColdRollback), Count(cfg, evs, i, ColdCommit),
                Count(cfg, evs, i, HotRollback), Count(cfg, evs, i, HotCommit));
  }

  /**
   * Both workers come to rest: from any state between two live iterations, once the chain stays, any interleaving in
   * which both workers complete an iteration more often than there can be writes ends with both of them at rest.
   */
  lemma BothWorkersRest(cfg: Config, ledger: Ledger, evs: seq<Event>, i: nat, cuts: seq<nat>, c: View)
    requires StableSince(cfg, ledger, evs, i, c) && cfg.Valid() && c != [] && ValidChain(ledger, c)
    requires BackFaithfulRun(cfg, ledger, evs[..i]) && LiveFaithfulRun(cfg, ledger, evs[..i])
    requires Exec(cfg, evs[..i]).live.Top?
    requires CutInRounds(cfg, evs, i, cuts) && |cuts| > MostWrites(cfg, Exec(cfg, evs[..i]), c)
    ensures AtRest(cfg, ledger, Exec(cfg, evs).db, c)
  {
    ReachableIsOnChain(cfg, ledger, evs[..i], c);
    WrittenIsBounded(cfg, ledger, evs, i, c);
    RoundsWriteOrRest(cfg, ledger, evs, i, cuts, c);
    RunStaysOnChain(cfg, ledger, evs, i, c);
    RestingMeansAtRest(cfg, ledger, Exec(cfg, evs), c);
  }
}
