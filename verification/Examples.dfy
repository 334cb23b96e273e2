/**
 * Concrete runs behind the exceptions.  In every one of them each loop iteration sees one valid chain, so the
 * exceptions do not come from inconsistent answers.
 */
module Examples {
  import opened Types
  import opened Chain
  import opened Payload
  import opened Lanes
  import opened Storage
  import opened Protocol
  import opened Integrity
  import opened Coverage
  import opened HotWindow
  import opened ApiView
  import opened Convergence
  import opened HotAgreement
  import opened LiveConvergence
  import opened Interleaving
  import opened QueryView

  /** Start block 1, no confirmations, windows of one block, and a live start ten blocks behind the head. */
  const CONFIG: Config := Config(1, 0, 1, 1, 10, None)

  const LEDGER: Ledger := (h: Hash) =>
    Header(Hash(if h.id == 12 then 1 else if h.id == 21 then 0 else SatSub(h.id, 1)), 0, [])

  const A: View := [Hash(0), Hash(1), Hash(2)]
  const B: View := [Hash(0), Hash(1), Hash(12)]   // replaces the last block of A
  const C: View := [Hash(0), Hash(21), Hash(22)]  // replaces both blocks

  ghost predicate Proper(c: View) {
    ValidChain(LEDGER, c) && |c| == 3
  }

  lemma ProperChains()
    ensures Proper(A) && Proper(B) && Proper(C)
  {
    forall n: nat ensures LinkedAt(LEDGER, A, n) && LinkedAt(LEDGER, B, n) && LinkedAt(LEDGER, C, n) {
      assert 0 < n < 3 ==> n == 1 || n == 2;
    }
  }

  /** Every iteration of the run saw one chain. */
  ghost predicate CleanRun(cfg: Config, evs: seq<Event>) {
    BackFaithfulRun(cfg, LEDGER, evs) && LiveFaithfulRun(cfg, LEDGER, evs)
  }

  ghost predicate Clean(evs: seq<Event>) {
    CleanRun(CONFIG, evs)
  }

  lemma OneMore(cfg: Config, evs: seq<Event>, ev: Event) returns (more: seq<Event>)
    requires CleanRun(cfg, evs)
    requires BackFaithful(cfg, LEDGER, Exec(cfg, evs), ev) && LiveFaithful(cfg, LEDGER, Exec(cfg, evs), ev)
    ensures Exec(cfg, more) == Apply(cfg, Exec(cfg, evs), ev)
    ensures CleanRun(cfg, more)
    ensures RisingHeads(cfg, evs)
            && (ev.LiveBegin? && Exec(cfg, evs).live.Top? ==> ev.latest >= Exec(cfg, evs).liveHead) ==>
              RisingHeads(cfg, more)
  {
    ExecSnoc(cfg, evs, ev);
    more := evs + [ev];
    assert more[..|more| - 1] == evs;
  }

  lemma Then(evs: seq<Event>, ev: Event) returns (more: seq<Event>)
    requires Clean(evs)
    requires BackFaithful(CONFIG, LEDGER, Exec(CONFIG, evs), ev) && LiveFaithful(CONFIG, LEDGER, Exec(CONFIG, evs), ev)
    ensures Exec(CONFIG, more) == Apply(CONFIG, Exec(CONFIG, evs), ev)
    ensures Clean(more)
  {
    more := OneMore(CONFIG, evs, ev);
  }

  // ---------- pieces of a live iteration on a chain of three blocks ----------

  lemma Begin(before: seq<Event>, c: View) returns (evs: seq<Event>)
    requires Clean(before) && Exec(CONFIG, before).live == Top && Proper(c)
    ensures Clean(evs)
    ensures var s, after := Exec(CONFIG, before), Exec(CONFIG, evs);
            && after.live == Scanning(1, 2, 2, 2) && after.liveView == c && after.pruned == Max(s.pruned, 1)
            && after.db == s.db.(hot := after.db.hot) && after.db.hot.blocks == s.db.hot.blocks
  {
    AlwaysInv(CONFIG, before);
    evs := Then(before, LiveBegin(c, 2));
    assert Exec(CONFIG, evs).db.hot.blocks == Exec(CONFIG, before).db.hot.blocks;
    evs := Then(evs, LiveHead(2));
  }

  /** The scanned block is not stored. */
  lemma ScanPastTwo(before: seq<Event>) returns (evs: seq<Event>)
    requires Clean(before) && Exec(CONFIG, before).live == Scanning(1, 2, 2, 2) && Proper(Exec(CONFIG, before).liveView)
    requires 2 !in Exec(CONFIG, before).db.hot.blocks
    ensures Clean(evs)
    ensures Exec(CONFIG, evs) == Exec(CONFIG, before).(live := Scanned(1, 2))
  {
    var s := Exec(CONFIG, before);
    evs := Then(before, LiveScan(s.liveView[2]));
    assert Exec(CONFIG, evs) == s.(live := Scanning(1, 2, 3, 2));
    evs := Then(evs, LiveScan(s.liveView[2]));
  }

  lemma MismatchCondemns(s: State, answer: Hash)
    requires s.live == Scanning(1, 2, 2, 2) && 2 in s.db.hot.blocks && s.db.hot.blocks[2] != answer
    ensures Apply(CONFIG, s, LiveScan(answer)) == s.(live := Condemned(2))
  {
  }

  lemma CheckpointRead(s: State)
    requires s.live == Scanned(1, 2) && s.db.liveCheckpoint <= 1
    ensures Apply(CONFIG, s, LiveReadCheckpoint) == s.(live := Building(Max(s.db.liveCheckpoint + 1, 1), 2))
  {
  }

  lemma FindNothing(before: seq<Event>) returns (evs: seq<Event>)
    requires Clean(before) && Exec(CONFIG, before).live == Scanning(1, 2, 2, 2) && Proper(Exec(CONFIG, before).liveView)
    requires 2 !in Exec(CONFIG, before).db.hot.blocks
    requires Exec(CONFIG, before).db.liveCheckpoint <= 1
    ensures Clean(evs)
    ensures var s := Exec(CONFIG, before);
            Exec(CONFIG, evs) == s.(live := Building(Max(s.db.liveCheckpoint + 1, 1), 2))
  {
    var scanned := ScanPastTwo(before);
    CheckpointRead(Exec(CONFIG, scanned));
    evs := Then(scanned, LiveReadCheckpoint);
  }

  /** Nothing is stored in the range of the next commit, so a check passes. */
  lemma CheckPasses(s: State)
    requires Inv(CONFIG, s) && s.live.Checking? && s.live.checked < |s.live.payload.blocks|
    ensures Apply(CONFIG, s, LiveCheck) == s.(live := s.live.(checked := s.live.checked + 1))
  {
    var row := s.live.payload.blocks[s.live.checked];
    assert row.number >= s.live.first;
    assert row.number !in s.db.hot.blocks;
  }

  lemma {:induction false} CheckAll(before: seq<Event>) returns (evs: seq<Event>)
    requires Clean(before) && Exec(CONFIG, before).live.Checking?
    ensures Clean(evs)
    ensures var s := Exec(CONFIG, before); Exec(CONFIG, evs) == s.(live := s.live.(checked := |s.live.payload.blocks|))
    decreases |Exec(CONFIG, before).live.payload.blocks| - Exec(CONFIG, before).live.checked
  {
    AlwaysInv(CONFIG, before);
    var s := Exec(CONFIG, before);
    if s.live.checked == |s.live.payload.blocks| {
      evs := before;
    } else {
      CheckPasses(s);
      var checked := Then(before, LiveCheck);
      evs := CheckAll(checked);
    }
  }

  lemma Build(before: seq<Event>, first: nat) returns (evs: seq<Event>)
    requires Clean(before) && Exec(CONFIG, before).live == Building(first, 2) && first <= 2
    requires Proper(Exec(CONFIG, before).liveView)
    ensures Clean(evs)
    ensures var s := Exec(CONFIG, before);
            Exec(CONFIG, evs) == s.(live := Checking(first, 2, RangePayload(LEDGER, None, s.liveView, first, 2), 0))
  {
    var s := Exec(CONFIG, before);
    BuildIsRange(LEDGER, None, s.liveView, first, 2);
    evs := Then(before, LiveBuild(RangePayload(LEDGER, None, s.liveView, first, 2)));
  }

  /** What a hot commit of the blocks `first..2` of the iteration's chain leaves. */
  ghost predicate Committed(s: State, after: State, first: nat) {
    && after.live == Top && after.pruned == s.pruned && after.settledView == s.liveView
    && after.db.cold == s.db.cold && after.db.checkpoint == s.db.checkpoint && after.db.liveCheckpoint == 2
    && Proper(s.liveView)
    && (forall b: nat :: b in after.db.hot.blocks <==> b in s.db.hot.blocks || first <= b <= 2)
    && (forall b: nat :: b in after.db.hot.blocks ==>
          after.db.hot.blocks[b] == if first <= b <= 2 then s.liveView[b] else s.db.hot.blocks[b])
  }

  lemma CommitStep(s: State, first: nat, p: Payload)
    requires Proper(s.liveView) && 1 <= first <= 2
    requires s.live == Checking(first, 2, p, |p.blocks|) && |p.blocks| == 3 - first
    requires forall i :: 0 <= i < |p.blocks| ==> p.blocks[i] == BlockRow(first + i, s.liveView[first + i])
    ensures Committed(s, Apply(CONFIG, s, LiveCommit), first)
  {
    BlocksAfterInsert(s.db.hot.blocks, p.blocks, first);
    assert Apply(CONFIG, s, LiveCommit).db == CommitHot(s.db, p, 2);
  }

  lemma CommitLive(before: seq<Event>, first: nat) returns (evs: seq<Event>)
    requires Clean(before) && Exec(CONFIG, before).live == Building(first, 2) && 1 <= first <= 2
    requires Proper(Exec(CONFIG, before).liveView)
    ensures Clean(evs) && Committed(Exec(CONFIG, before), Exec(CONFIG, evs), first)
  {
    var built := Build(before, first);
    var checked := CheckAll(built);
    CommitStep(Exec(CONFIG, checked), first, RangePayload(LEDGER, None, Exec(CONFIG, checked).liveView, first, 2));
    evs := Then(checked, LiveCommit);
  }

  /** What a live iteration that indexes up to block 2 of a chain leaves. */
  ghost predicate IndexedToTwo(s: State, after: State, c: View) {
    && after.live == Top && after.settledView == c && after.pruned == Max(s.pruned, 1)
    && after.db.cold == s.db.cold && after.db.checkpoint == s.db.checkpoint && after.db.liveCheckpoint == 2
    && Proper(c)
    && (forall b: nat :: b in after.db.hot.blocks <==>
          b in s.db.hot.blocks || Max(s.db.liveCheckpoint + 1, 1) <= b <= 2)
    && (forall b: nat :: b in after.db.hot.blocks ==>
          after.db.hot.blocks[b] == if b in s.db.hot.blocks then s.db.hot.blocks[b] else c[b])
  }

  lemma IndexUpToTwo(before: seq<Event>, c: View) returns (evs: seq<Event>)
    requires Clean(before) && Exec(CONFIG, before).live == Top && Proper(c)
    requires Exec(CONFIG, before).db.liveCheckpoint <= 1
    ensures Clean(evs) && IndexedToTwo(Exec(CONFIG, before), Exec(CONFIG, evs), c)
  {
    AlwaysInv(CONFIG, before);
    var begun := Begin(before, c);
    var found := FindNothing(begun);
    evs := CommitLive(found, Max(Exec(CONFIG, before).db.liveCheckpoint + 1, 1));
  }

  // ---------- the lanes can overlap ----------

  lemma BatchOfA()
    ensures var p := RangePayload(LEDGER, None, A, 1, 2);
            && ValidPayload(p, 1, 2)
            && InsertBlocks(map[], p.blocks) == map[1 := Hash(1), 2 := Hash(2)]
  {
    BuildIsRange(LEDGER, None, A, 1, 2);
    BlocksAfterInsert(map[], RangeRows(A, 1, 3), 1);
  }

  /** The first two blocks of A are finalized. */
  lemma FinalizeA() returns (evs: seq<Event>)
    ensures Clean(evs)
    ensures var s := Exec(CONFIG, evs);
            && s.live == Top && s.pruned == 1 && s.db.hot.blocks == map[] && s.db.checkpoint == 2
            && s.db.liveCheckpoint == 0
            && s.db.cold.blocks == map[1 := Hash(1), 2 := Hash(2)]
  {
    ProperChains();
    BatchOfA();
    evs := Then([], BackCommit(A, RangePayload(LEDGER, None, A, 1, 2), 2));
    assert Exec(CONFIG, evs).db.hot.blocks == map[];
  }

  lemma IndexedOverlaps(s: State, after: State)
    requires IndexedToTwo(s, after, A) && s.db.liveCheckpoint == 0 && 1 in s.db.cold.blocks
    ensures !Disjoint(after.db)
  {
    assert 1 in after.db.hot.blocks && 1 in after.db.cold.blocks;
  }

  /** The live worker starts far enough behind the head to add finalized blocks to the hot lane again. */
  lemma LanesCanOverlap() returns (evs: seq<Event>)
    ensures Clean(evs) && Exec(CONFIG, evs).live == Top
    ensures !Disjoint(Exec(CONFIG, evs).db)
  {
    ProperChains();
    var finalized := FinalizeA();
    evs := IndexUpToTwo(finalized, A);
    IndexedOverlaps(Exec(CONFIG, finalized), Exec(CONFIG, evs));
  }

  // ---------- deep reorganisations stay in the hot lane ----------

  /** The scan finds another block 2, and the hot lane is rolled back. */
  lemma DropBlockTwo(before: seq<Event>, c: View) returns (evs: seq<Event>)
    requires Clean(before) && Exec(CONFIG, before).live == Top && Proper(c)
    requires 2 in Exec(CONFIG, before).db.hot.blocks && Exec(CONFIG, before).db.hot.blocks[2] != c[2]
    ensures Clean(evs)
    ensures var s, after := Exec(CONFIG, before), Exec(CONFIG, evs);
            && after.live == Top && after.db.liveCheckpoint == 1
            && (forall b: nat :: b in after.db.hot.blocks <==> b in s.db.hot.blocks && b < 2)
            && (forall b: nat :: b in after.db.hot.blocks ==> after.db.hot.blocks[b] == s.db.hot.blocks[b])
  {
    var begun := Begin(before, c);
    MismatchCondemns(Exec(CONFIG, begun), c[2]);
    var condemned := Then(begun, LiveScan(c[2]));
    evs := Then(condemned, LiveRollback);
  }

  lemma IndexAThenMeetC() returns (evs: seq<Event>)
    ensures Clean(evs)
    ensures var s := Exec(CONFIG, evs);
            s.live == Top && s.db.liveCheckpoint == 1 && s.db.hot.blocks == map[1 := Hash(1)]
  {
    ProperChains();
    var indexed := IndexUpToTwo([], A);
    BlocksOfA(Exec(CONFIG, []), Exec(CONFIG, indexed));
    evs := DropBlockTwo(indexed, C);
    assert Exec(CONFIG, evs).db.hot.blocks == map[1 := Hash(1)];
  }

  lemma BlocksOfA(s: State, after: State)
    requires IndexedToTwo(s, after, A) && s.db == EMPTY_DB
    ensures after.db.hot.blocks == map[1 := Hash(1), 2 := Hash(2)]
  {
  }

  lemma MixedBlocks(s: State, after: State)
    requires IndexedToTwo(s, after, C) && s.db.liveCheckpoint == 1 && s.db.hot.blocks == map[1 := Hash(1)]
    ensures after.db.hot.blocks == map[1 := Hash(1), 2 := Hash(22)]
    ensures !Agrees(after.db.hot.blocks, C) && !Linked(LEDGER, after.db.hot.blocks)
  {
    var blocks := after.db.hot.blocks;
    assert blocks == map[1 := Hash(1), 2 := Hash(22)];
    assert !AgreesAt(blocks, C, 1) && !StoredLinkAt(LEDGER, blocks, 1);
  }

  /**
   * After a reorganisation of two blocks, with a validation window of one: the live worker finishes iterations on
   * the new chain, but the stale block 1 stays, and the hot lane is no chain at all.
   */
  lemma DeepReorgStays() returns (evs: seq<Event>)
    ensures Clean(evs) && Exec(CONFIG, evs).live == Top && Exec(CONFIG, evs).settledView == C
    ensures Exec(CONFIG, evs).db.hot.blocks == map[1 := Hash(1), 2 := Hash(22)]
    ensures !Agrees(Exec(CONFIG, evs).db.hot.blocks, C) && !Linked(LEDGER, Exec(CONFIG, evs).db.hot.blocks)
  {
    ProperChains();
    var met := IndexAThenMeetC();
    evs := IndexUpToTwo(met, C);
    MixedBlocks(Exec(CONFIG, met), Exec(CONFIG, evs));
  }

  // ---------- gaps ----------

  ghost predicate OneColdBlock(s: State) {
    && s.db.checkpoint == 1 && s.pruned == 1
    && s.db.cold.blocks == map[1 := Hash(1)]
  }

  /** Block 2 is rolled back, which raises the live checkpoint to 1; then the live worker reads that. */
  lemma ReadCheckpoint() returns (evs: seq<Event>)
    ensures Clean(evs) && OneColdBlock(Exec(CONFIG, evs))
    ensures var s := Exec(CONFIG, evs); s.live == Building(2, 2) && s.liveView == B && s.db.hot.blocks == map[]
  {
    ProperChains();
    evs := RollBackBlockTwo();
    evs := Begin(evs, B);
    evs := FindNothing(evs);
  }

  lemma MismatchAtTwo(s: State)
    requires s.db.cold.blocks == map[1 := Hash(1), 2 := Hash(2)] && s.db.checkpoint == 2 && s.db.hot.blocks == map[]
    ensures BackFaithful(CONFIG, LEDGER, s, BackMismatch(B, 2, Hash(12)))
    ensures var after := Apply(CONFIG, s, BackMismatch(B, 2, Hash(12)));
            && after.live == s.live && after.pruned == s.pruned
            && after.db.checkpoint == 1 && after.db.liveCheckpoint == 1
            && after.db.cold.blocks == map[1 := Hash(1)] && after.db.hot.blocks == map[]
  {
    ProperChains();
    assert Apply(CONFIG, s, BackMismatch(B, 2, Hash(12))).db == RollbackFrom(s.db, 2);
  }

  lemma RollBackBlockTwo() returns (evs: seq<Event>)
    ensures Clean(evs) && OneColdBlock(Exec(CONFIG, evs))
    ensures var s := Exec(CONFIG, evs); s.live == Top && s.db.liveCheckpoint == 1 && s.db.hot.blocks == map[]
  {
    var finalized := FinalizeA();
    MismatchAtTwo(Exec(CONFIG, finalized));
    evs := Then(finalized, BackMismatch(B, 2, Hash(12)));
  }

  /** The chain is now C: block 1 is rolled back too. */
  lemma RollBackBlockOne(before: seq<Event>) returns (evs: seq<Event>)
    requires Clean(before) && OneColdBlock(Exec(CONFIG, before))
    ensures Clean(evs)
    ensures var s, after := Exec(CONFIG, before), Exec(CONFIG, evs);
            && after.live == s.live && after.liveView == s.liveView && after.pruned == 1
            && after.db.cold.blocks == map[] && 1 !in after.db.hot.blocks
  {
    ProperChains();
    evs := Then(before, BackMismatch(C, 1, Hash(21)));
  }

  /** A rollback of block 1 between the checkpoint read and the hot commit leaves block 1 in no lane. */
  lemma CommitCanLeaveGap() returns (evs: seq<Event>)
    ensures Clean(evs) && !Gapless(Exec(CONFIG, evs))
  {
    ProperChains();
    evs := ReadCheckpoint();
    evs := RollBackBlockOne(evs);
    evs := CommitLive(evs, 2);
    assert !Covered(Exec(CONFIG, evs).db, 1);
  }

  lemma CondemnBlockTwo() returns (evs: seq<Event>)
    ensures Clean(evs) && OneColdBlock(Exec(CONFIG, evs)) && Exec(CONFIG, evs).live == Condemned(2)
  {
    ProperChains();
    var read := ReadCheckpoint();
    var committed := CommitLive(read, 2);
    var begun := Begin(committed, A);
    MismatchCondemns(Exec(CONFIG, begun), A[2]);
    evs := Then(begun, LiveScan(A[2]));
  }

  /** So does one between the mismatch that the live worker found and its own hot rollback. */
  lemma HotRollbackCanLeaveGap() returns (evs: seq<Event>)
    ensures Clean(evs) && !Gapless(Exec(CONFIG, evs))
  {
    evs := CondemnBlockTwo();
    evs := RollBackBlockOne(evs);
    evs := Then(evs, LiveRollback);
    assert !Covered(Exec(CONFIG, evs).db, 1);
  }

  // ---------- a chain that ends below the checkpoint ----------

  const STUB: View := [Hash(0)]

  /** Two blocks are finalized, then the chain is cut down to its first block: the backfill can not go on. */
  lemma BackfillCanGetStuck() returns (evs: seq<Event>)
    ensures Clean(evs) && ValidChain(LEDGER, STUB)
    ensures BackfillStep(CONFIG, LEDGER, Exec(CONFIG, evs).db, STUB) == Failed
  {
    evs := FinalizeA();
    forall n: nat ensures LinkedAt(LEDGER, STUB, n) {}
    assert Check(CONFIG, Exec(CONFIG, evs).db, STUB) == NotFound(2);
  }

  // ---------- blocks in no lane at rest ----------

  /** Two confirmations, but a live window of one block. */
  const DEEP: Config := Config(1, 2, 1, 1, 1, None)

  const D: View := [Hash(0), Hash(1), Hash(2), Hash(3)]

  lemma ProperD()
    ensures ValidChain(LEDGER, D)
  {
    forall n: nat ensures LinkedAt(LEDGER, D, n) {
      assert 0 < n < 4 ==> n == 1 || n == 2 || n == 3;
    }
  }

  lemma BatchOfD()
    ensures ValidPayload(RangePayload(LEDGER, None, D, 1, 1), 1, 1)
    ensures InsertBlocks(map[], RangePayload(LEDGER, None, D, 1, 1).blocks) == map[1 := Hash(1)]
    ensures ValidPayload(RangePayload(LEDGER, None, D, 3, 3), 3, 3)
    ensures RangePayload(LEDGER, None, D, 3, 3).blocks == [BlockRow(3, Hash(3))]
    ensures InsertBlocks(map[], RangePayload(LEDGER, None, D, 3, 3).blocks) == map[3 := Hash(3)]
  {
    BuildIsRange(LEDGER, None, D, 1, 1);
    BuildIsRange(LEDGER, None, D, 3, 3);
    assert RangeRows(D, 1, 2) == [] + [BlockRow(1, Hash(1))];
    assert RangeRows(D, 3, 4) == [] + [BlockRow(3, Hash(3))];
    InsertOneRow(map[], [], BlockRow(1, Hash(1)));
    InsertOneRow(map[], [], BlockRow(3, Hash(3)));
  }

  /** Block 1 is finalized: the only one with two blocks above it. */
  lemma FinalizeOne() returns (evs: seq<Event>)
    ensures CleanRun(DEEP, evs) && RisingHeads(DEEP, evs)
    ensures var s := Exec(DEEP, evs);
            && s.live == Top && s.pruned == 1 && s.liveHead == 0 && s.db.hot == EMPTY_LANE && s.db.checkpoint == 1
            && s.db.liveCheckpoint == 0 && s.db.cold.blocks == map[1 := Hash(1)]
  {
    ProperD();
    BatchOfD();
    evs := OneMore(DEEP, [], BackCommit(D, RangePayload(LEDGER, None, D, 1, 1), 1));
    assert Exec(DEEP, evs).db.hot == EMPTY_LANE;
  }

  lemma ScanD(s: State)
    requires s.live == Top && s.db.hot == EMPTY_LANE
    ensures var begun := Apply(DEEP, s, LiveBegin(D, 3));
            && begun == s.(db := begun.db, live := Pruned(3, 3), pruned := Max(s.pruned, 3), liveHead := 3,
                           liveView := D)
            && begun.db == s.db
            && Apply(DEEP, begun, LiveHead(3)) == begun.(live := Scanning(3, 3, 3, 3))
            && Apply(DEEP, begun.(live := Scanning(3, 3, 3, 3)), LiveScan(Hash(3)))
               == begun.(live := Scanning(3, 3, 4, 3))
            && Apply(DEEP, begun.(live := Scanning(3, 3, 4, 3)), LiveScan(Hash(3))) == begun.(live := Scanned(3, 3))
  {
    assert PruneHot(s.db, 3).hot == EMPTY_LANE;
  }

  lemma BuildD(s: State, p: Payload)
    requires s.live == Scanned(3, 3) && s.db.hot == EMPTY_LANE && s.db.liveCheckpoint <= 2
    requires ValidPayload(p, 3, 3) && p.blocks == [BlockRow(3, Hash(3))]
    ensures Apply(DEEP, s, LiveReadCheckpoint) == s.(live := Building(3, 3))
    ensures Apply(DEEP, s.(live := Building(3, 3)), LiveBuild(p)) == s.(live := Checking(3, 3, p, 0))
    ensures Apply(DEEP, s.(live := Checking(3, 3, p, 0)), LiveCheck) == s.(live := Checking(3, 3, p, 1))
    ensures var after := Apply(DEEP, s.(live := Checking(3, 3, p, 1)), LiveCommit);
            && after == s.(db := after.db, live := Top, settledView := s.liveView)
            && after.db == s.db.(hot := after.db.hot, liveCheckpoint := 3)
            && after.db.hot.blocks == InsertBlocks(map[], p.blocks)
  {
  }

  lemma BeginD(before: seq<Event>) returns (evs: seq<Event>)
    requires CleanRun(DEEP, before) && RisingHeads(DEEP, before)
    requires var s := Exec(DEEP, before); s.live == Top && s.db.hot == EMPTY_LANE && s.liveHead <= 3
    ensures CleanRun(DEEP, evs) && RisingHeads(DEEP, evs)
    ensures var s := Exec(DEEP, before);
            Exec(DEEP, evs) == s.(live := Scanned(3, 3), pruned := Max(s.pruned, 3), liveHead := 3, liveView := D)
  {
    ProperD();
    ScanD(Exec(DEEP, before));
    var begun := OneMore(DEEP, before, LiveBegin(D, 3));
    var scanning := OneMore(DEEP, begun, LiveHead(3));
    var past := OneMore(DEEP, scanning, LiveScan(Hash(3)));
    evs := OneMore(DEEP, past, LiveScan(Hash(3)));
  }

  /** One live iteration on D indexes block 3 and prunes the rest. */
  lemma IndexBlockThree(before: seq<Event>) returns (evs: seq<Event>)
    requires CleanRun(DEEP, before) && RisingHeads(DEEP, before)
    requires var s := Exec(DEEP, before);
             s.live == Top && s.db.hot == EMPTY_LANE && s.liveHead <= 3 && s.db.liveCheckpoint <= 2
    ensures CleanRun(DEEP, evs) && RisingHeads(DEEP, evs)
    ensures var s, after := Exec(DEEP, before), Exec(DEEP, evs);
            && after.live == Top && after.pruned == Max(s.pruned, 3) && after.settledView == D && after.liveHead == 3
            && after.db == s.db.(hot := after.db.hot, liveCheckpoint := 3) && after.db.hot.blocks == map[3 := Hash(3)]
  {
    BatchOfD();
    var p := RangePayload(LEDGER, None, D, 3, 3);
    var scanned := BeginD(before);
    BuildD(Exec(DEEP, scanned), p);
    var read := OneMore(DEEP, scanned, LiveReadCheckpoint);
    var built := OneMore(DEEP, read, LiveBuild(p));
    var passed := OneMore(DEEP, built, LiveCheck);
    evs := OneMore(DEEP, passed, LiveCommit);
  }

  lemma LiveRestsOnD(db: Db)
    requires HotSound(db) && db.hot.blocks == map[3 := Hash(3)] && db.liveCheckpoint == 3
    ensures LiveStep(DEEP, LEDGER, db, D) == HotResting(db)
  {
    assert LiveFloor(DEEP, D) == 3 && ValidationStart(DEEP, D) == 3;
    MendedStays(DEEP, db, D);
  }

  lemma BackRestsOnD(db: Db)
    requires db.checkpoint == 1 || db.checkpoint == 3
    requires forall b: nat :: 1 <= b <= db.checkpoint ==> StoredAt(db.cold.blocks, D, b)
    ensures BackfillStep(DEEP, LEDGER, db, D) == CaughtUp
  {
    CheckFinds(DEEP, db, D);
    assert DEEP.SafeHead(Head(D)) == 1;
  }

  lemma GaplessOnD(s: State)
    requires s.pruned == 3 && s.db.liveCheckpoint == 3 && 3 in s.db.hot.blocks
    ensures Gapless(s)
  {
  }

  /** Blocks up to 1 or to 3 finalized and block 3 in the hot lane: both workers rest on `D`. */
  lemma RestsOnD(s: State)
    requires Inv(DEEP, s) && s.pruned == 3 && s.db.hot.blocks == map[3 := Hash(3)] && s.db.liveCheckpoint == 3
    requires s.db.checkpoint == 1 || s.db.checkpoint == 3
    requires forall b: nat :: 1 <= b <= s.db.checkpoint ==> StoredAt(s.db.cold.blocks, D, b)
    ensures AtRest(DEEP, LEDGER, s.db, D) && Gapless(s)
  {
    LiveRestsOnD(s.db);
    BackRestsOnD(s.db);
    GaplessOnD(s);
  }

  /**
   * With more confirmations than live blocks, both workers rest on a chain of four blocks with block 2 in no lane: it
   * is not buried deeply enough for the one, and too old for the other.
   */
  lemma RestCanLeaveBlocksOut() returns (evs: seq<Event>)
    ensures CleanRun(DEEP, evs) && RisingHeads(DEEP, evs) && !WindowsMeet(DEEP, Head(D))
    ensures AtRest(DEEP, LEDGER, Exec(DEEP, evs).db, D) && Gapless(Exec(DEEP, evs))
    ensures !Covered(Exec(DEEP, evs).db, 2)
  {
    var finalized := FinalizeOne();
    evs := IndexBlockThree(finalized);
    AlwaysInv(DEEP, evs);
    RestsOnD(Exec(DEEP, evs));
  }

  // ---------- a rest that the depths do not decide ----------

  const LONG: View := [Hash(0), Hash(1), Hash(2), Hash(3), Hash(4), Hash(5)]

  lemma ProperLong()
    ensures ValidChain(LEDGER, LONG)
  {
    forall n: nat ensures LinkedAt(LEDGER, LONG, n) {
      assert 0 < n < 6 ==> n == 1 || n == 2 || n == 3 || n == 4 || n == 5;
    }
  }

  lemma BatchOfLong()
    ensures var p := RangePayload(LEDGER, None, LONG, 1, 3);
            && ValidPayload(p, 1, 3)
            && InsertBlocks(map[], p.blocks) == map[1 := Hash(1), 2 := Hash(2), 3 := Hash(3)]
  {
    BuildIsRange(LEDGER, None, LONG, 1, 3);
    var one, two, three := BlockRow(1, Hash(1)), BlockRow(2, Hash(2)), BlockRow(3, Hash(3));
    assert RangeRows(LONG, 1, 4) == [] + [one] + [two] + [three];
    InsertOneRow(map[], [], one);
    InsertOneRow(map[], [] + [one], two);
    InsertOneRow(map[], [] + [one] + [two], three);
  }

  lemma FinalizeThree() returns (evs: seq<Event>)
    ensures CleanRun(DEEP, evs) && RisingHeads(DEEP, evs)
    ensures var s := Exec(DEEP, evs);
            && s.live == Top && s.pruned == 1 && s.liveHead == 0 && s.db.hot == EMPTY_LANE && s.db.checkpoint == 3
            && s.db.liveCheckpoint == 0
            && s.db.cold.blocks == map[1 := Hash(1), 2 := Hash(2), 3 := Hash(3)]
  {
    ProperLong();
    BatchOfLong();
    evs := OneMore(DEEP, [], BackCommit(LONG, RangePayload(LEDGER, None, LONG, 1, 3), 3));
    assert Exec(DEEP, evs).db.hot == EMPTY_LANE;
  }

  lemma CoveredByCold(s: State)
    requires Inv(DEEP, s) && s.db.checkpoint >= Head(D)
    ensures CoversChain(DEEP, s.db, D)
  {
  }

  /** After the chain shrank, the blocks finalized before can cover it although the depths do not meet. */
  lemma ShrunkChainsCanBeCovered() returns (evs: seq<Event>)
    ensures CleanRun(DEEP, evs) && RisingHeads(DEEP, evs) && !WindowsMeet(DEEP, Head(D))
    ensures AtRest(DEEP, LEDGER, Exec(DEEP, evs).db, D) && Gapless(Exec(DEEP, evs))
    ensures CoversChain(DEEP, Exec(DEEP, evs).db, D)
  {
    var finalized := FinalizeThree();
    evs := IndexBlockThree(finalized);
    AlwaysInv(DEEP, evs);
    RestsOnD(Exec(DEEP, evs));
    CoveredByCold(Exec(DEEP, evs));
  }
}
