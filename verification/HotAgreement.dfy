/**
 * The hot lane against the chain, whatever the backfill worker deletes meanwhile.  The live worker revalidates
 * a window behind the head, so it heals reorganisations that stay inside the window, and no others.
 */
module HotAgreement {
  import opened Types
  import opened Chain
  import opened Payload
  import opened Lanes
  import opened Storage
  import opened Protocol
  import opened Integrity

  // ---------- completeness ----------

  ghost predicate HotCompleteInv(cfg: Config, ledger: Ledger, s: State) {
    && Complete(ledger, cfg.contract, s.db.hot)
    && (s.live.Checking? ==>
          && s.live.first <= s.live.last < |s.liveView|
          && s.live.payload == RangePayload(ledger, cfg.contract, s.liveView, s.live.first, s.live.last))
  }

  lemma StepKeepsHotComplete(cfg: Config, ledger: Ledger, s: State, ev: Event)
    requires cfg.Valid() && Inv(cfg, s) && HotCompleteInv(cfg, ledger, s)
    requires LiveFaithful(cfg, ledger, s, ev)
    ensures HotCompleteInv(cfg, ledger, Apply(cfg, s, ev))
  {
    var after := Apply(cfg, s, ev);
    if ev.LiveCommit? && s.live.Checking? && s.live.checked >= |s.live.payload.blocks| {
      InsertKeepsComplete(ledger, cfg.contract, s.db.hot, s.liveView, s.live.first, s.live.last);
    } else {
      WholePart(s.db.hot);
      WorkersMeetInHot(cfg, s, ev);
      assert PartOf(s.db.hot, after.db.hot);
      PartKeepsComplete(ledger, cfg.contract, s.db.hot, after.db.hot);
    }
  }

  /** The hot lane's transfers are exactly the logs of its blocks, in every state of every such run. */
  lemma {:induction false} HotLaneIsComplete(cfg: Config, ledger: Ledger, evs: seq<Event>)
    requires cfg.Valid() && LiveFaithfulRun(cfg, ledger, evs)
    ensures HotCompleteInv(cfg, ledger, Exec(cfg, evs))
    ensures Complete(ledger, cfg.contract, Exec(cfg, evs).db.hot)
  {
    if evs == [] {
      EmptyIsComplete(ledger, cfg.contract);
    } else {
      var before := evs[..|evs| - 1];
      HotLaneIsComplete(cfg, ledger, before);
      AlwaysInv(cfg, before);
      StepKeepsHotComplete(cfg, ledger, Exec(cfg, before), evs[|evs| - 1]);
    }
  }

  // ---------- agreement ----------

  /** The first block that an iteration with this chain revalidates. */
  function ValidationStart(cfg: Config, c: View): nat {
    cfg.HotWindow(cfg.LiveStart(cfg.start, Head(c)), Head(c))
  }

  /** What the scan has established so far: the window below this block is clean. */
  ghost function CleanBelow(cfg: Config, s: State): nat {
    match s.live
    case Scanning(_, _, at, _) => at
    case Condemned(n) => n
    case Scanned(_, _) => |s.liveView|
    case Building(_, _) => |s.liveView|
    case Checking(_, _, _, _) => |s.liveView|
    case _ => 0
  }

  ghost predicate ScanInv(cfg: Config, ledger: Ledger, s: State) {
    && (!s.live.Top? ==> s.liveView != [])
    && (forall b: nat :: b in s.db.hot.blocks && ValidationStart(cfg, s.liveView) <= b < CleanBelow(cfg, s) ==>
          AgreesAt(s.db.hot.blocks, s.liveView, b))
    && match s.live
       case Pruned(liveStart, latest) => liveStart == cfg.LiveStart(cfg.start, latest) && latest == Head(s.liveView)
       case Scanning(liveStart, latest, at, until) =>
         until == latest == Head(s.liveView) && at >= ValidationStart(cfg, s.liveView)
       case Condemned(n) => ValidationStart(cfg, s.liveView) <= n < |s.liveView|
       case Checking(first, last, p, _) =>
         first <= last < |s.liveView| && p == RangePayload(ledger, cfg.contract, s.liveView, first, last)
       case _ => true
  }

  /** Only a hot commit adds rows to the hot lane; every other action at most deletes, blocks with their transfers. */
  lemma HotOnlyShrinks(cfg: Config, s: State, ev: Event)
    requires !Writes(s, ev)
    ensures PartOf(s.db.hot, Apply(cfg, s, ev).db.hot)
    ensures var after := Apply(cfg, s, ev).db.hot.blocks;
            forall b :: b in after ==> b in s.db.hot.blocks && after[b] == s.db.hot.blocks[b]
  {
    WholePart(s.db.hot);
    WorkersMeetInHot(cfg, s, ev);
    PartBlocks(s.db.hot, Apply(cfg, s, ev).db.hot);
  }

  ghost predicate Writes(s: State, ev: Event) {
    ev.LiveCommit? && s.live.Checking? && s.live.checked >= |s.live.payload.blocks|
  }

  lemma ShrinkingKeepsClean(before: map<nat, Hash>, after: map<nat, Hash>, c: View, lo: nat, hi: nat)
    requires forall b :: b in after ==> b in before && after[b] == before[b]
    requires forall b: nat :: b in before && lo <= b < hi ==> AgreesAt(before, c, b)
    ensures forall b: nat :: b in after && lo <= b < hi ==> AgreesAt(after, c, b)
  {
    forall b: nat | b in after && lo <= b < hi ensures AgreesAt(after, c, b) {
      assert AgreesAt(before, c, b);
    }
  }

  lemma BackKeepsScan(cfg: Config, ledger: Ledger, s: State, ev: Event)
    requires ScanInv(cfg, ledger, s) && ev.IsBack()
    ensures ScanInv(cfg, ledger, Apply(cfg, s, ev))
  {
    HotOnlyShrinks(cfg, s, ev);
    ShrinkingKeepsClean(s.db.hot.blocks, Apply(cfg, s, ev).db.hot.blocks, s.liveView,
                        ValidationStart(cfg, s.liveView), CleanBelow(cfg, s));
  }

  lemma HeadKeepsScan(cfg: Config, ledger: Ledger, s: State, latest: nat)
    requires ScanInv(cfg, ledger, s) && LiveFaithful(cfg, ledger, s, LiveHead(latest))
    ensures ScanInv(cfg, ledger, Apply(cfg, s, LiveHead(latest)))
  {
  }

  /** Steps that leave the tables alone move the scan on, or end it. */
  lemma ScanStepKeepsScan(cfg: Config, ledger: Ledger, s: State, answer: Hash)
    requires ScanInv(cfg, ledger, s) && LiveFaithful(cfg, ledger, s, LiveScan(answer))
    ensures ScanInv(cfg, ledger, Apply(cfg, s, LiveScan(answer)))
  {
  }

  lemma LaterStepKeepsScan(cfg: Config, ledger: Ledger, s: State, ev: Event)
    requires cfg.Valid() && Inv(cfg, s) && ScanInv(cfg, ledger, s)
    requires LiveFaithful(cfg, ledger, s, ev) && !ev.IsBack() && !ev.LiveScan? && !ev.LiveHead?
    requires Apply(cfg, s, ev).db == s.db && !ev.LiveBegin?
    ensures ScanInv(cfg, ledger, Apply(cfg, s, ev))
  {
    match (ev, s.live) {
      case (LiveCheck, Checking(first, last, p, checked)) =>
        assert checked < |p.blocks| ==> p.blocks[checked].number >= first;
      case _ =>
    }
  }

  /** Steps that change the tables start a scan, or come after its end. */
  lemma WriteKeepsScan(cfg: Config, ledger: Ledger, s: State, ev: Event)
    requires ScanInv(cfg, ledger, s) && LiveFaithful(cfg, ledger, s, ev) && !ev.IsBack()
    requires Apply(cfg, s, ev).db != s.db || ev.LiveBegin?
    ensures ScanInv(cfg, ledger, Apply(cfg, s, ev))
  {
  }

  lemma StepKeepsScan(cfg: Config, ledger: Ledger, s: State, ev: Event)
    requires cfg.Valid() && Inv(cfg, s) && ScanInv(cfg, ledger, s)
    requires LiveFaithful(cfg, ledger, s, ev)
    ensures ScanInv(cfg, ledger, Apply(cfg, s, ev))
  {
    if ev.IsBack() {
      BackKeepsScan(cfg, ledger, s, ev);
    } else if Apply(cfg, s, ev).db != s.db || ev.LiveBegin? {
      WriteKeepsScan(cfg, ledger, s, ev);
    } else if ev.LiveHead? {
      HeadKeepsScan(cfg, ledger, s, ev.latest);
    } else if ev.LiveScan? {
      ScanStepKeepsScan(cfg, ledger, s, ev.answer);
    } else {
      LaterStepKeepsScan(cfg, ledger, s, ev);
    }
  }

  lemma {:induction false} ScanHolds(cfg: Config, ledger: Ledger, evs: seq<Event>)
    requires cfg.Valid() && LiveFaithfulRun(cfg, ledger, evs)
    ensures ScanInv(cfg, ledger, Exec(cfg, evs))
  {
    if evs != [] {
      var before := evs[..|evs| - 1];
      ScanHolds(cfg, ledger, before);
      AlwaysInv(cfg, before);
      StepKeepsScan(cfg, ledger, Exec(cfg, before), evs[|evs| - 1]);
    }
  }

  /** The blocks that the scan of this chain does not look at agree with it. */
  ghost predicate OutsideAgrees(cfg: Config, blocks: map<nat, Hash>, c: View) {
    forall b: nat :: b < ValidationStart(cfg, c) || b >= |c| ==> AgreesAt(blocks, c, b)
  }

  /** The event ends a live iteration in the ordinary way. */
  ghost predicate Finishes(cfg: Config, s: State, ev: Event) {
    !ev.LiveAbort? && !s.live.Top? && Apply(cfg, s, ev).live.Top?
  }

  /** Adding blocks of the chain changes nothing about the agreement of the others. */
  lemma AddingAgrees(before: map<nat, Hash>, after: map<nat, Hash>, c: View, first: nat, hi: nat)
    requires hi <= |c| && forall b: nat :: b in before ==> b < first
    requires forall b: nat :: b in after <==> b in before || first <= b < hi
    requires forall b: nat :: b in after ==> after[b] == if first <= b < hi then c[b] else before[b]
    ensures Agrees(after, c) <==> Agrees(before, c)
  {
    assert forall b: nat :: AgreesAt(after, c, b) <==> AgreesAt(before, c, b);
  }

  lemma InsertingAgrees(blocks: map<nat, Hash>, rows: seq<BlockRow>, c: View, first: nat)
    requires first + |rows| <= |c| && forall b: nat :: b in blocks ==> b < first
    requires forall i :: 0 <= i < |rows| ==> rows[i] == BlockRow(first + i, c[first + i])
    ensures Agrees(InsertBlocks(blocks, rows), c) <==> Agrees(blocks, c)
  {
    BlocksAfterInsert(blocks, rows, first);
    AddingAgrees(blocks, InsertBlocks(blocks, rows), c, first, first + |rows|);
  }

  lemma CommitAgrees(ledger: Ledger, cfg: Config, s: State, ev: Event)
    requires cfg.Valid() && Inv(cfg, s) && ScanInv(cfg, ledger, s) && Writes(s, ev)
    ensures Agrees(Apply(cfg, s, ev).db.hot.blocks, s.liveView) <==> Agrees(s.db.hot.blocks, s.liveView)
  {
    InsertingAgrees(s.db.hot.blocks, s.live.payload.blocks, s.liveView, s.live.first);
  }

  lemma WindowClean(cfg: Config, ledger: Ledger, s: State)
    requires ScanInv(cfg, ledger, s) && (s.live.Scanned? || s.live.Building? || s.live.Checking?)
    ensures Agrees(s.db.hot.blocks, s.liveView) <==> OutsideAgrees(cfg, s.db.hot.blocks, s.liveView)
  {
    if OutsideAgrees(cfg, s.db.hot.blocks, s.liveView) {
      forall b: nat ensures AgreesAt(s.db.hot.blocks, s.liveView, b) {
      }
    }
  }

  // ---------- what one iteration heals ----------

  /** The run is inside the live iteration that its action number `i` began. */
  ghost predicate InIteration(cfg: Config, evs: seq<Event>, i: nat) {
    && i < |evs|
    && !Exec(cfg, evs).live.Top?
    && if i == |evs| - 1 then evs[i].LiveBegin? && Exec(cfg, evs[..i]).live.Top?
       else InIteration(cfg, evs[..|evs| - 1], i)
  }

  /** The hot blocks right after the iteration began and pruned. */
  ghost function HotAtBegin(cfg: Config, evs: seq<Event>, i: nat): map<nat, Hash>
    requires i < |evs|
  {
    Exec(cfg, evs[..i + 1]).db.hot.blocks
  }

  /** This backfill action evicts the block, or rolls it back. */
  ghost predicate BackDeletes(cfg: Config, s: State, ev: Event, b: nat) {
    && BackEnabled(cfg, s.db, ev)
    && match ev
       case BackMismatch(_, n, _) => b >= n
       case BackMissing(_, n) => b >= n
       case BackConflict(_, n) => b >= n
       case BackCommit(_, _, last) => cfg.NextFinalized(s.db.checkpoint) <= b <= last
       case _ => false
  }

  /** Some backfill action since the iteration began deleted the block. */
  ghost predicate DeletedSince(cfg: Config, evs: seq<Event>, i: nat, b: nat) {
    && i + 1 < |evs|
    && (DeletedSince(cfg, evs[..|evs| - 1], i, b) || BackDeletes(cfg, Exec(cfg, evs[..|evs| - 1]), evs[|evs| - 1], b))
  }

  /** Until its last action, an iteration's hot blocks are those it began with, less what the backfill deleted. */
  lemma {:induction false} HotSinceBegin(cfg: Config, evs: seq<Event>, i: nat, b: nat)
    requires cfg.Valid() && InIteration(cfg, evs, i)
    ensures evs[i].LiveBegin? && Exec(cfg, evs).liveView == evs[i].view
    ensures var now, begun := Exec(cfg, evs).db.hot.blocks, HotAtBegin(cfg, evs, i);
            && (b in now <==> b in begun && !DeletedSince(cfg, evs, i, b))
            && (b in now ==> now[b] == begun[b])
  {
    if i == |evs| - 1 {
      assert evs[..i + 1] == evs;
    } else {
      var before, ev := evs[..|evs| - 1], evs[|evs| - 1];
      assert before[..i + 1] == evs[..i + 1];
      HotSinceBegin(cfg, before, i, b);
      BusyStep(cfg, Exec(cfg, before), ev, b);
    }
  }

  lemma BusyStep(cfg: Config, s: State, ev: Event, b: nat)
    requires !s.live.Top? && !Apply(cfg, s, ev).live.Top?
    ensures var after := Apply(cfg, s, ev);
            && after.liveView == s.liveView
            && (b in after.db.hot.blocks <==> b in s.db.hot.blocks && !BackDeletes(cfg, s, ev, b))
            && (b in after.db.hot.blocks ==> after.db.hot.blocks[b] == s.db.hot.blocks[b])
  {
  }

  /**
   * A block row that the iteration began with and that its scan does not reach, although the chain does not have it.
   */
  ghost predicate StaleOutside(cfg: Config, blocks: map<nat, Hash>, c: View, b: nat) {
    (b < ValidationStart(cfg, c) || b >= |c|) && !AgreesAt(blocks, c, b)
  }

  lemma FinishHeals(cfg: Config, ledger: Ledger, s: State, ev: Event)
    requires cfg.Valid() && Inv(cfg, s) && ScanInv(cfg, ledger, s)
    requires Finishes(cfg, s, ev) && !s.live.Condemned?
    ensures Apply(cfg, s, ev).settledView == s.liveView
    ensures Agrees(Apply(cfg, s, ev).db.hot.blocks, s.liveView) <==> OutsideAgrees(cfg, s.db.hot.blocks, s.liveView)
  {
    WindowClean(cfg, ledger, s);
    if Writes(s, ev) {
      CommitAgrees(ledger, cfg, s, ev);
    } else {
      assert Apply(cfg, s, ev).db.hot == s.db.hot;
    }
  }

  /**
   * Exactly what one iteration heals: when it ends with a commit or with nothing to do, the hot lane agrees with the
   * iteration's chain if and only if the backfill meanwhile deleted every row that was stale outside the
   * validation window when the iteration began.
   */
  lemma HotHealsExactlyItsWindow(cfg: Config, ledger: Ledger, evs: seq<Event>, i: nat, ev: Event)
    requires cfg.Valid() && LiveFaithfulRun(cfg, ledger, evs) && InIteration(cfg, evs, i)
    requires Finishes(cfg, Exec(cfg, evs), ev) && !Exec(cfg, evs).live.Condemned?
    ensures evs[i].LiveBegin? && Apply(cfg, Exec(cfg, evs), ev).settledView == evs[i].view
    ensures Agrees(Apply(cfg, Exec(cfg, evs), ev).db.hot.blocks, evs[i].view) <==>
            forall b: nat :: StaleOutside(cfg, HotAtBegin(cfg, evs, i), evs[i].view, b) ==> DeletedSince(cfg, evs, i, b)
  {
    AlwaysInv(cfg, evs);
    ScanHolds(cfg, ledger, evs);
    FinishHeals(cfg, ledger, Exec(cfg, evs), ev);
    HotSinceBegin(cfg, evs, i, 0);
    var c := evs[i].view;
    forall b: nat ensures AgreesAt(Exec(cfg, evs).db.hot.blocks, c, b) <==>
      (AgreesAt(HotAtBegin(cfg, evs, i), c, b) || DeletedSince(cfg, evs, i, b))
    {
      HotSinceBegin(cfg, evs, i, b);
    }
    OutsideInTermsOfBegin(cfg, evs, i, Exec(cfg, evs).db.hot.blocks, c);
  }

  lemma OutsideInTermsOfBegin(cfg: Config, evs: seq<Event>, i: nat, now: map<nat, Hash>, c: View)
    requires i < |evs|
    requires forall b: nat :: AgreesAt(now, c, b) <==>
               AgreesAt(HotAtBegin(cfg, evs, i), c, b) || DeletedSince(cfg, evs, i, b)
    ensures OutsideAgrees(cfg, now, c) <==>
            forall b: nat :: StaleOutside(cfg, HotAtBegin(cfg, evs, i), c, b) ==> DeletedSince(cfg, evs, i, b)
  {
    if OutsideAgrees(cfg, now, c) {
      forall b: nat | StaleOutside(cfg, HotAtBegin(cfg, evs, i), c, b) ensures DeletedSince(cfg, evs, i, b) {
        assert AgreesAt(now, c, b);
      }
    } else {
      var b: nat :| (b < ValidationStart(cfg, c) || b >= |c|) && !AgreesAt(now, c, b);
      assert StaleOutside(cfg, HotAtBegin(cfg, evs, i), c, b);
    }
  }

  /** When it ends with a rollback, only rows that were stale below the window at its beginning can remain. */
  lemma RollbackHealsExactly(cfg: Config, ledger: Ledger, evs: seq<Event>, i: nat)
    requires cfg.Valid() && LiveFaithfulRun(cfg, ledger, evs) && InIteration(cfg, evs, i)
    requires Exec(cfg, evs).live.Condemned?
    ensures evs[i].LiveBegin? && Apply(cfg, Exec(cfg, evs), LiveRollback).settledView == evs[i].view
    ensures Agrees(Apply(cfg, Exec(cfg, evs), LiveRollback).db.hot.blocks, evs[i].view) <==>
            forall b: nat :: b < ValidationStart(cfg, evs[i].view)
                             && !AgreesAt(HotAtBegin(cfg, evs, i), evs[i].view, b) ==>
              DeletedSince(cfg, evs, i, b)
  {
    ScanHolds(cfg, ledger, evs);
    HotSinceBegin(cfg, evs, i, 0);
    var s, c := Exec(cfg, evs), evs[i].view;
    var after := Apply(cfg, s, LiveRollback).db.hot.blocks;
    forall b: nat ensures AgreesAt(after, c, b) <==>
      (b < ValidationStart(cfg, c) ==> AgreesAt(HotAtBegin(cfg, evs, i), c, b) || DeletedSince(cfg, evs, i, b))
    {
      HotSinceBegin(cfg, evs, i, b);
      assert b < s.live.block && b >= ValidationStart(cfg, c) && b in s.db.hot.blocks ==>
          AgreesAt(s.db.hot.blocks, c, b);
    }
  }

  // ---------- ... without backfill actions in between ----------

  lemma {:induction false} NothingDeleted(cfg: Config, evs: seq<Event>, i: nat, b: nat)
    requires i < |evs| && forall j :: i < j < |evs| ==> !evs[j].IsBack()
    ensures !DeletedSince(cfg, evs, i, b)
  {
    if i + 1 < |evs| {
      NothingDeleted(cfg, evs[..|evs| - 1], i, b);
    }
  }

  lemma NoneStaleOutside(cfg: Config, blocks: map<nat, Hash>, c: View)
    ensures OutsideAgrees(cfg, blocks, c) <==> forall b: nat :: !StaleOutside(cfg, blocks, c, b)
  {
    if !OutsideAgrees(cfg, blocks, c) {
      var b: nat :| (b < ValidationStart(cfg, c) || b >= |c|) && !AgreesAt(blocks, c, b);
      assert StaleOutside(cfg, blocks, c, b);
    }
  }

  /** The condition read off the tables when the iteration begins. */
  lemma UndisturbedHealsExactly(cfg: Config, ledger: Ledger, evs: seq<Event>, i: nat, ev: Event)
    requires cfg.Valid() && LiveFaithfulRun(cfg, ledger, evs) && InIteration(cfg, evs, i)
    requires forall j :: i < j < |evs| ==> !evs[j].IsBack()
    requires Finishes(cfg, Exec(cfg, evs), ev) && !Exec(cfg, evs).live.Condemned?
    ensures evs[i].LiveBegin?
    ensures Agrees(Apply(cfg, Exec(cfg, evs), ev).db.hot.blocks, evs[i].view)
       <==> OutsideAgrees(cfg, HotAtBegin(cfg, evs, i), evs[i].view)
  {
    HotHealsExactlyItsWindow(cfg, ledger, evs, i, ev);
    forall b: nat ensures !DeletedSince(cfg, evs, i, b) {
      NothingDeleted(cfg, evs, i, b);
    }
    NoneStaleOutside(cfg, HotAtBegin(cfg, evs, i), evs[i].view);
  }

  /** The same when the iteration ends with a rollback: only the blocks below the window matter. */
  lemma UndisturbedRollbackHealsExactly(cfg: Config, ledger: Ledger, evs: seq<Event>, i: nat)
    requires cfg.Valid() && LiveFaithfulRun(cfg, ledger, evs) && InIteration(cfg, evs, i)
    requires forall j :: i < j < |evs| ==> !evs[j].IsBack()
    requires Exec(cfg, evs).live.Condemned?
    ensures evs[i].LiveBegin?
    ensures Agrees(Apply(cfg, Exec(cfg, evs), LiveRollback).db.hot.blocks, evs[i].view) <==>
            forall b: nat :: b < ValidationStart(cfg, evs[i].view) ==> AgreesAt(HotAtBegin(cfg, evs, i), evs[i].view, b)
  {
    RollbackHealsExactly(cfg, ledger, evs, i);
    forall b: nat ensures !DeletedSince(cfg, evs, i, b) {
      NothingDeleted(cfg, evs, i, b);
    }
  }

  // ---------- bounded reorganisations ----------

  /** The new chain is no shorter than that of the last finished iteration, and agrees with it below the window. */
  ghost predicate ShallowReorg(cfg: Config, s: State, ev: Event) {
    ev.LiveBegin? && s.live.Top? ==>
      && |ev.view| >= |s.settledView|
      && forall n: nat :: n < ValidationStart(cfg, ev.view) && n < |s.settledView| ==> ev.view[n] == s.settledView[n]
  }

  ghost predicate ShallowReorgs(cfg: Config, evs: seq<Event>) {
    evs == [] ||
    (ShallowReorgs(cfg, evs[..|evs| - 1]) && ShallowReorg(cfg, Exec(cfg, evs[..|evs| - 1]), evs[|evs| - 1]))
  }

  ghost predicate HotAgreeInv(cfg: Config, s: State) {
    && Agrees(s.db.hot.blocks, s.settledView)
    && (!s.live.Top? ==> OutsideAgrees(cfg, s.db.hot.blocks, s.liveView))
  }

  lemma SubAgrees(before: map<nat, Hash>, after: map<nat, Hash>, c: View)
    requires forall b :: b in after ==> b in before && after[b] == before[b]
    requires Agrees(before, c)
    ensures Agrees(after, c)
  {
    forall b: nat ensures AgreesAt(after, c, b) {
      assert AgreesAt(before, c, b);
    }
  }

  lemma SubOutside(cfg: Config, before: map<nat, Hash>, after: map<nat, Hash>, c: View)
    requires forall b :: b in after ==> b in before && after[b] == before[b]
    requires OutsideAgrees(cfg, before, c)
    ensures OutsideAgrees(cfg, after, c)
  {
    forall b: nat | b < ValidationStart(cfg, c) || b >= |c| ensures AgreesAt(after, c, b) {
      assert AgreesAt(before, c, b);
    }
  }

  lemma BeginAgrees(cfg: Config, ledger: Ledger, s: State, ev: Event)
    requires HotAgreeInv(cfg, s) && ev.LiveBegin? && s.live.Top?
    requires LiveFaithful(cfg, ledger, s, ev) && ShallowReorg(cfg, s, ev)
    ensures HotAgreeInv(cfg, Apply(cfg, s, ev))
  {
    var after := Apply(cfg, s, ev);
    SubAgrees(s.db.hot.blocks, after.db.hot.blocks, s.settledView);
    forall b: nat | b < ValidationStart(cfg, ev.view) || b >= |ev.view|
      ensures AgreesAt(after.db.hot.blocks, ev.view, b)
    {
      assert AgreesAt(s.db.hot.blocks, s.settledView, b);
    }
  }

  lemma RollbackAgrees(cfg: Config, ledger: Ledger, s: State)
    requires ScanInv(cfg, ledger, s) && HotAgreeInv(cfg, s) && s.live.Condemned?
    ensures Agrees(RollbackHot(s.db, s.live.block).hot.blocks, s.liveView)
  {
    var after := RollbackHot(s.db, s.live.block).hot.blocks;
    forall b: nat ensures AgreesAt(after, s.liveView, b) {
      if b < ValidationStart(cfg, s.liveView) {
        assert AgreesAt(s.db.hot.blocks, s.liveView, b);
      }
    }
  }

  lemma StepKeepsHotAgree(cfg: Config, ledger: Ledger, s: State, ev: Event)
    requires cfg.Valid() && Inv(cfg, s) && ScanInv(cfg, ledger, s) && HotAgreeInv(cfg, s)
    requires LiveFaithful(cfg, ledger, s, ev) && ShallowReorg(cfg, s, ev)
    ensures HotAgreeInv(cfg, Apply(cfg, s, ev))
  {
    var after := Apply(cfg, s, ev);
    if ev.LiveBegin? && s.live.Top? {
      BeginAgrees(cfg, ledger, s, ev);
    } else if ev.LiveRollback? && s.live.Condemned? {
      RollbackAgrees(cfg, ledger, s);
    } else if Finishes(cfg, s, ev) {
      FinishAgrees(cfg, ledger, s, ev);
    } else {
      QuietStepAgrees(cfg, s, ev);
    }
  }

  lemma FinishAgrees(cfg: Config, ledger: Ledger, s: State, ev: Event)
    requires cfg.Valid() && Inv(cfg, s) && ScanInv(cfg, ledger, s) && HotAgreeInv(cfg, s)
    requires Finishes(cfg, s, ev) && !s.live.Condemned?
    ensures HotAgreeInv(cfg, Apply(cfg, s, ev))
  {
    FinishHeals(cfg, ledger, s, ev);
  }

  lemma QuietStepAgrees(cfg: Config, s: State, ev: Event)
    requires HotAgreeInv(cfg, s)
    requires !(ev.LiveBegin? && s.live.Top?) && !Finishes(cfg, s, ev)
    ensures HotAgreeInv(cfg, Apply(cfg, s, ev))
  {
    var after := Apply(cfg, s, ev);
    HotOnlyShrinks(cfg, s, ev);
    SubAgrees(s.db.hot.blocks, after.db.hot.blocks, s.settledView);
    if !s.live.Top? {
      SubOutside(cfg, s.db.hot.blocks, after.db.hot.blocks, s.liveView);
    }
  }

  /**
   * If heads never decrease and no reorganisation reaches below the validation start, then in every state the
   * hot blocks are blocks of the chain of the last finished live iteration.
   */
  lemma {:induction false} ShallowReorgsAreHealed(cfg: Config, ledger: Ledger, evs: seq<Event>)
    requires cfg.Valid() && LiveFaithfulRun(cfg, ledger, evs) && ShallowReorgs(cfg, evs)
    ensures HotAgreeInv(cfg, Exec(cfg, evs))
    ensures forall b: nat :: b in Exec(cfg, evs).db.hot.blocks ==>
              b < |Exec(cfg, evs).settledView| && Exec(cfg, evs).db.hot.blocks[b] == Exec(cfg, evs).settledView[b]
  {
    if evs != [] {
      var before := evs[..|evs| - 1];
      ShallowReorgsAreHealed(cfg, ledger, before);
      AlwaysInv(cfg, before);
      ScanHolds(cfg, ledger, before);
      StepKeepsHotAgree(cfg, ledger, Exec(cfg, before), evs[|evs| - 1]);
    }
    forall b: nat | b in Exec(cfg, evs).db.hot.blocks
      ensures b < |Exec(cfg, evs).settledView| && Exec(cfg, evs).db.hot.blocks[b] == Exec(cfg, evs).settledView[b]
    {
      assert AgreesAt(Exec(cfg, evs).db.hot.blocks, Exec(cfg, evs).settledView, b);
    }
  }
}
