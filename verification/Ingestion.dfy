/**
 * The worker loops.  Each method runs one worker while the other worker may act at every await point: the
 * engine's script says what it does there.  Every database action is recorded, and `Valid` says that the
 * database is in the state that the protocol reaches by the recorded events, so all properties of runs
 * hold of the tables at every point.
 */
module Ingestion {
  import opened Types
  import opened Chain
  import opened Payload
  import opened Lanes
  import opened Storage
  import opened Protocol
  import opened Integrity
  import opened ColdAgreement
  import opened HotAgreement
  import opened Convergence
  import opened LiveConvergence
  import opened Rpc
  import opened Traces

  datatype BuildError = NoAnswer | Incomplete(field: MissingField)

  lemma BackKeepsLiveSide(cfg: Config, s: State, ev: Event)
    requires ev.IsBack()
    ensures var after := Apply(cfg, s, ev);
            after.live == s.live && after.liveView == s.liveView && after.settledView == s.settledView
  {
  }

  /** Whether a backfill event is faithful depends on the cold lane and its checkpoint only. */
  lemma FaithfulnessIsCold(cfg: Config, ledger: Ledger, s: State, t: State, ev: Event)
    requires ev.IsBack() && s.db.cold == t.db.cold && s.db.checkpoint == t.db.checkpoint
    ensures BackFaithful(cfg, ledger, s, ev) <==> BackFaithful(cfg, ledger, t, ev)
  {
  }

  /** The actions of one worker in a script. */
  function ActionsOf(evs: seq<Event>, back: bool): seq<Event> {
    if evs == [] then []
    else
      ActionsOf(evs[..|evs| - 1], back) + (if evs[|evs| - 1].IsBack() == back then [evs[|evs| - 1]] else [])
  }

  lemma ActionsSnoc(evs: seq<Event>, i: nat, back: bool)
    requires i < |evs|
    ensures ActionsOf(evs[..i + 1], back)
         == ActionsOf(evs[..i], back) + if evs[i].IsBack() == back then [evs[i]] else []
  {
    assert evs[..i + 1][..i] == evs[..i];
  }

  /** No row of the batch meets a block that is stored with another hash. */
  ghost predicate NoClash(blocks: map<nat, Hash>, rows: seq<BlockRow>) {
    forall row :: row in rows && row.number in blocks ==> blocks[row.number] == row.hash
  }

  lemma NoClashSnoc(blocks: map<nat, Hash>, rows: seq<BlockRow>, i: nat)
    requires i < |rows|
    ensures NoClash(blocks, rows[..i + 1])
       <==> NoClash(blocks, rows[..i]) && (rows[i].number in blocks ==> blocks[rows[i].number] == rows[i].hash)
  {
    assert rows[..i + 1] == rows[..i] + [rows[i]];
    assert forall row :: row in rows[..i + 1] <==> row in rows[..i] || row == rows[i];
  }

  /** A stored hot block in a range that is about to be committed: the reason for a validation rollback. */
  ghost predicate HotClash(s: State) {
    s.live.Checking? && exists b: nat :: b in s.db.hot.blocks && b >= s.live.first
  }

  ghost predicate HotClashOccurs(cfg: Config) {
    exists t: Trace :: IsTrace(cfg, t) && HotClash(Last(t))
  }

  /** No recorded run gets there. */
  lemma NoHotClash(cfg: Config)
    requires cfg.Valid()
    ensures !HotClashOccurs(cfg)
  {
    forall t: Trace | IsTrace(cfg, t) ensures !HotClash(Last(t)) {
      TraceIsRun(cfg, _ => Header(Hash(0), 0, []), t);
      AlwaysInv(cfg, t.events);
    }
  }

  class Engine {
    const cfg: Config
    const ledger: Ledger
    const db: Database
    const rpc: Provider
    const script: nat -> seq<Event>  // what the other worker does at each await point
    var turn: nat
    var live: LivePc
    ghost var trace: Trace

    constructor (cfg: Config, ledger: Ledger, rpc: Provider, script: nat -> seq<Event>)
      requires cfg.Valid()
      ensures Valid() && fresh(db) && trace == Start(cfg)
      ensures this.cfg == cfg && this.ledger == ledger && this.rpc == rpc && this.script == script
    {
      this.cfg, this.ledger, this.rpc, this.script := cfg, ledger, rpc, script;
      db := new Database();
      turn, live := 0, Top;
      trace := Start(cfg);
    }

    /** The protocol state that the recorded events lead to. */
    ghost function Now(): State
      reads this
      requires trace.states != []
    {
      Last(trace)
    }

    ghost predicate Valid()
      reads this, db
    {
      && cfg.Valid()
      && db.Valid()
      && IsTrace(cfg, trace)
      && db.Snapshot() == Now().db
      && live == Now().live
    }

    /** Has every backfill iteration so far seen one chain? */
    ghost predicate BackClean()
      reads this
    {
      BackFaithfulTrace(cfg, ledger, trace)
    }

    /** Has every live iteration so far seen one chain? */
    ghost predicate LiveClean()
      reads this
    {
      LiveFaithfulTrace(cfg, ledger, trace)
    }

    ghost method Note(ev: Event)
      requires cfg.Valid() && db.Valid() && IsTrace(cfg, trace)
      requires db.Snapshot() == Apply(cfg, Now(), ev).db && live == Apply(cfg, Now(), ev).live
      modifies this`trace
      ensures Valid()
      ensures trace == Extend(old(trace), ev, Apply(cfg, old(Now()), ev)) && Now() == Apply(cfg, old(Now()), ev)
      ensures BackClean() <==> old(BackClean()) && BackFaithful(cfg, ledger, old(Now()), ev)
      ensures LiveClean() <==> old(LiveClean()) && LiveFaithful(cfg, ledger, old(Now()), ev)
    {
      ExtendIsTrace(cfg, trace, ev);
      ExtendIsFaithful(cfg, ledger, trace, ev, Apply(cfg, Now(), ev));
      trace := Extend(trace, ev, Apply(cfg, Now(), ev));
    }

    // ---------- the other worker ----------

    method PerformBack(ev: Event)
      requires Valid() && ev.IsBack()
      modifies this, db
      ensures Valid() && turn == old(turn)
      ensures trace.events == old(trace).events + [ev] && Now() == Apply(cfg, old(Now()), ev)
      ensures LiveClean() <==> old(LiveClean())
    {
      if BackEnabled(cfg, db.Snapshot(), ev) {
        match ev {
          case BackCommit(_, p, last) =>
            var _ := db.CommitFinalizedRange(p, cfg.NextFinalized(db.checkpoint), last);
          case BackMismatch(_, n, _) => db.RollbackFromBlock(n);
          case BackMissing(_, n) => db.RollbackFromBlock(n);
          case BackConflict(_, n) => db.RollbackFromBlock(n);
          case BackIdle(_) =>
        }
      }
      Note(ev);
    }

    /** What a live event does to the tables and to the live worker's position. */
    method ActLive(ev: Event)
      requires Valid() && !ev.IsBack()
      modifies this`live, db
      ensures db.Valid() && trace == old(trace)
      ensures db.Snapshot() == Apply(cfg, old(Now()), ev).db && live == Apply(cfg, old(Now()), ev).live
    {
      match (ev, live) {
        case (LiveBegin(_, latest), Top) =>
          db.PruneHotBeforeBlock(cfg.LiveStart(cfg.start, latest));
          live := Pruned(cfg.LiveStart(cfg.start, latest), latest);
        case (LiveHead(latest), Pruned(liveStart, was)) =>
          live := Scanning(liveStart, was, cfg.HotWindow(liveStart, latest), latest);
        case (LiveScan(answer), Scanning(liveStart, latest, at, until)) =>
          if at > until {
            live := Scanned(liveStart, latest);
          } else if at in db.hot.blocks && db.hot.blocks[at] != answer {
            live := Condemned(at);
          } else {
            live := Scanning(liveStart, latest, at + 1, until);
          }
        case (LiveRollback, Condemned(n)) =>
          db.RollbackHotFromBlock(n);
          live := Top;
        case (LiveReadCheckpoint, Scanned(liveStart, latest)) =>
          var first := Max(db.liveCheckpoint + 1, liveStart);
          live := if first <= latest then Building(first, Min(first + BLOCK_BATCH_SIZE - 1, latest)) else Top;
        case (LiveBuild(p), Building(first, last)) =>
          live := if ValidPayload(p, first, last) then Checking(first, last, p, 0) else live;
        case (LiveCheck, Checking(first, last, p, checked)) =>
          if checked < |p.blocks| {
            var row := p.blocks[checked];
            live := if row.number in db.hot.blocks && db.hot.blocks[row.number] != row.hash then Condemned(row.number)
                    else Checking(first, last, p, checked + 1);
          }
        case (LiveCommit, Checking(first, last, p, checked)) =>
          if checked >= |p.blocks| {
            var _ := db.CommitHotRange(p, last);
            live := Top;
          }
        case (LiveAbort, _) => live := Top;
        case _ =>
      }
    }

    method PerformLive(ev: Event)
      requires Valid() && !ev.IsBack()
      modifies this, db
      ensures Valid() && turn == old(turn)
      ensures trace.events == old(trace).events + [ev] && Now() == Apply(cfg, old(Now()), ev)
      ensures BackClean() <==> old(BackClean())
    {
      ActLive(ev);
      Note(ev);
    }

    /** The script leaves the backfill worker idle. */
    ghost predicate BackfillIdle() {
      forall t: nat, ev :: ev in script(t) ==> !ev.IsBack()
    }

    /** The script has the backfill worker finalize ranges or rest, but never roll back. */
    ghost predicate BackfillPromotes() {
      forall t: nat, ev :: ev in script(t) && ev.IsBack() ==> ev.BackCommit? || ev.BackIdle?
    }

    /** The script leaves the live worker idle. */
    ghost predicate LiveIdle() {
      forall t: nat, ev :: ev in script(t) ==> ev.IsBack()
    }

    /** The cold lane and its checkpoint stay, and everything else does if the live worker is idle. */
    ghost predicate OnlyLiveActed(before: Db, after: Db) {
      SameCold(before, after) && (LiveIdle() ==> after == before)
    }

    /** Performs the action if it is one of the backfill worker. */
    method BackfillActs(ev: Event)
      requires Valid()
      modifies this, db
      ensures Valid() && turn == old(turn) && live == old(live)
      ensures trace.events == old(trace).events + if ev.IsBack() then [ev] else []
      ensures Now().liveView == old(Now().liveView) && Now().settledView == old(Now().settledView)
      ensures LiveClean() <==> old(LiveClean())
      ensures !ev.IsBack() ==> db.Snapshot() == old(db.Snapshot())
      ensures Thinned(old(db.hot).blocks, db.hot.blocks)
      ensures ev.BackCommit? || ev.BackIdle? ==> db.liveCheckpoint == old(db.liveCheckpoint)
    {
      if ev.IsBack() {
        BackKeepsLiveSide(cfg, Now(), ev);
        HotOnlyShrinks(cfg, Now(), ev);
        PerformBack(ev);
      }
    }

    /** The backfill worker performs the actions that the script names. */
    method YieldToBackfill()
      requires Valid()
      modifies this, db
      ensures Valid() && trace.events == old(trace).events + ActionsOf(script(old(turn)), true) && live == old(live)
      ensures Now().liveView == old(Now().liveView) && Now().settledView == old(Now().settledView)
      ensures LiveClean() <==> old(LiveClean())
      ensures BackfillIdle() ==> db.Snapshot() == old(db.Snapshot())
      ensures Thinned(old(db.hot).blocks, db.hot.blocks)
      ensures BackfillPromotes() ==> db.liveCheckpoint == old(db.liveCheckpoint)
    {
      var evs := script(turn);
      turn := turn + 1;
      for i := 0 to |evs|
        invariant Valid() && trace.events == old(trace).events + ActionsOf(evs[..i], true) && live == old(live)
        invariant Now().liveView == old(Now().liveView) && Now().settledView == old(Now().settledView)
        invariant LiveClean() <==> old(LiveClean())
        invariant BackfillIdle() ==> db.Snapshot() == old(db.Snapshot())
        invariant Thinned(old(db.hot).blocks, db.hot.blocks)
        invariant BackfillPromotes() ==> db.liveCheckpoint == old(db.liveCheckpoint)
      {
        ActionsSnoc(evs, i, true);
        BackfillActs(evs[i]);
      }
      assert evs[..|evs|] == evs;
    }

    /** Performs the action if it is one of the live worker. */
    method LiveActs(ev: Event)
      requires Valid()
      modifies this, db
      ensures Valid() && turn == old(turn)
      ensures trace.events == old(trace).events + if ev.IsBack() then [] else [ev]
      ensures db.cold == old(db.cold) && db.checkpoint == old(db.checkpoint)
      ensures BackClean() <==> old(BackClean())
      ensures ev.IsBack() ==> db.Snapshot() == old(db.Snapshot())
    {
      if !ev.IsBack() {
        WorkersMeetInHot(cfg, Now(), ev);
        PerformLive(ev);
      }
    }

    /** The live worker performs the actions that the script names. */
    method YieldToLive()
      requires Valid()
      modifies this, db
      ensures Valid() && trace.events == old(trace).events + ActionsOf(script(old(turn)), false)
      ensures db.cold == old(db.cold) && db.checkpoint == old(db.checkpoint)
      ensures BackClean() <==> old(BackClean())
      ensures LiveIdle() ==> db.Snapshot() == old(db.Snapshot())
    {
      var evs := script(turn);
      turn := turn + 1;
      for i := 0 to |evs|
        invariant Valid() && trace.events == old(trace).events + ActionsOf(evs[..i], false)
        invariant db.cold == old(db.cold) && db.checkpoint == old(db.checkpoint)
        invariant BackClean() <==> old(BackClean())
        invariant LiveIdle() ==> db.Snapshot() == old(db.Snapshot())
      {
        ActionsSnoc(evs, i, false);
        LiveActs(evs[i]);
      }
      assert evs[..|evs|] == evs;
    }

    // ---------- building a range ----------

    /** Do all provider calls since number `from` show this chain? */
    ghost predicate Shown(view: View, from: nat)
      reads rpc
    {
      rpc.Shows(ledger, view, from, rpc.calls)
    }

    /** `fetch_block_metadata_range`: one call per block, in order. */
    method FetchBlockMetadataRange(first: nat, last: nat, ghost view: View) returns (r: Option<seq<BlockMeta>>)
      requires first <= last
      modifies rpc
      ensures rpc.calls >= old(rpc.calls)
      ensures r.Some? <==> rpc.HeadersAnswered(old(rpc.calls), first, last - first + 1)
      ensures r.Some? ==> rpc.calls == old(rpc.calls) + (last - first) + 1
      ensures r.Some? ==> r.value == rpc.HeadersAt(old(rpc.calls), first, last - first + 1)
      ensures rpc.faults == old(rpc.faults) + if r.None? then 1 else 0
      ensures Shown(view, old(rpc.calls)) ==>
                && (r.Some? <==> last < |view|)
                && (r.Some? ==> r.value == RangeMetas(ledger, view, first, last + 1))
    {
      ghost var from := rpc.calls;
      var metas: seq<BlockMeta> := [];
      for n := first to last + 1
        invariant rpc.calls == from + (n - first) && rpc.faults == old(rpc.faults)
        invariant rpc.HeadersAnswered(from, first, n - first)
        invariant metas == rpc.HeadersAt(from, first, n - first)
      {
        ghost var k := rpc.calls;
        var meta := rpc.BlockMetadata(n);
        assert Shown(view, from) ==> rpc.ShowsAt(ledger, view, k);
        if meta.None? {
          assert !rpc.HeaderAnswered(from, first, n - first);
          return None;
        }
        metas := metas + [meta.value];
      }
      if Shown(view, from) {
        rpc.HeadersOfChain(ledger, view, from, first, last - first + 1);
      }
      r := Some(metas);
    }

    /** `build_range_payload`: the block answers, then the log query, then the decode loop. */
    method BuildRangePayload(first: nat, last: nat, ghost view: View)
      returns (r: Result<Payload, BuildError>, txCount: nat)
      requires first <= last
      modifies rpc
      ensures rpc.calls >= old(rpc.calls)
      ensures r.Ok? <==> rpc.CanBuild(old(rpc.calls), cfg.contract, first, last)
      ensures r.Ok? ==> rpc.Builds(old(rpc.calls), cfg.contract, first, last, r.value)
      ensures r == Err(NoAnswer)
         <==> !rpc.HeadersAnswered(old(rpc.calls), first, last - first + 1)
              || rpc.LogsAt(old(rpc.calls), cfg.contract, first, last).None?
      ensures rpc.faults == old(rpc.faults) + if r.Err? then 1 else 0
      ensures r.Ok? ==> ValidPayload(r.value, first, last)
      ensures r.Ok? ==> txCount == |set x | x in r.value.records :: x.txn|
      ensures Shown(view, old(rpc.calls)) ==>
                (r.Ok? <==> last < |view|)
                && (r.Ok? ==> r.value == RangePayload(ledger, cfg.contract, view, first, last))
    {
      ghost var from := rpc.calls;
      txCount := 0;
      var metas := FetchBlockMetadataRange(first, last, view);
      if metas.None? {
        r := Err(NoAnswer);
        return;
      }
      var answer := rpc.TransferLogs(cfg.contract, first, last);
      if answer.None? {
        assert Shown(view, from) ==> rpc.ShowsAt(ledger, view, rpc.calls - 1);
        r := Err(NoAnswer);
        return;
      }
      r, txCount := DecodeRange(metas.value, first, last, answer.value);
      rpc.AnswersDecide(from, cfg.contract, first, last);
      if Shown(view, from) {
        rpc.BuildShown(ledger, cfg.contract, view, from, first, last);
      }
    }

    /** The decode loop, with the set of transactions seen. */
    static method DecodeRange(metas: seq<BlockMeta>, first: nat, last: nat, logs: seq<RpcLog>)
      returns (r: Result<Payload, BuildError>, txCount: nat)
      requires first <= last && |metas| == last - first + 1 && Consecutive(metas, first)
      ensures r == match BuildRange(metas, logs)
                   case Ok(p) => Ok(p)
                   case Err(field) => Err(Incomplete(field))
      ensures r.Ok? ==> ValidPayload(r.value, first, last)
      ensures r.Ok? ==> txCount == |set x | x in r.value.records :: x.txn|
    {
      var meta := ByNumber(metas);
      var records: seq<Record> := [];
      var transactions: set<Hash> := {};
      txCount := 0;
      for i := 0 to |logs|
        invariant DecodeLogs(meta, logs[..i]) == Ok(records)
        invariant transactions == set x | x in records :: x.txn
      {
        DecodeLogsSnoc(meta, logs[..i], logs[i]);
        assert logs[..i + 1] == logs[..i] + [logs[i]];
        match DecodeLog(meta, logs[i]) {
          case Err(field) =>
            DecodeErrorStays(meta, logs, i + 1);
            r := Err(Incomplete(field));
            return;
          case Ok(None) =>
          case Ok(Some(record)) =>
            transactions := transactions + {record.txn};
            records := records + [record];
        }
      }
      assert logs[..|logs|] == logs;
      BuildIsValid(metas, first, last, logs);
      r := Ok(Payload(records, Rows(metas)));
      txCount := |transactions|;
    }

    static lemma {:induction false} DecodeErrorStays(meta: map<nat, BlockMeta>, logs: seq<RpcLog>, n: nat)
      requires n <= |logs| && DecodeLogs(meta, logs[..n]).Err?
      ensures DecodeLogs(meta, logs) == DecodeLogs(meta, logs[..n])
    {
      if n == |logs| {
        assert logs[..n] == logs;
      } else {
        assert logs[..|logs| - 1][..n] == logs[..n];
        DecodeErrorStays(meta, logs[..|logs| - 1], n);
      }
    }

    // ---------- the backfill worker ----------

    /** `handle_finalized_reorg`, recorded as the event that called for it. */
    method HandleFinalizedReorg(n: nat, ghost ev: Event)
      requires Valid() && ev.IsBack() && BackEnabled(cfg, db.Snapshot(), ev)
      requires ev.BackMismatch? || ev.BackMissing? || ev.BackConflict?
      requires ev.block == n
      modifies this, db
      ensures Valid() && old(trace).events <= trace.events
      ensures db.cold == old(db.cold).DropFrom(n) && db.checkpoint == SatSub(n, 1)
      ensures BackClean() <==> old(BackClean()) && BackFaithful(cfg, ledger, old(Now()), ev)
    {
      YieldToLive();
      FaithfulnessIsCold(cfg, ledger, old(Now()), Now(), ev);
      db.RollbackFromBlock(n);
      Note(ev);
    }

    /** The last step of `process_finalized_range`. */
    method Finalize(p: Payload, first: nat, last: nat, ghost view: View)
      requires Valid() && first == cfg.NextFinalized(db.checkpoint) && CanCommit(cfg, db.Snapshot(), p, last)
      modifies this, db
      ensures Valid() && trace.events == old(trace).events + [BackCommit(view, p, last)]
      ensures db.cold == old(db.cold).Insert(p) && db.checkpoint == last
      ensures BackClean()
         <==> old(BackClean()) && BackFaithful(cfg, ledger, old(Now()), BackCommit(view, p, last))
    {
      var _ := db.CommitFinalizedRange(p, first, last);
      Note(BackCommit(view, p, last));
    }

    /** One step of the revalidation loop: compare the stored hash of a block with the chain's. */
    method RevalidateFinalized(b: nat, ghost view: View) returns (r: Option<bool>)
      requires Valid() && InWindow(cfg, db.Snapshot(), b)
      modifies this, db, rpc
      ensures Valid() && old(trace).events <= trace.events && rpc.calls == old(rpc.calls) + 1
      ensures r != Some(true) ==> db.cold == old(db.cold) && db.checkpoint == old(db.checkpoint)
      ensures r == Some(true) ==> db.cold == old(db.cold).DropFrom(b) && db.checkpoint == SatSub(b, 1)
      ensures rpc.ShowsAt(ledger, view, old(rpc.calls)) ==>
                r == Revalidated(old(db.Snapshot()), view, b)
      ensures r != Some(true) ==> (BackClean() <==> old(BackClean()))
      ensures r == None <==> rpc.headers(old(rpc.calls), b).None?
      ensures r.Some? ==>
                r.value == !(b in old(db.cold).blocks
                             && old(db.cold).blocks[b] == rpc.headers(old(rpc.calls), b).value.0)
      ensures rpc.faults == old(rpc.faults) + if r == None then 1 else 0
      ensures LiveIdle() && r != Some(true) ==> db.Snapshot() == old(db.Snapshot())
      ensures rpc.ShowsAt(ledger, view, old(rpc.calls)) && ValidChain(ledger, view)
              && ScannedTo(cfg, old(db.Snapshot()), view, b) && old(BackClean()) ==>
                BackClean()
    {
      var chainBlock := rpc.BlockMetadata(b);
      if chainBlock.None? {
        r := None;
      } else {
        YieldToLive();
        r := CompareFinalized(b, chainBlock.value.hash, view);
      }
    }

    /** Compares the stored hash with the answer, and rolls back if there is none or another one. */
    method CompareFinalized(b: nat, answer: Hash, ghost view: View) returns (r: Option<bool>)
      requires Valid() && InWindow(cfg, db.Snapshot(), b)
      modifies this, db
      ensures Valid() && old(trace).events <= trace.events
      ensures r == Some(!(b in old(db.cold).blocks && old(db.cold).blocks[b] == answer))
      ensures r == Some(false) ==> db.Snapshot() == old(db.Snapshot()) && (BackClean() <==> old(BackClean()))
      ensures r == Some(true) ==> db.cold == old(db.cold).DropFrom(b) && db.checkpoint == SatSub(b, 1)
      ensures r == Some(true) && ValidChain(ledger, view) && b < |view| && answer == view[b]
              && ScannedTo(cfg, old(db.Snapshot()), view, b) && old(BackClean()) ==>
                BackClean()
    {
      var stored := db.GetBlockHash(b);
      r := Some(stored != Some(answer));
      if stored.None? {
        HandleFinalizedReorg(b, BackMissing(view, b));
      } else if stored.value != answer {
        HandleFinalizedReorg(b, BackMismatch(view, b, answer));
      }
    }

    /** The same step, as part of the scan that began in the state `before`. */
    method RevalidateNext(b: nat, ghost before: Db, ghost view: View) returns (r: Option<bool>)
      requires Valid() && SameCold(before, db.Snapshot()) && InWindow(cfg, before, b)
      modifies this, db, rpc
      ensures Valid() && old(trace).events <= trace.events && rpc.calls == old(rpc.calls) + 1
      ensures r != Some(true) ==> OnlyLiveActed(old(db.Snapshot()), db.Snapshot())
      ensures r == Some(false) ==> (BackClean() <==> old(BackClean()))
      ensures rpc.faults == old(rpc.faults) + if r == None then 1 else 0
      ensures Shown(view, old(rpc.calls)) && ScannedTo(cfg, before, view, b) ==>
                && ScanIsAt(cfg, before, db.Snapshot(), view, if r == Some(false) then b + 1 else b, r)
                && (ValidChain(ledger, view) && old(BackClean()) ==> BackClean())
    {
      ghost var k := rpc.calls;
      SameScan(cfg, before, db.Snapshot(), view, b);
      r := RevalidateFinalized(b, view);
      assert Shown(view, k) ==> rpc.ShowsAt(ledger, view, k);
      if ScannedTo(cfg, before, view, b) {
        if Revalidated(before, view, b) == Some(false) {
          ScanGoesOn(cfg, before, view, b);
        } else if r == Revalidated(before, view, b) {
          ScanStops(cfg, before, db.Snapshot(), view, b);
        }
      }
    }

    /** `reconcile_finalized_history`: `Some(true)` after a rollback, `None` when the provider fails. */
    method ReconcileFinalizedHistory(checkpoint: nat, ghost view: View) returns (r: Option<bool>)
      requires Valid() && checkpoint == db.checkpoint && checkpoint >= cfg.start
      modifies this, db, rpc
      ensures Valid() && old(trace).events <= trace.events && rpc.calls >= old(rpc.calls)
      ensures r != Some(true) ==> OnlyLiveActed(old(db.Snapshot()), db.Snapshot())
      ensures rpc.faults == old(rpc.faults) + if r == None then 1 else 0
      ensures Shown(view, old(rpc.calls)) ==> Reconciled(cfg, old(db.Snapshot()), db.Snapshot(), view, r)
      ensures Shown(view, old(rpc.calls)) && ValidChain(ledger, view) && old(BackClean()) ==> BackClean()
    {
      ghost var k, before := rpc.calls, db.Snapshot();
      var b := cfg.FinalizedWindow(checkpoint);
      r := Some(false);
      while b <= checkpoint && r == Some(false)
        invariant Valid() && old(trace).events <= trace.events && rpc.calls >= old(rpc.calls)
        invariant cfg.FinalizedWindow(checkpoint) <= b
        invariant r != Some(true) ==> OnlyLiveActed(before, db.Snapshot())
        invariant rpc.faults == old(rpc.faults) + if r == None then 1 else 0
        invariant Shown(view, k) ==> ScanIsAt(cfg, before, db.Snapshot(), view, b, r)
        invariant Shown(view, k) && ValidChain(ledger, view) && old(BackClean()) ==> BackClean()
        decreases r == Some(false), SatSub(checkpoint + 1, b)
      {
        r := RevalidateNext(b, before, view);
        if r == Some(false) {
          b := b + 1;
        }
      }
      if Shown(view, k) {
        ScanEnds(cfg, before, db.Snapshot(), view, b, r);
      }
    }

    /** `process_finalized_range`: build, check against stored rows, commit. */
    method ProcessFinalizedRange(first: nat, last: nat, ghost view: View)
      returns (status: Status, ghost built: Payload)
      requires Valid()
      requires first == cfg.NextFinalized(db.checkpoint) && first <= last <= first + BLOCK_BATCH_SIZE - 1
      modifies this, db, rpc
      ensures Valid() && old(trace).events <= trace.events && rpc.calls >= old(rpc.calls)
      ensures status == Aborted || status == Indexed || status == Conflict
      ensures status == Aborted <==> !rpc.CanBuild(old(rpc.calls), cfg.contract, first, last)
      ensures status == Aborted ==> db.Snapshot() == old(db.Snapshot())
      ensures status == Indexed ==>
                rpc.Builds(old(rpc.calls), cfg.contract, first, last, built) && db.cold == old(db.cold).Insert(built)
      ensures rpc.faults == old(rpc.faults) + if status == Aborted then 1 else 0
      ensures status == Conflict ==> exists n: nat :: n > old(db.checkpoint) && n in old(db.cold).blocks
      ensures status == Indexed ==> db.checkpoint == last
      ensures Shown(view, old(rpc.calls)) ==>
                && (status == Aborted <==> last >= |view|)
                && (status == Indexed ==>
                      db.cold == old(db.cold).Insert(RangePayload(ledger, cfg.contract, view, first, last)))
      ensures Shown(view, old(rpc.calls)) && ValidChain(ledger, view) && old(BackClean())
              && WindowAgrees(cfg, old(db.Snapshot()), view) && last == BatchEnd(cfg, old(db.Snapshot()), view) ==>
                BackClean()
    {
      var build, _ := BuildRangePayload(first, last, view);
      if build.Err? {
        return Aborted, Payload([], []);
      }
      built := build.value;
      status := CommitFinalizedPayload(build.value, first, last, view);
      if last < |view| && WindowAgrees(cfg, old(db.Snapshot()), view) && ValidChain(ledger, view)
         && last == BatchEnd(cfg, old(db.Snapshot()), view) {
        CommitIsEvent(cfg, ledger, old(Now()), view, first, last);
      }
    }

    /** The second half of `process_finalized_range`: validate, then commit or roll back. */
    method CommitFinalizedPayload(p: Payload, first: nat, last: nat, ghost view: View) returns (status: Status)
      requires Valid() && first == cfg.NextFinalized(db.checkpoint) && CanCommit(cfg, db.Snapshot(), p, last)
      modifies this, db
      ensures Valid() && old(trace).events <= trace.events
      ensures status == Indexed || status == Conflict
      ensures status == Conflict ==> exists n: nat :: n > old(db.checkpoint) && n in old(db.cold).blocks
      ensures status == Indexed ==> db.cold == old(db.cold).Insert(p) && db.checkpoint == last
      ensures old(BackClean()) && BackFaithful(cfg, ledger, old(Now()), BackCommit(view, p, last)) ==>
                BackClean()
    {
      var conflict := ValidateFinalized(p, first, last);
      if conflict.Some? {
        HandleFinalizedReorg(conflict.value, BackConflict(view, conflict.value));
        return Conflict;
      }
      FaithfulnessIsCold(cfg, ledger, old(Now()), Now(), BackCommit(view, p, last));
      Finalize(p, first, last, view);
      status := Indexed;
    }

    /** The validation reads before a finalized commit: the first block stored with another hash. */
    method ValidateFinalized(p: Payload, first: nat, last: nat) returns (conflict: Option<nat>)
      requires Valid() && ValidPayload(p, first, last)
      modifies this, db
      ensures Valid() && old(trace).events <= trace.events
      ensures db.cold == old(db.cold) && db.checkpoint == old(db.checkpoint)
      ensures BackClean() <==> old(BackClean())
      ensures conflict.Some? ==> first <= conflict.value <= last && conflict.value in db.cold.blocks
                                 && db.cold.blocks[conflict.value] != p.blocks[conflict.value - first].hash
      ensures conflict.None? ==> NoClash(db.cold.blocks, p.blocks)
    {
      for i := 0 to |p.blocks|
        invariant Valid() && old(trace).events <= trace.events
        invariant db.cold == old(db.cold) && db.checkpoint == old(db.checkpoint)
        invariant BackClean() <==> old(BackClean())
        invariant NoClash(db.cold.blocks, p.blocks[..i])
      {
        YieldToLive();
        var stored := db.GetBlockHash(p.blocks[i].number);
        NoClashSnoc(db.cold.blocks, p.blocks, i);
        if stored.Some? && stored.value != p.blocks[i].hash {
          return Some(p.blocks[i].number);
        }
      }
      assert p.blocks[..|p.blocks|] == p.blocks;
      YieldToLive();
      conflict := None;
    }

    /** The second half of the backfill loop body: finalize the next range, or rest. */
    method FinalizeNext(safeHead: nat, ghost view: View) returns (status: Status)
      requires Valid()
      modifies this, db, rpc
      ensures Valid() && old(trace).events <= trace.events && rpc.calls >= old(rpc.calls)
      ensures status == Aborted || status == Indexed || status == Resting
      ensures status != Indexed ==> db.Snapshot() == old(db.Snapshot())
      ensures rpc.faults == old(rpc.faults) + if status == Aborted then 1 else 0
      ensures Shown(view, old(rpc.calls)) && ValidChain(ledger, view) && safeHead == cfg.SafeHead(Head(view))
              && WindowAgrees(cfg, old(db.Snapshot()), view) ==>
                && (old(BackClean()) ==> BackClean())
                && Advanced(cfg, ledger, old(db.Snapshot()), db.Snapshot(), view, status)
    {
      var next := cfg.NextFinalized(db.checkpoint);
      if next <= safeHead {
        var last := Min(next + BLOCK_BATCH_SIZE - 1, safeHead);
        ghost var before := trace;
        ghost var built;
        status, built := ProcessFinalizedRange(next, last, view);
        if status == Conflict {
          TraceIsRun(cfg, ledger, before);
          ColdLaneIsContiguous(cfg, before.events);
          assert false;
        }
      } else {
        Note(BackIdle(view));
        status := Resting;
      }
    }

    /** The guarded revalidation at the top of the loop body. */
    method Reconcile(ghost view: View) returns (r: Option<bool>)
      requires Valid()
      modifies this, db, rpc
      ensures Valid() && old(trace).events <= trace.events && rpc.calls >= old(rpc.calls)
      ensures r != Some(true) ==> db.cold == old(db.cold) && db.checkpoint == old(db.checkpoint)
      ensures rpc.faults == old(rpc.faults) + if r == None then 1 else 0
      ensures LiveIdle() && r != Some(true) ==> db.Snapshot() == old(db.Snapshot())
      ensures Shown(view, old(rpc.calls)) ==> Reconciled(cfg, old(db.Snapshot()), db.Snapshot(), view, r)
      ensures Shown(view, old(rpc.calls)) && ValidChain(ledger, view) && old(BackClean()) ==>
                BackClean()
    {
      var checkpoint := db.checkpoint;
      if checkpoint >= cfg.start {
        r := ReconcileFinalizedHistory(checkpoint, view);
      } else {
        r := Some(false);
      }
    }

    /** The loop body of `run_backfill` once the head is known. */
    method BackfillFrom(safeHead: nat, ghost view: View) returns (status: Status)
      requires Valid()
      modifies this, db, rpc
      ensures Valid() && old(trace).events <= trace.events && rpc.calls >= old(rpc.calls)
      ensures status == Aborted || status == Resting ==> SameCold(old(db.Snapshot()), db.Snapshot())
      ensures rpc.faults == old(rpc.faults) + if status == Aborted then 1 else 0
      ensures LiveIdle() && (status == Aborted || status == Resting) ==> db.Snapshot() == old(db.Snapshot())
      ensures Shown(view, old(rpc.calls)) && ValidChain(ledger, view) && safeHead == cfg.SafeHead(Head(view)) ==>
                && (old(BackClean()) ==> BackClean())
                && Iterated(cfg, ledger, old(db.Snapshot()), db.Snapshot(), view, status)
    {
      ghost var before := db.Snapshot();
      var reconciled := Reconcile(view);
      ghost var mid := db.Snapshot();
      if reconciled == Some(false) {
        CheckFinds(cfg, before, view);
        status := FinalizeNext(safeHead, view);
        if Reconciled(cfg, before, mid, view, reconciled) && Advanced(cfg, ledger, mid, db.Snapshot(), view, status) {
          FullIteration(cfg, ledger, before, mid, db.Snapshot(), view, status);
        }
      } else {
        status := if reconciled.None? then Aborted else Repaired;
        if Reconciled(cfg, before, mid, view, reconciled) {
          StoppedIteration(cfg, ledger, before, mid, view, reconciled);
        }
      }
    }

    /** One iteration of `run_backfill`. */
    method BackfillIteration(ghost view: View) returns (status: Status)
      requires Valid()
      modifies this, db, rpc
      ensures Valid() && old(trace).events <= trace.events && rpc.calls >= old(rpc.calls)
      ensures status == Aborted || status == Resting ==> SameCold(old(db.Snapshot()), db.Snapshot())
      ensures rpc.faults == old(rpc.faults) + if status == Aborted then 1 else 0
      ensures LiveIdle() && (status == Aborted || status == Resting) ==> db.Snapshot() == old(db.Snapshot())
      ensures Shown(view, old(rpc.calls)) && ValidChain(ledger, view) ==>
                && (old(BackClean()) ==> BackClean())
                && Iterated(cfg, ledger, old(db.Snapshot()), db.Snapshot(), view, status)
    {
      ghost var k := rpc.calls;
      ghost var before := db.Snapshot();
      var latest := rpc.LatestBlockNumber();
      assert Shown(view, k) ==> rpc.ShowsAt(ledger, view, k);
      if latest.None? {
        return Aborted;
      }
      YieldToLive();
      ghost var mid := db.Snapshot();
      status := BackfillFrom(cfg.SafeHead(latest.value), view);
      IteratedFromCold(cfg, ledger, before, mid, db.Snapshot(), view, status);
    }

    /**
     * `run_backfill` on a chain that no longer changes, from any reachable state, with the live worker running
     * alongside.  If the first iteration fails, the loop ends there with the cold lane as it was; otherwise it comes to
     * rest after exactly the predicted numbers of rollbacks and commits.
     */
    method RunBackfill(ghost view: View) returns (status: Status, rollbacks: nat, commits: nat)
      requires Valid() && ValidChain(ledger, view) && BackClean()
      requires forall k: nat :: k >= rpc.calls ==> rpc.ShowsAt(ledger, view, k)
      modifies this, db, rpc
      ensures Valid() && old(trace).events <= trace.events && BackClean()
      ensures status == if BackfillStep(cfg, ledger, old(db.Snapshot()), view).Failed? then Aborted else Resting
      ensures status == Aborted ==> SameCold(old(db.Snapshot()), db.Snapshot()) && rollbacks == 0 && commits == 0
      ensures status == Resting ==> SettledAs(cfg, ledger, old(db.Snapshot()), db.Snapshot(), view, rollbacks, commits)
    {
      ghost var start := db.Snapshot();
      SoundNow();
      status, rollbacks, commits := Indexed, 0, 0;
      while status != Resting && status != Aborted
        invariant Valid() && old(trace).events <= trace.events && BackClean() && rpc.calls >= old(rpc.calls)
        invariant UnderWay(cfg, ledger, start, db.Snapshot(), view, rollbacks, commits)
        invariant status == Aborted ==> BackfillStep(cfg, ledger, start, view).Failed?
        invariant status == Resting ==> !BackfillStep(cfg, ledger, start, view).Failed?
                                        && BackfillStep(cfg, ledger, db.Snapshot(), view) == CaughtUp
        decreases status != Resting && status != Aborted, Stale(cfg, db.Snapshot(), view),
                  Missing(cfg, db.Snapshot(), view)
      {
        ghost var before := Now();
        SoundNow();
        status := BackfillIteration(view);
        IterationGoesOn(cfg, ledger, start, before, view, db.Snapshot(), status, rollbacks, commits);
        rollbacks := if status == Repaired then rollbacks + 1 else rollbacks;
        commits := if status == Indexed then commits + 1 else commits;
      }
      if status == Resting {
        SoundNow();
        RestOnCourse(cfg, ledger, start, Now(), view, rollbacks, commits);
      }
    }

    lemma SoundNow()
      requires Valid() && BackClean()
      ensures Inv(cfg, Now()) && Sound(cfg, ledger, db.Snapshot())
    {
      TraceIsRun(cfg, ledger, trace);
      AlwaysInv(cfg, trace.events);
      ColdLaneIsLinkedAndComplete(cfg, ledger, trace.events);
    }

    // ---------- the live worker ----------

    /** An error of the provider ends the iteration and leaves the tables alone. */
    method AbortLive()
      requires Valid()
      modifies this
      ensures Valid() && trace.events == old(trace).events + [LiveAbort] && live == Top
      ensures LiveClean() <==> old(LiveClean())
      ensures db.Snapshot() == old(db.Snapshot())
    {
      live := Top;
      Note(LiveAbort);
    }

    /** `handle_hot_reorg`. */
    method HandleHotReorg(n: nat)
      requires Valid() && live == Condemned(n)
      modifies this, db
      ensures Valid() && old(trace).events <= trace.events && live == Top
      ensures Now().settledView == old(Now().liveView)
      ensures LiveClean() <==> old(LiveClean())
      ensures db.Snapshot() == RollbackHot(old(db.Snapshot()), n)
    {
      db.RollbackHotFromBlock(n);
      live := Top;
      Note(LiveRollback);
    }

    /** Records what the scan of a block found, and moves on. */
    method Scan(next: LivePc, ghost answer: Hash)
      requires Valid() && live.Scanning? && next == Apply(cfg, Now(), LiveScan(answer)).live
      modifies this, db
      ensures Valid() && old(trace).events <= trace.events && live == next
      ensures Now().liveView == old(Now().liveView)
      ensures old(LiveClean()) && LiveFaithful(cfg, ledger, old(Now()), LiveScan(answer)) ==> LiveClean()
      ensures BackfillIdle() ==> db.Snapshot() == old(db.Snapshot())
      ensures Thinned(old(db.hot).blocks, db.hot.blocks)
      ensures BackfillPromotes() ==> db.liveCheckpoint == old(db.liveCheckpoint)
    {
      live := next;
      Note(LiveScan(answer));
      YieldToBackfill();
    }

    /** What the scan expects of the current block. */
    ghost function Expected(): Hash
      reads this
      requires trace.states != [] && Now().live.Scanning?
    {
      if Now().live.at < |Now().liveView| then Now().liveView[Now().live.at] else Hash(0)
    }

    /**
     * One step of the revalidation loop: a block that is stored is compared with the chain's.  The provider's answer
     * does not depend on the tables, so the backfill worker's actions around the call come after it.
     */
    method RevalidateHot(b: nat, until: nat, ghost view: View) returns (r: Option<bool>)
      requires Valid() && live.Scanning? && live.at == b && live.until == until && b <= until
      modifies this, db, rpc
      ensures Valid() && old(trace).events <= trace.events && rpc.calls >= old(rpc.calls)
      ensures r == Some(false) ==> live == old(live).(at := b + 1) && Now().liveView == old(Now().liveView)
      ensures r == Some(true) ==> live == Top && Now().settledView == old(Now().liveView)
      ensures r == None ==> live == Top
      ensures r == None <==> b in old(db.hot).blocks && rpc.headers(old(rpc.calls), b).None?
      ensures r.Some? ==>
                r.value == (b in old(db.hot).blocks
                            && old(db.hot).blocks[b] != rpc.headers(old(rpc.calls), b).value.0)
      ensures rpc.faults == old(rpc.faults) + if r == None then 1 else 0
      ensures Shown(view, old(rpc.calls)) && b < |view| ==>
                r == Some(b in old(db.hot).blocks && old(db.hot).blocks[b] != view[b])
      ensures BackfillIdle() ==>
                db.Snapshot() == if r == Some(true) then RollbackHot(old(db.Snapshot()), b) else old(db.Snapshot())
      ensures Shown(view, old(rpc.calls)) && old(Now().liveView) == view && old(LiveClean()) ==> LiveClean()
      ensures Thinned(old(db.hot).blocks, db.hot.blocks)
      ensures r == Some(true) ==>
                db.liveCheckpoint == SatSub(b, 1) && forall x: nat :: x in db.hot.blocks ==> x < b
      ensures BackfillPromotes() && r == Some(false) ==> db.liveCheckpoint == old(db.liveCheckpoint)
    {
      var stored := db.GetHotBlockHash(b);
      if stored.None? {
        Scan(live.(at := b + 1), Expected());
        return Some(false);
      }
      ghost var k := rpc.calls;
      var chainBlock := rpc.BlockMetadata(b);
      assert Shown(view, k) ==> rpc.ShowsAt(ledger, view, k);
      if chainBlock.None? {
        AbortLive();
        return None;
      }
      r := JudgeHot(b, stored.value, chainBlock.value.hash);
    }

    /** Moves on if the stored hash is the chain's, and rolls back otherwise. */
    method JudgeHot(b: nat, stored: Hash, answer: Hash) returns (r: Option<bool>)
      requires Valid() && live.Scanning? && live.at == b && b <= live.until
      requires b in db.hot.blocks && db.hot.blocks[b] == stored
      modifies this, db
      ensures Valid() && old(trace).events <= trace.events && r == Some(stored != answer)
      ensures r == Some(false) ==> live == old(live).(at := b + 1) && Now().liveView == old(Now().liveView)
      ensures r == Some(true) ==> live == Top && Now().settledView == old(Now().liveView)
      ensures old(LiveClean()) && LiveFaithful(cfg, ledger, old(Now()), LiveScan(answer)) ==> LiveClean()
      ensures BackfillIdle() ==>
                db.Snapshot() == if r == Some(true) then RollbackHot(old(db.Snapshot()), b) else old(db.Snapshot())
      ensures Thinned(old(db.hot).blocks, db.hot.blocks)
      ensures r == Some(true) ==>
                db.liveCheckpoint == SatSub(b, 1) && forall x: nat :: x in db.hot.blocks ==> x < b
      ensures BackfillPromotes() && r == Some(false) ==> db.liveCheckpoint == old(db.liveCheckpoint)
    {
      if stored != answer {
        Scan(Condemned(b), answer);
        HandleHotReorg(b);
        r := Some(true);
      } else {
        Scan(live.(at := b + 1), answer);
        r := Some(false);
      }
    }

    /** The same step, as part of the scan from block `start` that began with the rows `before`. */
    method RevalidateHotNext(b: nat, until: nat, ghost start: nat, ghost before: map<nat, Hash>, ghost view: View)
      returns (r: Option<bool>)
      requires Valid() && live.Scanning? && live.at == b && live.until == until && start <= b <= until
      modifies this, db, rpc
      ensures Valid() && old(trace).events <= trace.events && rpc.calls >= old(rpc.calls)
      ensures r == Some(false) ==> live == old(live).(at := b + 1) && Now().liveView == old(Now().liveView)
      ensures r == Some(true) ==> live == Top && Now().settledView == old(Now().liveView)
      ensures r == None ==> live == Top
      ensures rpc.faults == old(rpc.faults) + if r == None then 1 else 0
      ensures Shown(view, old(rpc.calls)) && old(Now().liveView) == view && old(LiveClean()) ==> LiveClean()
      ensures Shown(view, old(rpc.calls)) && until < |view|
              && ScannedHot(before, old(db.hot).blocks, view, start, b) ==>
                && ScanStands(before, db.Snapshot(), view, start, r, if r == Some(true) then b else b + 1)
                && (r.value ==> HotScanFrom(old(db.hot).blocks, view, start) == Some(b))
      ensures BackfillIdle() ==>
                db.Snapshot() == if r == Some(true) then RollbackHot(old(db.Snapshot()), b) else old(db.Snapshot())
      ensures BackfillPromotes() && r == Some(false) ==> db.liveCheckpoint == old(db.liveCheckpoint)
    {
      ghost var k, was := rpc.calls, db.hot.blocks;
      r := RevalidateHot(b, until, view);
      if Shown(view, k) && until < |view| && ScannedHot(before, was, view, start, b) {
        if r == Some(true) {
          ScanCondemns(before, was, db.Snapshot(), view, start, b);
        } else {
          ScanOneMore(before, was, db.hot.blocks, view, start, b);
        }
      }
    }

    /** The revalidation loop, from block `start` to block `until`. */
    method RevalidateHotFrom(liveStart: nat, latest: nat, start: nat, until: nat, ghost view: View)
      returns (r: Option<bool>, ghost at: nat)
      requires Valid() && live == Scanning(liveStart, latest, start, until)
      modifies this, db, rpc
      ensures Valid() && old(trace).events <= trace.events && rpc.calls >= old(rpc.calls)
      ensures r == Some(false) ==> live == Scanned(liveStart, latest) && Now().liveView == old(Now().liveView)
      ensures r == Some(true) ==> live == Top && Now().settledView == old(Now().liveView)
      ensures r == None ==> live == Top
      ensures rpc.faults == old(rpc.faults) + if r == None then 1 else 0
      ensures Shown(view, old(rpc.calls)) && until < |view| ==> r.Some?
      ensures Shown(view, old(rpc.calls)) && old(Now().liveView) == view && old(LiveClean()) ==> LiveClean()
      ensures BackfillIdle() && Shown(view, old(rpc.calls)) && view != [] && until == Head(view) ==>
                HotReconciled(old(db.Snapshot()), db.Snapshot(), HotScanFrom(old(db.hot).blocks, view, start), r)
      ensures Shown(view, old(rpc.calls)) && view != [] && until == Head(view) ==>
                ScanLeaves(old(db.hot).blocks, db.Snapshot(), view, start, r, at)
      ensures BackfillIdle() && r != Some(true) ==> db.Snapshot() == old(db.Snapshot())
      ensures BackfillPromotes() && r == Some(false) ==> db.liveCheckpoint == old(db.liveCheckpoint)
    {
      var b: nat := start;
      ghost var k, before := rpc.calls, db.hot.blocks;
      r := Some(false);
      while b <= until && r == Some(false)
        invariant Valid() && old(trace).events <= trace.events && rpc.calls >= old(rpc.calls) && start <= b
        invariant r == Some(false) ==>
                    live == Scanning(liveStart, latest, b, until) && Now().liveView == old(Now().liveView)
        invariant r == Some(true) ==> live == Top && Now().settledView == old(Now().liveView)
        invariant r == None ==> live == Top
        invariant rpc.faults == old(rpc.faults) + if r == None then 1 else 0
        invariant Shown(view, k) && old(Now().liveView) == view && old(LiveClean()) ==> LiveClean()
        invariant Shown(view, k) && until < |view| ==> ScanStands(before, db.Snapshot(), view, start, r, b)
        invariant BackfillIdle() ==>
                    ScannedAlone(old(db.Snapshot()), db.Snapshot(), view, start, r, b, Shown(view, k) && until < |view|)
        invariant BackfillPromotes() && r == Some(false) ==> db.liveCheckpoint == old(db.liveCheckpoint)
        decreases r == Some(false), SatSub(until + 1, b)
      {
        r := RevalidateHotNext(b, until, start, before, view);
        if r == Some(false) {
          b := b + 1;
        }
      }
      at := b;
      if r == Some(false) {
        EndScan(liveStart, latest, start, b, until, before, view);
      }
    }

    /** The revalidation loop has come past block `until`. */
    method EndScan(liveStart: nat, latest: nat, ghost start: nat, b: nat, until: nat, ghost before: map<nat, Hash>,
                   ghost view: View)
      requires Valid() && live == Scanning(liveStart, latest, b, until) && b > until
      modifies this, db
      ensures Valid() && old(trace).events <= trace.events && live == Scanned(liveStart, latest)
      ensures Now().liveView == old(Now().liveView)
      ensures old(Now().liveView) == view && old(LiveClean()) ==> LiveClean()
      ensures BackfillIdle() ==> db.Snapshot() == old(db.Snapshot())
      ensures BackfillPromotes() ==> db.liveCheckpoint == old(db.liveCheckpoint)
      ensures until + 1 >= |view| && ScannedHot(before, old(db.hot).blocks, view, start, b) ==>
                && ScanLeaves(before, db.Snapshot(), view, start, Some(false), b)
                && HotScanFrom(old(db.hot).blocks, view, start) == None
    {
      ghost var was := db.hot.blocks;
      Scan(Scanned(liveStart, latest), Expected());
      if until + 1 >= |view| && ScannedHot(before, was, view, start, b) {
        ScanClears(before, was, db.Snapshot(), view, start, b);
      }
    }

    /** `reconcile_hot_history`: `Some(true)` after a rollback, `None` when the provider fails. */
    method ReconcileHotHistory(liveStart: nat, latest: nat, ghost view: View)
      returns (r: Option<bool>, ghost at: nat)
      requires Valid() && live == Pruned(liveStart, latest)
      modifies this, db, rpc
      ensures Valid() && old(trace).events <= trace.events && rpc.calls >= old(rpc.calls)
      ensures r == Some(false) ==> live == Scanned(liveStart, latest) && Now().liveView == old(Now().liveView)
      ensures r == Some(true) ==> live == Top && Now().settledView == old(Now().liveView)
      ensures r == None ==> live == Top
      ensures match rpc.heads(old(rpc.calls))
              case None => r == None && trace.events == old(trace).events + [LiveAbort]
              case Some(head) => old(trace).events + [LiveHead(head)] <= trace.events
      ensures rpc.faults == old(rpc.faults) + if r == None then 1 else 0
      ensures BackfillIdle() && r != Some(true) ==> db.Snapshot() == old(db.Snapshot())
      ensures Shown(view, old(rpc.calls)) && view != [] ==> r.Some?
      ensures Shown(view, old(rpc.calls)) && old(Now().liveView) == view && old(LiveClean()) ==> LiveClean()
      ensures BackfillIdle() && Shown(view, old(rpc.calls)) && view != [] && liveStart == LiveFloor(cfg, view) ==>
                HotReconciled(old(db.Snapshot()), db.Snapshot(), HotScan(cfg, old(db.hot).blocks, view), r)
      ensures Shown(view, old(rpc.calls)) && view != [] && liveStart == LiveFloor(cfg, view) ==>
                ScanLeaves(old(db.hot).blocks, db.Snapshot(), view, ValidationStart(cfg, view), r, at)
      ensures BackfillPromotes() && r == Some(false) ==> db.liveCheckpoint == old(db.liveCheckpoint)
    {
      ghost var k := rpc.calls;
      var head := rpc.LatestBlockNumber();
      assert Shown(view, k) ==> rpc.ShowsAt(ledger, view, k);
      if head.None? {
        AbortLive();
        return None, 0;
      }
      var start := cfg.HotWindow(liveStart, head.value);
      BeginScan(liveStart, latest, start, head.value);
      r, at := RevalidateHotFrom(liveStart, latest, start, head.value, view);
    }

    method BeginScan(liveStart: nat, latest: nat, start: nat, head: nat)
      requires Valid() && live == Pruned(liveStart, latest) && start == cfg.HotWindow(liveStart, head)
      modifies this, db
      ensures Valid() && live == Scanning(liveStart, latest, start, head)
      ensures trace.events == old(trace).events + [LiveHead(head)] + ActionsOf(script(old(turn)), true)
      ensures Now().liveView == old(Now().liveView)
      ensures LiveClean() <==> old(LiveClean()) && head == Head(old(Now()).liveView)
      ensures BackfillIdle() ==> db.Snapshot() == old(db.Snapshot())
      ensures Thinned(old(db.hot).blocks, db.hot.blocks)
      ensures BackfillPromotes() ==> db.liveCheckpoint == old(db.liveCheckpoint)
    {
      live := Scanning(liveStart, latest, start, head);
      Note(LiveHead(head));
      YieldToBackfill();
    }

    /** One validation read before a hot commit: does the stored block, if any, have the hash to be committed? */
    method CheckHot(first: nat, last: nat, p: Payload, i: nat) returns (ok: bool)
      requires Valid() && live == Checking(first, last, p, i) && i < |p.blocks| && ValidPayload(p, first, last)
      modifies this, db
      ensures Valid() && old(trace).events <= trace.events
      ensures live == if ok then Checking(first, last, p, i + 1) else Condemned(p.blocks[i].number)
      ensures !ok ==> HotClashOccurs(cfg)
      ensures Now().liveView == old(Now().liveView)
      ensures LiveClean() <==> old(LiveClean())
      ensures BackfillIdle() ==> db.Snapshot() == old(db.Snapshot())
      ensures Thinned(old(db.hot).blocks, db.hot.blocks)
      ensures BackfillPromotes() ==> db.liveCheckpoint == old(db.liveCheckpoint)
    {
      YieldToBackfill();
      var stored := db.GetHotBlockHash(p.blocks[i].number);
      ok := stored.None? || stored.value == p.blocks[i].hash;
      if !ok {
        assert p.blocks[i].number in Now().db.hot.blocks && HotClash(Last(trace));
      }
      live := if ok then Checking(first, last, p, i + 1) else Condemned(p.blocks[i].number);
      Note(LiveCheck);
    }

    /** The validation reads before a hot commit: the first block stored with another hash. */
    method ValidateHot(first: nat, last: nat, p: Payload) returns (conflict: Option<nat>)
      requires Valid() && live == Checking(first, last, p, 0) && ValidPayload(p, first, last)
      modifies this, db
      ensures Valid() && old(trace).events <= trace.events
      ensures conflict.Some? ==> live == Condemned(conflict.value) && HotClashOccurs(cfg)
      ensures conflict.None? ==> live == Checking(first, last, p, |p.blocks|)
      ensures Now().liveView == old(Now().liveView)
      ensures LiveClean() <==> old(LiveClean())
      ensures BackfillIdle() ==> db.Snapshot() == old(db.Snapshot())
      ensures Thinned(old(db.hot).blocks, db.hot.blocks)
      ensures BackfillPromotes() ==> db.liveCheckpoint == old(db.liveCheckpoint)
    {
      for i := 0 to |p.blocks|
        invariant Valid() && old(trace).events <= trace.events
        invariant live == Checking(first, last, p, i) && Now().liveView == old(Now().liveView)
        invariant BackfillIdle() ==> db.Snapshot() == old(db.Snapshot())
        invariant Thinned(old(db.hot).blocks, db.hot.blocks)
        invariant BackfillPromotes() ==> db.liveCheckpoint == old(db.liveCheckpoint)
        invariant LiveClean() <==> old(LiveClean())
      {
        var ok := CheckHot(first, last, p, i);
        if !ok {
          return Some(p.blocks[i].number);
        }
      }
      conflict := None;
    }

    /** `process_hot_range`: build, check against stored rows, commit. */
    method ProcessHotRange(first: nat, last: nat, ghost view: View) returns (status: Status, ghost built: Payload)
      requires Valid() && live == Building(first, last) && first <= last
      modifies this, db, rpc
      ensures Valid() && old(trace).events <= trace.events && rpc.calls >= old(rpc.calls) && live == Top
      ensures status == Aborted || status == Indexed
      ensures status == Aborted <==> !rpc.CanBuild(old(rpc.calls), cfg.contract, first, last)
      ensures status == Aborted ==> db.Snapshot() == old(db.Snapshot())
      ensures status == Indexed ==>
                && rpc.Builds(old(rpc.calls), cfg.contract, first, last, built)
                && GrownBy(old(db.hot).blocks, db.hot.blocks, built.blocks, first)
                && (BackfillIdle() ==> db.Snapshot() == CommitHot(old(db.Snapshot()), built, last))
      ensures rpc.faults == old(rpc.faults) + if status == Aborted then 1 else 0
      ensures status != Aborted ==> Now().settledView == old(Now().liveView)
      ensures Shown(view, old(rpc.calls)) && last < |view| ==> status != Aborted
      ensures Shown(view, old(rpc.calls)) && old(Now().liveView) == view && old(LiveClean()) ==> LiveClean()
      ensures BackfillIdle() && Shown(view, old(rpc.calls)) && last < |view| ==>
                db.Snapshot()
                == CommitHot(old(db.Snapshot()), RangePayload(ledger, cfg.contract, view, first, last), last)
      ensures Shown(view, old(rpc.calls)) && last < |view| ==>
                db.liveCheckpoint == last && Grown(old(db.hot).blocks, db.hot.blocks, view, first, last)
    {
      ghost var k := rpc.calls;
      var build, _ := BuildRangePayload(first, last, view);
      if build.Err? {
        AbortLive();
        status, built := Aborted, Payload([], []);
      } else {
        ghost var before := db.hot.blocks;
        built := build.value;
        assert Shown(view, k) && Now().liveView == view ==> LiveFaithful(cfg, ledger, Now(), LiveBuild(built));
        IndexHotPayload(build.value, first, last);
        status := Indexed;
        if Shown(view, k) {
          GrownByRange(ledger, cfg.contract, before, db.hot.blocks, view, first, last);
        }
      }
    }

    /** The rest of `process_hot_range` once the payload is built.  The validation never finds anything. */
    method IndexHotPayload(p: Payload, first: nat, last: nat)
      requires Valid() && live == Building(first, last) && ValidPayload(p, first, last)
      modifies this, db
      ensures Valid() && old(trace).events <= trace.events && live == Top
      ensures Now().settledView == old(Now().liveView)
      ensures old(LiveClean()) && LiveFaithful(cfg, ledger, old(Now()), LiveBuild(p)) ==> LiveClean()
      ensures BackfillIdle() ==> db.Snapshot() == CommitHot(old(db.Snapshot()), p, last)
      ensures db.liveCheckpoint == last && GrownBy(old(db.hot).blocks, db.hot.blocks, p.blocks, first)
    {
      BeginChecks(p, first, last);
      var status := CommitHotPayload(p, first, last);
      if status == Conflict {
        NoHotClash(cfg);
        assert false;
      }
    }

    method BeginChecks(p: Payload, first: nat, last: nat)
      requires Valid() && live == Building(first, last) && ValidPayload(p, first, last)
      modifies this
      ensures Valid() && old(trace).events <= trace.events && live == Checking(first, last, p, 0)
      ensures Now().liveView == old(Now().liveView)
      ensures old(LiveClean()) && LiveFaithful(cfg, ledger, old(Now()), LiveBuild(p)) ==> LiveClean()
      ensures db.Snapshot() == old(db.Snapshot())
    {
      live := Checking(first, last, p, 0);
      Note(LiveBuild(p));
    }

    /** The second half of `process_hot_range`: validate, then commit or roll back. */
    method CommitHotPayload(p: Payload, first: nat, last: nat) returns (status: Status)
      requires Valid() && live == Checking(first, last, p, 0) && ValidPayload(p, first, last)
      modifies this, db
      ensures Valid() && old(trace).events <= trace.events && live == Top
      ensures status == Conflict || status == Indexed
      ensures status == Conflict ==> HotClashOccurs(cfg)
      ensures Now().settledView == old(Now().liveView)
      ensures LiveClean() <==> old(LiveClean())
      ensures BackfillIdle() && status == Indexed ==> db.Snapshot() == CommitHot(old(db.Snapshot()), p, last)
      ensures status == Indexed ==>
                db.liveCheckpoint == last && GrownBy(old(db.hot).blocks, db.hot.blocks, p.blocks, first)
    {
      ghost var before := db.hot.blocks;
      var conflict := ValidateHot(first, last, p);
      YieldToBackfill();
      if conflict.Some? {
        HandleHotReorg(conflict.value);
        status := Conflict;
      } else {
        ghost var thinned := db.hot.blocks;
        ExtendHotLane(p, first, last);
        GrownFromThinned(before, thinned, db.hot.blocks, p.blocks, first);
        status := Indexed;
      }
    }

    /** The commit of `process_hot_range`. */
    method ExtendHotLane(p: Payload, first: nat, last: nat)
      requires Valid() && live == Checking(first, last, p, |p.blocks|) && ValidPayload(p, first, last)
      modifies this, db
      ensures Valid() && old(trace).events <= trace.events && live == Top
      ensures Now().settledView == old(Now().liveView)
      ensures LiveClean() <==> old(LiveClean())
      ensures db.Snapshot() == CommitHot(old(db.Snapshot()), p, last)
      ensures GrownBy(old(db.hot).blocks, db.hot.blocks, p.blocks, first)
    {
      InsertGrows(db.hot, p, first, last);
      var _ := db.CommitHotRange(p, last);
      live := Top;
      Note(LiveCommit);
    }

    /** Reads the live checkpoint: the next range, if there is one below the head. */
    method NextRange(liveStart: nat, latest: nat) returns (range: Option<(nat, nat)>)
      requires Valid() && live == Scanned(liveStart, latest)
      modifies this
      ensures Valid() && old(trace).events <= trace.events
      ensures var first := Max(db.liveCheckpoint + 1, liveStart);
              range == if first <= latest then Some((first, Min(first + BLOCK_BATCH_SIZE - 1, latest))) else None
      ensures live == if range.Some? then Building(range.value.0, range.value.1) else Top
      ensures Now().liveView == old(Now().liveView)
      ensures range.None? ==> Now().settledView == old(Now().liveView)
      ensures LiveClean() <==> old(LiveClean())
      ensures db.Snapshot() == old(db.Snapshot())
    {
      var first := Max(db.liveCheckpoint + 1, liveStart);
      var last := Min(first + BLOCK_BATCH_SIZE - 1, latest);
      range := if first <= latest then Some((first, last)) else None;
      live := if first <= latest then Building(first, last) else Top;
      Note(LiveReadCheckpoint);
    }

    /** The second half of the loop body of `run_live`: index the next range, or rest. */
    method ExtendHot(liveStart: nat, latest: nat, ghost view: View) returns (status: Status, ghost at: nat)
      requires Valid() && live == Scanned(liveStart, latest)
      modifies this, db, rpc
      ensures Valid() && old(trace).events <= trace.events && rpc.calls >= old(rpc.calls) && live == Top
      ensures status != Conflict
      ensures rpc.faults == old(rpc.faults) + if status == Aborted then 1 else 0
      ensures status == Aborted ==> db.Snapshot() == old(db.Snapshot())
      ensures status != Aborted ==> Now().settledView == old(Now().liveView)
      ensures Shown(view, old(rpc.calls)) && latest < |view| ==> status != Aborted
      ensures Shown(view, old(rpc.calls)) && old(Now().liveView) == view && old(LiveClean()) ==> LiveClean()
      ensures BackfillIdle() && Shown(view, old(rpc.calls)) && view != []
              && liveStart == LiveFloor(cfg, view) && latest == Head(view) ==>
                HotExtended(cfg, ledger, old(db.Snapshot()), db.Snapshot(), view, status)
      ensures Shown(view, old(rpc.calls)) && view != [] && liveStart == LiveFloor(cfg, view) && latest == Head(view) ==>
                && ExtendLeaves(cfg, old(db.Snapshot()), db.Snapshot(), view, status, at)
                && FollowsCheckpoint(cfg, old(db.Snapshot()), db.Snapshot(), view, status, at)
    {
      ghost var k := rpc.calls;
      ghost var before := db.Snapshot();
      var range := NextRange(liveStart, latest);
      if range.None? {
        status, at := Resting, 0;
      } else {
        var (first, last) := range.value;
        at := first;
        ghost var built;
        status, built := ProcessHotRange(first, last, view);
        ghost var after := db.Snapshot();
        if Shown(view, k) && view != [] && liveStart == LiveFloor(cfg, view) && latest == Head(view) {
          RangeEnds(cfg, ledger, before, after, view, first, last, BackfillIdle());
        }
      }
    }

    method BeginLive(liveStart: nat, latest: nat, ghost view: View)
      requires Valid() && live == Top && liveStart == cfg.LiveStart(cfg.start, latest)
      modifies this, db
      ensures Valid() && live == Pruned(liveStart, latest)
      ensures trace.events == old(trace).events + [LiveBegin(view, latest)] + ActionsOf(script(old(turn)), true)
      ensures Now().liveView == view
      ensures LiveClean() <==> old(LiveClean()) && ValidChain(ledger, view) && view != [] && latest == Head(view)
      ensures BackfillIdle() ==> db.Snapshot() == PruneHot(old(db.Snapshot()), liveStart)
      ensures Thinned(PruneHot(old(db.Snapshot()), liveStart).hot.blocks, db.hot.blocks)
      ensures BackfillPromotes() ==> db.liveCheckpoint == old(db.liveCheckpoint)
    {
      db.PruneHotBeforeBlock(liveStart);
      live := Pruned(liveStart, latest);
      Note(LiveBegin(view, latest));
      YieldToBackfill();
    }

    /** The first half of the loop body of `run_live`: prune, then revalidate. */
    method PruneAndReconcile(liveStart: nat, latest: nat, ghost view: View) returns (r: Option<bool>, ghost at: nat)
      requires Valid() && live == Top && liveStart == cfg.LiveStart(cfg.start, latest)
      modifies this, db, rpc
      ensures Valid() && old(trace).events <= trace.events && rpc.calls >= old(rpc.calls)
      ensures r == Some(false) ==> live == Scanned(liveStart, latest) && Now().liveView == view
      ensures r == Some(true) ==> live == Top && Now().settledView == view
      ensures r == None ==> live == Top
      ensures rpc.faults == old(rpc.faults) + if r == None then 1 else 0
      ensures BackfillIdle() && r != Some(true) ==> db.Snapshot() == PruneHot(old(db.Snapshot()), liveStart)
      ensures Shown(view, old(rpc.calls)) && view != [] ==> r.Some?
      ensures Shown(view, old(rpc.calls)) && ValidChain(ledger, view) && view != [] && latest == Head(view)
              && old(LiveClean()) ==>
                LiveClean()
      ensures BackfillIdle() && Shown(view, old(rpc.calls)) && view != [] && latest == Head(view) ==>
                var pruned := PruneHot(old(db.Snapshot()), liveStart);
                HotReconciled(pruned, db.Snapshot(), HotScan(cfg, pruned.hot.blocks, view), r)
      ensures Shown(view, old(rpc.calls)) && view != [] && latest == Head(view) ==>
                ScanLeaves(PruneHot(old(db.Snapshot()), liveStart).hot.blocks, db.Snapshot(), view,
                           ValidationStart(cfg, view), r, at)
      ensures BackfillPromotes() && r == Some(false) ==> db.liveCheckpoint == old(db.liveCheckpoint)
    {
      ghost var k, pruned := rpc.calls, PruneHot(db.Snapshot(), liveStart).hot.blocks;
      BeginLive(liveStart, latest, view);
      ghost var begun := db.hot.blocks;
      r, at := ReconcileHotHistory(liveStart, latest, view);
      if Shown(view, k) && view != [] && latest == Head(view) {
        ScanFromThinned(pruned, begun, db.Snapshot(), view, ValidationStart(cfg, view), r, at);
      }
    }

    /** The loop body of `run_live` once the head is known. */
    method LiveFrom(latest: nat, ghost view: View) returns (status: Status, ghost at: nat)
      requires Valid() && live == Top
      modifies this, db, rpc
      ensures Valid() && old(trace).events <= trace.events && rpc.calls >= old(rpc.calls) && live == Top
      ensures status != Conflict
      ensures rpc.faults == old(rpc.faults) + if status == Aborted then 1 else 0
      ensures BackfillIdle() && status == Aborted ==>
                db.Snapshot() == PruneHot(old(db.Snapshot()), cfg.LiveStart(cfg.start, latest))
      ensures status != Aborted ==> Now().settledView == view
      ensures Shown(view, old(rpc.calls)) && latest < |view| ==> status != Aborted
      ensures Shown(view, old(rpc.calls)) && ValidChain(ledger, view) && view != [] && latest == Head(view)
              && old(LiveClean()) ==>
                LiveClean()
      ensures BackfillIdle() && Shown(view, old(rpc.calls)) && view != [] && latest == Head(view) ==>
                LiveIterated(cfg, ledger, old(db.Snapshot()), db.Snapshot(), view, status)
      ensures Shown(view, old(rpc.calls)) && view != [] && latest == Head(view) ==>
                && LiveLeaves(cfg, old(db.Snapshot()), db.Snapshot(), view, status, at)
                && (BackfillPromotes() ==> FollowsCheckpoint(cfg, old(db.Snapshot()), db.Snapshot(), view, status, at))
    {
      var liveStart := cfg.LiveStart(cfg.start, latest);
      ghost var k, before := rpc.calls, db.Snapshot();
      var reconciled, condemned := PruneAndReconcile(liveStart, latest, view);
      ghost var mid := db.Snapshot();
      at := condemned;
      if reconciled.None? {
        status := Aborted;
      } else if reconciled.value {
        status := Repaired;
      } else {
        status, at := ExtendHot(liveStart, latest, view);
      }
      ghost var after := db.Snapshot();
      if Shown(view, k) && view != [] && latest == Head(view) {
        IterationEnds(cfg, ledger, before, mid, after, view, reconciled, condemned, status, at, BackfillIdle(),
                      BackfillPromotes());
      }
    }

    /**
     * One iteration of `run_live`.  Whatever the backfill deletes meanwhile: what it leaves is `LiveLeaves`, and the
     * hot lane agrees with the chain that it saw if no reorganisation so far reached below its validation window.
     */
    method LiveIteration(ghost view: View) returns (status: Status, ghost at: nat)
      requires Valid() && live == Top
      modifies this, db, rpc
      ensures Valid() && old(trace).events <= trace.events && rpc.calls >= old(rpc.calls) && live == Top
      ensures status != Conflict
      ensures rpc.faults == old(rpc.faults) + if status == Aborted then 1 else 0
      ensures BackfillIdle() && status == Aborted ==>
                db.Snapshot() == match rpc.heads(old(rpc.calls))
                                 case None => old(db.Snapshot())
                                 case Some(latest) => PruneHot(old(db.Snapshot()), cfg.LiveStart(cfg.start, latest))
      ensures status != Aborted ==> Now().settledView == view
      ensures Shown(view, old(rpc.calls)) && ValidChain(ledger, view) && view != [] ==>
                && status != Aborted
                && (old(LiveClean()) ==> LiveClean() && Complete(ledger, cfg.contract, db.hot))
                && (old(LiveClean()) && ShallowReorgs(cfg, trace.events) ==> Agrees(db.hot.blocks, view))
      ensures BackfillIdle() && Shown(view, old(rpc.calls)) && view != [] ==>
                LiveIterated(cfg, ledger, old(db.Snapshot()), db.Snapshot(), view, status)
      ensures Shown(view, old(rpc.calls)) && view != [] ==>
                && LiveLeaves(cfg, old(db.Snapshot()), db.Snapshot(), view, status, at)
                && (BackfillPromotes() ==> FollowsCheckpoint(cfg, old(db.Snapshot()), db.Snapshot(), view, status, at))
    {
      ghost var k := rpc.calls;
      var latest := rpc.LatestBlockNumber();
      assert Shown(view, k) ==> rpc.ShowsAt(ledger, view, k);
      if latest.None? {
        return Aborted, 0;
      }
      status, at := LiveWith(latest.value, view);
      if LiveClean() {
        HotLaneNow();
      }
    }

    /** The same, once the head is known, with the backfill actions during that call. */
    method LiveWith(latest: nat, ghost view: View) returns (status: Status, ghost at: nat)
      requires Valid() && live == Top
      modifies this, db, rpc
      ensures Valid() && old(trace).events <= trace.events && rpc.calls >= old(rpc.calls) && live == Top
      ensures status != Conflict
      ensures rpc.faults == old(rpc.faults) + if status == Aborted then 1 else 0
      ensures BackfillIdle() && status == Aborted ==>
                db.Snapshot() == PruneHot(old(db.Snapshot()), cfg.LiveStart(cfg.start, latest))
      ensures status != Aborted ==> Now().settledView == view
      ensures Shown(view, old(rpc.calls)) && latest < |view| ==> status != Aborted
      ensures Shown(view, old(rpc.calls)) && ValidChain(ledger, view) && view != [] && latest == Head(view)
              && old(LiveClean()) ==>
                LiveClean()
      ensures BackfillIdle() && Shown(view, old(rpc.calls)) && view != [] && latest == Head(view) ==>
                LiveIterated(cfg, ledger, old(db.Snapshot()), db.Snapshot(), view, status)
      ensures Shown(view, old(rpc.calls)) && view != [] && latest == Head(view) ==>
                && LiveLeaves(cfg, old(db.Snapshot()), db.Snapshot(), view, status, at)
                && (BackfillPromotes() ==> FollowsCheckpoint(cfg, old(db.Snapshot()), db.Snapshot(), view, status, at))
    {
      ghost var k, before := rpc.calls, db.Snapshot();
      YieldToBackfill();
      ghost var mid := db.Snapshot();
      status, at := LiveFrom(latest, view);
      if Shown(view, k) && view != [] && latest == Head(view) {
        LeavesFromThinned(cfg, before, mid, db.Snapshot(), view, status, at);
      }
    }

    lemma HotLaneNow()
      requires Valid() && LiveClean()
      ensures Complete(ledger, cfg.contract, db.hot)
      ensures ShallowReorgs(cfg, trace.events) ==> Agrees(db.hot.blocks, Now().settledView)
    {
      TraceIsRun(cfg, ledger, trace);
      HotLaneIsComplete(cfg, ledger, trace.events);
      if ShallowReorgs(cfg, trace.events) {
        ShallowReorgsAreHealed(cfg, ledger, trace.events);
      }
    }

    /**
     * `run_live` on a chain that no longer changes, from any reachable state, while the backfill worker finalizes
     * ranges: the loop comes to rest after at most one rollback and the predicted number of commits.  With an idle
     * backfill, the rollback happens exactly when the window has a stale block, and the hot lane is extended block by
     * block up to the head.
     */
    method RunLive(ghost view: View) returns (rollbacks: nat, commits: nat, ghost base: nat)
      requires Valid() && live == Top && view != [] && BackfillPromotes()
      requires forall k: nat :: k >= rpc.calls ==> rpc.ShowsAt(ledger, view, k)
      modifies this, db, rpc
      ensures Valid() && old(trace).events <= trace.events && live == Top
      ensures LiveClosed(cfg, old(db.Snapshot()), db.Snapshot(), view, rollbacks, commits, base)
      ensures BackfillIdle() ==>
                SettledAlone(cfg, ledger, old(db.Snapshot()), db.Snapshot(), view, rollbacks, commits)
    {
      rollbacks, commits, base := 0, 0, db.liveCheckpoint;
      ghost var start := db.Snapshot();
      HotSoundNow();
      var status := Indexed;
      while status != Resting
        invariant Valid() && old(trace).events <= trace.events && live == Top && rpc.calls >= old(rpc.calls)
        invariant Booked(cfg, start, db.Snapshot(), view, status, rollbacks, commits, base)
        invariant BackfillIdle() ==> IdleOnCourse(cfg, ledger, start, db.Snapshot(), view, status, rollbacks, commits)
        decreases status != Resting, !CleanWindow(cfg, db.Snapshot(), view), HotMissing(cfg, db.Snapshot(), view)
      {
        status, rollbacks, commits, base := LiveRound(view, start, rollbacks, commits, base);
      }
      if BackfillIdle() {
        IdleSettles(cfg, ledger, start, db.Snapshot(), view, rollbacks, commits);
      }
    }

    /** One more iteration of the live loop, and its entry in the books. */
    method LiveRound(ghost view: View, ghost start: Db, rollbacks: nat, commits: nat, ghost base: nat)
      returns (status: Status, moreRollbacks: nat, moreCommits: nat, ghost newBase: nat)
      requires Valid() && live == Top && view != [] && BackfillPromotes()
      requires forall k: nat :: k >= rpc.calls ==> rpc.ShowsAt(ledger, view, k)
      requires LiveTally(cfg, start, db.Snapshot(), view, rollbacks, commits, base)
      requires BackfillIdle() ==> LiveOnCourse(cfg, ledger, start, db.Snapshot(), view, rollbacks, commits)
      modifies this, db, rpc
      ensures Valid() && old(trace).events <= trace.events && live == Top && rpc.calls >= old(rpc.calls)
      ensures Booked(cfg, start, db.Snapshot(), view, status, moreRollbacks, moreCommits, newBase)
      ensures status != Resting ==> Nearer(cfg, old(db.Snapshot()), db.Snapshot(), view)
      ensures BackfillIdle() ==>
                IdleOnCourse(cfg, ledger, start, db.Snapshot(), view, status, moreRollbacks, moreCommits)
    {
      ghost var before, at := db.Snapshot(), 0;
      status, at := LiveIteration(view);
      moreRollbacks := if status == Repaired then rollbacks + 1 else rollbacks;
      moreCommits := if status == Indexed then commits + 1 else commits;
      newBase := if status == Repaired then SatSub(at, 1) else base;
      TallyGoesOn(cfg, start, before, db.Snapshot(), view, status, at, rollbacks, commits, base);
      if BackfillIdle() {
        LiveKeepsCourse(cfg, ledger, start, before, db.Snapshot(), view, status, rollbacks, commits);
      }
    }

    lemma HotSoundNow()
      requires Valid()
      ensures HotSound(db.Snapshot())
    {
      TraceIsRun(cfg, ledger, trace);
      AlwaysInv(cfg, trace.events);
    }
  }
}
