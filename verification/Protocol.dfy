/**
 * The two workers as a state machine over the database.
 *
 * Every event is one atomic action: an RPC answer, a read, or a transaction.  `Apply` is total, so a run
 * is any sequence of events; an event that the code could not perform in a state changes nothing.
 * Answers are carried by the events and are arbitrary; `BackFaithful` and `LiveFaithful` describe runs in
 * which all answers of one loop iteration come from one chain.
 *
 * Only the backfill worker writes the cold lane and the finalized checkpoint, so one backfill iteration is
 * one event: its only transaction.  The live worker shares the hot lane, so each of its reads is an event.
 */
module Protocol {
  import opened Types
  import opened Decoder
  import opened Chain
  import opened Payload
  import opened Storage

  const BLOCK_BATCH_SIZE: nat := 10

  datatype Config = Config(start: nat, confirmationDepth: nat, reorgLookback: nat, hotWindowSize: nat,
                           liveStartDepth: nat, contract: Option<Address>)
  {
    predicate Valid() {
      start >= 1
    }

    /** How many blocks behind the checkpoint the backfill revalidates. */
    function Lookback(): (w: nat)
      ensures w >= 1 && w >= reorgLookback && w >= confirmationDepth
      ensures w in {1, reorgLookback, confirmationDepth}
    {
      Max(Max(reorgLookback, confirmationDepth), 1)
    }

    function LiveDepth(): (d: nat)
      ensures d >= 1 && d >= liveStartDepth && d >= hotWindowSize && d >= reorgLookback
      ensures d in {1, liveStartDepth, hotWindowSize, reorgLookback}
    {
      Max(Max(Max(liveStartDepth, hotWindowSize), reorgLookback), 1)
    }

    /** `compute_live_start_block`. */
    function LiveStart(floor: nat, latest: nat): nat {
      Max(SatSub(latest, SatSub(LiveDepth(), 1)), floor)
    }

    function FinalizedWindow(checkpoint: nat): nat {
      Max(SatSub(checkpoint, SatSub(Lookback(), 1)), start)
    }

    /** The first block that the live worker revalidates. */
    function HotWindow(liveStart: nat, latest: nat): nat {
      Max(LiveStart(liveStart, latest), SatSub(latest, SatSub(Max(reorgLookback, 1), 1)))
    }

    function SafeHead(latest: nat): nat {
      SatSub(latest, confirmationDepth)
    }

    function NextFinalized(checkpoint: nat): nat {
      Max(checkpoint + 1, start)
    }
  }

  /**
   * The windows count blocks: each one ends at its upper bound and has its depth, cut off at the floor (the start
   * block, or the live start).
   */
  lemma WindowSizes(cfg: Config, floor: nat, top: nat)
    ensures floor <= top ==>
              && top + 1 - cfg.LiveStart(floor, top) == Min(cfg.LiveDepth(), top + 1 - floor)
              && top + 1 - cfg.HotWindow(floor, top) == Min(Max(cfg.reorgLookback, 1), top + 1 - floor)
    ensures cfg.start <= top ==>
              top + 1 - cfg.FinalizedWindow(top) == Min(cfg.Lookback(), top + 1 - cfg.start)
    ensures top < floor ==> cfg.LiveStart(floor, top) == floor && cfg.HotWindow(floor, top) > top
  {
  }

  /**
   * A block counts as safe exactly when confirmation-depth blocks lie above it; block 0 is never above the safe head.
   */
  lemma SafeHeadExactly(cfg: Config, head: nat, n: nat)
    ensures n <= cfg.SafeHead(head) <==> n == 0 || n + cfg.confirmationDepth <= head
  {
  }

  /** Where the live worker is in its loop body. */
  datatype LivePc =
    | Top
    | Pruned(liveStart: nat, latest: nat)
    | Scanning(liveStart: nat, latest: nat, at: nat, until: nat)
    | Condemned(block: nat)
    | Scanned(liveStart: nat, latest: nat)
    | Building(first: nat, last: nat)
    | Checking(first: nat, last: nat, payload: Payload, checked: nat)

  /**
   * The stored state, the live worker's position, and history that only the properties use: the highest
   * prune bound, the live worker's current head and chain, the chain of its last finished iteration, and
   * the chain of the last backfill iteration.
   */
  datatype State = State(db: Db, live: LivePc, pruned: nat, liveHead: nat, liveView: View, settledView: View,
                         backView: View)

  function Init(cfg: Config): State {
    State(EMPTY_DB, Top, cfg.start, 0, [], [], [])
  }

  /** How one loop iteration of a worker ends. */
  datatype Status = Aborted | Repaired | Conflict | Indexed | Resting

  datatype Event =
    | LiveBegin(view: View, latest: nat)
    | LiveHead(latest: nat)
    | LiveScan(answer: Hash)
    | LiveRollback
    | LiveReadCheckpoint
    | LiveBuild(payload: Payload)
    | LiveCheck
    | LiveCommit
    | LiveAbort
    | BackMismatch(view: View, block: nat, answer: Hash)
    | BackMissing(view: View, block: nat)
    | BackConflict(view: View, block: nat)
    | BackCommit(view: View, payload: Payload, last: nat)
    | BackIdle(view: View)
  {
    predicate IsBack() {
      BackMismatch? || BackMissing? || BackConflict? || BackCommit? || BackIdle?
    }
  }

  predicate InWindow(cfg: Config, db: Db, n: nat) {
    db.checkpoint >= cfg.start && cfg.FinalizedWindow(db.checkpoint) <= n <= db.checkpoint
  }

  predicate CanCommit(cfg: Config, db: Db, p: Payload, last: nat) {
    var next := cfg.NextFinalized(db.checkpoint);
    next <= last <= next + BLOCK_BATCH_SIZE - 1 && ValidPayload(p, next, last)
  }

  /** Can the backfill worker perform this event's transaction now? */
  predicate BackEnabled(cfg: Config, db: Db, ev: Event) {
    match ev
    case BackMismatch(_, n, answer) => InWindow(cfg, db, n) && n in db.cold.blocks && db.cold.blocks[n] != answer
    case BackMissing(_, n) => InWindow(cfg, db, n) && n !in db.cold.blocks
    case BackConflict(_, n) => n > db.checkpoint && n in db.cold.blocks
    case BackCommit(_, p, last) => CanCommit(cfg, db, p, last)
    case BackIdle(_) => true
    case _ => false
  }

  /** The database after an enabled backfill event. */
  function BackDb(cfg: Config, db: Db, ev: Event): Db {
    match ev
    case BackMismatch(_, n, _) => RollbackFrom(db, n)
    case BackMissing(_, n) => RollbackFrom(db, n)
    case BackConflict(_, n) => RollbackFrom(db, n)
    case BackCommit(_, p, last) => CommitFinalized(db, p, cfg.NextFinalized(db.checkpoint), last)
    case _ => db
  }

  ghost function ApplyBack(cfg: Config, s: State, ev: Event): State
    requires ev.IsBack()
  {
    if BackEnabled(cfg, s.db, ev) then s.(db := BackDb(cfg, s.db, ev), backView := ev.view) else s
  }

  ghost function ApplyLive(cfg: Config, s: State, ev: Event): State
    requires !ev.IsBack()
  {
    match (ev, s.live)
    case (LiveBegin(view, latest), Top) =>
      var liveStart := cfg.LiveStart(cfg.start, latest);
      s.(db := PruneHot(s.db, liveStart), live := Pruned(liveStart, latest), pruned := Max(s.pruned, liveStart),
         liveHead := latest, liveView := view)
    case (LiveHead(latest), Pruned(liveStart, was)) =>
      s.(live := Scanning(liveStart, was, cfg.HotWindow(liveStart, latest), latest))
    case (LiveScan(answer), Scanning(liveStart, latest, at, until)) =>
      if at > until then s.(live := Scanned(liveStart, latest))
      else if at in s.db.hot.blocks && s.db.hot.blocks[at] != answer then s.(live := Condemned(at))
      else s.(live := Scanning(liveStart, latest, at + 1, until))
    case (LiveRollback, Condemned(n)) =>
      s.(db := RollbackHot(s.db, n), live := Top, settledView := s.liveView)
    case (LiveReadCheckpoint, Scanned(liveStart, latest)) =>
      var first := Max(s.db.liveCheckpoint + 1, liveStart);
      if first <= latest then s.(live := Building(first, Min(first + BLOCK_BATCH_SIZE - 1, latest)))
      else s.(live := Top, settledView := s.liveView)
    case (LiveBuild(p), Building(first, last)) =>
      if ValidPayload(p, first, last) then s.(live := Checking(first, last, p, 0)) else s
    case (LiveCheck, Checking(first, last, p, checked)) =>
      if checked >= |p.blocks| then s
      else
        var row := p.blocks[checked];
        if row.number in s.db.hot.blocks && s.db.hot.blocks[row.number] != row.hash
        then s.(live := Condemned(row.number))
        else s.(live := Checking(first, last, p, checked + 1))
    case (LiveCommit, Checking(first, last, p, checked)) =>
      if checked < |p.blocks| then s
      else s.(db := CommitHot(s.db, p, last), live := Top, settledView := s.liveView)
    case (LiveAbort, _) => s.(live := Top)
    case _ => s
  }

  ghost function Apply(cfg: Config, s: State, ev: Event): State {
    if ev.IsBack() then ApplyBack(cfg, s, ev) else ApplyLive(cfg, s, ev)
  }

  /** The state after a run of events. */
  ghost function Exec(cfg: Config, evs: seq<Event>): State {
    if evs == [] then Init(cfg) else Apply(cfg, Exec(cfg, evs[..|evs| - 1]), evs[|evs| - 1])
  }

  lemma ExecSnoc(cfg: Config, evs: seq<Event>, ev: Event)
    ensures Exec(cfg, evs + [ev]) == Apply(cfg, Exec(cfg, evs), ev)
  {
    assert (evs + [ev])[..|evs|] == evs;
  }

  /**
   * A live iteration asks for the head twice.  Whatever the two answers are, the first one gives the live start and the
   * end of the next range, and the second one the window that is revalidated.
   */
  lemma TwoHeads(cfg: Config, s: State, c: View, first: nat, second: nat)
    requires s.live.Top?
    ensures var pruned := Apply(cfg, s, LiveBegin(c, first));
            var scanning := Apply(cfg, pruned, LiveHead(second));
            && pruned.db == PruneHot(s.db, cfg.LiveStart(cfg.start, first))
            && scanning.db == pruned.db
            && scanning.live == Scanning(cfg.LiveStart(cfg.start, first), first,
                                         cfg.HotWindow(cfg.LiveStart(cfg.start, first), second), second)
  {
  }

  // ---------- answers from one chain per iteration ----------

  /** The revalidation loop finds the window of the checkpoint unchanged. */
  ghost predicate WindowAgrees(cfg: Config, db: Db, c: View) {
    db.checkpoint >= cfg.start ==>
      forall b: nat :: cfg.FinalizedWindow(db.checkpoint) <= b <= db.checkpoint ==> StoredAt(db.cold.blocks, c, b)
  }

  ghost predicate StoredAt(blocks: map<nat, Hash>, c: View, b: nat) {
    b in blocks && b < |c| && blocks[b] == c[b]
  }

  /** A backfill event whose answers all came from the event's chain. */
  ghost predicate BackFaithful(cfg: Config, ledger: Ledger, s: State, ev: Event) {
    match ev
    case BackMismatch(c, n, answer) =>
      && ValidChain(ledger, c) && n < |c| && answer == c[n]
      && forall b: nat :: cfg.FinalizedWindow(s.db.checkpoint) <= b < n ==> StoredAt(s.db.cold.blocks, c, b)
    case BackMissing(c, n) => ValidChain(ledger, c)
    case BackConflict(c, n) => ValidChain(ledger, c)
    case BackCommit(c, p, last) =>
      var next := cfg.NextFinalized(s.db.checkpoint);
      && ValidChain(ledger, c) && WindowAgrees(cfg, s.db, c)
      && next <= cfg.SafeHead(Head(c))
      && last == Min(next + BLOCK_BATCH_SIZE - 1, cfg.SafeHead(Head(c)))
      && last < |c|
      && p == RangePayload(ledger, cfg.contract, c, next, last)
    case BackIdle(c) => ValidChain(ledger, c) && WindowAgrees(cfg, s.db, c)
    case _ => true
  }

  /** A live event whose answer came from the chain that the iteration began with. */
  ghost predicate LiveFaithful(cfg: Config, ledger: Ledger, s: State, ev: Event) {
    match ev
    case LiveBegin(c, latest) => ValidChain(ledger, c) && c != [] && latest == Head(c)
    case LiveHead(latest) => latest == Head(s.liveView)
    case LiveScan(answer) =>
      s.live.Scanning? && s.live.at < |s.liveView| ==> answer == s.liveView[s.live.at]
    case LiveBuild(p) =>
      s.live.Building? ==>
        && s.live.first <= s.live.last < |s.liveView|
        && p == RangePayload(ledger, cfg.contract, s.liveView, s.live.first, s.live.last)
    case _ => true
  }

  /** Every backfill iteration of the run saw one chain. */
  ghost predicate BackFaithfulRun(cfg: Config, ledger: Ledger, evs: seq<Event>) {
    evs == [] ||
    (var before := evs[..|evs| - 1];
     BackFaithfulRun(cfg, ledger, before) && BackFaithful(cfg, ledger, Exec(cfg, before), evs[|evs| - 1]))
  }

  /** Every live iteration of the run saw one chain. */
  ghost predicate LiveFaithfulRun(cfg: Config, ledger: Ledger, evs: seq<Event>) {
    evs == [] ||
    (var before := evs[..|evs| - 1];
     LiveFaithfulRun(cfg, ledger, before) && LiveFaithful(cfg, ledger, Exec(cfg, before), evs[|evs| - 1]))
  }
}
