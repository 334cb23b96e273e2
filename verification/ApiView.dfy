/** What the GraphQL queries read: the UNION ALL of both transfer tables, and the indexer status. */
module ApiView {
  import opened Types
  import opened Chain
  import opened Payload
  import opened Lanes
  import opened Storage
  import opened Protocol
  import opened Integrity
  import opened HotAgreement

  /** The rows that `erc20Transfers` selects from, before filters, order and paging. */
  function CombinedTransfers(db: Db): multiset<Record> {
    multiset(db.cold.transfers.Values) + multiset(db.hot.transfers.Values)
  }

  ghost predicate HasRow(table: map<Key, Record>, r: Record) {
    r.RowKey() in table && table[r.RowKey()] == r
  }

  ghost predicate Keyed(table: map<Key, Record>) {
    forall k :: k in table ==> table[k].RowKey() == k
  }

  lemma RowOccursOnce(table: map<Key, Record>, r: Record)
    requires Keyed(table)
    ensures multiset(table.Values)[r] == if HasRow(table, r) then 1 else 0
  {
    assert r in table.Values <==> HasRow(table, r);
  }

  ghost predicate Stores(lane: Lane, r: Record) {
    r.RowKey() in lane.transfers && lane.transfers[r.RowKey()] == r
  }

  /** A row counts once for each lane that stores it: twice while the lanes overlap in it. */
  lemma CombinedCounts(db: Db, r: Record)
    requires RowsMatch(db.cold) && RowsMatch(db.hot)
    ensures CombinedTransfers(db)[r] == (if Stores(db.cold, r) then 1 else 0) + (if Stores(db.hot, r) then 1 else 0)
  {
    RowsMatchKeyed(db.cold);
    RowsMatchKeyed(db.hot);
    RowOccursOnce(db.cold.transfers, r);
    RowOccursOnce(db.hot.transfers, r);
    assert HasRow(db.cold.transfers, r) <==> Stores(db.cold, r);
    assert HasRow(db.hot.transfers, r) <==> Stores(db.hot, r);
  }

  lemma RowsMatchKeyed(lane: Lane)
    requires RowsMatch(lane)
    ensures Keyed(lane.transfers)
  {
    forall k | k in lane.transfers ensures lane.transfers[k].RowKey() == k {
      assert RowMatches(lane, k);
    }
  }

  /** The hot rows that a promotion evicts. */
  function RowsBetween(table: map<Key, Record>, first: nat, last: nat): map<Key, Record> {
    map k | k in table && first <= k.block <= last :: table[k]
  }

  /** The rows that a promotion brings, with repeated keys counted once. */
  function BatchRows(p: Payload): map<Key, Record> {
    InsertTransfers(map[], p.records)
  }

  lemma {:induction false} InsertOntoDisjoint(table: map<Key, Record>, records: seq<Record>)
    requires forall r :: r in records ==> r.RowKey() !in table
    ensures InsertTransfers(table, records) == table + InsertTransfers(map[], records)
  {
    if records != [] {
      InsertOntoDisjoint(table, records[..|records| - 1]);
    }
  }

  lemma RowCounts(db: Db, p: Payload, first: nat, last: nat, r: Record)
    requires RowsMatch(db.cold) && RowsMatch(db.hot) && ValidPayload(p, first, last)
    requires forall b :: first <= b <= last ==> b !in db.cold.blocks
    ensures CombinedTransfers(CommitFinalized(db, p, first, last))[r]
            + (if HasRow(RowsBetween(db.hot.transfers, first, last), r) then 1 else 0)
         == CombinedTransfers(db)[r] + (if HasRow(BatchRows(p), r) then 1 else 0)
    ensures HasRow(RowsBetween(db.hot.transfers, first, last), r) || HasRow(BatchRows(p), r) ==>
              !HasRow(db.cold.transfers, r)
  {
    var after := CommitFinalized(db, p, first, last);
    FreshKeys(db.cold, p, first, last);
    InsertOntoDisjoint(db.cold.transfers, p.records);
    InsertKeepsRows(db.cold, p, first, last);
    PartKeepsRows(db.hot, after.hot);
    RowsMatchKeyed(db.cold);
    RowsMatchKeyed(db.hot);
    RowsMatchKeyed(after.cold);
    RowsMatchKeyed(after.hot);
    RowOccursOnce(db.cold.transfers, r);
    RowOccursOnce(db.hot.transfers, r);
    RowOccursOnce(after.cold.transfers, r);
    RowOccursOnce(after.hot.transfers, r);
    InsertedTransfers(map[], p.records);
    assert RowMatches(db.cold, r.RowKey());
    assert HasRow(after.hot.transfers, r) <==> HasRow(db.hot.transfers, r) && !(first <= r.block <= last);
  }

  lemma SameRowsSameTable(a: map<Key, Record>, b: map<Key, Record>)
    requires Keyed(a) && Keyed(b)
    requires forall r :: HasRow(a, r) <==> HasRow(b, r)
    ensures a == b
  {
    assert forall k :: k in a ==> HasRow(a, a[k]) && HasRow(b, a[k]);
    assert forall k :: k in b ==> HasRow(b, b[k]) && HasRow(a, b[k]);
  }

  lemma BatchKeyed(p: Payload)
    ensures Keyed(BatchRows(p))
  {
    InsertedTransfers(map[], p.records);
  }

  /** A promotion leaves the combined rows as they were exactly when the evicted rows are the promoted ones. */
  lemma PromotionConserves(db: Db, p: Payload, first: nat, last: nat)
    requires RowsMatch(db.cold) && RowsMatch(db.hot) && ValidPayload(p, first, last)
    requires forall b :: first <= b <= last ==> b !in db.cold.blocks
    ensures CombinedTransfers(CommitFinalized(db, p, first, last)) == CombinedTransfers(db)
       <==> RowsBetween(db.hot.transfers, first, last) == BatchRows(p)
  {
    var before, after := CombinedTransfers(db), CombinedTransfers(CommitFinalized(db, p, first, last));
    var evicted, batch := RowsBetween(db.hot.transfers, first, last), BatchRows(p);
    forall r ensures (after[r] == before[r]) <==> (HasRow(evicted, r) <==> HasRow(batch, r)) {
      RowCounts(db, p, first, last, r);
    }
    if evicted == batch {
      assert forall r :: after[r] == before[r];
      assert after == before;
    }
    if after == before {
      RowsMatchKeyed(db.hot);
      BatchKeyed(p);
      SameRowsSameTable(evicted, batch);
    }
  }

  /** The part of a lane between two blocks. */
  function Between(lane: Lane, first: nat, last: nat): (part: Lane)
    ensures PartOf(lane, part)
    ensures forall b: nat :: b in part.blocks <==> b in lane.blocks && first <= b <= last
    ensures forall b: nat :: b in part.blocks ==> part.blocks[b] == lane.blocks[b]
    ensures part.transfers == RowsBetween(lane.transfers, first, last)
  {
    lane.Restrict(b => first <= b <= last)
  }

  /** A complete hot lane that holds a chain's range evicts exactly what the promotion of that range brings. */
  lemma EvictedIsBatch(ledger: Ledger, cfg: Config, hot: Lane, c: View, first: nat, last: nat)
    requires Complete(ledger, cfg.contract, hot) && first <= last < |c|
    requires forall b: nat :: first <= b <= last ==> StoredAt(hot.blocks, c, b)
    ensures RowsBetween(hot.transfers, first, last) == BatchRows(RangePayload(ledger, cfg.contract, c, first, last))
  {
    var part, hi := Between(hot, first, last), last + 1;
    PartKeepsComplete(ledger, cfg.contract, hot, part);
    forall b: nat ensures AgreesAt(part.blocks, c, b) && (b in part.blocks <==> first <= b < hi) {
      assert first <= b < hi ==> StoredAt(hot.blocks, c, b);
    }
    CompleteIsNaive(ledger, cfg.contract, part, c, first, hi);
    BatchIsNaive(ledger, cfg.contract, EMPTY_LANE, c, first, hi);
  }

  /**
   * In every run whose iterations each saw one chain: promoting a range that the hot lane holds with the same
   * hashes is invisible to queries.
   */
  lemma PromotionIsInvisible(cfg: Config, ledger: Ledger, evs: seq<Event>, ev: Event)
    requires cfg.Valid() && BackFaithfulRun(cfg, ledger, evs) && LiveFaithfulRun(cfg, ledger, evs)
    requires ev.BackCommit? && BackEnabled(cfg, Exec(cfg, evs).db, ev) && BackFaithful(cfg, ledger, Exec(cfg, evs), ev)
    requires forall b: nat :: cfg.NextFinalized(Exec(cfg, evs).db.checkpoint) <= b <= ev.last ==>
               StoredAt(Exec(cfg, evs).db.hot.blocks, ev.view, b)
    ensures CombinedTransfers(Apply(cfg, Exec(cfg, evs), ev).db) == CombinedTransfers(Exec(cfg, evs).db)
  {
    var s := Exec(cfg, evs);
    var next := cfg.NextFinalized(s.db.checkpoint);
    AlwaysInv(cfg, evs);
    HotLaneIsComplete(cfg, ledger, evs);
    EvictedIsBatch(ledger, cfg, s.db.hot, ev.view, next, ev.last);
    PromotionConserves(s.db, ev.payload, next, ev.last);
  }

  // ---------- disjoint lanes ----------

  ghost predicate Disjoint(db: Db) {
    forall b: nat :: !(b in db.cold.blocks && b in db.hot.blocks)
  }

  /** Disjoint lanes stay disjoint, except by a hot commit that starts at or below the finalized checkpoint. */
  lemma DisjointExactly(cfg: Config, s: State, ev: Event)
    requires cfg.Valid() && Inv(cfg, s) && Disjoint(s.db)
    ensures Disjoint(Apply(cfg, s, ev).db)
       <==> !(Writes(s, ev) && s.live.first <= s.db.checkpoint)
  {
    var after := Apply(cfg, s, ev).db;
    if Writes(s, ev) {
      BlocksAfterInsert(s.db.hot.blocks, s.live.payload.blocks, s.live.first);
      assert s.live.first in after.hot.blocks;
    } else if ev.BackCommit? && BackEnabled(cfg, s.db, ev) {
      BlocksAfterInsert(s.db.cold.blocks, ev.payload.blocks, cfg.NextFinalized(s.db.checkpoint));
    } else {
      HotOnlyShrinks(cfg, s, ev);
      WorkersMeetInHot(cfg, s, ev);
    }
  }

  /** No state of the run has a block in both lanes. */
  ghost predicate DisjointRun(cfg: Config, evs: seq<Event>) {
    Disjoint(Exec(cfg, evs).db) && (evs == [] || DisjointRun(cfg, evs[..|evs| - 1]))
  }

  /** Every hot commit of the run starts above the finalized checkpoint of its time. */
  ghost predicate CommitsAboveCheckpoint(cfg: Config, evs: seq<Event>) {
    evs == [] ||
    (var s := Exec(cfg, evs[..|evs| - 1]);
     CommitsAboveCheckpoint(cfg, evs[..|evs| - 1]) && (Writes(s, evs[|evs| - 1]) ==> s.live.first > s.db.checkpoint))
  }

  /** Over a whole run the lanes stay disjoint if and only if every hot commit starts above the finalized checkpoint. */
  lemma {:induction false} LanesDisjointExactly(cfg: Config, evs: seq<Event>)
    requires cfg.Valid()
    ensures DisjointRun(cfg, evs) <==> CommitsAboveCheckpoint(cfg, evs)
  {
    if evs != [] {
      var before := evs[..|evs| - 1];
      LanesDisjointExactly(cfg, before);
      AlwaysInv(cfg, before);
      if DisjointRun(cfg, before) {
        DisjointExactly(cfg, Exec(cfg, before), evs[|evs| - 1]);
      }
    }
  }

  // ---------- indexer status ----------

  datatype IndexerStatus = IndexerStatus(lastProcessed: nat, latestFinalized: Option<nat>, latestHot: Option<nat>,
                                         latestAvailable: Option<nat>, finalizedCount: nat, hotCount: nat)

  /** `SELECT MAX(block_number)`. */
  ghost function MaxBlock(blocks: set<nat>): (m: Option<nat>)
    ensures m.None? <==> blocks == {}
    ensures m.Some? ==> m.value in blocks && forall b :: b in blocks ==> b <= m.value
  {
    if blocks == {} then None
    else
      var b :| b in blocks;
      var rest := MaxBlock(blocks - {b});
      assert blocks == blocks - {b} + {b};
      if rest.Some? && rest.value > b then rest else Some(b)
  }

  /** Rust's `Option::max`, where `None` is the least value. */
  function MaxOption(a: Option<nat>, b: Option<nat>): Option<nat> {
    match (a, b)
    case (None, _) => b
    case (_, None) => a
    case (Some(x), Some(y)) => Some(Max(x, y))
  }

  ghost function StatusOf(db: Db): IndexerStatus {
    var finalized, hot := MaxBlock(db.cold.blocks.Keys), MaxBlock(db.hot.blocks.Keys);
    IndexerStatus(db.checkpoint, finalized, hot, MaxOption(finalized, hot), |db.cold.blocks|, |db.hot.blocks|)
  }

  lemma IntervalStatus(blocks: map<nat, Hash>, lo: nat, hi: nat)
    requires lo <= hi
    requires forall b: nat :: b in blocks <==> lo <= b < hi
    ensures |blocks| == hi - lo
    ensures MaxBlock(blocks.Keys) == if lo < hi then Some(hi - 1) else None
  {
    assert blocks.Keys == Interval(lo, hi);
    IntervalSize(lo, hi);
    if lo < hi {
      assert hi - 1 in blocks.Keys;
    } else {
      assert blocks.Keys == {};
    }
  }

  /** `best` is the highest of these blocks, or none when there is none. */
  ghost predicate IsHighest(best: Option<nat>, blocks: set<nat>) {
    && (best.None? <==> blocks == {})
    && (best.Some? ==> best.value in blocks && forall b :: b in blocks ==> b <= best.value)
  }

  /** The figures are the counts and the highest blocks of the two lanes, and of both lanes together. */
  ghost predicate StatusReports(db: Db, status: IndexerStatus) {
    && status.lastProcessed == db.checkpoint
    && status.finalizedCount == |db.cold.blocks.Keys| && status.hotCount == |db.hot.blocks.Keys|
    && IsHighest(status.latestFinalized, db.cold.blocks.Keys)
    && IsHighest(status.latestHot, db.hot.blocks.Keys)
    && IsHighest(status.latestAvailable, db.cold.blocks.Keys + db.hot.blocks.Keys)
  }

  lemma StatusReportsTables(db: Db)
    ensures StatusReports(db, StatusOf(db))
  {
    assert |db.cold.blocks| == |db.cold.blocks.Keys| && |db.hot.blocks| == |db.hot.blocks.Keys|;
  }

  ghost predicate StatusMatches(cfg: Config, db: Db) {
    var status := StatusOf(db);
    && status.finalizedCount == SatSub(db.checkpoint + 1, cfg.start)
    && status.latestFinalized == (if db.checkpoint >= cfg.start then Some(db.checkpoint) else None)
    && (status.latestHot.Some? ==> status.latestHot.value <= db.liveCheckpoint)
    && (status.latestAvailable.Some? ==> status.latestAvailable.value <= Max(db.checkpoint, db.liveCheckpoint))
  }

  lemma StatusOfContiguous(cfg: Config, db: Db)
    requires ColdContiguous(cfg, db) && HotBelow(db, db.liveCheckpoint + 1)
    ensures StatusMatches(cfg, db)
  {
    IntervalStatus(db.cold.blocks, cfg.start, cfg.NextFinalized(db.checkpoint));
  }

  /** The finalized count and maximum agree with the checkpoint, and hot blocks never outrun the live checkpoint. */
  lemma StatusMatchesCheckpoints(cfg: Config, evs: seq<Event>)
    requires cfg.Valid()
    ensures StatusReports(Exec(cfg, evs).db, StatusOf(Exec(cfg, evs).db))
    ensures StatusMatches(cfg, Exec(cfg, evs).db)
  {
    StatusReportsTables(Exec(cfg, evs).db);
    AlwaysInv(cfg, evs);
    StatusOfContiguous(cfg, Exec(cfg, evs).db);
  }
}
