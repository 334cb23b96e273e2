/** The PostgreSQL tables, and the transactions that the workers run on them. */
module Storage {
  import opened Types
  import opened Payload
  import opened Lanes
  import opened Partitions

  // ---------- the transactions as functions of the stored state ----------

  datatype Db = Db(cold: Lane, hot: Lane, checkpoint: nat, liveCheckpoint: nat)

  const EMPTY_DB: Db := Db(EMPTY_LANE, EMPTY_LANE, 0, 0)

  function CommitFinalized(db: Db, p: Payload, first: nat, last: nat): Db {
    db.(cold := db.cold.Insert(p), hot := db.hot.DropRange(first, last), checkpoint := last)
  }

  function CommitHot(db: Db, p: Payload, last: nat): Db {
    db.(hot := db.hot.Insert(p), liveCheckpoint := last)
  }

  function RollbackFrom(db: Db, n: nat): Db {
    Db(db.cold.DropFrom(n), db.hot.DropFrom(n), SatSub(n, 1), SatSub(n, 1))
  }

  function RollbackHot(db: Db, n: nat): Db {
    db.(hot := db.hot.DropFrom(n), liveCheckpoint := SatSub(n, 1))
  }

  function PruneHot(db: Db, before: nat): Db {
    db.(hot := db.hot.DropBefore(before))
  }

  datatype CommitStats = CommitStats(attempted: nat, inserted: nat, duplicates: nat, blockRows: nat)

  // ---------- single statements ----------

  ghost predicate RowsHeld(table: map<Key, Record>, parts: set<Range>) {
    forall k :: k in table ==> HeldOnce(parts, k.block)
  }

  /** The smallest and the largest block number of a batch. */
  method BlockBounds(records: seq<Record>) returns (least: nat, greatest: nat)
    requires records != []
    ensures least <= greatest
    ensures exists r :: r in records && r.block == least
    ensures exists r :: r in records && r.block == greatest
    ensures forall r :: r in records ==> least <= r.block <= greatest
  {
    least, greatest := records[0].block, records[0].block;
    ghost var low, high := records[0], records[0];
    for i := 1 to |records|
      invariant low in records && low.block == least && high in records && high.block == greatest
      invariant least <= greatest
      invariant forall j :: 0 <= j < i ==> least <= records[j].block <= greatest
    {
      if records[i].block < least {
        least, low := records[i].block, records[i];
      }
      if records[i].block > greatest {
        greatest, high := records[i].block, records[i];
      }
    }
  }

  lemma NewRowsHeld(table: map<Key, Record>, parts: set<Range>, records: seq<Record>, created: set<Range>)
    requires RowsHeld(table, parts) && parts <= created && Aligned(created)
    requires forall r :: r in records ==> HeldOnce(created, r.block)
    ensures RowsHeld(InsertTransfers(table, records), created)
  {
    var after := InsertTransfers(table, records);
    InsertedTransfers(table, records);
    forall k | k in after ensures HeldOnce(created, k.block) {
      if k in table {
        HeldOnceStays(parts, created, k.block);
      } else {
        assert after[k] in records && after[k].RowKey() == k;
      }
    }
  }

  /** The partition takes a row of the batch, or of a number between two of them. */
  ghost predicate Spanned(part: Range, records: seq<Record>) {
    exists block: nat, low, high ::
      && part.Holds(block) && low in records && high in records && low.block <= block <= high.block
  }

  /** One multi-row insert: partitions first, then row by row, skipping keys that are already there. */
  method InsertTransfersTx(table: map<Key, Record>, parts: set<Range>, records: seq<Record>)
    returns (after: map<Key, Record>, created: set<Range>, inserted: nat)
    requires Aligned(parts) && RowsHeld(table, parts)
    ensures after == InsertTransfers(table, records)
    ensures inserted == |after| - |table|
    ensures parts <= created && Aligned(created) && RowsHeld(after, created)
    ensures forall part :: part in created && part !in parts ==> Spanned(part, records)
  {
    after, created, inserted := table, parts, 0;
    if records == [] {
      return;
    }
    var least, greatest := BlockBounds(records);
    var partitions, _ := EnsurePartitions(parts, least, greatest);
    created := partitions;
    forall part | part in created && part !in parts ensures Spanned(part, records) {
      var block: nat :| least <= block <= greatest && part.Holds(block);
      var low :| low in records && low.block == least;
      var high :| high in records && high.block == greatest;
    }
    for i := 0 to |records|
      invariant after == InsertTransfers(table, records[..i])
      invariant inserted == |after| - |table|
    {
      assert records[..i + 1][..i] == records[..i];
      if records[i].RowKey() !in after {
        after := after[records[i].RowKey() := records[i]];
        inserted := inserted + 1;
      }
    }
    assert records[..|records|] == records;
    NewRowsHeld(table, parts, records, created);
  }

  /**
   * One multi-row insert, row by row.  A number that occurs twice in one statement is an error in PostgreSQL and the
   * last row wins here; no payload has one, because its numbers are consecutive.
   */
  method InsertBlocksTx(table: map<nat, Hash>, rows: seq<BlockRow>) returns (after: map<nat, Hash>)
    ensures after == InsertBlocks(table, rows)
  {
    after := table;
    for i := 0 to |rows|
      invariant after == InsertBlocks(table, rows[..i])
    {
      assert rows[..i + 1][..i] == rows[..i];
      after := after[rows[i].number := rows[i].hash];
    }
    assert rows[..|rows|] == rows;
  }

  /** The inserts of one commit: transfers, then block rows. */
  method InsertPayloadTx(lane: Lane, parts: set<Range>, p: Payload)
    returns (after: Lane, created: set<Range>, stats: CommitStats)
    requires Aligned(parts) && RowsHeld(lane.transfers, parts)
    ensures after == lane.Insert(p)
    ensures parts <= created && Aligned(created) && RowsHeld(after.transfers, created)
    ensures forall part :: part in created && part !in parts ==> Spanned(part, p.records)
    ensures stats.attempted == |p.records| && stats.blockRows == |p.blocks|
    ensures stats.inserted == |after.transfers| - |lane.transfers|
    ensures stats.duplicates == stats.attempted - stats.inserted
  {
    var transfers, partitions, inserted := InsertTransfersTx(lane.transfers, parts, p.records);
    var blocks := InsertBlocksTx(lane.blocks, p.blocks);
    InsertGrowth(lane.transfers, p.records);
    after, created := Lane(blocks, transfers), partitions;
    stats := CommitStats(|p.records|, inserted, SatSub(|p.records|, inserted), |p.blocks|);
  }

  method DeleteFromTx(lane: Lane, from: nat) returns (after: Lane)
    ensures after == lane.DropFrom(from)
  {
    var transfers := map k | k in lane.transfers && k.block < from :: lane.transfers[k];
    var blocks := map b | b in lane.blocks && b < from :: lane.blocks[b];
    after := Lane(blocks, transfers);
  }

  method DeleteBetweenTx(lane: Lane, first: nat, last: nat) returns (after: Lane)
    ensures after == lane.DropRange(first, last)
  {
    var transfers := map k | k in lane.transfers && !(first <= k.block <= last) :: lane.transfers[k];
    var blocks := map b | b in lane.blocks && !(first <= b <= last) :: lane.blocks[b];
    after := Lane(blocks, transfers);
  }

  // ---------- what the transactions leave, row by row ----------

  /** The rows of the blocks below `n`, and no others, are still there, unchanged. */
  ghost predicate KeptBelow(before: Lane, after: Lane, n: nat) {
    && (forall b: nat :: b in after.blocks <==> b in before.blocks && b < n)
    && (forall b: nat :: b in after.blocks ==> after.blocks[b] == before.blocks[b])
    && (forall k :: k in after.transfers <==> k in before.transfers && k.block < n)
    && (forall k :: k in after.transfers ==> after.transfers[k] == before.transfers[k])
  }

  /** The rows of the blocks from `n` on, and no others, are still there, unchanged. */
  ghost predicate KeptFrom(before: Lane, after: Lane, n: nat) {
    && (forall b: nat :: b in after.blocks <==> b in before.blocks && b >= n)
    && (forall b: nat :: b in after.blocks ==> after.blocks[b] == before.blocks[b])
    && (forall k :: k in after.transfers <==> k in before.transfers && k.block >= n)
    && (forall k :: k in after.transfers ==> after.transfers[k] == before.transfers[k])
  }

  /** All rows but those of the blocks `first..last` are still there, unchanged. */
  ghost predicate KeptOutside(before: Lane, after: Lane, first: nat, last: nat) {
    && (forall b: nat :: b in after.blocks <==> b in before.blocks && !(first <= b <= last))
    && (forall b: nat :: b in after.blocks ==> after.blocks[b] == before.blocks[b])
    && (forall k :: k in after.transfers <==> k in before.transfers && !(first <= k.block <= last))
    && (forall k :: k in after.transfers ==> after.transfers[k] == before.transfers[k])
  }

  /** The rows of the batch are there under their keys and numbers, and everything that was there before. */
  ghost predicate GainedRows(before: Lane, after: Lane, p: Payload) {
    && (forall k :: k in before.transfers ==> k in after.transfers && after.transfers[k] == before.transfers[k])
    && (forall r :: r in p.records ==> r.RowKey() in after.transfers)
    && (forall k :: k in after.transfers && k !in before.transfers ==>
          after.transfers[k] in p.records && after.transfers[k].RowKey() == k)
    && (forall b: nat :: b in after.blocks <==> b in before.blocks || exists row :: row in p.blocks && row.number == b)
    && (forall b: nat :: b in after.blocks && (forall row :: row in p.blocks ==> row.number != b) ==>
          after.blocks[b] == before.blocks[b])
    && forall b: nat :: b in after.blocks && (exists row :: row in p.blocks && row.number == b) ==>
         BlockRow(b, after.blocks[b]) in p.blocks
  }

  lemma InsertGains(lane: Lane, p: Payload)
    ensures GainedRows(lane, lane.Insert(p), p)
  {
    InsertedTransfers(lane.transfers, p.records);
    InsertedBlocks(lane.blocks, p.blocks);
  }

  /** A finalized commit adds the batch to the cold lane and takes its range, and nothing else, out of the hot one. */
  lemma CommitFinalizedLeaves(db: Db, p: Payload, first: nat, last: nat)
    ensures var after := CommitFinalized(db, p, first, last);
            && GainedRows(db.cold, after.cold, p) && KeptOutside(db.hot, after.hot, first, last)
            && after.checkpoint == last && after.liveCheckpoint == db.liveCheckpoint
  {
    InsertGains(db.cold, p);
  }

  lemma CommitHotLeaves(db: Db, p: Payload, last: nat)
    ensures var after := CommitHot(db, p, last);
            && GainedRows(db.hot, after.hot, p) && after.cold == db.cold
            && after.liveCheckpoint == last && after.checkpoint == db.checkpoint
  {
    InsertGains(db.hot, p);
  }

  // ---------- the database ----------

  class Database {
    var cold: Lane
    var hot: Lane
    var checkpoint: nat
    var liveCheckpoint: nat
    var coldPartitions: set<Range>
    var hotPartitions: set<Range>

    function Snapshot(): Db
      reads this
    {
      Db(cold, hot, checkpoint, liveCheckpoint)
    }

    /** Partitions stay aligned, and every transfer row lies in exactly one partition of its table. */
    ghost predicate Valid()
      reads this
    {
      && Aligned(coldPartitions) && RowsHeld(cold.transfers, coldPartitions)
      && Aligned(hotPartitions) && RowsHeld(hot.transfers, hotPartitions)
    }

    constructor ()
      ensures Valid() && Snapshot() == EMPTY_DB
      ensures cold.blocks == hot.blocks == map[] && cold.transfers == hot.transfers == map[]
      ensures checkpoint == liveCheckpoint == 0
    {
      cold, hot, checkpoint, liveCheckpoint := EMPTY_LANE, EMPTY_LANE, 0, 0;
      coldPartitions, hotPartitions := {}, {};
    }

    method CommitFinalizedRange(p: Payload, first: nat, last: nat) returns (stats: CommitStats)
      requires Valid()
      modifies this
      ensures Valid()
      ensures Snapshot() == CommitFinalized(old(Snapshot()), p, first, last)
      ensures checkpoint == last && liveCheckpoint == old(liveCheckpoint)
      ensures forall part :: part in coldPartitions && part !in old(coldPartitions) ==> Spanned(part, p.records)
      ensures old(coldPartitions) <= coldPartitions && hotPartitions == old(hotPartitions)
      ensures stats.attempted == |p.records| && stats.blockRows == |p.blocks|
      ensures stats.inserted == |cold.transfers| - |old(cold.transfers)|
      ensures stats.duplicates == stats.attempted - stats.inserted
    {
      cold, coldPartitions, stats := InsertPayloadTx(cold, coldPartitions, p);
      hot := DeleteBetweenTx(hot, first, last);
      checkpoint := last;
    }

    method CommitHotRange(p: Payload, last: nat) returns (stats: CommitStats)
      requires Valid()
      modifies this
      ensures Valid()
      ensures Snapshot() == CommitHot(old(Snapshot()), p, last)
      ensures cold == old(cold)
      ensures liveCheckpoint == last && checkpoint == old(checkpoint)
      ensures forall part :: part in hotPartitions && part !in old(hotPartitions) ==> Spanned(part, p.records)
      ensures old(hotPartitions) <= hotPartitions && coldPartitions == old(coldPartitions)
      ensures stats.attempted == |p.records| && stats.blockRows == |p.blocks|
      ensures stats.inserted == |hot.transfers| - |old(hot.transfers)|
      ensures stats.duplicates == stats.attempted - stats.inserted
    {
      hot, hotPartitions, stats := InsertPayloadTx(hot, hotPartitions, p);
      liveCheckpoint := last;
    }

    method RollbackFromBlock(n: nat)
      requires Valid()
      modifies this
      ensures Valid()
      ensures Snapshot() == RollbackFrom(old(Snapshot()), n)
      ensures KeptBelow(old(cold), cold, n) && KeptBelow(old(hot), hot, n)
      ensures checkpoint == liveCheckpoint == SatSub(n, 1)
      ensures coldPartitions == old(coldPartitions) && hotPartitions == old(hotPartitions)
    {
      cold := DeleteFromTx(cold, n);
      hot := DeleteFromTx(hot, n);
      checkpoint := SatSub(n, 1);
      liveCheckpoint := SatSub(n, 1);
    }

    method RollbackHotFromBlock(n: nat)
      requires Valid()
      modifies this
      ensures Valid()
      ensures Snapshot() == RollbackHot(old(Snapshot()), n)
      ensures KeptBelow(old(hot), hot, n) && cold == old(cold)
      ensures liveCheckpoint == SatSub(n, 1) && checkpoint == old(checkpoint)
      ensures coldPartitions == old(coldPartitions) && hotPartitions == old(hotPartitions)
    {
      hot := DeleteFromTx(hot, n);
      liveCheckpoint := SatSub(n, 1);
    }

    method PruneHotBeforeBlock(before: nat)
      requires Valid()
      modifies this
      ensures Valid()
      ensures Snapshot() == PruneHot(old(Snapshot()), before)
      ensures KeptFrom(old(hot), hot, before) && cold == old(cold)
      ensures checkpoint == old(checkpoint) && liveCheckpoint == old(liveCheckpoint)
      ensures coldPartitions == old(coldPartitions) && hotPartitions == old(hotPartitions)
    {
      var transfers := map k | k in hot.transfers && k.block >= before :: hot.transfers[k];
      var blocks := map b | b in hot.blocks && b >= before :: hot.blocks[b];
      hot := Lane(blocks, transfers);
      assert hot == old(hot).DropBefore(before);
    }

    method GetBlockHash(n: nat) returns (hash: Option<Hash>)
      ensures hash == if n in cold.blocks then Some(cold.blocks[n]) else None
    {
      hash := if n in cold.blocks then Some(cold.blocks[n]) else None;
    }

    method GetHotBlockHash(n: nat) returns (hash: Option<Hash>)
      ensures hash == if n in hot.blocks then Some(hot.blocks[n]) else None
    {
      hash := if n in hot.blocks then Some(hot.blocks[n]) else None;
    }
  }
}
