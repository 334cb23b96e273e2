/** The two storage lanes as values, and what inserts and deletes do to them. */
module Lanes {
  import opened Types
  import opened Decoder
  import opened Chain
  import opened Payload

  /** `ON CONFLICT (txn_hash, log_index, block_number) DO NOTHING`: the first row with a key stays. */
  function InsertTransfers(table: map<Key, Record>, records: seq<Record>): map<Key, Record> {
    if records == [] then table
    else
      var before := InsertTransfers(table, records[..|records| - 1]);
      var r := records[|records| - 1];
      if r.RowKey() in before then before else before[r.RowKey() := r]
  }

  lemma {:induction false} InsertedTransfers(table: map<Key, Record>, records: seq<Record>)
    ensures forall k :: k in table ==>
              k in InsertTransfers(table, records) && InsertTransfers(table, records)[k] == table[k]
    ensures forall k :: k in InsertTransfers(table, records) && k !in table ==>
              InsertTransfers(table, records)[k] in records && InsertTransfers(table, records)[k].RowKey() == k
    ensures forall r :: r in records ==> r.RowKey() in InsertTransfers(table, records)
  {
    if records != [] {
      var n := |records| - 1;
      InsertedTransfers(table, records[..n]);
      assert forall r :: r in records ==> r in records[..n] || r == records[n];
    }
  }

  /** Of several rows of the batch with one key, the first one is stored, unless the table has the key already. */
  lemma {:induction false} FirstRowStays(table: map<Key, Record>, records: seq<Record>, i: nat)
    requires i < |records| && records[i].RowKey() !in table
    requires forall j :: 0 <= j < i ==> records[j].RowKey() != records[i].RowKey()
    ensures records[i].RowKey() in InsertTransfers(table, records)
    ensures InsertTransfers(table, records)[records[i].RowKey()] == records[i]
  {
    var n := |records| - 1;
    if i < n {
      FirstRowStays(table, records[..n], i);
    } else {
      NewKeyIsNew(table, records[..n], records[i].RowKey());
    }
  }

  lemma NewKeyIsNew(table: map<Key, Record>, records: seq<Record>, k: Key)
    requires k !in table && forall r :: r in records ==> r.RowKey() != k
    ensures k !in InsertTransfers(table, records)
  {
    InsertedTransfers(table, records);
  }

  /** `ON CONFLICT (block_number) DO UPDATE`: the last row with a number stays. */
  function InsertBlocks(table: map<nat, Hash>, rows: seq<BlockRow>): map<nat, Hash> {
    if rows == [] then table
    else InsertBlocks(table, rows[..|rows| - 1])[rows[|rows| - 1].number := rows[|rows| - 1].hash]
  }

  datatype Lane = Lane(blocks: map<nat, Hash>, transfers: map<Key, Record>) {

    function Insert(p: Payload): Lane {
      Lane(InsertBlocks(blocks, p.blocks), InsertTransfers(transfers, p.records))
    }

    /** Both `DELETE` statements of a lane, with one condition on the block number. */
    function Restrict(keep: nat -> bool): Lane {
      Lane(map b | b in blocks && keep(b) :: blocks[b],
           map k | k in transfers && keep(k.block) :: transfers[k])
    }

    function DropFrom(n: nat): (r: Lane)
      ensures forall b :: b in r.blocks <==> b in blocks && b < n
      ensures forall b :: b in r.blocks ==> r.blocks[b] == blocks[b]
      ensures PartOf(this, r)
    {
      Restrict(b => b < n)
    }

    function DropBefore(n: nat): (r: Lane)
      ensures forall b :: b in r.blocks <==> b in blocks && b >= n
      ensures forall b :: b in r.blocks ==> r.blocks[b] == blocks[b]
      ensures PartOf(this, r)
    {
      Restrict(b => b >= n)
    }

    function DropRange(first: nat, last: nat): (r: Lane)
      ensures forall b :: b in r.blocks <==> b in blocks && !(first <= b <= last)
      ensures forall b :: b in r.blocks ==> r.blocks[b] == blocks[b]
      ensures PartOf(this, r)
    {
      Restrict(b => !(first <= b <= last))
    }
  }

  const EMPTY_LANE: Lane := Lane(map[], map[])

  /** `part` is what some deletes by block number leave of `lane`. */
  ghost predicate PartOf(lane: Lane, part: Lane) {
    exists keep :: part == lane.Restrict(keep)
  }

  ghost predicate RowMatches(lane: Lane, k: Key) {
    k in lane.transfers ==>
      && lane.transfers[k].RowKey() == k
      && k.block in lane.blocks
      && lane.blocks[k.block] == lane.transfers[k].blockHash
  }

  /** Referential integrity: every transfer has a block row with its number and its hash. */
  ghost predicate RowsMatch(lane: Lane) {
    forall k :: RowMatches(lane, k)
  }

  /** The rows that one block contributes; a key that repeats inside the block counts once. */
  function BlockIndex(ledger: Ledger, contract: Option<Address>, n: nat, h: Hash): map<Key, Record> {
    InsertTransfers(map[], BlockRecords(ledger, contract, n, h))
  }

  ghost predicate CompleteAt(ledger: Ledger, contract: Option<Address>, lane: Lane, k: Key) {
    && (k in lane.transfers <==> k.block in lane.blocks
                                 && k in BlockIndex(ledger, contract, k.block, lane.blocks[k.block]))
    && (k in lane.transfers ==>
          lane.transfers[k] == BlockIndex(ledger, contract, k.block, lane.blocks[k.block])[k])
  }

  /** A lane's transfers are exactly the decoded, filtered logs of its stored blocks. */
  ghost predicate Complete(ledger: Ledger, contract: Option<Address>, lane: Lane) {
    forall k :: CompleteAt(ledger, contract, lane, k)
  }

  // ---------- inserts ----------

  lemma {:induction false} BlocksAfterInsert(table: map<nat, Hash>, rows: seq<BlockRow>, first: nat)
    requires forall i :: 0 <= i < |rows| ==> rows[i].number == first + i
    ensures forall b: nat :: b in InsertBlocks(table, rows) <==> b in table || first <= b < first + |rows|
    ensures forall b: nat :: first <= b < first + |rows| ==> InsertBlocks(table, rows)[b] == rows[b - first].hash
    ensures forall b: nat :: b in table && !(first <= b < first + |rows|) ==> InsertBlocks(table, rows)[b] == table[b]
  {
    if rows != [] {
      BlocksAfterInsert(table, rows[..|rows| - 1], first);
    }
  }

  /** The same for rows in any order: each number has a hash of the batch, or the one it had before. */
  lemma {:induction false} InsertedBlocks(table: map<nat, Hash>, rows: seq<BlockRow>)
    ensures forall b: nat :: b in InsertBlocks(table, rows)
                        <==> b in table || exists row :: row in rows && row.number == b
    ensures forall b: nat :: b in InsertBlocks(table, rows) ==>
              if exists row :: row in rows && row.number == b then BlockRow(b, InsertBlocks(table, rows)[b]) in rows
              else InsertBlocks(table, rows)[b] == table[b]
  {
    if rows != [] {
      var n := |rows| - 1;
      InsertedBlocks(table, rows[..n]);
      assert rows == rows[..n] + [rows[n]];
    }
  }

  lemma InsertedRowMatches(lane: Lane, p: Payload, first: nat, last: nat, k: Key)
    requires RowMatches(lane, k) && ValidPayload(p, first, last)
    requires forall b :: first <= b <= last ==> b !in lane.blocks
    ensures RowMatches(lane.Insert(p), k)
  {
    BlocksAfterInsert(lane.blocks, p.blocks, first);
    InsertedTransfers(lane.transfers, p.records);
    var after := InsertTransfers(lane.transfers, p.records);
    if k in after && k !in lane.transfers {
      assert RecordFits(after[k], p.blocks, first);
    }
  }

  /** Integrity survives an insert that meets none of its own block rows. */
  lemma InsertKeepsRows(lane: Lane, p: Payload, first: nat, last: nat)
    requires RowsMatch(lane) && ValidPayload(p, first, last)
    requires forall b :: first <= b <= last ==> b !in lane.blocks
    ensures RowsMatch(lane.Insert(p))
  {
    forall k ensures RowMatches(lane.Insert(p), k) {
      assert RowMatches(lane, k);
      InsertedRowMatches(lane, p, first, last, k);
    }
  }

  lemma WholePart(lane: Lane)
    ensures PartOf(lane, lane)
  {
    var all: nat -> bool := _ => true;
    assert lane.Restrict(all) == lane;
  }

  lemma PartBlocks(lane: Lane, part: Lane)
    requires PartOf(lane, part)
    ensures forall b :: b in part.blocks ==> b in lane.blocks && part.blocks[b] == lane.blocks[b]
  {
  }

  /** Deletes keep integrity: transfers go together with their blocks. */
  lemma PartKeepsRows(lane: Lane, part: Lane)
    requires RowsMatch(lane) && PartOf(lane, part)
    ensures RowsMatch(part)
  {
    forall k ensures RowMatches(part, k) {
      assert RowMatches(lane, k);
    }
  }

  lemma PartKeepsComplete(ledger: Ledger, contract: Option<Address>, lane: Lane, part: Lane)
    requires Complete(ledger, contract, lane) && PartOf(lane, part)
    ensures Complete(ledger, contract, part)
  {
    forall k ensures CompleteAt(ledger, contract, part, k) {
      assert CompleteAt(ledger, contract, lane, k);
    }
  }

  lemma PartKeepsLinked(ledger: Ledger, lane: Lane, part: Lane)
    requires Linked(ledger, lane.blocks) && PartOf(lane, part)
    ensures Linked(ledger, part.blocks)
  {
    PartBlocks(lane, part);
    forall b: nat ensures StoredLinkAt(ledger, part.blocks, b) {
      assert StoredLinkAt(ledger, lane.blocks, b);
    }
  }

  // ---------- batches against the naive index ----------

  /** Indexing one block at a time, the way a batch commit is meant to. */
  function AddBlock(ledger: Ledger, contract: Option<Address>, lane: Lane, n: nat, h: Hash): Lane {
    Lane(lane.blocks[n := h], lane.transfers + BlockIndex(ledger, contract, n, h))
  }

  function AddRange(ledger: Ledger, contract: Option<Address>, lane: Lane, c: View, lo: nat, hi: nat): Lane
    requires hi <= lo || hi <= |c|
    decreases hi
  {
    if hi <= lo then lane
    else AddBlock(ledger, contract, AddRange(ledger, contract, lane, c, lo, hi - 1), hi - 1, c[hi - 1])
  }

  /** The index of the blocks `lo..hi` (upper bound excluded) of a chain, with no batches and no lanes. */
  function NaiveIndex(ledger: Ledger, contract: Option<Address>, c: View, lo: nat, hi: nat): Lane
    requires hi <= lo || hi <= |c|
  {
    AddRange(ledger, contract, EMPTY_LANE, c, lo, hi)
  }

  lemma {:induction false} InsertTransfersSum(table: map<Key, Record>, a: seq<Record>, b: seq<Record>)
    ensures InsertTransfers(table, a + b) == InsertTransfers(InsertTransfers(table, a), b)
  {
    if b == [] {
      assert a + b == a;
    } else {
      assert (a + b)[..|a + b| - 1] == a + b[..|b| - 1];
      InsertTransfersSum(table, a, b[..|b| - 1]);
    }
  }

  lemma {:induction false} InsertTransfersApart(table: map<Key, Record>, records: seq<Record>, n: nat)
    requires forall k :: k in table ==> k.block != n
    requires forall r :: r in records ==> r.block == n
    ensures InsertTransfers(table, records) == table + InsertTransfers(map[], records)
  {
    if records != [] {
      InsertTransfersApart(table, records[..|records| - 1], n);
    }
  }

  lemma {:induction false} EventRecordsBlock(contract: Option<Address>, meta: BlockMeta, events: seq<EventLog>)
    ensures forall r :: r in EventRecords(contract, meta, events) ==> r.block == meta.number && r.blockHash == meta.hash
  {
    if events != [] {
      EventRecordsBlock(contract, meta, events[..|events| - 1]);
    }
  }

  lemma BlockIndexKeys(ledger: Ledger, contract: Option<Address>, n: nat, h: Hash)
    ensures forall k :: k in BlockIndex(ledger, contract, n, h) ==> k.block == n
    ensures forall k :: k in BlockIndex(ledger, contract, n, h) ==> BlockIndex(ledger, contract, n, h)[k].RowKey() == k
  {
    EventRecordsBlock(contract, MetaOf(ledger, n, h), ledger(h).events);
    InsertedTransfers(map[], BlockRecords(ledger, contract, n, h));
  }

  lemma {:induction false} AddRangeBlock(ledger: Ledger, contract: Option<Address>, lane: Lane, c: View, lo: nat,
                                         hi: nat, b: nat)
    requires lo <= hi <= |c|
    ensures var after := AddRange(ledger, contract, lane, c, lo, hi).blocks;
            && (b in after <==> b in lane.blocks || lo <= b < hi)
            && (b in after ==> after[b] == if lo <= b < hi then c[b] else lane.blocks[b])
    decreases hi
  {
    if lo < hi {
      AddRangeBlock(ledger, contract, lane, c, lo, hi - 1, b);
    }
  }

  lemma AddRangeBlocks(ledger: Ledger, contract: Option<Address>, lane: Lane, c: View, lo: nat, hi: nat)
    requires lo <= hi <= |c|
    ensures var after := AddRange(ledger, contract, lane, c, lo, hi).blocks;
            && (forall b: nat :: b in after <==> b in lane.blocks || lo <= b < hi)
            && (forall b: nat :: b in after ==> after[b] == if lo <= b < hi then c[b] else lane.blocks[b])
  {
    forall b: nat ensures var after := AddRange(ledger, contract, lane, c, lo, hi).blocks;
                          && (b in after <==> b in lane.blocks || lo <= b < hi)
                          && (b in after ==> after[b] == if lo <= b < hi then c[b] else lane.blocks[b])
    {
      AddRangeBlock(ledger, contract, lane, c, lo, hi, b);
    }
  }

  lemma {:induction false} AddRangeKey(ledger: Ledger, contract: Option<Address>, lane: Lane, c: View, lo: nat,
                                       hi: nat, k: Key)
    requires lo <= hi <= |c|
    requires k in AddRange(ledger, contract, lane, c, lo, hi).transfers
    ensures k in lane.transfers || lo <= k.block < hi
    decreases hi
  {
    if lo < hi && k in AddRange(ledger, contract, lane, c, lo, hi - 1).transfers {
      AddRangeKey(ledger, contract, lane, c, lo, hi - 1, k);
    } else if lo < hi {
      BlockIndexKeys(ledger, contract, hi - 1, c[hi - 1]);
    }
  }

  lemma InsertOneBlock(ledger: Ledger, contract: Option<Address>, table: map<Key, Record>, n: nat, h: Hash)
    requires forall k :: k in table ==> k.block != n
    ensures InsertTransfers(table, BlockRecords(ledger, contract, n, h)) == table + BlockIndex(ledger, contract, n, h)
  {
    EventRecordsBlock(contract, MetaOf(ledger, n, h), ledger(h).events);
    InsertTransfersApart(table, BlockRecords(ledger, contract, n, h), n);
  }

  lemma InsertOneRow(table: map<nat, Hash>, rows: seq<BlockRow>, row: BlockRow)
    ensures InsertBlocks(table, rows + [row]) == InsertBlocks(table, rows)[row.number := row.hash]
  {
    assert (rows + [row])[..|rows|] == rows;
  }

  /** One batch insert is the same as adding its blocks one by one. */
  lemma {:induction false} BatchIsNaive(ledger: Ledger, contract: Option<Address>, lane: Lane, c: View, lo: nat,
                                        hi: nat)
    requires lo <= hi <= |c|
    requires forall k :: k in lane.transfers ==> !(lo <= k.block < hi)
    ensures InsertBlocks(lane.blocks, RangeRows(c, lo, hi)) == AddRange(ledger, contract, lane, c, lo, hi).blocks
    ensures InsertTransfers(lane.transfers, RangeRecords(ledger, contract, c, lo, hi))
         == AddRange(ledger, contract, lane, c, lo, hi).transfers
    decreases hi
  {
    if lo < hi {
      var n := hi - 1;
      BatchIsNaive(ledger, contract, lane, c, lo, n);
      var before := AddRange(ledger, contract, lane, c, lo, n);
      forall k | k in before.transfers ensures k.block != n {
        AddRangeKey(ledger, contract, lane, c, lo, n, k);
      }
      assert RangeRows(c, lo, hi) == RangeRows(c, lo, n) + [BlockRow(n, c[n])];
      InsertOneRow(lane.blocks, RangeRows(c, lo, n), BlockRow(n, c[n]));
      InsertTransfersSum(lane.transfers, RangeRecords(ledger, contract, c, lo, n),
                         BlockRecords(ledger, contract, n, c[n]));
      InsertOneBlock(ledger, contract, before.transfers, n, c[n]);
    }
  }

  lemma AddBlockCompleteAt(ledger: Ledger, contract: Option<Address>, lane: Lane, n: nat, h: Hash, k: Key)
    requires CompleteAt(ledger, contract, lane, k)
    requires n !in lane.blocks
    ensures CompleteAt(ledger, contract, AddBlock(ledger, contract, lane, n, h), k)
  {
    BlockIndexKeys(ledger, contract, n, h);
  }

  lemma AddBlockKeepsComplete(ledger: Ledger, contract: Option<Address>, lane: Lane, n: nat, h: Hash)
    requires Complete(ledger, contract, lane) && n !in lane.blocks
    ensures Complete(ledger, contract, AddBlock(ledger, contract, lane, n, h))
  {
    forall k ensures CompleteAt(ledger, contract, AddBlock(ledger, contract, lane, n, h), k) {
      assert CompleteAt(ledger, contract, lane, k);
      AddBlockCompleteAt(ledger, contract, lane, n, h, k);
    }
  }

  lemma AddLastKeepsComplete(ledger: Ledger, contract: Option<Address>, lane: Lane, c: View, lo: nat, hi: nat)
    requires lo < hi <= |c| && hi - 1 !in lane.blocks
    requires Complete(ledger, contract, AddRange(ledger, contract, lane, c, lo, hi - 1))
    ensures Complete(ledger, contract, AddRange(ledger, contract, lane, c, lo, hi))
  {
    var n: nat := hi - 1;
    var before := AddRange(ledger, contract, lane, c, lo, n);
    assert n !in before.blocks by {
      AddRangeBlock(ledger, contract, lane, c, lo, n, n);
    }
    AddBlockKeepsComplete(ledger, contract, before, n, c[n]);
  }

  lemma {:induction false} AddRangeKeepsComplete(ledger: Ledger, contract: Option<Address>, lane: Lane, c: View,
                                                 lo: nat, hi: nat)
    requires lo <= hi <= |c|
    requires Complete(ledger, contract, lane)
    requires forall b :: lo <= b < hi ==> b !in lane.blocks
    ensures Complete(ledger, contract, AddRange(ledger, contract, lane, c, lo, hi))
    decreases hi
  {
    if lo < hi {
      AddRangeKeepsComplete(ledger, contract, lane, c, lo, hi - 1);
      AddLastKeepsComplete(ledger, contract, lane, c, lo, hi);
    }
  }

  /** Committing a range of a chain to a lane that has none of its blocks keeps the lane complete. */
  lemma InsertKeepsComplete(ledger: Ledger, contract: Option<Address>, lane: Lane, c: View, first: nat, last: nat)
    requires first <= last < |c|
    requires Complete(ledger, contract, lane)
    requires forall b :: first <= b <= last ==> b !in lane.blocks
    ensures Complete(ledger, contract, lane.Insert(RangePayload(ledger, contract, c, first, last)))
    ensures lane.Insert(RangePayload(ledger, contract, c, first, last))
         == AddRange(ledger, contract, lane, c, first, last + 1)
  {
    forall k | k in lane.transfers ensures !(first <= k.block < last + 1) {
      assert CompleteAt(ledger, contract, lane, k);
    }
    BatchIsNaive(ledger, contract, lane, c, first, last + 1);
    AddRangeKeepsComplete(ledger, contract, lane, c, first, last + 1);
  }

  /** The row is that of an event of the block with this number in the chain. */
  ghost predicate OnChainRow(ledger: Ledger, contract: Option<Address>, c: View, r: Record) {
    && r.block < |c|
    && Recorded(contract, MetaOf(ledger, r.block, c[r.block]), ledger(c[r.block]).events, r)
  }

  ghost predicate HasChainRow(ledger: Ledger, contract: Option<Address>, c: View, k: Key) {
    exists r: Record :: r.RowKey() == k && OnChainRow(ledger, contract, c, r)
  }

  lemma BlockIndexRows(ledger: Ledger, contract: Option<Address>, n: nat, h: Hash, k: Key)
    ensures k in BlockIndex(ledger, contract, n, h)
       <==> exists r: Record :: r.RowKey() == k && Recorded(contract, MetaOf(ledger, n, h), ledger(h).events, r)
    ensures k in BlockIndex(ledger, contract, n, h) ==>
              var r := BlockIndex(ledger, contract, n, h)[k];
              r.RowKey() == k && Recorded(contract, MetaOf(ledger, n, h), ledger(h).events, r)
  {
    var records := BlockRecords(ledger, contract, n, h);
    InsertedTransfers(map[], records);
    forall r ensures r in records <==> Recorded(contract, MetaOf(ledger, n, h), ledger(h).events, r) {
      EventRecordsExactly(contract, MetaOf(ledger, n, h), ledger(h).events, r);
    }
  }

  /**
   * The naive index holds exactly the rows of the transfer events of the indexed contract in the blocks of its range:
   * each key that some such event has, with a row that says what such an event and its block say.
   */
  lemma NaiveRows(ledger: Ledger, contract: Option<Address>, c: View, lo: nat, hi: nat, k: Key)
    requires lo <= hi <= |c|
    ensures var table := NaiveIndex(ledger, contract, c, lo, hi).transfers;
            && (k in table <==> lo <= k.block < hi && HasChainRow(ledger, contract, c, k))
            && (k in table ==> table[k].RowKey() == k && OnChainRow(ledger, contract, c, table[k]))
  {
    var lane := NaiveIndex(ledger, contract, c, lo, hi);
    EmptyIsComplete(ledger, contract);
    AddRangeKeepsComplete(ledger, contract, EMPTY_LANE, c, lo, hi);
    AddRangeBlocks(ledger, contract, EMPTY_LANE, c, lo, hi);
    assert CompleteAt(ledger, contract, lane, k);
    if lo <= k.block < hi {
      BlockIndexRows(ledger, contract, k.block, c[k.block], k);
    }
  }

  /** Complete lanes are determined by their block rows. */
  lemma CompleteLanesEqual(ledger: Ledger, contract: Option<Address>, a: Lane, b: Lane)
    requires Complete(ledger, contract, a) && Complete(ledger, contract, b)
    requires a.blocks == b.blocks
    ensures a == b
  {
    forall k ensures k in a.transfers <==> k in b.transfers
             ensures k in a.transfers ==> a.transfers[k] == b.transfers[k]
    {
      assert CompleteAt(ledger, contract, a, k) && CompleteAt(ledger, contract, b, k);
    }
  }

  lemma EmptyIsComplete(ledger: Ledger, contract: Option<Address>)
    ensures Complete(ledger, contract, EMPTY_LANE)
  {
    forall k ensures CompleteAt(ledger, contract, EMPTY_LANE, k) {}
  }

  /** A complete lane that holds exactly the blocks `lo..hi` of a chain is the naive index. */
  lemma CompleteIsNaive(ledger: Ledger, contract: Option<Address>, lane: Lane, c: View, lo: nat, hi: nat)
    requires lo == hi || lo <= hi <= |c|
    requires Complete(ledger, contract, lane)
    requires forall b: nat :: b in lane.blocks <==> lo <= b < hi
    requires Agrees(lane.blocks, c)
    ensures lane == NaiveIndex(ledger, contract, c, lo, hi)
  {
    EmptyIsComplete(ledger, contract);
    if lo < hi {
      AddRangeBlocks(ledger, contract, EMPTY_LANE, c, lo, hi);
      AddRangeKeepsComplete(ledger, contract, EMPTY_LANE, c, lo, hi);
    }
    forall b | b in lane.blocks ensures lane.blocks[b] == c[b] {
      assert AgreesAt(lane.blocks, c, b);
    }
    CompleteLanesEqual(ledger, contract, lane, NaiveIndex(ledger, contract, c, lo, hi));
  }

  lemma {:induction false} InsertGrowth(table: map<Key, Record>, records: seq<Record>)
    ensures |table| <= |InsertTransfers(table, records)| <= |table| + |records|
  {
    if records != [] {
      InsertGrowth(table, records[..|records| - 1]);
    }
  }

  /** The keys of a list of records. */
  function KeysOf(records: seq<Record>): (keys: set<Key>)
    ensures forall k :: k in keys <==> exists r :: r in records && r.RowKey() == k
  {
    set r | r in records :: r.RowKey()
  }

  /** With no conflicting row in the table, an insert adds one row per distinct key. */
  lemma InsertCountsKeys(table: map<Key, Record>, records: seq<Record>)
    requires forall r :: r in records ==> r.RowKey() !in table
    ensures |InsertTransfers(table, records)| == |table| + |KeysOf(records)|
  {
    var after := InsertTransfers(table, records);
    InsertedTransfers(table, records);
    assert after.Keys == table.Keys + KeysOf(records);
    assert table.Keys !! KeysOf(records);
    assert |after| == |after.Keys| && |table| == |table.Keys|;
  }
}
