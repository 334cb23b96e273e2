/**
 * Turning RPC answers into rows: what one range build produces, and the naive index of a chain that the
 * stored lanes are compared with.
 */
module Payload {
  import opened Types
  import opened Decoder
  import opened Chain

  datatype Key = Key(txn: Hash, index: int, block: nat)

  datatype Record = Record(block: nat, blockHash: Hash, txn: Hash, index: int,
                           contract: Address, from: Address, to: Address, value: nat, timestamp: int)
  {
    /** The primary key of both transfer tables. */
    function RowKey(): Key {
      Key(txn, index, block)
    }
  }

  datatype BlockMeta = BlockMeta(number: nat, hash: Hash, timestamp: nat)

  datatype RpcLog = RpcLog(block: Option<nat>, txn: Option<Hash>, index: Option<nat>, data: LogData)

  datatype MissingField = BlockNumber | TransactionHash | BlockHash | LogIndex

  datatype BlockRow = BlockRow(number: nat, hash: Hash)

  datatype Payload = Payload(records: seq<Record>, blocks: seq<BlockRow>)

  /** The shape that every finished range build has, whatever the provider answered. */
  predicate ValidPayload(p: Payload, first: nat, last: nat) {
    && first <= last
    && |p.blocks| == last - first + 1
    && (forall i :: 0 <= i < |p.blocks| ==> p.blocks[i].number == first + i)
    && (forall r :: r in p.records ==> RecordFits(r, p.blocks, first))
  }

  /** A record carries the number and the hash of one of the block rows. */
  predicate RecordFits(r: Record, blocks: seq<BlockRow>, first: nat) {
    && first <= r.block < first + |blocks|
    && r.blockHash == blocks[r.block - first].hash
  }

  // ---------- the build, as a function of the answers ----------

  function MakeRecord(meta: BlockMeta, txn: Hash, index: nat, log: LogData, t: Transfer): Record {
    Record(meta.number, meta.hash, txn, AsI32(index), log.address, t.from, t.to, t.value, AsI64(meta.timestamp))
  }

  /** The record of one log: none for a log that is no ERC-20 transfer, an error for an incomplete one. */
  function DecodeLog(meta: map<nat, BlockMeta>, log: RpcLog): Result<Option<Record>, MissingField> {
    if log.block.None? then Err(BlockNumber)
    else
      match DecodeErc20Transfer(log.data)
      case None => Ok(None)
      case Some(t) =>
        if log.txn.None? then Err(TransactionHash)
        else if log.block.value !in meta then Err(BlockHash)
        else if log.index.None? then Err(LogIndex)
        else Ok(Some(MakeRecord(meta[log.block.value], log.txn.value, log.index.value, log.data, t)))
  }

  function DecodeLogs(meta: map<nat, BlockMeta>, logs: seq<RpcLog>): Result<seq<Record>, MissingField> {
    if logs == [] then Ok([])
    else Append(DecodeLogs(meta, logs[..|logs| - 1]), DecodeLog(meta, logs[|logs| - 1]))
  }

  /** The first error ends the build. */
  function Append(records: Result<seq<Record>, MissingField>, next: Result<Option<Record>, MissingField>)
    : Result<seq<Record>, MissingField>
  {
    match records
    case Err(e) => Err(e)
    case Ok(rs) =>
      match next
      case Err(e) => Err(e)
      case Ok(None) => Ok(rs)
      case Ok(Some(r)) => Ok(rs + [r])
  }

  lemma DecodeLogsSnoc(meta: map<nat, BlockMeta>, logs: seq<RpcLog>, log: RpcLog)
    ensures DecodeLogs(meta, logs + [log]) == Append(DecodeLogs(meta, logs), DecodeLog(meta, log))
  {
    assert (logs + [log])[..|logs|] == logs;
  }

  predicate Consecutive(metas: seq<BlockMeta>, first: nat) {
    forall i :: 0 <= i < |metas| ==> metas[i].number == first + i
  }

  function Rows(metas: seq<BlockMeta>): (rows: seq<BlockRow>)
    ensures |rows| == |metas|
    ensures forall i :: 0 <= i < |rows| ==> rows[i] == BlockRow(metas[i].number, metas[i].hash)
  {
    if metas == [] then []
    else Rows(metas[..|metas| - 1]) + [BlockRow(metas[|metas| - 1].number, metas[|metas| - 1].hash)]
  }

  /** The lookup tables that the build makes from the block answers. */
  function ByNumber(metas: seq<BlockMeta>): map<nat, BlockMeta> {
    if metas == [] then map[]
    else ByNumber(metas[..|metas| - 1])[metas[|metas| - 1].number := metas[|metas| - 1]]
  }

  lemma {:induction false} ByNumberFinds(metas: seq<BlockMeta>, first: nat)
    requires Consecutive(metas, first)
    ensures forall b: nat :: b in ByNumber(metas) <==> first <= b < first + |metas|
    ensures forall b: nat :: first <= b < first + |metas| ==> ByNumber(metas)[b] == metas[b - first]
  {
    if metas != [] {
      ByNumberFinds(metas[..|metas| - 1], first);
    }
  }

  lemma {:induction false} DecodedFit(metas: seq<BlockMeta>, first: nat, logs: seq<RpcLog>)
    requires Consecutive(metas, first)
    requires DecodeLogs(ByNumber(metas), logs).Ok?
    ensures forall r :: r in DecodeLogs(ByNumber(metas), logs).value ==> RecordFits(r, Rows(metas), first)
  {
    if logs != [] {
      DecodedFit(metas, first, logs[..|logs| - 1]);
      ByNumberFinds(metas, first);
    }
  }

  /** The whole build, as a function of the answers. */
  function BuildRange(metas: seq<BlockMeta>, logs: seq<RpcLog>): Result<Payload, MissingField> {
    match DecodeLogs(ByNumber(metas), logs)
    case Ok(records) => Ok(Payload(records, Rows(metas)))
    case Err(field) => Err(field)
  }

  /** Whatever logs arrive, even from another chain than the blocks, the finished payload is consistent. */
  lemma BuildIsValid(metas: seq<BlockMeta>, first: nat, last: nat, logs: seq<RpcLog>)
    requires first <= last && |metas| == last - first + 1 && Consecutive(metas, first)
    requires DecodeLogs(ByNumber(metas), logs).Ok?
    ensures ValidPayload(Payload(DecodeLogs(ByNumber(metas), logs).value, Rows(metas)), first, last)
  {
    DecodedFit(metas, first, logs);
  }

  /** A log with everything that the build needs of it; logs of other events need only a block number. */
  predicate CompleteLog(meta: map<nat, BlockMeta>, log: RpcLog) {
    && log.block.Some?
    && (DecodeErc20Transfer(log.data).Some? ==> log.txn.Some? && log.index.Some? && log.block.value in meta)
  }

  /** The same, said of a range of blocks whose headers are all there. */
  predicate WholeLog(log: RpcLog, first: nat, last: nat) {
    && log.block.Some?
    && (DecodeErc20Transfer(log.data).Some? ==> log.txn.Some? && log.index.Some? && first <= log.block.value <= last)
  }

  ghost predicate AllWhole(logs: seq<RpcLog>, first: nat, last: nat) {
    forall log :: log in logs ==> WholeLog(log, first, last)
  }

  lemma WholeIsComplete(metas: seq<BlockMeta>, first: nat, last: nat, logs: seq<RpcLog>)
    requires first <= last && |metas| == last - first + 1 && Consecutive(metas, first)
    ensures AllWhole(logs, first, last) <==> forall log :: log in logs ==> CompleteLog(ByNumber(metas), log)
  {
    ByNumberFinds(metas, first);
    forall log ensures WholeLog(log, first, last) <==> CompleteLog(ByNumber(metas), log) {
    }
  }

  /** The row says what the log and its block say. */
  ghost predicate Describes(meta: map<nat, BlockMeta>, log: RpcLog, r: Record) {
    && CompleteLog(meta, log)
    && DecodeErc20Transfer(log.data) == Some(Transfer(r.from, r.to, r.value))
    && log.txn == Some(r.txn) && AsI32(log.index.value) == r.index && log.data.address == r.contract
    && log.block.value == r.block && meta[log.block.value].hash == r.blockHash
    && AsI64(meta[log.block.value].timestamp) == r.timestamp
  }

  /**
   * The build fails exactly when some log is incomplete; otherwise its rows describe exactly the transfer logs, in
   * order.
   */
  lemma {:induction false} BuildsExactly(metas: seq<BlockMeta>, first: nat, logs: seq<RpcLog>)
    requires Consecutive(metas, first)
    ensures DecodeLogs(ByNumber(metas), logs).Ok? <==> forall log :: log in logs ==> CompleteLog(ByNumber(metas), log)
    ensures DecodeLogs(ByNumber(metas), logs).Ok? ==>
              DescribedInOrder(ByNumber(metas), logs, DecodeLogs(ByNumber(metas), logs).value)
  {
    if logs != [] {
      var n := |logs| - 1;
      var meta := ByNumber(metas);
      ByNumberFinds(metas, first);
      BuildsExactly(metas, first, logs[..n]);
      assert logs == logs[..n] + [logs[n]];
      assert DecodeLog(meta, logs[n]).Ok? <==> CompleteLog(meta, logs[n]);
      if DecodeLogs(meta, logs).Ok? && DecodeLog(meta, logs[n]).value.Some? {
        var records := DecodeLogs(meta, logs).value;
        assert records[..|records| - 1] == DecodeLogs(meta, logs[..n]).value;
      }
    }
  }

  ghost predicate DescribedInOrder(meta: map<nat, BlockMeta>, logs: seq<RpcLog>, records: seq<Record>) {
    if logs == [] then records == []
    else
      var before, log := logs[..|logs| - 1], logs[|logs| - 1];
      if DecodeErc20Transfer(log.data).None? then DescribedInOrder(meta, before, records)
      else
        && records != [] && Describes(meta, log, records[|records| - 1])
        && DescribedInOrder(meta, before, records[..|records| - 1])
  }

  // ---------- the naive index of a chain ----------

  predicate Wanted(contract: Option<Address>, data: LogData) {
    contract.None? || data.address == contract.value
  }

  /** The rows of a block's first events, in log order. */
  function EventRecords(contract: Option<Address>, meta: BlockMeta, events: seq<EventLog>): seq<Record> {
    if events == [] then []
    else
      var e := events[|events| - 1];
      EventRecords(contract, meta, events[..|events| - 1]) +
      if Wanted(contract, e.data) && DecodeErc20Transfer(e.data).Some? then
        [MakeRecord(meta, e.txn, e.index, e.data, DecodeErc20Transfer(e.data).value)]
      else []
  }

  /** The row says what the event and its block say, and the event is one of the contract that is indexed. */
  ghost predicate RecordsEvent(contract: Option<Address>, meta: BlockMeta, e: EventLog, r: Record) {
    && (contract == None || contract == Some(e.data.address))
    && DecodeErc20Transfer(e.data) == Some(Transfer(r.from, r.to, r.value))
    && r.contract == e.data.address && r.txn == e.txn && r.index == AsI32(e.index)
    && r.block == meta.number && r.blockHash == meta.hash && r.timestamp == AsI64(meta.timestamp)
  }

  ghost predicate Recorded(contract: Option<Address>, meta: BlockMeta, events: seq<EventLog>, r: Record) {
    exists e :: e in events && RecordsEvent(contract, meta, e, r)
  }

  /** A block's rows are exactly those of its transfer events of the indexed contract. */
  lemma {:induction false} EventRecordsExactly(contract: Option<Address>, meta: BlockMeta, events: seq<EventLog>,
                                               r: Record)
    ensures r in EventRecords(contract, meta, events) <==> Recorded(contract, meta, events, r)
  {
    if events != [] {
      var n := |events| - 1;
      EventRecordsExactly(contract, meta, events[..n], r);
      assert events == events[..n] + [events[n]];
      assert Recorded(contract, meta, events, r)
        <==> Recorded(contract, meta, events[..n], r) || RecordsEvent(contract, meta, events[n], r);
    }
  }

  function MetaOf(ledger: Ledger, n: nat, h: Hash): BlockMeta {
    BlockMeta(n, h, ledger(h).timestamp)
  }

  function BlockRecords(ledger: Ledger, contract: Option<Address>, n: nat, h: Hash): seq<Record> {
    EventRecords(contract, MetaOf(ledger, n, h), ledger(h).events)
  }

  /** The rows of the blocks `lo..hi` (upper bound excluded) of a chain. */
  function RangeRecords(ledger: Ledger, contract: Option<Address>, c: View, lo: nat, hi: nat): seq<Record>
    requires hi <= |c|
    decreases hi
  {
    if hi <= lo then []
    else RangeRecords(ledger, contract, c, lo, hi - 1) + BlockRecords(ledger, contract, hi - 1, c[hi - 1])
  }

  function RangeRows(c: View, lo: nat, hi: nat): (rows: seq<BlockRow>)
    requires lo <= hi <= |c|
    ensures |rows| == hi - lo
    ensures forall i :: 0 <= i < hi - lo ==> rows[i] == BlockRow(lo + i, c[lo + i])
    decreases hi
  {
    if lo == hi then [] else RangeRows(c, lo, hi - 1) + [BlockRow(hi - 1, c[hi - 1])]
  }

  function RangePayload(ledger: Ledger, contract: Option<Address>, c: View, first: nat, last: nat): Payload
    requires first <= last < |c|
  {
    Payload(RangeRecords(ledger, contract, c, first, last + 1), RangeRows(c, first, last + 1))
  }

  // ---------- what the provider answers from one chain ----------

  function RangeMetas(ledger: Ledger, c: View, lo: nat, hi: nat): (metas: seq<BlockMeta>)
    requires lo <= hi <= |c|
    ensures |metas| == hi - lo
    ensures forall i :: 0 <= i < hi - lo ==> metas[i] == MetaOf(ledger, lo + i, c[lo + i])
    decreases hi
  {
    if lo == hi then [] else RangeMetas(ledger, c, lo, hi - 1) + [MetaOf(ledger, hi - 1, c[hi - 1])]
  }

  lemma RangeMetasSnoc(ledger: Ledger, c: View, lo: nat, hi: nat)
    requires lo <= hi < |c|
    ensures RangeMetas(ledger, c, lo, hi + 1)
         == RangeMetas(ledger, c, lo, hi) + [BlockMeta(hi, c[hi], ledger(c[hi]).timestamp)]
  {
  }

  /** `eth_getLogs` of one block: the Transfer signature and the contract are filtered by the provider. */
  function BlockLogs(contract: Option<Address>, n: nat, events: seq<EventLog>): seq<RpcLog> {
    if events == [] then []
    else
      var e := events[|events| - 1];
      BlockLogs(contract, n, events[..|events| - 1]) +
      if Wanted(contract, e.data) && e.data.topics != [] && e.data.topics[0] == TRANSFER_SIGNATURE then
        [RpcLog(Some(n), Some(e.txn), Some(e.index), e.data)]
      else []
  }

  function RangeLogs(ledger: Ledger, contract: Option<Address>, c: View, lo: nat, hi: nat): seq<RpcLog>
    decreases hi
  {
    if hi <= lo then []
    else RangeLogs(ledger, contract, c, lo, hi - 1) +
         if hi <= |c| then BlockLogs(contract, hi - 1, ledger(c[hi - 1]).events) else []
  }

  lemma {:induction false} DecodeLogsOfSum(meta: map<nat, BlockMeta>, a: seq<RpcLog>, b: seq<RpcLog>)
    requires DecodeLogs(meta, a).Ok? && DecodeLogs(meta, b).Ok?
    ensures DecodeLogs(meta, a + b) == Ok(DecodeLogs(meta, a).value + DecodeLogs(meta, b).value)
  {
    if b == [] {
      assert a + b == a;
      assert DecodeLogs(meta, a).value + [] == DecodeLogs(meta, a).value;
    } else {
      var n := |b| - 1;
      DecodeLogsOfSum(meta, a, b[..n]);
      DecodeLogsSnoc(meta, a + b[..n], b[n]);
      assert a + b == a + b[..n] + [b[n]];
      var left, right := DecodeLogs(meta, a).value, DecodeLogs(meta, b[..n]).value;
      match DecodeLog(meta, b[n]) {
        case Ok(Some(r)) => assert left + right + [r] == left + (right + [r]);
        case Ok(None) =>
      }
    }
  }

  lemma AppendLogs(meta: map<nat, BlockMeta>, a: seq<RpcLog>, b: seq<RpcLog>, left: seq<Record>, right: seq<Record>)
    requires DecodeLogs(meta, a) == Ok(left) && DecodeLogs(meta, b) == Ok(right)
    ensures DecodeLogs(meta, a + b) == Ok(left + right)
  {
    DecodeLogsOfSum(meta, a, b);
  }

  lemma {:induction false} DecodeBlockLogs(meta: map<nat, BlockMeta>, contract: Option<Address>, n: nat,
                                           events: seq<EventLog>)
    requires n in meta
    ensures DecodeLogs(meta, BlockLogs(contract, n, events)) == Ok(EventRecords(contract, meta[n], events))
  {
    if events != [] {
      var e := events[|events| - 1];
      var before := BlockLogs(contract, n, events[..|events| - 1]);
      var records := EventRecords(contract, meta[n], events[..|events| - 1]);
      var log := RpcLog(Some(n), Some(e.txn), Some(e.index), e.data);
      DecodeBlockLogs(meta, contract, n, events[..|events| - 1]);
      DecodeLogsSnoc(meta, before, log);
      assert before + [] == before && records + [] == records;
    }
  }

  lemma DecodeLastBlock(ledger: Ledger, contract: Option<Address>, c: View, first: nat, hi: nat, meta: map<nat,
                        BlockMeta>)
    requires first < hi <= |c| && hi - 1 in meta && meta[hi - 1] == MetaOf(ledger, hi - 1, c[hi - 1])
    requires DecodeLogs(meta, RangeLogs(ledger, contract, c, first, hi - 1))
          == Ok(RangeRecords(ledger, contract, c, first, hi - 1))
    ensures DecodeLogs(meta, RangeLogs(ledger, contract, c, first, hi))
         == Ok(RangeRecords(ledger, contract, c, first, hi))
  {
    DecodeBlockLogs(meta, contract, hi - 1, ledger(c[hi - 1]).events);
    AppendLogs(meta, RangeLogs(ledger, contract, c, first, hi - 1),
               BlockLogs(contract, hi - 1, ledger(c[hi - 1]).events),
               RangeRecords(ledger, contract, c, first, hi - 1), BlockRecords(ledger, contract, hi - 1, c[hi - 1]));
  }

  lemma {:induction false} DecodeRangeLogs(ledger: Ledger, contract: Option<Address>, c: View,
                                           first: nat, hi: nat, meta: map<nat, BlockMeta>)
    requires first <= hi <= |c|
    requires forall b: nat :: first <= b < hi ==> b in meta && meta[b] == MetaOf(ledger, b, c[b])
    ensures DecodeLogs(meta, RangeLogs(ledger, contract, c, first, hi))
         == Ok(RangeRecords(ledger, contract, c, first, hi))
    decreases hi
  {
    if first < hi {
      DecodeRangeLogs(ledger, contract, c, first, hi - 1, meta);
      DecodeLastBlock(ledger, contract, c, first, hi, meta);
    }
  }

  lemma MetasOfRange(ledger: Ledger, c: View, first: nat, hi: nat)
    requires first <= hi <= |c|
    ensures Consecutive(RangeMetas(ledger, c, first, hi), first)
    ensures Rows(RangeMetas(ledger, c, first, hi)) == RangeRows(c, first, hi)
    ensures forall b: nat :: first <= b < hi ==>
              && b in ByNumber(RangeMetas(ledger, c, first, hi))
              && ByNumber(RangeMetas(ledger, c, first, hi))[b] == MetaOf(ledger, b, c[b])
  {
    var metas := RangeMetas(ledger, c, first, hi);
    ByNumberFinds(metas, first);
  }

  /** When all answers come from one chain, the build is exactly that chain's range. */
  lemma BuildIsRange(ledger: Ledger, contract: Option<Address>, c: View, first: nat, last: nat)
    requires first <= last < |c|
    ensures DecodeLogs(ByNumber(RangeMetas(ledger, c, first, last + 1)),
                       RangeLogs(ledger, contract, c, first, last + 1))
         == Ok(RangeRecords(ledger, contract, c, first, last + 1))
    ensures ValidPayload(RangePayload(ledger, contract, c, first, last), first, last)
  {
    var metas := RangeMetas(ledger, c, first, last + 1);
    MetasOfRange(ledger, c, first, last + 1);
    DecodeRangeLogs(ledger, contract, c, first, last + 1, ByNumber(metas));
    BuildIsValid(metas, first, last, RangeLogs(ledger, contract, c, first, last + 1));
  }

  lemma BuildOfChain(ledger: Ledger, contract: Option<Address>, c: View, first: nat, last: nat)
    requires first <= last < |c|
    ensures BuildRange(RangeMetas(ledger, c, first, last + 1), RangeLogs(ledger, contract, c, first, last + 1))
         == Ok(RangePayload(ledger, contract, c, first, last))
  {
    BuildIsRange(ledger, contract, c, first, last);
    MetasOfRange(ledger, c, first, last + 1);
  }
}
