/** The RPC provider as the workers see it. */
module Rpc {
  import opened Types
  import opened Decoder
  import opened Chain
  import opened Payload

  /**
   * Every call may get any answer, or none after the retries: the answer tables are arbitrary functions of the
   * call's number and arguments.
   */
  class Provider {
    const heads: nat -> Option<nat>
    const headers: (nat, nat) -> Option<(Hash, nat)>
    const logs: (nat, Option<Address>, nat, nat) -> Option<seq<RpcLog>>
    var calls: nat
    ghost var faults: nat  // how many calls so far had no answer, or one with an incomplete log

    constructor (heads: nat -> Option<nat>, headers: (nat, nat) -> Option<(Hash, nat)>,
                 logs: (nat, Option<Address>, nat, nat) -> Option<seq<RpcLog>>)
      ensures this.heads == heads && this.headers == headers && this.logs == logs && calls == 0 && faults == 0
    {
      this.heads, this.headers, this.logs, calls, faults := heads, headers, logs, 0, 0;
    }

    /** The `k`-th call shows the chain `c`. */
    ghost predicate ShowsAt(ledger: Ledger, c: View, k: nat) {
      && heads(k) == Some(Head(c))
      && (forall n: nat :: headers(k, n) == if n < |c| then Some((c[n], ledger(c[n]).timestamp)) else None)
      && (forall filter: Option<Address>, first: nat, last: nat ::
            logs(k, filter, first, last) == Some(RangeLogs(ledger, filter, c, first, last + 1)))
    }

    /** All calls from number `from` up to number `to` show the chain `c`. */
    ghost predicate Shows(ledger: Ledger, c: View, from: nat, to: nat) {
      forall k: nat :: from <= k < to ==> ShowsAt(ledger, c, k)
    }

    // ---------- what a range build is told, for any answers ----------

    /** In a build that began with the `k`-th call: is the header of its block number `i` answered? */
    ghost predicate HeaderAnswered(k: nat, first: nat, i: nat) {
      headers(k + i, first + i).Some?
    }

    ghost predicate HeadersAnswered(k: nat, first: nat, count: nat) {
      forall i: nat :: i < count ==> HeaderAnswered(k, first, i)
    }

    /** The header of block `n` as the `k`-th call answered it. */
    ghost function HeaderAt(k: nat, n: nat): BlockMeta {
      match headers(k, n)
      case None => BlockMeta(n, Hash(0), 0)
      case Some((hash, timestamp)) => BlockMeta(n, hash, timestamp)
    }

    ghost function HeadersAt(k: nat, first: nat, count: nat): (metas: seq<BlockMeta>)
      ensures |metas| == count && Consecutive(metas, first)
    {
      if count == 0 then [] else HeadersAt(k, first, count - 1) + [HeaderAt(k + count - 1, first + count - 1)]
    }

    /** When the calls show a chain, these are the headers of its blocks. */
    lemma {:induction false} HeadersOfChain(ledger: Ledger, c: View, k: nat, first: nat, count: nat)
      requires Shows(ledger, c, k, k + count) && HeadersAnswered(k, first, count)
      ensures count > 0 ==> first + count <= |c|
      ensures count > 0 ==> HeadersAt(k, first, count) == RangeMetas(ledger, c, first, first + count)
    {
      if count > 0 {
        var n := first + count - 1;
        HeadersOfChain(ledger, c, k, first, count - 1);
        assert ShowsAt(ledger, c, k + count - 1) && HeaderAnswered(k, first, count - 1);
        RangeMetasSnoc(ledger, c, first, n);
      }
    }

    /** The log query of a build that began with the `k`-th call. */
    ghost function LogsAt(k: nat, filter: Option<Address>, first: nat, last: nat): Option<seq<RpcLog>>
      requires first <= last
    {
      logs(k + (last - first) + 1, filter, first, last)
    }

    /** Every call of the build is answered, and every log has what the build needs. */
    ghost predicate CanBuild(k: nat, filter: Option<Address>, first: nat, last: nat)
      requires first <= last
    {
      && HeadersAnswered(k, first, last - first + 1)
      && LogsAt(k, filter, first, last).Some?
      && AllWhole(LogsAt(k, filter, first, last).value, first, last)
    }

    /** The payload says what the answers say: a row for each header, and a record for each transfer log, in order. */
    ghost predicate Builds(k: nat, filter: Option<Address>, first: nat, last: nat, p: Payload)
      requires first <= last
    {
      && CanBuild(k, filter, first, last)
      && var metas := HeadersAt(k, first, last - first + 1);
         && p.blocks == Rows(metas)
         && DescribedInOrder(ByNumber(metas), LogsAt(k, filter, first, last).value, p.records)
    }

    /**
     * The build, as a function of the answers, fails exactly when it cannot be made of them, and says what they say.
     */
    lemma AnswersDecide(k: nat, filter: Option<Address>, first: nat, last: nat)
      requires first <= last
      requires HeadersAnswered(k, first, last - first + 1) && LogsAt(k, filter, first, last).Some?
      ensures var r := BuildRange(HeadersAt(k, first, last - first + 1), LogsAt(k, filter, first, last).value);
              && (r.Ok? <==> AllWhole(LogsAt(k, filter, first, last).value, first, last))
              && (r.Ok? <==> CanBuild(k, filter, first, last))
              && (r.Ok? ==> Builds(k, filter, first, last, r.value))
    {
      var metas, logs := HeadersAt(k, first, last - first + 1), LogsAt(k, filter, first, last).value;
      WholeIsComplete(metas, first, last, logs);
      BuildsExactly(metas, first, logs);
    }

    /** When the calls show a chain, the build is that chain's range. */
    lemma BuildShown(ledger: Ledger, filter: Option<Address>, c: View, k: nat, first: nat, last: nat)
      requires first <= last && Shows(ledger, c, k, k + (last - first) + 2)
      requires HeadersAnswered(k, first, last - first + 1) && LogsAt(k, filter, first, last).Some?
      ensures last < |c|
      ensures BuildRange(HeadersAt(k, first, last - first + 1), LogsAt(k, filter, first, last).value)
           == Ok(RangePayload(ledger, filter, c, first, last))
    {
      HeadersOfChain(ledger, c, k, first, last - first + 1);
      assert ShowsAt(ledger, c, k + (last - first) + 1);
      BuildOfChain(ledger, filter, c, first, last);
    }

    // ---------- the calls ----------

    method LatestBlockNumber() returns (head: Option<nat>)
      modifies this
      ensures calls == old(calls) + 1
      ensures head == heads(old(calls))
      ensures faults == old(faults) + if head.None? then 1 else 0
    {
      head := heads(calls);
      calls := calls + 1;
      faults := faults + if head.None? then 1 else 0;
    }

    /** The answer is labelled with the requested number. */
    method BlockMetadata(n: nat) returns (meta: Option<BlockMeta>)
      modifies this
      ensures calls == old(calls) + 1
      ensures meta == match headers(old(calls), n)
                      case None => None
                      case Some((hash, timestamp)) => Some(BlockMeta(n, hash, timestamp))
      ensures faults == old(faults) + if meta.None? then 1 else 0
    {
      meta := match headers(calls, n)
              case None => None
              case Some((hash, timestamp)) => Some(BlockMeta(n, hash, timestamp));
      calls := calls + 1;
      faults := faults + if meta.None? then 1 else 0;
    }

    /** `eth_getLogs` for a range, for one contract or for all. */
    method TransferLogs(filter: Option<Address>, first: nat, last: nat) returns (answer: Option<seq<RpcLog>>)
      modifies this
      ensures calls == old(calls) + 1
      ensures answer == logs(old(calls), filter, first, last)
      ensures faults == old(faults) + if answer.Some? && AllWhole(answer.value, first, last) then 0 else 1
    {
      answer := logs(calls, filter, first, last);
      calls := calls + 1;
      faults := faults + if answer.Some? && AllWhole(answer.value, first, last) then 0 else 1;
    }
  }
}
