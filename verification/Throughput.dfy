/** The rolling throughput window: per-second buckets, pruned at the front. */
module Throughput {
  import opened Types

  /** A second with what was recorded in it: an entry of the deque, or one record call. */
  datatype Bucket = Bucket(second: nat, blocks: nat, events: nat)

  /** The two rates, exact. */
  datatype Snapshot = Snapshot(blocksPerSecond: real, eventsPerSecond: real)

  /** A record of this second is younger than the window at the time `now`. */
  predicate InWindow(second: nat, now: nat, window: nat) {
    now < second + window
  }

  /** The seconds of the window that ends at `now`, from a first second on. */
  ghost function WindowFrom(first: nat, now: nat, window: nat): set<nat> {
    set second: nat | first <= second <= now && InWindow(second, now, window)
  }

  /** The window has its length: it holds `window` seconds, the current one included, unless time is younger. */
  lemma WindowSize(first: nat, now: nat, window: nat)
    requires window >= 1
    ensures |WindowFrom(first, now, window)| == Min(SatSub(now + 1, first), window)
  {
    var from := Max(first, SatSub(now + 1, window));
    WindowIsInterval(first, now, window, from);
    if from <= now + 1 {
      IntervalSize(from, now + 1);
    }
  }

  lemma WindowIsInterval(first: nat, now: nat, window: nat, from: nat)
    requires window >= 1 && from == Max(first, SatSub(now + 1, window))
    ensures WindowFrom(first, now, window) == if from <= now + 1 then Interval(from, now + 1) else {}
  {
    forall second: nat ensures second in WindowFrom(first, now, window) <==> from <= second < now + 1 {
    }
  }

  function Blocks(records: seq<Bucket>): nat {
    if records == [] then 0 else Blocks(records[..|records| - 1]) + records[|records| - 1].blocks
  }

  function Events(records: seq<Bucket>): nat {
    if records == [] then 0 else Events(records[..|records| - 1]) + records[|records| - 1].events
  }

  lemma {:induction false} TotalsOfSum(a: seq<Bucket>, b: seq<Bucket>)
    ensures Blocks(a + b) == Blocks(a) + Blocks(b) && Events(a + b) == Events(a) + Events(b)
  {
    if b == [] {
      assert a + b == a;
    } else {
      TotalsOfSum(a, b[..|b| - 1]);
      assert (a + b)[..|a + b| - 1] == a + b[..|b| - 1];
    }
  }

  // ---------- the deque as a grouping of records ----------

  /** What one record call does to the back of the deque. */
  function WithRecord(buckets: seq<Bucket>, e: Bucket): seq<Bucket> {
    var n := |buckets|;
    if n > 0 && buckets[n - 1].second == e.second then
      buckets[n - 1 := Bucket(e.second, buckets[n - 1].blocks + e.blocks, buckets[n - 1].events + e.events)]
    else
      buckets + [e]
  }

  /** The bucket adds up these records of one second. */
  ghost predicate Holds(bucket: Bucket, run: seq<Bucket>) {
    && run != [] && (forall i :: 0 <= i < |run| ==> run[i].second == bucket.second)
    && bucket.blocks == Blocks(run) && bucket.events == Events(run)
  }

  ghost predicate HoldsAt(buckets: seq<Bucket>, runs: seq<seq<Bucket>>, i: nat) {
    i < |buckets| && i < |runs| ==> Holds(buckets[i], runs[i])
  }

  ghost predicate HoldsAll(buckets: seq<Bucket>, runs: seq<seq<Bucket>>) {
    |buckets| == |runs| && forall i: nat :: HoldsAt(buckets, runs, i)
  }

  ghost function Flat(runs: seq<seq<Bucket>>): seq<Bucket> {
    if runs == [] then [] else Flat(runs[..|runs| - 1]) + runs[|runs| - 1]
  }

  lemma {:induction false} FlatFront(runs: seq<seq<Bucket>>)
    requires runs != []
    ensures Flat(runs) == runs[0] + Flat(runs[1..])
  {
    var n := |runs| - 1;
    if n > 0 {
      FlatFront(runs[..n]);
      assert runs[1..][..n - 1] == runs[..n][1..];
    }
  }

  /** Grouping loses nothing. */
  lemma {:induction false} GroupingKeepsTotals(buckets: seq<Bucket>, runs: seq<seq<Bucket>>)
    requires HoldsAll(buckets, runs)
    ensures Blocks(buckets) == Blocks(Flat(runs)) && Events(buckets) == Events(Flat(runs))
  {
    if runs != [] {
      var n: nat := |runs| - 1;
      forall i: nat ensures HoldsAt(buckets[..n], runs[..n], i) {
        assert HoldsAt(buckets, runs, i);
      }
      GroupingKeepsTotals(buckets[..n], runs[..n]);
      TotalsOfSum(Flat(runs[..n]), runs[n]);
      assert HoldsAt(buckets, runs, n);
    }
  }

  /** The runs after one more record. */
  ghost function RunsWith(runs: seq<seq<Bucket>>, e: Bucket, merge: bool): seq<seq<Bucket>>
    requires merge ==> runs != []
  {
    if merge then runs[..|runs| - 1] + [runs[|runs| - 1] + [e]] else runs + [[e]]
  }

  lemma FlatWith(runs: seq<seq<Bucket>>, e: Bucket, merge: bool)
    requires merge ==> runs != []
    ensures Flat(RunsWith(runs, e, merge)) == Flat(runs) + [e]
  {
    var more := RunsWith(runs, e, merge);
    if merge {
      assert more[..|more| - 1] == runs[..|runs| - 1];
      assert Flat(more) == Flat(runs[..|runs| - 1]) + (runs[|runs| - 1] + [e]);
    } else {
      assert more[..|more| - 1] == runs;
    }
  }

  lemma HoldsOneMore(bucket: Bucket, run: seq<Bucket>, e: Bucket)
    requires Holds(bucket, run) && bucket.second == e.second
    ensures Holds(Bucket(e.second, bucket.blocks + e.blocks, bucket.events + e.events), run + [e])
  {
    assert (run + [e])[..|run|] == run;
  }

  lemma HoldsItself(e: Bucket)
    ensures Holds(e, [e])
  {
    assert [e][..0] == [];
  }

  lemma RecordExtendsRuns(buckets: seq<Bucket>, runs: seq<seq<Bucket>>, e: Bucket, merge: bool)
    requires HoldsAll(buckets, runs) && (merge <==> buckets != [] && buckets[|buckets| - 1].second == e.second)
    ensures HoldsAll(WithRecord(buckets, e), RunsWith(runs, e, merge))
  {
    var after, more := WithRecord(buckets, e), RunsWith(runs, e, merge);
    forall i: nat ensures HoldsAt(after, more, i) {
      assert HoldsAt(buckets, runs, i);
      if i == |more| - 1 {
        if merge {
          HoldsOneMore(buckets[i], runs[i], e);
        } else {
          HoldsItself(e);
        }
      }
    }
  }

  // ---------- the window ----------

  /** The first record at or after number `from` that is inside the window. */
  function FirstKept(history: seq<Bucket>, from: nat, now: nat, window: nat): (k: nat)
    requires from <= |history|
    ensures from <= k <= |history|
    ensures forall i :: from <= i < k ==> !InWindow(history[i].second, now, window)
    ensures k < |history| ==> InWindow(history[k].second, now, window)
    decreases |history| - from
  {
    if from == |history| || InWindow(history[from].second, now, window) then from
    else FirstKept(history, from + 1, now, window)
  }

  lemma {:induction false} SkipOld(history: seq<Bucket>, from: nat, to: nat, now: nat, window: nat)
    requires from <= to <= |history|
    requires forall i :: from <= i < to ==> !InWindow(history[i].second, now, window)
    ensures FirstKept(history, from, now, window) == FirstKept(history, to, now, window)
    decreases |history| - from
  {
    if from < to {
      SkipOld(history, from + 1, to, now, window);
    }
  }

  /** The blocks of all records in the window, by a look at the full history. */
  function BlocksWithin(history: seq<Bucket>, now: nat, window: nat): nat {
    if history == [] then 0
    else BlocksWithin(history[..|history| - 1], now, window)
         + (var e := history[|history| - 1]; if InWindow(e.second, now, window) then e.blocks else 0)
  }

  function EventsWithin(history: seq<Bucket>, now: nat, window: nat): nat {
    if history == [] then 0
    else EventsWithin(history[..|history| - 1], now, window)
         + (var e := history[|history| - 1]; if InWindow(e.second, now, window) then e.events else 0)
  }

  predicate Sorted(records: seq<Bucket>) {
    forall i, j :: 0 <= i <= j < |records| ==> records[i].second <= records[j].second
  }

  predicate Increasing(buckets: seq<Bucket>) {
    forall i, j :: 0 <= i < j < |buckets| ==> buckets[i].second < buckets[j].second
  }

  /** If the first `k` records are old and the others are not, the window holds exactly the others. */
  lemma {:induction false} WindowIsSuffix(history: seq<Bucket>, k: nat, now: nat, window: nat)
    requires k <= |history|
    requires forall i :: 0 <= i < k ==> !InWindow(history[i].second, now, window)
    requires forall i :: k <= i < |history| ==> InWindow(history[i].second, now, window)
    ensures BlocksWithin(history, now, window) == Blocks(history[k..])
    ensures EventsWithin(history, now, window) == Events(history[k..])
    decreases |history|
  {
    if history != [] {
      var n := |history| - 1;
      if k <= n {
        WindowIsSuffix(history[..n], k, now, window);
        assert history[k..][..n - k] == history[..n][k..];
      } else {
        WindowIsSuffix(history[..n], n, now, window);
        assert history[..n][n..] == [] && history[k..] == [];
      }
    }
  }

  lemma {:induction false} SecondsSpread(buckets: seq<Bucket>, lo: nat)
    requires Increasing(buckets)
    requires buckets != [] && buckets[0].second >= lo
    ensures buckets[|buckets| - 1].second >= lo + |buckets| - 1
  {
    if |buckets| > 1 {
      SecondsSpread(buckets[..|buckets| - 1], lo);
    }
  }

  /** With clock readings that never decreased: records in order, and those that were dropped are old. */
  ghost predicate Steady(history: seq<Bucket>, dropped: nat, now: nat, window: nat) {
    && Sorted(history) && dropped <= |history|
    && (forall i :: 0 <= i < |history| ==> history[i].second <= now)
    && forall i :: 0 <= i < dropped ==> !InWindow(history[i].second, now, window)
  }

  ghost predicate InOrder(buckets: seq<Bucket>, now: nat) {
    Increasing(buckets) && forall i :: 0 <= i < |buckets| ==> buckets[i].second <= now
  }

  lemma TimePasses(history: seq<Bucket>, dropped: nat, lastCall: nat, now: nat, window: nat)
    requires Steady(history, dropped, lastCall, window) && lastCall <= now
    ensures Steady(history, dropped, now, window)
  {
  }

  lemma RecordStaysSteady(history: seq<Bucket>, dropped: nat, e: Bucket, window: nat)
    requires Steady(history, dropped, e.second, window)
    ensures Steady(history + [e], dropped, e.second, window)
  {
  }

  lemma RecordStaysInOrder(buckets: seq<Bucket>, e: Bucket)
    requires InOrder(buckets, e.second)
    ensures InOrder(WithRecord(buckets, e), e.second)
  {
  }

  lemma RecordInTime(history: seq<Bucket>, dropped: nat, buckets: seq<Bucket>, lastCall: nat, e: Bucket, window: nat)
    requires Steady(history, dropped, lastCall, window) && InOrder(buckets, lastCall) && lastCall <= e.second
    ensures Steady(history + [e], dropped, e.second, window) && InOrder(WithRecord(buckets, e), e.second)
  {
    TimePasses(history, dropped, lastCall, e.second, window);
    RecordStaysSteady(history, dropped, e, window);
    RecordStaysInOrder(buckets, e);
  }

  lemma PopStaysInOrder(buckets: seq<Bucket>, now: nat)
    requires InOrder(buckets, now) && buckets != []
    ensures InOrder(buckets[1..], now)
  {
  }

  lemma DropStaysSteady(history: seq<Bucket>, dropped: nat, more: nat, now: nat, window: nat)
    requires Steady(history, dropped, now, window) && dropped <= more <= |history|
    requires forall i :: dropped <= i < more ==> !InWindow(history[i].second, now, window)
    ensures Steady(history, more, now, window)
  {
  }

  /** Strictly increasing seconds inside the window, so at most one bucket for each of its seconds. */
  ghost predicate InsideWindow(buckets: seq<Bucket>, now: nat, window: nat) {
    && |buckets| <= window && Increasing(buckets)
    && forall i :: 0 <= i < |buckets| ==> InWindow(buckets[i].second, now, window) && buckets[i].second <= now
  }

  lemma OrderedFitWindow(buckets: seq<Bucket>, now: nat, window: nat)
    requires window >= 1 && Increasing(buckets)
    requires forall i :: 0 <= i < |buckets| ==> buckets[i].second <= now
    requires buckets != [] ==> InWindow(buckets[0].second, now, window)
    ensures InsideWindow(buckets, now, window)
  {
    if buckets != [] {
      SecondsSpread(buckets, buckets[0].second);
    }
  }

  /** What pruning left is then the window. */
  lemma SteadyWindow(history: seq<Bucket>, dropped: nat, now: nat, window: nat)
    requires Steady(history, dropped, now, window)
    requires dropped < |history| ==> InWindow(history[dropped].second, now, window)
    ensures Blocks(history[dropped..]) == BlocksWithin(history, now, window)
    ensures Events(history[dropped..]) == EventsWithin(history, now, window)
  {
    WindowIsSuffix(history, dropped, now, window);
  }

  /** The front run of the kept records. */
  lemma FrontOfKept(buckets: seq<Bucket>, runs: seq<seq<Bucket>>, history: seq<Bucket>, dropped: nat)
    requires HoldsAll(buckets, runs) && buckets != []
    requires dropped <= |history| && history[dropped..] == Flat(runs)
    ensures dropped < dropped + |runs[0]| <= |history|
    ensures forall i :: dropped <= i < dropped + |runs[0]| ==> history[i].second == buckets[0].second
    ensures history[dropped + |runs[0]|..] == Flat(runs[1..])
    ensures HoldsAll(buckets[1..], runs[1..])
  {
    FlatFront(runs);
    assert HoldsAt(buckets, runs, 0);
    forall i: nat ensures HoldsAt(buckets[1..], runs[1..], i) {
      assert HoldsAt(buckets, runs, i + 1);
    }
    var rest := Flat(runs[1..]);
    assert history[dropped..] == runs[0] + rest;
    assert history[dropped + |runs[0]|..] == history[dropped..][|runs[0]|..];
    forall i | dropped <= i < dropped + |runs[0]| ensures history[i].second == buckets[0].second {
      assert history[i] == history[dropped..][i - dropped];
    }
  }

  class RollingThroughput {
    const windowSecs: nat
    var startedAt: Option<nat>
    var buckets: seq<Bucket>

    ghost var history: seq<Bucket>  // every record call ever made
    ghost var dropped: nat          // how many of them pruning has dropped
    ghost var runs: seq<seq<Bucket>>  // the others, bucket by bucket
    ghost var lastCall: nat         // the time of the latest call
    ghost var steady: bool          // call times have never decreased

    ghost predicate Valid()
      reads this
    {
      && windowSecs >= 1
      && (startedAt.None? <==> history == [])
      && (startedAt.Some? ==> startedAt.value == history[0].second)
      && HoldsAll(buckets, runs) && dropped <= |history| && history[dropped..] == Flat(runs)
      && (steady ==> Steady(history, dropped, lastCall, windowSecs) && InOrder(buckets, lastCall))
    }

    constructor (window: nat)
      ensures Valid() && steady && history == [] && dropped == 0 && lastCall == 0
      ensures windowSecs == Max(window, 1)
    {
      windowSecs := Max(window, 1);
      startedAt := None;
      buckets := [];
      history, dropped, runs, lastCall, steady := [], 0, [], 0, true;
    }

    /** `record`, with the clock reading as a parameter. */
    method Record(now: nat, blocks: nat, events: nat) returns (snapshot: Snapshot)
      requires Valid()
      modifies this
      ensures Valid()
      ensures history == old(history) + [Bucket(now, blocks, events)]
      ensures lastCall == now && steady == (old(steady) && old(lastCall) <= now)
      ensures dropped == FirstKept(history, old(dropped), now, windowSecs)
      ensures IsRateOfKept(snapshot, now) && (steady ==> IsRateOfWindow(snapshot, now))
    {
      Add(now, blocks, events);
      snapshot := PruneAndRead(now);
    }

    /** The first half of `record`: the start time and the bucket of the current second. */
    method Add(now: nat, blocks: nat, events: nat)
      requires Valid()
      modifies this
      ensures Valid()
      ensures history == old(history) + [Bucket(now, blocks, events)] && dropped == old(dropped)
      ensures lastCall == now && steady == (old(steady) && old(lastCall) <= now)
    {
      ghost var was := buckets;
      if startedAt.None? {
        startedAt := Some(now);
      }
      if |buckets| > 0 && buckets[|buckets| - 1].second == now {
        var back := buckets[|buckets| - 1];
        buckets := buckets[|buckets| - 1 := back.(blocks := back.blocks + blocks, events := back.events + events)];
      } else {
        buckets := buckets + [Bucket(now, blocks, events)];
      }
      NoteRecord(Bucket(now, blocks, events), was);
    }

    /** The history after a record that took the deque from `was` to its present contents. */
    ghost method NoteRecord(e: Bucket, was: seq<Bucket>)
      requires windowSecs >= 1 && startedAt.Some?
      requires startedAt.value == if history == [] then e.second else history[0].second
      requires HoldsAll(was, runs) && dropped <= |history| && history[dropped..] == Flat(runs)
      requires steady ==> Steady(history, dropped, lastCall, windowSecs) && InOrder(was, lastCall)
      requires buckets == WithRecord(was, e)
      modifies this`history, this`runs, this`steady, this`lastCall
      ensures Valid()
      ensures history == old(history) + [e] && lastCall == e.second
      ensures steady == (old(steady) && old(lastCall) <= e.second)
    {
      var merge := was != [] && was[|was| - 1].second == e.second;
      RecordExtendsRuns(was, runs, e, merge);
      FlatWith(runs, e, merge);
      assert (history + [e])[dropped..] == history[dropped..] + [e];
      if steady && lastCall <= e.second {
        RecordInTime(history, dropped, was, lastCall, e, windowSecs);
      }
      history, runs := history + [e], RunsWith(runs, e, merge);
      steady, lastCall := steady && lastCall <= e.second, e.second;
    }

    /** `snapshot`, with the clock reading as a parameter. */
    method Poll(now: nat) returns (snapshot: Snapshot)
      requires Valid()
      modifies this
      ensures Valid()
      ensures history == old(history)
      ensures lastCall == now && steady == (old(steady) && old(lastCall) <= now)
      ensures dropped == FirstKept(history, old(dropped), now, windowSecs)
      ensures IsRateOfKept(snapshot, now) && (steady ==> IsRateOfWindow(snapshot, now))
    {
      steady := steady && lastCall <= now;
      if steady {
        TimePasses(history, dropped, lastCall, now, windowSecs);
      }
      lastCall := now;
      snapshot := PruneAndRead(now);
    }

    /** The end of both calls. */
    method PruneAndRead(now: nat) returns (snapshot: Snapshot)
      requires Valid() && lastCall == now
      modifies this`buckets, this`dropped, this`runs
      ensures Valid()
      ensures dropped == FirstKept(history, old(dropped), now, windowSecs)
      ensures IsRateOfKept(snapshot, now) && (steady ==> IsRateOfWindow(snapshot, now))
    {
      Prune(now);
      SnapshotIsRate(now);
      snapshot := SnapshotFor(now);
    }

    /** The seconds of the window that ends at `now`, from the first record ever made on. */
    ghost function SecondsMeasured(now: nat): set<nat>
      reads this
    {
      if history == [] then {} else WindowFrom(history[0].second, now, windowSecs)
    }

    /** How many they are; at least 1, also before the first record or when the clock went back behind it. */
    ghost function Elapsed(now: nat): nat
      reads this
    {
      Max(|SecondsMeasured(now)|, 1)
    }

    /** For any clock: the rates over the records that pruning has kept. */
    ghost predicate IsRateOfKept(snapshot: Snapshot, now: nat)
      reads this
    {
      && 1 <= Elapsed(now) <= windowSecs && dropped <= |history|
      && snapshot.blocksPerSecond == Blocks(history[dropped..]) as real / Elapsed(now) as real
      && snapshot.eventsPerSecond == Events(history[dropped..]) as real / Elapsed(now) as real
    }

    /** For a clock that never went backwards: the rates over all records ever made in the window that ends at `now`. */
    ghost predicate IsRateOfWindow(snapshot: Snapshot, now: nat)
      reads this
    {
      && 1 <= Elapsed(now) <= windowSecs
      && snapshot.blocksPerSecond == BlocksWithin(history, now, windowSecs) as real / Elapsed(now) as real
      && snapshot.eventsPerSecond == EventsWithin(history, now, windowSecs) as real / Elapsed(now) as real
      && InsideWindow(buckets, now, windowSecs)
    }

    /** Drops the oldest records up to the first one inside the window. */
    method Prune(now: nat)
      requires Valid() && lastCall == now
      modifies this`buckets, this`dropped, this`runs
      ensures Valid()
      ensures dropped == FirstKept(history, old(dropped), now, windowSecs)
      ensures old(dropped) <= dropped <= |history|
      ensures forall i :: old(dropped) <= i < dropped ==> history[i].second + windowSecs <= now
      ensures dropped < |history| ==> now < history[dropped].second + windowSecs
    {
      var oldestSecond := SatSub(now, SatSub(windowSecs, 1));
      while |buckets| > 0 && buckets[0].second < oldestSecond
        invariant Valid()
        invariant FirstKept(history, dropped, now, windowSecs) == FirstKept(history, old(dropped), now, windowSecs)
        decreases |buckets|
      {
        PopFront();
      }
      if buckets != [] {
        FrontOfKept(buckets, runs, history, dropped);
      } else {
        assert Flat(runs) == [];
      }
    }

    /** `pop_front`: the records of the front bucket are dropped. */
    method PopFront()
      requires Valid() && buckets != [] && !InWindow(buckets[0].second, lastCall, windowSecs)
      modifies this`buckets, this`dropped, this`runs
      ensures Valid() && buckets == old(buckets[1..])
      ensures FirstKept(history, dropped, lastCall, windowSecs)
           == FirstKept(history, old(dropped), lastCall, windowSecs)
    {
      ghost var more := dropped + |runs[0]|;
      FrontOfKept(buckets, runs, history, dropped);
      SkipOld(history, dropped, more, lastCall, windowSecs);
      if steady {
        DropStaysSteady(history, dropped, more, lastCall, windowSecs);
        PopStaysInOrder(buckets, lastCall);
      }
      buckets, dropped, runs := buckets[1..], more, runs[1..];
    }

    /** The denominator of `snapshot_for` is the number of the seconds measured. */
    lemma DenominatorCounts(now: nat)
      requires Valid()
      ensures Elapsed(now) == Denominator(now) && 1 <= Elapsed(now) <= windowSecs
    {
      if startedAt.Some? {
        WindowSize(startedAt.value, now, windowSecs);
      }
    }

    function Denominator(now: nat): (d: nat)
      reads this
      ensures d >= 1
    {
      var elapsed := match startedAt case Some(started) => SatSub(now, started) + 1 case None => 1;
      Max(Min(elapsed, windowSecs), 1)
    }

    /** `snapshot_for`. */
    function SnapshotFor(now: nat): Snapshot
      reads this
    {
      var denominator := Denominator(now);
      Snapshot(Blocks(buckets) as real / denominator as real, Events(buckets) as real / denominator as real)
    }

    /** Once pruned, the sums over the deque are the sums over the kept records, and over the window. */
    lemma SnapshotIsRate(now: nat)
      requires Valid() && lastCall == now
      requires dropped < |history| ==> InWindow(history[dropped].second, now, windowSecs)
      ensures IsRateOfKept(SnapshotFor(now), now)
      ensures steady ==> IsRateOfWindow(SnapshotFor(now), now)
    {
      GroupingKeepsTotals(buckets, runs);
      DenominatorCounts(now);
      if steady {
        SteadyWindow(history, dropped, now, windowSecs);
        if buckets != [] {
          FrontOfKept(buckets, runs, history, dropped);
        }
        OrderedFitWindow(buckets, now, windowSecs);
      }
    }
  }
}
