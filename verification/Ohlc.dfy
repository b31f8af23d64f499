/** ohlc.service.ts and ohlc-persistence.service.ts: price snapshots folded into stored 1m, 5m and 15m bars,
    and 1h and 4h bars rolled up from stored 15m bars. */
module Ohlc {
  import opened Numbers
  import opened Arithmetic
  import opened SortedSets
  import opened Wrappers

  // Prices and volumes are NUMERIC(30, 12) values in units of 10^-12; snapshot times are milliseconds, bucket
  // starts seconds, the database clock microseconds.

  const STORED_INTERVALS: seq<int> := [60, 300, 900]
  const SOURCE_INTERVAL := 900
  const MIN_POLL_INTERVAL_MS := 5_000
  const MAX_POLL_INTERVAL_MS := 300_000

  datatype Snapshot = Snapshot(pairId: int, ts: int, priceUsd: int, priceQuote: int, volumeEstimate: int)

  datatype Bar = Bar(open: int, high: int, low: int, close: int, volume: int, tickCount: int, lastSourceTs: int)
  datatype BarKey = BarKey(pairId: int, intervalSec: int, bucketStart: int)
  type BarTable = map<BarKey, Bar>

  datatype Tick = Tick(priceUsd: int, priceQuote: int, volumeEstimate: int)
  datatype TickKey = TickKey(pairId: int, ts: int)
  type TickTable = map<TickKey, Tick>

  /** One returned bar: {time, open, high, low, close, volume}. */
  datatype Point = Point(time: int, open: int, high: int, low: int, close: int, volume: int)

  // ---------- buckets ----------

  /** The bucket start, in seconds, of a time in milliseconds. */
  function BucketOf(ts: int, intervalSec: int): int
    requires intervalSec > 0
  {
    (ts / (1000 * intervalSec)) * intervalSec
  }

  lemma BucketBounds(ts: int, intervalSec: int)
    requires intervalSec > 0
    ensures BucketOf(ts, intervalSec) * 1000 <= ts < (BucketOf(ts, intervalSec) + intervalSec) * 1000
  {
    FloorBounds(ts, 1000 * intervalSec);
    assert Floor(ts, 1000 * intervalSec) == BucketOf(ts, intervalSec) * 1000;
  }

  /** Nested buckets: when the fine interval divides the coarse one, the coarse bucket of a
      fine bucket's start is the coarse bucket of every time in it. */
  lemma NestedBuckets(ts: int, fine: int, ratio: int)
    requires fine > 0 && ratio > 0
    ensures fine * ratio > 0
    ensures Floor(BucketOf(ts, fine), fine * ratio) == BucketOf(ts, fine * ratio)
  {
    var coarse := fine * ratio;
    assert coarse > 0;
    var q := ts / (1000 * coarse);
    var f := ts / (1000 * fine);
    FloorBounds(ts, 1000 * coarse);
    FloorBounds(ts, 1000 * fine);
    // q * ratio <= f < (q + 1) * ratio
    NestedQuotient(ts, 1000 * fine, ratio, f, q);
    ScaleBounds(q, f, ratio, fine);
    FloorUnique(f * fine, coarse, q);
  }

  lemma NestedQuotient(ts: int, unit: int, ratio: int, f: int, q: int)
    requires unit > 0 && ratio > 0
    requires f * unit <= ts < f * unit + unit
    requires q * (unit * ratio) <= ts < q * (unit * ratio) + unit * ratio
    ensures q * ratio <= f < (q + 1) * ratio
  {
    assert q * (unit * ratio) == (q * ratio) * unit;
    assert (q + 1) * ratio * unit == q * (unit * ratio) + unit * ratio;
    MulCancel(q * ratio, f + 1, unit);
    MulCancel(f, (q + 1) * ratio, unit);
  }

  lemma ScaleBounds(q: int, f: int, ratio: int, fine: int)
    requires fine > 0 && q * ratio <= f < (q + 1) * ratio
    ensures q * (fine * ratio) <= f * fine < q * (fine * ratio) + fine * ratio
  {
    assert (q * ratio) * fine <= f * fine;
    assert (f + 1) * fine <= ((q + 1) * ratio) * fine;
  }

  // ---------- the tables ----------

  function Key(s: Snapshot, intervalSec: int): BarKey
    requires intervalSec > 0
  {
    BarKey(s.pairId, intervalSec, BucketOf(s.ts, intervalSec))
  }

  function Greatest(a: int, b: int): int { if a < b then b else a }

  function Least(a: int, b: int): int { if b < a then b else a }

  /** The row upsertBar inserts. */
  function FreshBar(s: Snapshot): Bar {
    Bar(s.priceUsd, s.priceUsd, s.priceUsd, s.priceUsd, s.volumeEstimate, 1, s.ts)
  }

  /** The row upsertBar's ON CONFLICT branch leaves. */
  function MergedBar(b: Bar, s: Snapshot): Bar {
    Bar(b.open, Greatest(b.high, s.priceUsd), Least(b.low, s.priceUsd), s.priceUsd,
        b.volume + s.volumeEstimate, b.tickCount + 1, s.ts)
  }

  function Upserted(bars: BarTable, s: Snapshot, intervalSec: int): BarTable
    requires intervalSec > 0
  {
    var key := Key(s, intervalSec);
    bars[key := if key in bars then MergedBar(bars[key], s) else FreshBar(s)]
  }

  ghost predicate Intervals(ivs: seq<int>) {
    && (forall i :: 0 <= i < |ivs| ==> ivs[i] > 0)
    && (forall i, j :: 0 <= i < j < |ivs| ==> ivs[i] != ivs[j])
  }

  ghost function UpsertedAll(bars: BarTable, s: Snapshot, ivs: seq<int>): BarTable
    requires Intervals(ivs)
  {
    if |ivs| == 0 then bars else
    Upserted(UpsertedAll(bars, s, ivs[..|ivs| - 1]), s, ivs[|ivs| - 1])
  }

  /** The bar table after a log of committed snapshots, oldest first. */
  ghost function Replay(log: seq<Snapshot>): BarTable {
    if |log| == 0 then map[] else
    UpsertedAll(Replay(log[..|log| - 1]), log[|log| - 1], STORED_INTERVALS)
  }

  function TickUpserted(ticks: TickTable, s: Snapshot): TickTable {
    ticks[TickKey(s.pairId, s.ts) := Tick(s.priceUsd, s.priceQuote, s.volumeEstimate)]
  }

  ghost function ReplayTicks(log: seq<Snapshot>): TickTable {
    if |log| == 0 then map[] else TickUpserted(ReplayTicks(log[..|log| - 1]), log[|log| - 1])
  }

  // ---------- the batch aggregate ----------

  predicate IsTick(s: Snapshot, key: TickKey) {
    s.pairId == key.pairId && s.ts == key.ts
  }

  lemma {:induction false} TicksOfLog(log: seq<Snapshot>, key: TickKey)
    ensures key in ReplayTicks(log) <==> exists s | s in log :: IsTick(s, key)
  {
    if |log| > 0 {
      var before, last := log[..|log| - 1], log[|log| - 1];
      TicksOfLog(before, key);
      assert forall s :: s in log <==> s in before || s == last;
      assert key in ReplayTicks(log) <==> key in ReplayTicks(before) || IsTick(last, key);
    }
  }

  /** A tick holds the prices of the last committed snapshot of its pair and time. */
  lemma {:induction false} TicksAreLatest(log: seq<Snapshot>, key: TickKey, i: nat)
    requires i < |log| && IsTick(log[i], key) && forall j | i < j < |log| :: !IsTick(log[j], key)
    ensures key in ReplayTicks(log)
    ensures ReplayTicks(log)[key].priceUsd == log[i].priceUsd && ReplayTicks(log)[key].priceQuote == log[i].priceQuote
    ensures ReplayTicks(log)[key].volumeEstimate == log[i].volumeEstimate
  {
    if i < |log| - 1 {
      TicksAreLatest(log[..|log| - 1], key, i);
    }
  }

  predicate InBucket(s: Snapshot, pairId: int, intervalSec: int, bucket: int)
    requires intervalSec > 0
  {
    s.pairId == pairId && BucketOf(s.ts, intervalSec) == bucket
  }

  /** The snapshots of one bucket, in arrival order. */
  ghost function BucketLog(log: seq<Snapshot>, pairId: int, intervalSec: int, bucket: int): (r: seq<Snapshot>)
    requires intervalSec > 0
    ensures forall s :: s in r <==> s in log && InBucket(s, pairId, intervalSec, bucket)
  {
    if |log| == 0 then [] else
    var rest := BucketLog(log[..|log| - 1], pairId, intervalSec, bucket);
    var last := log[|log| - 1];
    assert log == log[..|log| - 1] + [last];
    if InBucket(last, pairId, intervalSec, bucket) then rest + [last] else rest
  }

  ghost function TotalVolume(t: seq<Snapshot>): int {
    if |t| == 0 then 0 else TotalVolume(t[..|t| - 1]) + t[|t| - 1].volumeEstimate
  }

  /** The highest price: an upper bound that is attained. */
  ghost function Highest(t: seq<Snapshot>): (price: int)
    requires |t| > 0
    ensures forall i :: 0 <= i < |t| ==> t[i].priceUsd <= price
    ensures exists i :: 0 <= i < |t| && t[i].priceUsd == price
  {
    var s := t[|t| - 1];
    if |t| == 1 then s.priceUsd else Greatest(Highest(t[..|t| - 1]), s.priceUsd)
  }

  ghost function Lowest(t: seq<Snapshot>): (price: int)
    requires |t| > 0
    ensures forall i :: 0 <= i < |t| ==> price <= t[i].priceUsd
    ensures exists i :: 0 <= i < |t| && t[i].priceUsd == price
  {
    var s := t[|t| - 1];
    if |t| == 1 then s.priceUsd else Least(Lowest(t[..|t| - 1]), s.priceUsd)
  }

  /** The bar of the snapshots t, computed from all of them at once: first, highest, lowest,
      last, total, count. */
  ghost function BatchBar(t: seq<Snapshot>): (b: Bar)
    requires |t| > 0
    ensures b.low <= b.open <= b.high && b.low <= b.close <= b.high
    ensures b.open == t[0].priceUsd && b.close == t[|t| - 1].priceUsd && b.lastSourceTs == t[|t| - 1].ts
    ensures (forall s | s in t :: b.low <= s.priceUsd <= b.high) && (exists s | s in t :: s.priceUsd == b.high)
            && (exists s | s in t :: s.priceUsd == b.low)
    ensures b.tickCount == |t| && b.volume == TotalVolume(t)
  {
    var last := t[|t| - 1];
    Bar(t[0].priceUsd, Highest(t), Lowest(t), last.priceUsd, TotalVolume(t), |t|, last.ts)
  }

  /** The point a query should return for the bucket that starts at time and holds the snapshots t. */
  ghost function BatchPoint(time: int, t: seq<Snapshot>): Point
    requires |t| > 0
  {
    var b := BatchBar(t);
    Point(time, b.open, b.high, b.low, b.close, b.volume)
  }

  lemma BatchFresh(s: Snapshot)
    ensures BatchBar([s]) == FreshBar(s)
  {
    assert TotalVolume([s][..0]) == 0;
  }

  lemma BatchMerged(t: seq<Snapshot>, s: Snapshot)
    requires |t| > 0
    ensures BatchBar(t + [s]) == MergedBar(BatchBar(t), s)
  {
    assert (t + [s])[..|t|] == t;
  }

  // ---------- the stored bars are the batch aggregates ----------

  /** Upserting a snapshot at every interval touches, at each key, only that key's own bucket, once. */
  lemma {:induction false} UpsertedAllAt(bars: BarTable, s: Snapshot, ivs: seq<int>, key: BarKey)
    requires Intervals(ivs)
    ensures var after := UpsertedAll(bars, s, ivs);
      if key.intervalSec in ivs && key == Key(s, key.intervalSec)
      then key in after && after[key] == (if key in bars then MergedBar(bars[key], s) else FreshBar(s))
      else (key in after <==> key in bars) && (key in bars ==> after[key] == bars[key])
  {
    if |ivs| > 0 {
      var k := |ivs| - 1;
      UpsertedAllAt(bars, s, ivs[..k], key);
      assert ivs == ivs[..k] + [ivs[k]];
      if key.intervalSec == ivs[k] {
        assert key.intervalSec !in ivs[..k];
      }
    }
  }

  /** After any log of snapshots, in any time order, the stored bar of every bucket is the batch
      aggregate of that bucket's snapshots, and there is a row only for non-empty stored buckets. */
  lemma {:induction false} StoredBarsAreAggregates(log: seq<Snapshot>, key: BarKey)
    ensures key in Replay(log) ==> key.intervalSec in STORED_INTERVALS
    ensures key.intervalSec in STORED_INTERVALS ==>
      var t := BucketLog(log, key.pairId, key.intervalSec, key.bucketStart);
      && (key in Replay(log) <==> t != [])
      && (t != [] ==> Replay(log)[key] == BatchBar(t))
  {
    if |log| > 0 {
      var before, s := log[..|log| - 1], log[|log| - 1];
      StoredBarsAreAggregates(before, key);
      UpsertedAllAt(Replay(before), s, STORED_INTERVALS, key);
      if key.intervalSec in STORED_INTERVALS && key == Key(s, key.intervalSec) {
        var t := BucketLog(before, key.pairId, key.intervalSec, key.bucketStart);
        if t == [] {
          BatchFresh(s);
          assert t + [s] == [s];
        } else {
          BatchMerged(t, s);
        }
      }
    }
  }

  // ---------- the roll-up query ----------

  /** The bucket starts stored for a pair and an interval. */
  ghost function Starts(bars: BarTable, pairId: int, intervalSec: int): (w: set<int>)
    ensures forall b :: b in w <==> BarKey(pairId, intervalSec, b) in bars
  {
    var w := set k | k in bars && k.pairId == pairId && k.intervalSec == intervalSec :: k.bucketStart;
    assert forall b :: BarKey(pairId, intervalSec, b) in bars ==> BarKey(pairId, intervalSec, b).bucketStart in w;
    w
  }

  /** The same with AND bucket_start >= since. */
  ghost function Window(bars: BarTable, pairId: int, intervalSec: int, sinceUs: int): (w: set<int>)
    ensures forall b :: b in w <==> BarKey(pairId, intervalSec, b) in bars && b * 1_000_000 >= sinceUs
  {
    set b | b in Starts(bars, pairId, intervalSec) && b * 1_000_000 >= sinceUs
  }

  /** The bucket starts of one group of the query. */
  ghost function Group(window: set<int>, intervalSec: int, time: int): (g: set<int>)
    requires intervalSec > 0
    ensures forall b :: b in g <==> b in window && Floor(b, intervalSec) == time
  {
    set b | b in window && Floor(b, intervalSec) == time
  }

  ghost function Rows(bars: BarTable, pairId: int, intervalSec: int, starts: seq<int>): (rows: seq<Bar>)
    requires forall i :: 0 <= i < |starts| ==> BarKey(pairId, intervalSec, starts[i]) in bars
    ensures |rows| == |starts|
    ensures forall i :: 0 <= i < |starts| ==> rows[i] == bars[BarKey(pairId, intervalSec, starts[i])]
  {
    seq(|starts|, i requires 0 <= i < |starts| => bars[BarKey(pairId, intervalSec, starts[i])])
  }

  ghost function MaxHigh(rows: seq<Bar>): int
    requires |rows| > 0
  {
    if |rows| == 1 then rows[0].high else Greatest(MaxHigh(rows[..|rows| - 1]), rows[|rows| - 1].high)
  }

  ghost function MinLow(rows: seq<Bar>): int
    requires |rows| > 0
  {
    if |rows| == 1 then rows[0].low else Least(MinLow(rows[..|rows| - 1]), rows[|rows| - 1].low)
  }

  ghost function SumVolume(rows: seq<Bar>): int {
    if |rows| == 0 then 0 else SumVolume(rows[..|rows| - 1]) + rows[|rows| - 1].volume
  }

  /** One output row of the query, from its group's rows in bucket_start order. */
  ghost function RollUp(time: int, rows: seq<Bar>): Point
    requires |rows| > 0
  {
    Point(time, rows[0].open, MaxHigh(rows), MinLow(rows), rows[|rows| - 1].close, SumVolume(rows))
  }

  ghost function RolledGroup(bars: BarTable, pairId: int, fine: int, coarse: int, sinceUs: int, time: int): Point
    requires coarse > 0 && Group(Window(bars, pairId, fine, sinceUs), coarse, time) != {}
  {
    var starts := Sorted(Group(Window(bars, pairId, fine, sinceUs), coarse, time));
    assert forall i :: 0 <= i < |starts| ==> starts[i] in starts;
    RollUp(time, Rows(bars, pairId, fine, starts))
  }

  // ---------- extending a roll-up by one snapshot ----------

  /** The rows of a group after one more snapshot: the row at k merged or inserted. */
  ghost predicate Extends(rows: seq<Bar>, s: Snapshot, k: nat, after: seq<Bar>) {
    || (k < |rows| && after == rows[k := MergedBar(rows[k], s)])
    || (k <= |rows| && after == rows[..k] + [FreshBar(s)] + rows[k..])
  }

  /** The rows after hold the totals of the rows before and of s. */
  ghost predicate TotalsAdd(rows: seq<Bar>, s: Snapshot, after: seq<Bar>) {
    && |rows| > 0 && |after| > 0
    && MaxHigh(after) == Greatest(MaxHigh(rows), s.priceUsd)
    && MinLow(after) == Least(MinLow(rows), s.priceUsd)
    && SumVolume(after) == SumVolume(rows) + s.volumeEstimate
  }

  lemma {:induction false} MergedTotals(rows: seq<Bar>, s: Snapshot, k: nat)
    requires k < |rows|
    ensures TotalsAdd(rows, s, rows[k := MergedBar(rows[k], s)])
  {
    var n, after := |rows| - 1, rows[k := MergedBar(rows[k], s)];
    if k < n {
      assert after[..n] == rows[..n][k := MergedBar(rows[k], s)];
      MergedTotals(rows[..n], s, k);
    } else {
      assert after[..n] == rows[..n];
    }
  }

  lemma {:induction false} InsertedTotals(rows: seq<Bar>, s: Snapshot, k: nat)
    requires |rows| > 0 && k <= |rows|
    ensures TotalsAdd(rows, s, rows[..k] + [FreshBar(s)] + rows[k..])
    decreases |rows|
  {
    var n, after := |rows| - 1, rows[..k] + [FreshBar(s)] + rows[k..];
    if k == |rows| {
      assert after[..|rows|] == rows;
    } else if n == 0 {
      assert after[..1] == [FreshBar(s)] && after[1] == rows[0];
    } else {
      assert after[..|rows|] == rows[..n][..k] + [FreshBar(s)] + rows[..n][k..];
      InsertedTotals(rows[..n], s, k);
    }
  }

  lemma ExtendsTotals(rows: seq<Bar>, s: Snapshot, k: nat, after: seq<Bar>)
    requires |rows| > 0 && Extends(rows, s, k, after)
    ensures TotalsAdd(rows, s, after)
  {
    if k < |rows| && after == rows[k := MergedBar(rows[k], s)] {
      MergedTotals(rows, s, k);
    } else {
      InsertedTotals(rows, s, k);
    }
  }

  // ---------- the roll-up of one group against the log ----------

  /** A snapshot adds to a complete group exactly its own fine bucket, if it is in the coarse one. */
  lemma GroupStep(bars: BarTable, s: Snapshot, pairId: int, fine: int, ratio: int, sinceUs: int, time: int)
    requires fine in STORED_INTERVALS && ratio > 0 && time * 1_000_000 >= sinceUs
    ensures fine * ratio > 0
    ensures var after := UpsertedAll(bars, s, STORED_INTERVALS);
            var g := Group(Window(bars, pairId, fine, sinceUs), fine * ratio, time);
            var h := Group(Window(after, pairId, fine, sinceUs), fine * ratio, time);
            var b := BucketOf(s.ts, fine);
            if InBucket(s, pairId, fine * ratio, time)
            then h == g + {b} && Floor(b, fine * ratio) == time
            else h == g && (s.pairId == pairId ==> b !in g)
  {
    var after := UpsertedAll(bars, s, STORED_INTERVALS);
    NestedBuckets(s.ts, fine, ratio);
    FloorBounds(BucketOf(s.ts, fine), fine * ratio);
    forall b
      ensures BarKey(pairId, fine, b) in after <==>
              BarKey(pairId, fine, b) in bars || (s.pairId == pairId && b == BucketOf(s.ts, fine))
    {
      UpsertedAllAt(bars, s, STORED_INTERVALS, BarKey(pairId, fine, b));
    }
  }

  lemma RowsUnchanged(bars: BarTable, s: Snapshot, pairId: int, fine: int, starts: seq<int>)
    requires fine in STORED_INTERVALS
    requires forall i :: 0 <= i < |starts| ==> BarKey(pairId, fine, starts[i]) in bars
    requires s.pairId == pairId ==> BucketOf(s.ts, fine) !in starts
    ensures var after := UpsertedAll(bars, s, STORED_INTERVALS);
      && (forall i :: 0 <= i < |starts| ==> BarKey(pairId, fine, starts[i]) in after)
      && Rows(after, pairId, fine, starts) == Rows(bars, pairId, fine, starts)
  {
    forall i | 0 <= i < |starts|
      ensures var key := BarKey(pairId, fine, starts[i]);
              var after := UpsertedAll(bars, s, STORED_INTERVALS);
              key in after && after[key] == bars[key]
    {
      assert starts[i] in starts;
      UpsertedAllAt(bars, s, STORED_INTERVALS, BarKey(pairId, fine, starts[i]));
    }
  }

  ghost predicate Stored(bars: BarTable, pairId: int, fine: int, starts: seq<int>) {
    forall i :: 0 <= i < |starts| ==> BarKey(pairId, fine, starts[i]) in bars
  }

  lemma SortedStored(bars: BarTable, pairId: int, fine: int, g: set<int>)
    requires forall b :: b in g ==> BarKey(pairId, fine, b) in bars
    ensures Stored(bars, pairId, fine, Sorted(g))
  {
    assert forall i :: 0 <= i < |Sorted(g)| ==> Sorted(g)[i] in Sorted(g);
  }

  lemma RowsMerged(bars: BarTable, s: Snapshot, fine: int, l: seq<int>, k: nat)
    requires fine in STORED_INTERVALS && Ascending(l) && Stored(bars, s.pairId, fine, l)
    requires k < |l| && l[k] == BucketOf(s.ts, fine)
    ensures var after := UpsertedAll(bars, s, STORED_INTERVALS);
            var rows := Rows(bars, s.pairId, fine, l);
      && Stored(after, s.pairId, fine, l)
      && Rows(after, s.pairId, fine, l) == rows[k := MergedBar(rows[k], s)]
  {
    var after := UpsertedAll(bars, s, STORED_INTERVALS);
    forall i | 0 <= i < |l|
      ensures var key := BarKey(s.pairId, fine, l[i]);
              key in after && after[key] == (if i == k then MergedBar(bars[key], s) else bars[key])
    {
      UpsertedAllAt(bars, s, STORED_INTERVALS, BarKey(s.pairId, fine, l[i]));
    }
  }

  lemma RowsInserted(bars: BarTable, s: Snapshot, fine: int, l: seq<int>, k: nat)
    requires fine in STORED_INTERVALS && Stored(bars, s.pairId, fine, l) && k <= |l|
    requires BarKey(s.pairId, fine, BucketOf(s.ts, fine)) !in bars
    ensures var after := UpsertedAll(bars, s, STORED_INTERVALS);
            var m := l[..k] + [BucketOf(s.ts, fine)] + l[k..];
            var rows := Rows(bars, s.pairId, fine, l);
      && Stored(after, s.pairId, fine, m)
      && Rows(after, s.pairId, fine, m) == rows[..k] + [FreshBar(s)] + rows[k..]
  {
    var after := UpsertedAll(bars, s, STORED_INTERVALS);
    var b := BucketOf(s.ts, fine);
    UpsertedAllAt(bars, s, STORED_INTERVALS, BarKey(s.pairId, fine, b));
    forall i | 0 <= i < |l|
      ensures var key := BarKey(s.pairId, fine, l[i]);
              key in after && after[key] == bars[key]
    {
      UpsertedAllAt(bars, s, STORED_INTERVALS, BarKey(s.pairId, fine, l[i]));
    }
  }

  /** The rows of a group that the snapshot's fine bucket b belongs to, before and after. */
  lemma RowsExtended(bars: BarTable, s: Snapshot, fine: int, g: set<int>, b: int, after: BarTable) returns (k: nat)
    requires fine in STORED_INTERVALS && b == BucketOf(s.ts, fine) && after == UpsertedAll(bars, s, STORED_INTERVALS)
    requires Stored(bars, s.pairId, fine, Sorted(g)) && (b in g || BarKey(s.pairId, fine, b) !in bars)
    ensures Stored(after, s.pairId, fine, Sorted(g + {b}))
    ensures Extends(Rows(bars, s.pairId, fine, Sorted(g)), s, k, Rows(after, s.pairId, fine, Sorted(g + {b})))
  {
    if b in g {
      assert g + {b} == g;
      k := Position(g, b);
      RowsMerged(bars, s, fine, Sorted(g), k);
    } else {
      k := SortedInsert(g, b);
      RowsInserted(bars, s, fine, Sorted(g), k);
    }
  }

  /** What a roll-up owes its group whatever the arrival order. */
  ghost predicate RolledTotals(p: Point, time: int, t: seq<Snapshot>) {
    |t| > 0 && p.time == time && p.high == Highest(t) && p.low == Lowest(t) && p.volume == TotalVolume(t)
  }

  lemma RollUpFirst(time: int, s: Snapshot)
    ensures RolledTotals(RollUp(time, [FreshBar(s)]), time, [s])
  {
    BatchFresh(s);
    assert SumVolume([FreshBar(s)][..0]) == 0;
  }

  lemma RollUpNext(time: int, t: seq<Snapshot>, rows: seq<Bar>, s: Snapshot, k: nat, after: seq<Bar>)
    requires |rows| > 0 && Extends(rows, s, k, after)
    requires RolledTotals(RollUp(time, rows), time, t)
    ensures |after| > 0
    ensures RolledTotals(RollUp(time, after), time, t + [s])
  {
    ExtendsTotals(rows, s, k, after);
    BatchMerged(t, s);
  }

  lemma GroupStored(bars: BarTable, pairId: int, fine: int, coarse: int, sinceUs: int, time: int)
    requires coarse > 0
    ensures var g := Group(Window(bars, pairId, fine, sinceUs), coarse, time);
            && (forall b :: b in g ==> BarKey(pairId, fine, b) in bars)
            && Stored(bars, pairId, fine, Sorted(g))
  {
    SortedStored(bars, pairId, fine, Group(Window(bars, pairId, fine, sinceUs), coarse, time));
  }

  /** The stored group of a coarse bucket has rows exactly if there are snapshots t, with their totals. */
  ghost predicate GroupTotals(bars: BarTable, pairId: int, fine: int, coarse: int, sinceUs: int, time: int, t: seq<Snapshot>)
    requires coarse > 0
  {
    && (Group(Window(bars, pairId, fine, sinceUs), coarse, time) == {} <==> t == [])
    && (t != [] ==> RolledTotals(RolledGroup(bars, pairId, fine, coarse, sinceUs, time), time, t))
  }

  lemma RolledAs(bars: BarTable, pairId: int, fine: int, coarse: int, sinceUs: int, time: int, g: set<int>)
    requires coarse > 0 && g == Group(Window(bars, pairId, fine, sinceUs), coarse, time) && g != {}
    ensures Stored(bars, pairId, fine, Sorted(g))
    ensures RolledGroup(bars, pairId, fine, coarse, sinceUs, time) == RollUp(time, Rows(bars, pairId, fine, Sorted(g)))
  {
    GroupStored(bars, pairId, fine, coarse, sinceUs, time);
  }

  lemma RollUpStep(bars: BarTable, s: Snapshot, fine: int, ratio: int, sinceUs: int, time: int, t: seq<Snapshot>)
    requires fine in STORED_INTERVALS && ratio > 0 && fine * ratio > 0 && time * 1_000_000 >= sinceUs
    requires InBucket(s, s.pairId, fine * ratio, time)
    requires GroupTotals(bars, s.pairId, fine, fine * ratio, sinceUs, time, t)
    ensures GroupTotals(UpsertedAll(bars, s, STORED_INTERVALS), s.pairId, fine, fine * ratio, sinceUs, time, t + [s])
  {
    var coarse, b := fine * ratio, BucketOf(s.ts, fine);
    var after := UpsertedAll(bars, s, STORED_INTERVALS);
    var g := Group(Window(bars, s.pairId, fine, sinceUs), coarse, time);
    GroupGrows(bars, s, fine, ratio, sinceUs, time, g, b);
    var k := RowsExtended(bars, s, fine, g, b, after);
    RolledAs(after, s.pairId, fine, coarse, sinceUs, time, g + {b});
    var rows' := Rows(after, s.pairId, fine, Sorted(g + {b}));
    if t == [] {
      RowsOfNothing(bars, s, fine, k, rows');
      RollUpFirst(time, s);
      assert t + [s] == [s];
    } else {
      RolledAs(bars, s.pairId, fine, coarse, sinceUs, time, g);
      RollUpNext(time, t, Rows(bars, s.pairId, fine, Sorted(g)), s, k, rows');
    }
  }

  lemma RowsOfNothing(bars: BarTable, s: Snapshot, fine: int, k: nat, after: seq<Bar>)
    requires Extends(Rows(bars, s.pairId, fine, Sorted({})), s, k, after)
    ensures after == [FreshBar(s)]
  {
  }

  lemma GroupGrows(bars: BarTable, s: Snapshot, fine: int, ratio: int, sinceUs: int, time: int, g: set<int>, b: int)
    requires fine in STORED_INTERVALS && ratio > 0 && fine * ratio > 0 && time * 1_000_000 >= sinceUs
    requires InBucket(s, s.pairId, fine * ratio, time) && b == BucketOf(s.ts, fine)
    requires g == Group(Window(bars, s.pairId, fine, sinceUs), fine * ratio, time)
    ensures Group(Window(UpsertedAll(bars, s, STORED_INTERVALS), s.pairId, fine, sinceUs), fine * ratio, time) == g + {b}
    ensures Stored(bars, s.pairId, fine, Sorted(g)) && (b in g || BarKey(s.pairId, fine, b) !in bars)
  {
    GroupStep(bars, s, s.pairId, fine, ratio, sinceUs, time);
    GroupStored(bars, s.pairId, fine, fine * ratio, sinceUs, time);
    FloorBounds(b, fine * ratio);
  }

  /** The roll-up of a complete group of stored bars has the high, low and volume of the snapshots, whatever
      the order they arrived in. */
  lemma {:induction false} RollUpTotals(log: seq<Snapshot>, pairId: int, fine: int, ratio: int, sinceUs: int, time: int)
    requires fine in STORED_INTERVALS && ratio > 0 && fine * ratio > 0 && time * 1_000_000 >= sinceUs
    ensures GroupTotals(Replay(log), pairId, fine, fine * ratio, sinceUs, time, BucketLog(log, pairId, fine * ratio, time))
  {
    var coarse := fine * ratio;
    if |log| == 0 {
      assert Group(Window(Replay(log), pairId, fine, sinceUs), coarse, time) == {};
    } else {
      var before, s := log[..|log| - 1], log[|log| - 1];
      RollUpTotals(before, pairId, fine, ratio, sinceUs, time);
      if InBucket(s, pairId, coarse, time) {
        RollUpStep(Replay(before), s, fine, ratio, sinceUs, time, BucketLog(before, pairId, coarse, time));
      } else {
        RollUpSkip(Replay(before), s, pairId, fine, ratio, sinceUs, time, BucketLog(before, pairId, coarse, time));
      }
    }
  }

  lemma RollUpSkip(bars: BarTable, s: Snapshot, pairId: int, fine: int, ratio: int, sinceUs: int, time: int, t: seq<Snapshot>)
    requires fine in STORED_INTERVALS && ratio > 0 && fine * ratio > 0 && time * 1_000_000 >= sinceUs
    requires !InBucket(s, pairId, fine * ratio, time)
    requires GroupTotals(bars, pairId, fine, fine * ratio, sinceUs, time, t)
    ensures GroupTotals(UpsertedAll(bars, s, STORED_INTERVALS), pairId, fine, fine * ratio, sinceUs, time, t)
  {
    var coarse := fine * ratio;
    var g := Group(Window(bars, pairId, fine, sinceUs), coarse, time);
    GroupStep(bars, s, pairId, fine, ratio, sinceUs, time);
    GroupStored(bars, pairId, fine, coarse, sinceUs, time);
    RowsUnchanged(bars, s, pairId, fine, Sorted(g));
  }

  // ---------- the open and the close of a roll-up ----------

  /** The fine buckets of the snapshots, in arrival order. */
  ghost function Buckets(t: seq<Snapshot>, fine: int): (l: seq<int>)
    requires fine > 0
    ensures |l| == |t| && forall i :: 0 <= i < |t| ==> l[i] == BucketOf(t[i].ts, fine)
  {
    seq(|t|, i requires 0 <= i < |t| => BucketOf(t[i].ts, fine))
  }

  /** Where the least value stands first. */
  ghost function FirstLeast(l: seq<int>): (k: nat)
    requires |l| > 0
    ensures k < |l| && (forall i :: 0 <= i < |l| ==> l[k] <= l[i]) && (forall i :: 0 <= i < k ==> l[k] < l[i])
  {
    var n := |l| - 1;
    if n == 0 then 0 else
    var k := FirstLeast(l[..n]);
    if l[n] < l[k] then n else k
  }

  /** Where the greatest value stands last. */
  ghost function LastGreatest(l: seq<int>): (k: nat)
    requires |l| > 0
    ensures k < |l| && (forall i :: 0 <= i < |l| ==> l[i] <= l[k]) && (forall i :: k < i < |l| ==> l[i] < l[k])
  {
    var n := |l| - 1;
    if n == 0 then 0 else
    var k := LastGreatest(l[..n]);
    if l[n] >= l[k] then n else k
  }

  /** The bucket's first and last prices are those of the first arrival in the earliest fine bucket and of
      the last arrival in the latest one. */
  ghost predicate EndsAgree(t: seq<Snapshot>, fine: int)
    requires |t| > 0 && fine > 0
  {
    && t[FirstLeast(Buckets(t, fine))].priceUsd == t[0].priceUsd
    && t[LastGreatest(Buckets(t, fine))].priceUsd == t[|t| - 1].priceUsd
  }

  /** The first arrival lies in the earliest fine bucket, the last one in the latest. */
  ghost predicate EndsInPlace(t: seq<Snapshot>, fine: int)
    requires |t| > 0 && fine > 0
  {
    var l := Buckets(t, fine);
    forall i :: 0 <= i < |l| ==> l[0] <= l[i] <= l[|l| - 1]
  }

  lemma InPlaceEndsAgree(t: seq<Snapshot>, fine: int)
    requires |t| > 0 && fine > 0 && EndsInPlace(t, fine)
    ensures EndsAgree(t, fine)
  {
    var l := Buckets(t, fine);
    assert FirstLeast(l) == 0 && LastGreatest(l) == |l| - 1;
  }

  /** The log of a fine bucket is that bucket's part of the coarse bucket's log. */
  lemma {:induction false} NestedLog(log: seq<Snapshot>, pairId: int, fine: int, ratio: int, time: int, b: int)
    requires fine > 0 && ratio > 0 && fine * ratio > 0 && Floor(b, fine * ratio) == time
    ensures BucketLog(BucketLog(log, pairId, fine * ratio, time), pairId, fine, b) == BucketLog(log, pairId, fine, b)
  {
    if |log| > 0 {
      var before, s := log[..|log| - 1], log[|log| - 1];
      NestedLog(before, pairId, fine, ratio, time, b);
      NestedBuckets(s.ts, fine, ratio);
      var t := BucketLog(before, pairId, fine * ratio, time);
      assert (t + [s])[..|t|] == t;
    }
  }

  /** The first snapshot of the bucket b in t opens b's log, the last one closes it. */
  lemma {:induction false} FirstInLog(t: seq<Snapshot>, pairId: int, fine: int, b: int, k: nat)
    requires fine > 0 && k < |t| && InBucket(t[k], pairId, fine, b)
    requires forall i :: 0 <= i < k ==> !InBucket(t[i], pairId, fine, b)
    ensures BucketLog(t, pairId, fine, b) != [] && BucketLog(t, pairId, fine, b)[0] == t[k]
  {
    var n := |t| - 1;
    if k < n {
      FirstInLog(t[..n], pairId, fine, b, k);
    } else {
      NoneInLog(t[..n], pairId, fine, b);
    }
  }

  lemma {:induction false} NoneInLog(t: seq<Snapshot>, pairId: int, fine: int, b: int)
    requires fine > 0 && forall i :: 0 <= i < |t| ==> !InBucket(t[i], pairId, fine, b)
    ensures BucketLog(t, pairId, fine, b) == []
  {
    if |t| > 0 {
      NoneInLog(t[..|t| - 1], pairId, fine, b);
    }
  }

  lemma {:induction false} LastInLog(t: seq<Snapshot>, pairId: int, fine: int, b: int, k: nat)
    requires fine > 0 && k < |t| && InBucket(t[k], pairId, fine, b)
    requires forall i :: k < i < |t| ==> !InBucket(t[i], pairId, fine, b)
    ensures var r := BucketLog(t, pairId, fine, b); r != [] && r[|r| - 1] == t[k]
  {
    var n := |t| - 1;
    if k < n {
      LastInLog(t[..n], pairId, fine, b, k);
    }
  }

  /** The fine buckets of the stored group are those of the coarse bucket's snapshots. */
  lemma GroupOfLog(log: seq<Snapshot>, pairId: int, fine: int, ratio: int, sinceUs: int, time: int, b: int)
    requires fine in STORED_INTERVALS && ratio > 0 && fine * ratio > 0 && time * 1_000_000 >= sinceUs
    ensures b in Group(Window(Replay(log), pairId, fine, sinceUs), fine * ratio, time)
            <==> b in Buckets(BucketLog(log, pairId, fine * ratio, time), fine)
  {
    var coarse := fine * ratio;
    var t, r := BucketLog(log, pairId, coarse, time), BucketLog(log, pairId, fine, b);
    StoredBarsAreAggregates(log, BarKey(pairId, fine, b));
    if b in Group(Window(Replay(log), pairId, fine, sinceUs), coarse, time) {
      var s := r[0];
      assert s in r;
      NestedBuckets(s.ts, fine, ratio);
      var i :| 0 <= i < |t| && t[i] == s;
      assert Buckets(t, fine)[i] == b;
    }
    if b in Buckets(t, fine) {
      var i :| 0 <= i < |t| && Buckets(t, fine)[i] == b;
      assert t[i] in t;
      NestedBuckets(t[i].ts, fine, ratio);
      assert t[i] in r;
      FloorBounds(b, coarse);
    }
  }

  /** The row of the bucket of t[k] opens with t[k]'s price when t[k] is its first arrival. */
  lemma RowOpens(log: seq<Snapshot>, pairId: int, fine: int, ratio: int, time: int, t: seq<Snapshot>, k: nat, b: int)
    requires fine in STORED_INTERVALS && ratio > 0 && fine * ratio > 0
    requires t == BucketLog(log, pairId, fine * ratio, time) && k < |t| && b == BucketOf(t[k].ts, fine)
    requires forall i :: 0 <= i < k ==> BucketOf(t[i].ts, fine) != b
    ensures BarKey(pairId, fine, b) in Replay(log) && Replay(log)[BarKey(pairId, fine, b)].open == t[k].priceUsd
  {
    assert t[k] in t;
    NestedBuckets(t[k].ts, fine, ratio);
    NestedLog(log, pairId, fine, ratio, time, b);
    FirstInLog(t, pairId, fine, b, k);
    StoredBarsAreAggregates(log, BarKey(pairId, fine, b));
  }

  /** And closes with it when it is the last. */
  lemma RowCloses(log: seq<Snapshot>, pairId: int, fine: int, ratio: int, time: int, t: seq<Snapshot>, k: nat, b: int)
    requires fine in STORED_INTERVALS && ratio > 0 && fine * ratio > 0
    requires t == BucketLog(log, pairId, fine * ratio, time) && k < |t| && b == BucketOf(t[k].ts, fine)
    requires forall i :: k < i < |t| ==> BucketOf(t[i].ts, fine) != b
    ensures BarKey(pairId, fine, b) in Replay(log) && Replay(log)[BarKey(pairId, fine, b)].close == t[k].priceUsd
  {
    assert t[k] in t;
    NestedBuckets(t[k].ts, fine, ratio);
    NestedLog(log, pairId, fine, ratio, time, b);
    LastInLog(t, pairId, fine, b, k);
    StoredBarsAreAggregates(log, BarKey(pairId, fine, b));
  }

  lemma SortedEnds(g: set<int>, l: seq<int>)
    requires |l| > 0 && forall b :: b in g <==> b in l
    ensures g != {} && Sorted(g)[0] == l[FirstLeast(l)] && Sorted(g)[|Sorted(g)| - 1] == l[LastGreatest(l)]
  {
    var sorted, k, m := Sorted(g), FirstLeast(l), LastGreatest(l);
    assert l[k] in l && l[m] in l;
    var i :| 0 <= i < |sorted| && sorted[i] == l[k];
    var j :| 0 <= j < |sorted| && sorted[j] == l[m];
    assert sorted[0] in sorted && sorted[|sorted| - 1] in sorted;
  }

  lemma SortedGroup(log: seq<Snapshot>, pairId: int, fine: int, ratio: int, sinceUs: int, time: int, g: set<int>, l: seq<int>)
    requires fine in STORED_INTERVALS && ratio > 0 && fine * ratio > 0 && time * 1_000_000 >= sinceUs
    requires g == Group(Window(Replay(log), pairId, fine, sinceUs), fine * ratio, time)
    requires l == Buckets(BucketLog(log, pairId, fine * ratio, time), fine) && |l| > 0
    ensures g != {} && Sorted(g)[0] == l[FirstLeast(l)] && Sorted(g)[|Sorted(g)| - 1] == l[LastGreatest(l)]
  {
    forall b ensures b in g <==> b in l {
      GroupOfLog(log, pairId, fine, ratio, sinceUs, time, b);
    }
    SortedEnds(g, l);
  }

  /** Whatever the arrival order, the rolled open is the price of the first arrival in the earliest fine
      bucket, the rolled close that of the last arrival in the latest. */
  lemma RolledEnds(log: seq<Snapshot>, pairId: int, fine: int, ratio: int, sinceUs: int, time: int)
    requires fine in STORED_INTERVALS && ratio > 0 && fine * ratio > 0 && time * 1_000_000 >= sinceUs
    requires BucketLog(log, pairId, fine * ratio, time) != []
    ensures Group(Window(Replay(log), pairId, fine, sinceUs), fine * ratio, time) != {}
    ensures var t := BucketLog(log, pairId, fine * ratio, time);
            var p := RolledGroup(Replay(log), pairId, fine, fine * ratio, sinceUs, time);
      && p.open == t[FirstLeast(Buckets(t, fine))].priceUsd
      && p.close == t[LastGreatest(Buckets(t, fine))].priceUsd
  {
    var t := BucketLog(log, pairId, fine * ratio, time);
    var g, l := Group(Window(Replay(log), pairId, fine, sinceUs), fine * ratio, time), Buckets(t, fine);
    SortedGroup(log, pairId, fine, ratio, sinceUs, time, g, l);
    RolledAs(Replay(log), pairId, fine, fine * ratio, sinceUs, time, g);
    RowOpens(log, pairId, fine, ratio, time, t, FirstLeast(l), l[FirstLeast(l)]);
    RowCloses(log, pairId, fine, ratio, time, t, LastGreatest(l), l[LastGreatest(l)]);
  }

  /** A stored group exists exactly for a non-empty coarse bucket; its roll-up has the bucket's high, low and
      volume, and is the bucket's aggregate exactly when the ends agree. */
  ghost predicate GroupMatches(bars: BarTable, pairId: int, fine: int, coarse: int, sinceUs: int, time: int, t: seq<Snapshot>)
    requires fine > 0 && coarse > 0
  {
    && (Group(Window(bars, pairId, fine, sinceUs), coarse, time) == {} <==> t == [])
    && (t != [] ==>
          var p := RolledGroup(bars, pairId, fine, coarse, sinceUs, time);
          RolledTotals(p, time, t) && (p == BatchPoint(time, t) <==> EndsAgree(t, fine)))
  }

  /** Rolling a complete group of stored bars up, for every arrival order. */
  lemma RollUpMatches(log: seq<Snapshot>, pairId: int, fine: int, ratio: int, sinceUs: int, time: int)
    requires fine in STORED_INTERVALS && ratio > 0 && fine * ratio > 0 && time * 1_000_000 >= sinceUs
    ensures GroupMatches(Replay(log), pairId, fine, fine * ratio, sinceUs, time, BucketLog(log, pairId, fine * ratio, time))
  {
    RollUpTotals(log, pairId, fine, ratio, sinceUs, time);
    if BucketLog(log, pairId, fine * ratio, time) != [] {
      RolledEnds(log, pairId, fine, ratio, sinceUs, time);
    }
  }

  // ---------- for which arrival orders the roll-up is exact ----------

  /** The same snapshots but for prices and volumes. */
  ghost predicate SameTimes(log: seq<Snapshot>, other: seq<Snapshot>) {
    |log| == |other| && forall i :: 0 <= i < |log| ==> log[i].pairId == other[i].pairId && log[i].ts == other[i].ts
  }

  ghost predicate RollsUp(log: seq<Snapshot>, pairId: int, fine: int, coarse: int, sinceUs: int, time: int)
    requires coarse > 0
  {
    var t := BucketLog(log, pairId, coarse, time);
    t != [] ==>
      && Group(Window(Replay(log), pairId, fine, sinceUs), coarse, time) != {}
      && RolledGroup(Replay(log), pairId, fine, coarse, sinceUs, time) == BatchPoint(time, t)
  }

  lemma {:induction false} SameTimesInBucket(log: seq<Snapshot>, other: seq<Snapshot>, pairId: int, coarse: int, time: int)
    requires coarse > 0 && SameTimes(log, other)
    ensures SameTimes(BucketLog(log, pairId, coarse, time), BucketLog(other, pairId, coarse, time))
  {
    if |log| > 0 {
      SameTimesInBucket(log[..|log| - 1], other[..|log| - 1], pairId, coarse, time);
    }
  }

  lemma SameTimesSameBuckets(t: seq<Snapshot>, u: seq<Snapshot>, fine: int)
    requires fine > 0 && SameTimes(t, u)
    ensures Buckets(t, fine) == Buckets(u, fine)
  {
  }

  /** The log with every price replaced by its place, so that no two prices are equal. */
  ghost function ByPlace(log: seq<Snapshot>): (other: seq<Snapshot>)
    ensures SameTimes(log, other)
  {
    seq(|log|, i requires 0 <= i < |log| => log[i].(priceUsd := i))
  }

  /** Prices below n, each higher than the one before. */
  ghost predicate Rising(t: seq<Snapshot>, n: int) {
    && (forall i :: 0 <= i < |t| ==> t[i].priceUsd < n)
    && (forall i, j :: 0 <= i < j < |t| ==> t[i].priceUsd < t[j].priceUsd)
  }

  lemma RisingNext(t: seq<Snapshot>, x: Snapshot, n: int)
    requires Rising(t, n) && x.priceUsd == n
    ensures Rising(t, n + 1) && Rising(t + [x], n + 1)
  {
  }

  lemma {:induction false} PlacesRise(log: seq<Snapshot>, pairId: int, coarse: int, time: int)
    requires coarse > 0
    ensures Rising(BucketLog(ByPlace(log), pairId, coarse, time), |log|)
  {
    if |log| > 0 {
      var n := |log| - 1;
      PlacesRise(log[..n], pairId, coarse, time);
      assert ByPlace(log)[..n] == ByPlace(log[..n]);
      RisingNext(BucketLog(ByPlace(log[..n]), pairId, coarse, time), ByPlace(log)[n], n);
    }
  }

  lemma RisingEnds(t: seq<Snapshot>, n: int, fine: int)
    requires |t| > 0 && fine > 0 && EndsAgree(t, fine) && Rising(t, n)
    ensures EndsInPlace(t, fine)
  {
    var l := Buckets(t, fine);
    assert FirstLeast(l) == 0 && LastGreatest(l) == |l| - 1;
  }

  /** The roll-up of a bucket is its aggregate whatever the prices were exactly when its first arrival lies in
      its earliest fine bucket and its last arrival in the latest. */
  lemma RollUpExactForAllPrices(log: seq<Snapshot>, pairId: int, fine: int, ratio: int, sinceUs: int, time: int)
    requires fine in STORED_INTERVALS && ratio > 0 && fine * ratio > 0 && time * 1_000_000 >= sinceUs
    requires BucketLog(log, pairId, fine * ratio, time) != []
    ensures (forall other | SameTimes(log, other) :: RollsUp(other, pairId, fine, fine * ratio, sinceUs, time))
            <==> EndsInPlace(BucketLog(log, pairId, fine * ratio, time), fine)
  {
    var coarse := fine * ratio;
    var t := BucketLog(log, pairId, coarse, time);
    if EndsInPlace(t, fine) {
      forall other | SameTimes(log, other) ensures RollsUp(other, pairId, fine, coarse, sinceUs, time) {
        var u := BucketLog(other, pairId, coarse, time);
        SameTimesInBucket(log, other, pairId, coarse, time);
        SameTimesSameBuckets(t, u, fine);
        InPlaceEndsAgree(u, fine);
        RollUpMatches(other, pairId, fine, ratio, sinceUs, time);
      }
    }
    ExactByPlace(log, pairId, fine, ratio, sinceUs, time);
  }

  lemma ExactByPlace(log: seq<Snapshot>, pairId: int, fine: int, ratio: int, sinceUs: int, time: int)
    requires fine in STORED_INTERVALS && ratio > 0 && fine * ratio > 0 && time * 1_000_000 >= sinceUs
    requires BucketLog(log, pairId, fine * ratio, time) != []
    ensures RollsUp(ByPlace(log), pairId, fine, fine * ratio, sinceUs, time)
            ==> EndsInPlace(BucketLog(log, pairId, fine * ratio, time), fine)
  {
    RollUpMatches(ByPlace(log), pairId, fine, ratio, sinceUs, time);
    PlaceEnds(log, pairId, fine, fine * ratio, time);
  }

  lemma PlaceEnds(log: seq<Snapshot>, pairId: int, fine: int, coarse: int, time: int)
    requires fine > 0 && coarse > 0
    ensures var t, u := BucketLog(log, pairId, coarse, time), BucketLog(ByPlace(log), pairId, coarse, time);
      |t| == |u| && (t != [] && EndsAgree(u, fine) ==> EndsInPlace(t, fine))
  {
    var t, u := BucketLog(log, pairId, coarse, time), BucketLog(ByPlace(log), pairId, coarse, time);
    SameTimesInBucket(log, ByPlace(log), pairId, coarse, time);
    SameTimesSameBuckets(t, u, fine);
    PlacesRise(log, pairId, coarse, time);
    if t != [] && EndsAgree(u, fine) {
      RisingEnds(u, |log|, fine);
    }
  }

  /** The snapshots of a pair arrive in the order of their fine buckets. */
  ghost predicate ArriveInOrder(log: seq<Snapshot>, pairId: int, fine: int)
    requires fine > 0
  {
    forall i, j :: 0 <= i < j < |log| && log[i].pairId == pairId && log[j].pairId == pairId ==>
      BucketOf(log[i].ts, fine) <= BucketOf(log[j].ts, fine)
  }

  /** Non-decreasing timestamps are in order for every interval. */
  lemma TimesInOrder(log: seq<Snapshot>, pairId: int, fine: int)
    requires fine > 0
    requires forall i, j :: 0 <= i < j < |log| && log[i].pairId == pairId && log[j].pairId == pairId ==>
               log[i].ts <= log[j].ts
    ensures ArriveInOrder(log, pairId, fine)
  {
    forall i, j | 0 <= i < j < |log| && log[i].pairId == pairId && log[j].pairId == pairId
      ensures BucketOf(log[i].ts, fine) <= BucketOf(log[j].ts, fine)
    {
      FloorMonotone(log[i].ts, log[j].ts, 1000 * fine);
      MulMonotone(fine, log[i].ts / (1000 * fine), log[j].ts / (1000 * fine));
    }
  }

  ghost predicate NonDecreasing(l: seq<int>) {
    forall i, j :: 0 <= i < j < |l| ==> l[i] <= l[j]
  }

  lemma {:induction false} BucketLogInOrder(log: seq<Snapshot>, pairId: int, fine: int, coarse: int, time: int)
    requires fine > 0 && coarse > 0 && ArriveInOrder(log, pairId, fine)
    ensures NonDecreasing(Buckets(BucketLog(log, pairId, coarse, time), fine))
  {
    if |log| > 0 {
      var before, s := log[..|log| - 1], log[|log| - 1];
      assert forall i :: 0 <= i < |before| ==> before[i] == log[i];
      BucketLogInOrder(before, pairId, fine, coarse, time);
      var t := BucketLog(before, pairId, coarse, time);
      if InBucket(s, pairId, coarse, time) {
        forall i | 0 <= i < |t| ensures BucketOf(t[i].ts, fine) <= BucketOf(s.ts, fine) {
          assert t[i] in t;
          var k :| 0 <= k < |before| && before[k] == t[i];
          assert log[k] == t[i];
        }
        InOrderNext(t, s, fine);
      }
    }
  }

  lemma InOrderNext(t: seq<Snapshot>, s: Snapshot, fine: int)
    requires fine > 0 && NonDecreasing(Buckets(t, fine))
    requires forall i :: 0 <= i < |t| ==> BucketOf(t[i].ts, fine) <= BucketOf(s.ts, fine)
    ensures NonDecreasing(Buckets(t + [s], fine))
  {
    assert Buckets(t + [s], fine) == Buckets(t, fine) + [BucketOf(s.ts, fine)];
  }

  lemma OrderedInPlace(t: seq<Snapshot>, fine: int)
    requires |t| > 0 && fine > 0 && NonDecreasing(Buckets(t, fine))
    ensures EndsInPlace(t, fine)
  {
  }

  lemma InOrderEndsAgree(log: seq<Snapshot>, pairId: int, fine: int, coarse: int, time: int)
    requires fine > 0 && coarse > 0 && ArriveInOrder(log, pairId, fine)
    ensures var t := BucketLog(log, pairId, coarse, time); t != [] ==> EndsAgree(t, fine)
  {
    var t := BucketLog(log, pairId, coarse, time);
    BucketLogInOrder(log, pairId, fine, coarse, time);
    if t != [] {
      OrderedInPlace(t, fine);
      InPlaceEndsAgree(t, fine);
    }
  }

  /** Snapshots in order of time roll up exactly. */
  lemma InOrderRollsUp(log: seq<Snapshot>, pairId: int, fine: int, ratio: int, sinceUs: int, time: int)
    requires fine in STORED_INTERVALS && ratio > 0 && fine * ratio > 0 && time * 1_000_000 >= sinceUs
    requires ArriveInOrder(log, pairId, fine)
    ensures RollsUp(log, pairId, fine, fine * ratio, sinceUs, time)
  {
    RollUpMatches(log, pairId, fine, ratio, sinceUs, time);
    InOrderEndsAgree(log, pairId, fine, fine * ratio, time);
  }

  // ---------- the lookback window ----------

  /** The snapshots whose fine bucket starts in the window. */
  ghost function RecentLog(log: seq<Snapshot>, fine: int, sinceUs: int): (r: seq<Snapshot>)
    requires fine > 0
    ensures forall s :: s in r <==> s in log && BucketOf(s.ts, fine) * 1_000_000 >= sinceUs
  {
    if |log| == 0 then [] else
    var rest := RecentLog(log[..|log| - 1], fine, sinceUs);
    var last := log[|log| - 1];
    assert log == log[..|log| - 1] + [last];
    if BucketOf(last.ts, fine) * 1_000_000 >= sinceUs then rest + [last] else rest
  }

  lemma {:induction false} RecentBucket(log: seq<Snapshot>, pairId: int, fine: int, sinceUs: int, b: int)
    requires fine > 0
    ensures BucketLog(RecentLog(log, fine, sinceUs), pairId, fine, b)
            == if b * 1_000_000 >= sinceUs then BucketLog(log, pairId, fine, b) else []
  {
    if |log| > 0 {
      var before, s := log[..|log| - 1], log[|log| - 1];
      RecentBucket(before, pairId, fine, sinceUs, b);
      var t := RecentLog(before, fine, sinceUs);
      assert (t + [s])[..|t|] == t;
    }
  }

  /** A coarse bucket that starts in the window is recent as a whole. */
  lemma {:induction false} RecentWhole(log: seq<Snapshot>, pairId: int, fine: int, ratio: int, sinceUs: int, time: int)
    requires fine > 0 && ratio > 0 && fine * ratio > 0 && time * 1_000_000 >= sinceUs
    ensures BucketLog(RecentLog(log, fine, sinceUs), pairId, fine * ratio, time) == BucketLog(log, pairId, fine * ratio, time)
  {
    if |log| > 0 {
      var before, s := log[..|log| - 1], log[|log| - 1];
      RecentWhole(before, pairId, fine, ratio, sinceUs, time);
      NestedBuckets(s.ts, fine, ratio);
      FloorBounds(BucketOf(s.ts, fine), fine * ratio);
      var t := RecentLog(before, fine, sinceUs);
      assert (t + [s])[..|t|] == t;
    }
  }

  /** The bars of the window are the bars of the recent snapshots. */
  lemma RecentBar(log: seq<Snapshot>, pairId: int, fine: int, sinceUs: int, b: int)
    requires fine in STORED_INTERVALS
    ensures var key := BarKey(pairId, fine, b);
            var recent := Replay(RecentLog(log, fine, sinceUs));
      && (key in recent <==> key in Replay(log) && b * 1_000_000 >= sinceUs)
      && (key in recent ==> recent[key] == Replay(log)[key])
  {
    RecentBucket(log, pairId, fine, sinceUs, b);
    StoredBarsAreAggregates(log, BarKey(pairId, fine, b));
    StoredBarsAreAggregates(RecentLog(log, fine, sinceUs), BarKey(pairId, fine, b));
  }

  lemma RecentGroup(log: seq<Snapshot>, pairId: int, fine: int, coarse: int, sinceUs: int, low: int, time: int)
    requires fine in STORED_INTERVALS && coarse > 0 && low <= sinceUs
    ensures var recent := Replay(RecentLog(log, fine, sinceUs));
            var g := Group(Window(Replay(log), pairId, fine, sinceUs), coarse, time);
      && g == Group(Window(recent, pairId, fine, low), coarse, time)
      && (g != {} ==> RolledGroup(Replay(log), pairId, fine, coarse, sinceUs, time)
                      == RolledGroup(recent, pairId, fine, coarse, low, time))
  {
    var recent := Replay(RecentLog(log, fine, sinceUs));
    forall b
      ensures b in Window(Replay(log), pairId, fine, sinceUs) <==> b in Window(recent, pairId, fine, low)
      ensures b in Window(recent, pairId, fine, low) ==> recent[BarKey(pairId, fine, b)] == Replay(log)[BarKey(pairId, fine, b)]
    {
      RecentBar(log, pairId, fine, sinceUs, b);
    }
    assert Window(Replay(log), pairId, fine, sinceUs) == Window(recent, pairId, fine, low);
    var starts := Sorted(Group(Window(recent, pairId, fine, low), coarse, time));
    assert forall i :: 0 <= i < |starts| ==> starts[i] in starts;
    assert Rows(Replay(log), pairId, fine, starts) == Rows(recent, pairId, fine, starts);
  }

  /** Rolling up what a window holds of a bucket, wherever the window starts: the bar is that of the bucket's recent
      snapshots, in the sense of RollUpMatches. */
  lemma WindowMatches(log: seq<Snapshot>, pairId: int, fine: int, ratio: int, sinceUs: int, time: int)
    requires fine in STORED_INTERVALS && ratio > 0 && fine * ratio > 0
    ensures GroupMatches(Replay(log), pairId, fine, fine * ratio, sinceUs, time,
                         BucketLog(RecentLog(log, fine, sinceUs), pairId, fine * ratio, time))
  {
    var low := Least(sinceUs, time * 1_000_000);
    RollUpMatches(RecentLog(log, fine, sinceUs), pairId, fine, ratio, low, time);
    RecentGroup(log, pairId, fine, fine * ratio, sinceUs, low, time);
  }

  // ---------- the queries ----------

  function ClampLimit(limit: Number): (n: int)
    ensures 1 <= n <= 2000
    ensures limit.NotFinite? || limit.value <= 0.0 ==> n == 300
    ensures limit.Finite? && 0.0 < limit.value < 1.0 ==> n == 1
    ensures limit.Finite? && 1.0 <= limit.value < 2000.0 ==> n as real <= limit.value < n as real + 1.0
    ensures limit.Finite? && limit.value >= 2000.0 ==> n == 2000
  {
    if limit.NotFinite? || limit.value <= 0.0 then 300
    else Least(Greatest(limit.value.Floor, 1), 2000)
  }

  /** ORDER BY time DESC LIMIT n, read back in ascending order. */
  function LastN<T>(l: seq<T>, n: nat): seq<T> {
    if |l| <= n then l else l[|l| - n..]
  }

  ghost function StoredTimes(bars: BarTable, pairId: int, intervalSec: int, limit: nat): (l: seq<int>)
    ensures |l| <= limit && Ascending(l)
    ensures forall i :: 0 <= i < |l| ==> BarKey(pairId, intervalSec, l[i]) in bars
    ensures forall t :: BarKey(pairId, intervalSec, t) in bars ==>
              t in l || (|l| == limit && (limit > 0 ==> t < l[0]))
  {
    LastOfSorted(Starts(bars, pairId, intervalSec), limit);
    LastN(Sorted(Starts(bars, pairId, intervalSec)), limit)
  }

  /** getStoredBars: the latest limit stored bars of an interval. */
  ghost function StoredBars(bars: BarTable, pairId: int, intervalSec: int, limit: nat): (r: seq<Point>)
    ensures |r| == |StoredTimes(bars, pairId, intervalSec, limit)|
    ensures forall i :: 0 <= i < |r| ==> r[i].time == StoredTimes(bars, pairId, intervalSec, limit)[i]
  {
    var l := StoredTimes(bars, pairId, intervalSec, limit);
    seq(|l|, i requires 0 <= i < |l| =>
      var b := bars[BarKey(pairId, intervalSec, l[i])];
      Point(l[i], b.open, b.high, b.low, b.close, b.volume))
  }

  ghost function SinceUs(intervalSec: int, limit: nat, nowUs: int): int {
    nowUs - Greatest(intervalSec * limit + SOURCE_INTERVAL, intervalSec) * 1_000_000
  }

  ghost function GroupTimes(window: set<int>, intervalSec: int): (g: set<int>)
    requires intervalSec > 0
    ensures forall b :: b in window ==> Floor(b, intervalSec) in g
  {
    set b | b in window :: Floor(b, intervalSec)
  }

  /** The group times the query returns, ascending. */
  ghost function ReturnedTimes(bars: BarTable, pairId: int, intervalSec: int, limit: nat, nowUs: int): (l: seq<int>)
    requires intervalSec > 0
    ensures |l| <= limit && Ascending(l)
    ensures var g := GroupTimes(Window(bars, pairId, SOURCE_INTERVAL, SinceUs(intervalSec, limit, nowUs)), intervalSec);
      && (forall i :: 0 <= i < |l| ==> l[i] in g)
      && (forall t :: t in g ==> t in l || (|l| == limit && (limit > 0 ==> t < l[0])))
  {
    var g := GroupTimes(Window(bars, pairId, SOURCE_INTERVAL, SinceUs(intervalSec, limit, nowUs)), intervalSec);
    LastOfSorted(g, limit);
    LastN(Sorted(g), limit)
  }

  lemma LastOfSorted(g: set<int>, n: nat)
    ensures var l := LastN(Sorted(g), n);
      && |l| <= n && Ascending(l)
      && (forall i :: 0 <= i < |l| ==> l[i] in g)
      && (forall t :: t in g ==> t in l || (|l| == n && (n > 0 ==> t < l[0])))
  {
    LastOfAscending(Sorted(g), g, n);
  }

  lemma LastOfAscending(all: seq<int>, g: set<int>, n: nat)
    requires Ascending(all) && forall x :: x in all <==> x in g
    ensures var l := LastN(all, n);
      && |l| <= n && Ascending(l)
      && (forall i :: 0 <= i < |l| ==> l[i] in g)
      && (forall t :: t in g ==> t in l || (|l| == n && (n > 0 ==> t < l[0])))
  {
    var l := LastN(all, n);
    if |all| > n {
      assert l == all[|all| - n..];
    }
    forall i | 0 <= i < |l| ensures l[i] in g {
      assert l[i] in all;
    }
    forall t | t in g ensures t in l || (|l| == n && (n > 0 ==> t < l[0])) {
      LastOrBefore(all, n, t);
    }
  }

  lemma LastOrBefore(all: seq<int>, n: nat, t: int)
    requires Ascending(all) && t in all
    ensures var l := LastN(all, n);
      t in l || (|l| == n && (n > 0 ==> t < l[0]))
  {
    var i :| 0 <= i < |all| && all[i] == t;
    var l := LastN(all, n);
    if |all| > n {
      var d := |all| - n;
      assert l == all[d..];
      if i >= d {
        assert l[i - d] == t;
      }
    } else {
      assert l == all;
    }
  }

  /** getAggregatedBars: group the 15m bars of the lookback window, keep the latest limit groups. */
  ghost function AggregatedBars(bars: BarTable, pairId: int, intervalSec: int, limit: nat, nowUs: int): (r: seq<Point>)
    requires intervalSec > 0
    ensures |r| == |ReturnedTimes(bars, pairId, intervalSec, limit, nowUs)|
    ensures forall i :: 0 <= i < |r| ==> r[i].time == ReturnedTimes(bars, pairId, intervalSec, limit, nowUs)[i]
  {
    var sinceUs := SinceUs(intervalSec, limit, nowUs);
    var times := ReturnedTimes(bars, pairId, intervalSec, limit, nowUs);
    seq(|times|, i requires 0 <= i < |times| =>
      ReturnedInhabited(bars, pairId, intervalSec, limit, nowUs, i);
      RolledGroup(bars, pairId, SOURCE_INTERVAL, intervalSec, sinceUs, times[i]))
  }

  lemma ReturnedInhabited(bars: BarTable, pairId: int, intervalSec: int, limit: nat, nowUs: int, i: nat)
    requires intervalSec > 0 && i < |ReturnedTimes(bars, pairId, intervalSec, limit, nowUs)|
    ensures Group(Window(bars, pairId, SOURCE_INTERVAL, SinceUs(intervalSec, limit, nowUs)), intervalSec,
                  ReturnedTimes(bars, pairId, intervalSec, limit, nowUs)[i]) != {}
  {
    GroupInhabited(Window(bars, pairId, SOURCE_INTERVAL, SinceUs(intervalSec, limit, nowUs)), intervalSec,
                   ReturnedTimes(bars, pairId, intervalSec, limit, nowUs)[i]);
  }

  lemma GroupInhabited(window: set<int>, intervalSec: int, time: int)
    requires intervalSec > 0 && time in GroupTimes(window, intervalSec)
    ensures Group(window, intervalSec, time) != {}
  {
    var b :| b in window && Floor(b, intervalSec) == time;
    assert b in Group(window, intervalSec, time);
  }

  /** Group times are whole intervals apart. */
  lemma GroupSpacing(x: int, y: int, intervalSec: int)
    requires intervalSec > 0 && Floor(x, intervalSec) < Floor(y, intervalSec)
    ensures Floor(x, intervalSec) + intervalSec <= Floor(y, intervalSec)
  {
    MulCancel(x / intervalSec, y / intervalSec, intervalSec);
    MulMonotone(intervalSec, x / intervalSec + 1, y / intervalSec);
  }

  /** A returned bar inside the lookback matches its bucket; only the first can lie outside it. */
  ghost predicate InsideMatches(log: seq<Snapshot>, pairId: int, intervalSec: int, sinceUs: int, p: Point)
    requires intervalSec > 0
  {
    p.time * 1_000_000 >= sinceUs ==>
      var t := BucketLog(log, pairId, intervalSec, p.time);
      && RolledTotals(p, p.time, t)
      && (Complete(log, pairId, intervalSec, p) <==> EndsAgree(t, SOURCE_INTERVAL))
  }

  /** The point is the aggregate of all the snapshots of its bucket. */
  ghost predicate Complete(log: seq<Snapshot>, pairId: int, intervalSec: int, p: Point)
    requires intervalSec > 0
  {
    var t := BucketLog(log, pairId, intervalSec, p.time);
    t != [] && p == BatchPoint(p.time, t)
  }

  lemma ReturnedBar(log: seq<Snapshot>, pairId: int, ratio: int, limit: nat, nowUs: int, i: nat)
    requires ratio > 0 && SOURCE_INTERVAL * ratio > 0
    requires i < |AggregatedBars(Replay(log), pairId, SOURCE_INTERVAL * ratio, limit, nowUs)|
    ensures var intervalSec := SOURCE_INTERVAL * ratio;
            var sinceUs := SinceUs(intervalSec, limit, nowUs);
            var p := AggregatedBars(Replay(log), pairId, intervalSec, limit, nowUs)[i];
      && InsideMatches(log, pairId, intervalSec, sinceUs, p)
      && (i > 0 ==> p.time * 1_000_000 >= sinceUs)
  {
    var intervalSec := SOURCE_INTERVAL * ratio;
    var sinceUs := SinceUs(intervalSec, limit, nowUs);
    var window := Window(Replay(log), pairId, SOURCE_INTERVAL, sinceUs);
    var times := ReturnedTimes(Replay(log), pairId, intervalSec, limit, nowUs);
    GroupInhabited(window, intervalSec, times[i]);
    if times[i] * 1_000_000 >= sinceUs {
      RollUpMatches(log, pairId, SOURCE_INTERVAL, ratio, sinceUs, times[i]);
    }
    if i > 0 {
      LaterGroupInside(window, intervalSec, times[0], times[i], sinceUs);
    }
  }

  lemma NonEmptyBucketGrouped(log: seq<Snapshot>, pairId: int, ratio: int, sinceUs: int, time: int)
    requires ratio > 0 && SOURCE_INTERVAL * ratio > 0 && time * 1_000_000 >= sinceUs
    requires BucketLog(log, pairId, SOURCE_INTERVAL * ratio, time) != []
    ensures time in GroupTimes(Window(Replay(log), pairId, SOURCE_INTERVAL, sinceUs), SOURCE_INTERVAL * ratio)
  {
    RollUpMatches(log, pairId, SOURCE_INTERVAL, ratio, sinceUs, time);
    EmptyOrInhabited(Group(Window(Replay(log), pairId, SOURCE_INTERVAL, sinceUs), SOURCE_INTERVAL * ratio, time));
  }

  /** The bar rolls up these snapshots, exactly as far as their ends agree. */
  ghost predicate RolledFrom(p: Point, t: seq<Snapshot>) {
    t != [] && RolledTotals(p, p.time, t) && (p == BatchPoint(p.time, t) <==> EndsAgree(t, SOURCE_INTERVAL))
  }

  /** A bar for each bucket that has such snapshots, the latest limit of them, ascending; each bar rolls up those
      snapshots of its bucket and no others. */
  ghost predicate Answers(r: seq<Point>, recent: seq<Snapshot>, pairId: int, intervalSec: int, limit: nat)
    requires intervalSec > 0
  {
    && |r| <= limit
    && (forall i, j :: 0 <= i < j < |r| ==> r[i].time < r[j].time)
    && (forall i :: 0 <= i < |r| ==> RolledFrom(r[i], BucketLog(recent, pairId, intervalSec, r[i].time)))
    && (forall time :: BucketLog(recent, pairId, intervalSec, time) != [] ==> Covered(r, limit, time))
  }

  /** What starts inside the lookback is there as a whole; only the oldest returned bar can start before it. */
  ghost predicate CutAtEdge(r: seq<Point>, log: seq<Snapshot>, recent: seq<Snapshot>, pairId: int, intervalSec: int, edge: int)
    requires intervalSec > 0
  {
    && (forall i :: 1 <= i < |r| ==> r[i].time * 1_000_000 >= edge)
    && (forall time :: time * 1_000_000 >= edge ==>
          BucketLog(recent, pairId, intervalSec, time) == BucketLog(log, pairId, intervalSec, time))
  }

  /** The query answers from the snapshots whose 15m bucket starts within the last intervalSec * limit + 900 seconds,
      and from nothing older. */
  lemma AggregatedBarsComplete(log: seq<Snapshot>, pairId: int, ratio: int, limit: nat, nowUs: int, intervalSec: int, edge: int)
    requires ratio > 0 && intervalSec == 900 * ratio && limit > 0
    requires edge == nowUs - (intervalSec * limit + 900) * 1_000_000
    ensures var recent := RecentLog(log, 900, edge);
            var r := AggregatedBars(Replay(log), pairId, intervalSec, limit, nowUs);
      && Answers(r, recent, pairId, intervalSec, limit)
      && CutAtEdge(r, log, recent, pairId, intervalSec, edge)
  {
    AnswersFromRecent(log, pairId, ratio, limit, nowUs);
    LaterInside(log, pairId, ratio, limit, nowUs);
    forall time | time * 1_000_000 >= edge
      ensures BucketLog(RecentLog(log, 900, edge), pairId, intervalSec, time) == BucketLog(log, pairId, intervalSec, time)
    {
      RecentWhole(log, pairId, SOURCE_INTERVAL, ratio, edge, time);
    }
  }

  lemma AnswersFromRecent(log: seq<Snapshot>, pairId: int, ratio: int, limit: nat, nowUs: int)
    requires ratio > 0 && SOURCE_INTERVAL * ratio > 0 && limit > 0
    ensures var intervalSec := SOURCE_INTERVAL * ratio;
      Answers(AggregatedBars(Replay(log), pairId, intervalSec, limit, nowUs),
              RecentLog(log, SOURCE_INTERVAL, LookbackEdge(intervalSec, limit, nowUs)), pairId, intervalSec, limit)
  {
    var intervalSec := SOURCE_INTERVAL * ratio;
    var recent := RecentLog(log, SOURCE_INTERVAL, LookbackEdge(intervalSec, limit, nowUs));
    var r := AggregatedBars(Replay(log), pairId, intervalSec, limit, nowUs);
    forall i | 0 <= i < |r| ensures RolledFrom(r[i], BucketLog(recent, pairId, intervalSec, r[i].time)) {
      ReturnedRecent(log, pairId, ratio, limit, nowUs, i);
    }
    forall time | BucketLog(recent, pairId, intervalSec, time) != [] ensures Covered(r, limit, time) {
      RecentCovered(log, pairId, ratio, limit, nowUs, time);
    }
  }

  lemma LaterInside(log: seq<Snapshot>, pairId: int, ratio: int, limit: nat, nowUs: int)
    requires ratio > 0 && SOURCE_INTERVAL * ratio > 0 && limit > 0
    ensures var r := AggregatedBars(Replay(log), pairId, SOURCE_INTERVAL * ratio, limit, nowUs);
      forall i :: 1 <= i < |r| ==> r[i].time * 1_000_000 >= LookbackEdge(SOURCE_INTERVAL * ratio, limit, nowUs)
  {
    EdgeIsSince(SOURCE_INTERVAL * ratio, limit, nowUs);
    var r := AggregatedBars(Replay(log), pairId, SOURCE_INTERVAL * ratio, limit, nowUs);
    forall i | 1 <= i < |r| ensures r[i].time * 1_000_000 >= LookbackEdge(SOURCE_INTERVAL * ratio, limit, nowUs) {
      ReturnedBar(log, pairId, ratio, limit, nowUs, i);
    }
  }

  function LookbackEdge(intervalSec: int, limit: nat, nowUs: int): int {
    nowUs - (intervalSec * limit + 900) * 1_000_000
  }

  lemma EdgeIsSince(intervalSec: int, limit: nat, nowUs: int)
    requires intervalSec > 0 && limit > 0
    ensures SinceUs(intervalSec, limit, nowUs) == LookbackEdge(intervalSec, limit, nowUs)
  {
    MulMonotone(intervalSec, 1, limit);
  }

  lemma ReturnedRecent(log: seq<Snapshot>, pairId: int, ratio: int, limit: nat, nowUs: int, i: nat)
    requires ratio > 0 && SOURCE_INTERVAL * ratio > 0 && limit > 0
    requires i < |AggregatedBars(Replay(log), pairId, SOURCE_INTERVAL * ratio, limit, nowUs)|
    ensures var p := AggregatedBars(Replay(log), pairId, SOURCE_INTERVAL * ratio, limit, nowUs)[i];
            var recent := RecentLog(log, SOURCE_INTERVAL, LookbackEdge(SOURCE_INTERVAL * ratio, limit, nowUs));
      RolledFrom(p, BucketLog(recent, pairId, SOURCE_INTERVAL * ratio, p.time))
  {
    var intervalSec := SOURCE_INTERVAL * ratio;
    EdgeIsSince(intervalSec, limit, nowUs);
    ReturnedInhabited(Replay(log), pairId, intervalSec, limit, nowUs, i);
    WindowMatches(log, pairId, SOURCE_INTERVAL, ratio, SinceUs(intervalSec, limit, nowUs),
                  ReturnedTimes(Replay(log), pairId, intervalSec, limit, nowUs)[i]);
  }

  lemma RecentCovered(log: seq<Snapshot>, pairId: int, ratio: int, limit: nat, nowUs: int, time: int)
    requires ratio > 0 && SOURCE_INTERVAL * ratio > 0 && limit > 0
    requires BucketLog(RecentLog(log, SOURCE_INTERVAL, LookbackEdge(SOURCE_INTERVAL * ratio, limit, nowUs)), pairId,
                       SOURCE_INTERVAL * ratio, time) != []
    ensures Covered(AggregatedBars(Replay(log), pairId, SOURCE_INTERVAL * ratio, limit, nowUs), limit, time)
  {
    var intervalSec := SOURCE_INTERVAL * ratio;
    var sinceUs := SinceUs(intervalSec, limit, nowUs);
    EdgeIsSince(intervalSec, limit, nowUs);
    WindowMatches(log, pairId, SOURCE_INTERVAL, ratio, sinceUs, time);
    EmptyOrInhabited(Group(Window(Replay(log), pairId, SOURCE_INTERVAL, sinceUs), intervalSec, time));
    TimeCovered(Replay(log), pairId, intervalSec, limit, nowUs, time);
  }

  lemma TimeCovered(bars: BarTable, pairId: int, intervalSec: int, limit: nat, nowUs: int, time: int)
    requires intervalSec > 0 && limit > 0
    requires time in GroupTimes(Window(bars, pairId, SOURCE_INTERVAL, SinceUs(intervalSec, limit, nowUs)), intervalSec)
    ensures Covered(AggregatedBars(bars, pairId, intervalSec, limit, nowUs), limit, time)
  {
    var times, r := ReturnedTimes(bars, pairId, intervalSec, limit, nowUs), AggregatedBars(bars, pairId, intervalSec, limit, nowUs);
    if time in times {
      var i :| 0 <= i < |times| && times[i] == time;
      assert r[i].time == time;
    }
  }

  /** A pair whose 15m bars all start before the lookback gets no bar. */
  lemma OldBarsNotReturned(log: seq<Snapshot>, pairId: int, ratio: int, limit: nat, nowUs: int, intervalSec: int, edge: int)
    requires ratio > 0 && intervalSec == 900 * ratio && limit > 0
    requires edge == nowUs - (intervalSec * limit + 900) * 1_000_000
    requires forall s | s in log && s.pairId == pairId :: BucketOf(s.ts, 900) * 1_000_000 < edge
    ensures AggregatedBars(Replay(log), pairId, intervalSec, limit, nowUs) == []
  {
    var r := AggregatedBars(Replay(log), pairId, intervalSec, limit, nowUs);
    AggregatedBarsComplete(log, pairId, ratio, limit, nowUs, intervalSec, edge);
    var t := BucketLog(RecentLog(log, 900, edge), pairId, intervalSec, if r == [] then 0 else r[0].time);
    assert forall s :: s !in t;
    assert t != [] ==> t[0] in t;
  }

  lemma LaterGroupInside(window: set<int>, intervalSec: int, first: int, later: int, sinceUs: int)
    requires intervalSec > 0 && first < later
    requires first in GroupTimes(window, intervalSec) && later in GroupTimes(window, intervalSec)
    requires forall b :: b in window ==> b * 1_000_000 >= sinceUs
    ensures later * 1_000_000 >= sinceUs
  {
    var x :| x in window && Floor(x, intervalSec) == first;
    var y :| y in window && Floor(y, intervalSec) == later;
    GroupSpacing(x, y, intervalSec);
    FloorBounds(x, intervalSec);
  }

  /** The time k intervals before top. */
  function Back(top: int, k: int, step: int): int {
    top - k * step
  }

  ghost predicate Spaced(l: seq<int>, step: int) {
    forall i, j :: 0 <= i < j < |l| ==> l[i] + step <= l[j]
  }

  /** In a listing of values at least step apart with greatest element top that holds
      top, top - step, ..., top - n * step, the listing ends with exactly those values. */
  lemma {:induction false} TopRun(l: seq<int>, step: int, top: int, n: nat)
    requires step > 0 && Spaced(l, step)
    requires forall x :: x in l ==> x <= top
    requires forall k :: 0 <= k <= n ==> Back(top, k, step) in l
    ensures |l| > n
    ensures l[|l| - 1 - n] == Back(top, n, step)
  {
    assert Back(top, n, step) in l;
    if n == 0 {
      assert Back(top, 0, step) == top;
      GreatestLast(l, step, top);
    } else {
      TopRun(l, step, top, n - 1);
      OneBack(top, n, step);
      NextBelow(l, step, |l| - n);
    }
  }

  lemma OneBack(top: int, n: nat, step: int)
    ensures Back(top, n, step) == Back(top, n - 1, step) - step
  {
  }

  lemma GreatestLast(l: seq<int>, step: int, top: int)
    requires step > 0 && Spaced(l, step) && top in l && forall x :: x in l ==> x <= top
    ensures l[|l| - 1] == top
  {
    var k :| 0 <= k < |l| && l[k] == top;
    assert l[|l| - 1] in l;
  }

  lemma NextBelow(l: seq<int>, step: int, i: nat)
    requires step > 0 && Spaced(l, step)
    requires i < |l| && l[i] - step in l
    ensures i > 0 && l[i - 1] == l[i] - step
  {
    var j :| 0 <= j < |l| && l[j] == l[i] - step;
    assert j < i;
    assert l[j] <= l[i - 1];
  }

  lemma TimesSpaced(window: set<int>, intervalSec: int)
    requires intervalSec > 0
    ensures Spaced(Sorted(GroupTimes(window, intervalSec)), intervalSec)
  {
    var l := Sorted(GroupTimes(window, intervalSec));
    forall i, j | 0 <= i < j < |l| ensures l[i] + intervalSec <= l[j] {
      assert l[i] in l && l[j] in l;
      var a :| a in window && Floor(a, intervalSec) == l[i];
      var b :| b in window && Floor(b, intervalSec) == l[j];
      GroupSpacing(a, b, intervalSec);
    }
  }

  /** No snapshot of the pair is later than the database clock. */
  ghost predicate NotAhead(log: seq<Snapshot>, pairId: int, nowUs: int) {
    forall i :: 0 <= i < |log| && log[i].pairId == pairId ==> log[i].ts * 1000 <= nowUs
  }

  lemma NotAfterCurrent(log: seq<Snapshot>, pairId: int, intervalSec: int, sinceUs: int, nowUs: int, current: int, x: int)
    requires intervalSec > 0 && NotAhead(log, pairId, nowUs) && nowUs < (current + intervalSec) * 1_000_000
    requires var g := GroupTimes(Window(Replay(log), pairId, SOURCE_INTERVAL, sinceUs), intervalSec);
             x in g && current in g
    ensures x <= current
  {
    var window := Window(Replay(log), pairId, SOURCE_INTERVAL, sinceUs);
    var b :| b in window && Floor(b, intervalSec) == x;
    var c :| c in window && Floor(c, intervalSec) == current;
    StoredBarsAreAggregates(log, BarKey(pairId, SOURCE_INTERVAL, b));
    var t := BucketLog(log, pairId, SOURCE_INTERVAL, b);
    assert t[0] in t && t[0] in log;
    BucketBounds(t[0].ts, SOURCE_INTERVAL);
    FloorBounds(b, intervalSec);
    if current < x {
      GroupSpacing(c, b, intervalSec);
      assert false;
    }
  }

  /** The bucket of the database clock, and the limit - 1 before it, all hold snapshots. */
  ghost predicate LatestNonEmpty(log: seq<Snapshot>, pairId: int, intervalSec: int, limit: nat, nowUs: int, current: int)
    requires intervalSec > 0
  {
    && current * 1_000_000 <= nowUs < (current + intervalSec) * 1_000_000
    && forall k :: 0 <= k < limit ==> BucketLog(log, pairId, intervalSec, Back(current, k, intervalSec)) != []
  }

  /** When the current bucket and the limit - 1 before it are all non-empty, the query returns exactly
      those buckets, none of them truncated. */
  lemma LatestBucketsReturned(log: seq<Snapshot>, pairId: int, ratio: int, limit: nat, nowUs: int, current: int, i: nat)
    requires ratio > 0 && SOURCE_INTERVAL * ratio > 0 && i < limit
    requires NotAhead(log, pairId, nowUs)
    requires LatestNonEmpty(log, pairId, SOURCE_INTERVAL * ratio, limit, nowUs, current)
    ensures var r := AggregatedBars(Replay(log), pairId, SOURCE_INTERVAL * ratio, limit, nowUs);
      && |r| == limit
      && r[i].time == Back(current, limit - 1 - i, SOURCE_INTERVAL * ratio)
      && var t := BucketLog(log, pairId, SOURCE_INTERVAL * ratio, r[i].time);
      && RolledTotals(r[i], r[i].time, t)
      && (Complete(log, pairId, SOURCE_INTERVAL * ratio, r[i]) <==> EndsAgree(t, SOURCE_INTERVAL))
  {
    LatestTimesReturned(log, pairId, ratio, limit, nowUs, current);
    InsideLookback(SOURCE_INTERVAL * ratio, limit, nowUs, current, limit - 1 - i);
    ReturnedBar(log, pairId, ratio, limit, nowUs, i);
  }

  lemma LatestTimesReturned(log: seq<Snapshot>, pairId: int, ratio: int, limit: nat, nowUs: int, current: int)
    requires ratio > 0 && SOURCE_INTERVAL * ratio > 0 && limit > 0 && NotAhead(log, pairId, nowUs)
    requires LatestNonEmpty(log, pairId, SOURCE_INTERVAL * ratio, limit, nowUs, current)
    ensures var l := ReturnedTimes(Replay(log), pairId, SOURCE_INTERVAL * ratio, limit, nowUs);
      && |l| == limit
      && forall i :: 0 <= i < limit ==> l[i] == Back(current, limit - 1 - i, SOURCE_INTERVAL * ratio)
  {
    var intervalSec := SOURCE_INTERVAL * ratio;
    var sinceUs := SinceUs(intervalSec, limit, nowUs);
    var window := Window(Replay(log), pairId, SOURCE_INTERVAL, sinceUs);
    var l := Sorted(GroupTimes(window, intervalSec));
    forall k | 0 <= k < limit ensures Back(current, k, intervalSec) in l {
      InsideLookback(intervalSec, limit, nowUs, current, k);
      NonEmptyBucketGrouped(log, pairId, ratio, sinceUs, Back(current, k, intervalSec));
    }
    assert Back(current, 0, intervalSec) == current;
    TimesSpaced(window, intervalSec);
    forall x | x in l ensures x <= current {
      NotAfterCurrent(log, pairId, intervalSec, sinceUs, nowUs, current, x);
    }
    TopRunLast(l, intervalSec, current, limit);
  }

  lemma TopRunLast(l: seq<int>, step: int, top: int, limit: nat)
    requires step > 0 && limit > 0 && Spaced(l, step)
    requires forall x :: x in l ==> x <= top
    requires forall k :: 0 <= k < limit ==> Back(top, k, step) in l
    ensures |LastN(l, limit)| == limit
    ensures forall i :: 0 <= i < limit ==> LastN(l, limit)[i] == Back(top, limit - 1 - i, step)
  {
    TopRun(l, step, top, limit - 1);
    forall i | 0 <= i < limit
      ensures LastN(l, limit)[i] == Back(top, limit - 1 - i, step)
    {
      TopRun(l, step, top, limit - 1 - i);
    }
  }

  lemma InsideLookback(intervalSec: int, limit: nat, nowUs: int, current: int, k: nat)
    requires intervalSec > 0 && k < limit && nowUs < (current + intervalSec) * 1_000_000
    ensures Back(current, k, intervalSec) * 1_000_000 >= SinceUs(intervalSec, limit, nowUs)
  {
    MulMonotone(intervalSec, k + 1, limit);
  }

  /** getStoredBars returns the latest limit non-empty buckets, each the aggregate of its snapshots. */
  lemma StoredBarsReturned(log: seq<Snapshot>, pairId: int, intervalSec: int, limit: nat)
    requires intervalSec in STORED_INTERVALS
    ensures var r := StoredBars(Replay(log), pairId, intervalSec, limit);
      && |r| <= limit
      && (forall i, j :: 0 <= i < j < |r| ==> r[i].time < r[j].time)
      && (forall i :: 0 <= i < |r| ==> Complete(log, pairId, intervalSec, r[i]))
      && (forall time :: BucketLog(log, pairId, intervalSec, time) != [] ==> Covered(r, limit, time))
  {
    forall i | 0 <= i < |StoredBars(Replay(log), pairId, intervalSec, limit)|
      ensures Complete(log, pairId, intervalSec, StoredBars(Replay(log), pairId, intervalSec, limit)[i])
    {
      StoredBarComplete(log, pairId, intervalSec, limit, i);
    }
    forall time | BucketLog(log, pairId, intervalSec, time) != []
      ensures Covered(StoredBars(Replay(log), pairId, intervalSec, limit), limit, time)
    {
      StoredBarReturned(log, pairId, intervalSec, limit, time);
    }
  }

  /** A bar of the time is returned, or the limit was used up by later ones. */
  ghost predicate Covered(r: seq<Point>, limit: nat, time: int) {
    (exists i :: 0 <= i < |r| && r[i].time == time) || (|r| == limit && (limit > 0 ==> time < r[0].time))
  }

  lemma StoredBarComplete(log: seq<Snapshot>, pairId: int, intervalSec: int, limit: nat, i: nat)
    requires intervalSec in STORED_INTERVALS && i < |StoredBars(Replay(log), pairId, intervalSec, limit)|
    ensures Complete(log, pairId, intervalSec, StoredBars(Replay(log), pairId, intervalSec, limit)[i])
  {
    StoredBarsAreAggregates(log, BarKey(pairId, intervalSec, StoredTimes(Replay(log), pairId, intervalSec, limit)[i]));
  }

  lemma StoredBarReturned(log: seq<Snapshot>, pairId: int, intervalSec: int, limit: nat, time: int)
    requires intervalSec in STORED_INTERVALS && BucketLog(log, pairId, intervalSec, time) != []
    ensures Covered(StoredBars(Replay(log), pairId, intervalSec, limit), limit, time)
  {
    var l, r := StoredTimes(Replay(log), pairId, intervalSec, limit), StoredBars(Replay(log), pairId, intervalSec, limit);
    StoredBarsAreAggregates(log, BarKey(pairId, intervalSec, time));
    if time in l {
      var i :| 0 <= i < |l| && l[i] == time;
      assert r[i].time == time;
    }
  }

  /** The stored 5m and 15m bars against the roll-ups of the stored 1m bars: there is one exactly if there is
      the other, with the same high, low and volume, and the same open and close exactly when the ends agree. */
  lemma StoredBarsNest(log: seq<Snapshot>, pairId: int, coarse: int, time: int)
    requires coarse in [300, 900]
    ensures BarKey(pairId, coarse, time) in Replay(log) <==>
            Group(Window(Replay(log), pairId, 60, time * 1_000_000), coarse, time) != {}
    ensures BarKey(pairId, coarse, time) in Replay(log) ==>
      var p := RolledGroup(Replay(log), pairId, 60, coarse, time * 1_000_000, time);
      NestsIn(Replay(log)[BarKey(pairId, coarse, time)], p, BucketLog(log, pairId, coarse, time))
  {
    var ratio := if coarse == 300 then 5 else 15;
    assert coarse == 60 * ratio;
    StoredBarsAreAggregates(log, BarKey(pairId, coarse, time));
    RollUpMatches(log, pairId, 60, ratio, time * 1_000_000, time);
  }

  ghost predicate NestsIn(b: Bar, p: Point, t: seq<Snapshot>) {
    && t != [] && p.high == b.high && p.low == b.low && p.volume == b.volume
    && (p.open == b.open && p.close == b.close <==> EndsAgree(t, 60))
  }

  // ---------- arrival order ----------

  /** fetchCurrentSnapshot's tick time: the clock rounded down to the polling interval. */
  function TickTime(nowMs: int, pollIntervalMs: int): int {
    Floor(nowMs, Greatest(pollIntervalMs, MIN_POLL_INTERVAL_MS))
  }

  /** At a fixed polling interval a clock that does not go back gives ticks that do not go back. */
  lemma TicksInOrder(earlierMs: int, laterMs: int, pollIntervalMs: int)
    requires earlierMs <= laterMs
    ensures TickTime(earlierMs, pollIntervalMs) <= TickTime(laterMs, pollIntervalMs)
  {
    FloorMonotone(earlierMs, laterMs, Greatest(pollIntervalMs, MIN_POLL_INTERVAL_MS));
  }

  /** A tick is the last multiple of the polling interval, taken as at least five seconds, that is not after the poll. */
  lemma TickOnGrid(nowMs: int, pollIntervalMs: int)
    ensures var size := if pollIntervalMs < 5_000 then 5_000 else pollIntervalMs;
      TickTime(nowMs, pollIntervalMs) <= nowMs < TickTime(nowMs, pollIntervalMs) + size
      && exists k :: TickTime(nowMs, pollIntervalMs) == Times(k, size)
  {
    var size := if pollIntervalMs < 5_000 then 5_000 else pollIntervalMs;
    FloorBounds(nowMs, size);
    assert TickTime(nowMs, pollIntervalMs) == Times(nowMs / size, size);
  }

  function Times(k: int, size: int): int { k * size }

  /** Across a change of the polling interval a tick falls back by less than the longest interval. */
  lemma TickFallsBackLittle(earlierMs: int, laterMs: int, earlierPollMs: int, laterPollMs: int)
    requires earlierMs <= laterMs && laterPollMs <= MAX_POLL_INTERVAL_MS
    ensures TickTime(earlierMs, earlierPollMs) - MAX_POLL_INTERVAL_MS < TickTime(laterMs, laterPollMs)
  {
    FloorBounds(earlierMs, Greatest(earlierPollMs, MIN_POLL_INTERVAL_MS));
    FloorBounds(laterMs, Greatest(laterPollMs, MIN_POLL_INTERVAL_MS));
  }

  /** Two polls four seconds apart, the polling interval raised between them: a snapshot of the 15m bucket 900,
      then one of the 15m bucket 0, in one 1h bucket. */
  const LATE_LOG := [Snapshot(1, 900_000, 20, 0, 0), Snapshot(1, 750_000, 10, 0, 0)]

  /** The same within one 5m bucket: a snapshot of the minute 360, then one of the minute 300. */
  const LATE_MINUTE_LOG := [Snapshot(1, 360_000, 20, 0, 0), Snapshot(1, 300_000, 10, 0, 0)]

  /** Raising the polling interval between two polls can send the tick time back into an earlier bucket. */
  lemma LongerPollGoesBack()
    ensures LATE_LOG[0].ts == TickTime(901_000, 5_000) && LATE_LOG[1].ts == TickTime(905_000, 250_000)
    ensures LATE_MINUTE_LOG[0].ts == TickTime(361_000, 5_000) && LATE_MINUTE_LOG[1].ts == TickTime(365_000, 300_000)
    ensures BucketOf(LATE_LOG[1].ts, 900) < BucketOf(LATE_LOG[0].ts, 900)
    ensures BucketOf(LATE_MINUTE_LOG[1].ts, 60) < BucketOf(LATE_MINUTE_LOG[0].ts, 60)
  {
  }

  /** A late second snapshot of a coarse bucket: the roll-up closes with the first one's price. */
  lemma LateSecondClosesFirst(log: seq<Snapshot>, fine: int, ratio: int, time: int)
    requires fine in STORED_INTERVALS && ratio > 0 && fine * ratio > 0 && |log| == 2
    requires InBucket(log[0], 1, fine * ratio, time) && InBucket(log[1], 1, fine * ratio, time)
    requires BucketOf(log[1].ts, fine) < BucketOf(log[0].ts, fine)
    ensures BucketLog(log, 1, fine * ratio, time) == log
    ensures Group(Window(Replay(log), 1, fine, time * 1_000_000), fine * ratio, time) != {}
    ensures RolledGroup(Replay(log), 1, fine, fine * ratio, time * 1_000_000, time).close == log[0].priceUsd
    ensures RolledGroup(Replay(log), 1, fine, fine * ratio, time * 1_000_000, time).open == log[1].priceUsd
  {
    BothInBucket(log, fine * ratio, time);
    LateEnds(log, fine);
    RolledEnds(log, 1, fine, ratio, time * 1_000_000, time);
  }

  lemma BothInBucket(log: seq<Snapshot>, coarse: int, time: int)
    requires coarse > 0 && |log| == 2 && InBucket(log[0], 1, coarse, time) && InBucket(log[1], 1, coarse, time)
    ensures BucketLog(log, 1, coarse, time) == log
  {
    BucketLogOf(log, 1, coarse, time);
    assert [log[0]] + [log[1]] == log;
  }

  lemma LateEnds(log: seq<Snapshot>, fine: int)
    requires fine > 0 && |log| == 2 && BucketOf(log[1].ts, fine) < BucketOf(log[0].ts, fine)
    ensures FirstLeast(Buckets(log, fine)) == 1 && LastGreatest(Buckets(log, fine)) == 0
  {
  }

  /** With the late snapshot the rolled 1h close is the close of the latest 15m bucket, while the last snapshot
      to arrive says otherwise. */
  lemma LateSnapshotChangesClose()
    ensures BucketLog(LATE_LOG, 1, 3600, 0) == LATE_LOG && BatchBar(LATE_LOG).close == 10
    ensures Group(Window(Replay(LATE_LOG), 1, 900, 0), 3600, 0) != {}
    ensures RolledGroup(Replay(LATE_LOG), 1, 900, 3600, 0, 0).close == 20
  {
    LateSecondClosesFirst(LATE_LOG, 900, 4, 0);
  }

  /** And the stored 5m bar closes with the last snapshot to arrive, the roll-up of the 1m bars does not. */
  lemma LateSnapshotBreaksNesting()
    ensures BarKey(1, 300, 300) in Replay(LATE_MINUTE_LOG) && Replay(LATE_MINUTE_LOG)[BarKey(1, 300, 300)].close == 10
    ensures Group(Window(Replay(LATE_MINUTE_LOG), 1, 60, 300_000_000), 300, 300) != {}
    ensures RolledGroup(Replay(LATE_MINUTE_LOG), 1, 60, 300, 300_000_000, 300).close == 20
  {
    LateSecondClosesFirst(LATE_MINUTE_LOG, 60, 5, 300);
    StoredBarsAreAggregates(LATE_MINUTE_LOG, BarKey(1, 300, 300));
  }

  lemma BucketLogOf(log: seq<Snapshot>, pairId: int, intervalSec: int, bucket: int)
    requires |log| == 2 && intervalSec > 0
    ensures BucketLog(log, pairId, intervalSec, bucket)
      == (if InBucket(log[0], pairId, intervalSec, bucket) then [log[0]] else [])
         + (if InBucket(log[1], pairId, intervalSec, bucket) then [log[1]] else [])
  {
    assert log[..1] == [log[0]] && [log[0]][..0] == [];
    assert BucketLog([log[0]], pairId, intervalSec, bucket)
      == (if InBucket(log[0], pairId, intervalSec, bucket) then [log[0]] else []);
  }

  // ---------- the store ----------

  class OhlcStore {
    var bars: BarTable
    var ticks: TickTable
    ghost var log: seq<Snapshot>  // the committed snapshots, oldest first

    ghost predicate Valid()
      reads this
    {
      bars == Replay(log) && ticks == ReplayTicks(log)
    }

    constructor ()
      ensures Valid() && log == []
    {
      bars, ticks, log := map[], map[], [];
    }

    method UpsertBar(snapshot: Snapshot, intervalSec: int)
      requires intervalSec > 0
      modifies this`bars
      ensures bars == Upserted(old(bars), snapshot, intervalSec)
    {
      var bucketStart := BucketOf(snapshot.ts, intervalSec);
      var key := BarKey(snapshot.pairId, intervalSec, bucketStart);
      var price := snapshot.priceUsd;
      if key in bars {
        var row := bars[key];
        bars := bars[key := row.(high := Greatest(row.high, price), low := Least(row.low, price), close := price,
                                 volume := row.volume + snapshot.volumeEstimate, tickCount := row.tickCount + 1,
                                 lastSourceTs := snapshot.ts)];
      } else {
        bars := bars[key := Bar(price, price, price, price, snapshot.volumeEstimate, 1, snapshot.ts)];
      }
    }

    /** One transaction: the tick, then one bar per stored interval, then COMMIT. The database may
        reject the statement number failAt (the COMMIT is the last); then everything is rolled back. */
    method PersistSnapshot(snapshot: Snapshot, failAt: nat) returns (committed: bool)
      requires Valid()
      modifies this
      ensures Valid()
      ensures committed <==> failAt > |STORED_INTERVALS| + 1
      ensures log == if committed then old(log) + [snapshot] else old(log)
      ensures !committed ==> bars == old(bars) && ticks == old(ticks)
    {
      var savedBars, savedTicks := bars, ticks;
      if failAt == 0 {
        return false;
      }
      ticks := ticks[TickKey(snapshot.pairId, snapshot.ts)
                     := Tick(snapshot.priceUsd, snapshot.priceQuote, snapshot.volumeEstimate)];
      for i := 0 to |STORED_INTERVALS|
        invariant i < failAt
        invariant ticks == TickUpserted(savedTicks, snapshot) && log == old(log)
        invariant bars == UpsertedAll(savedBars, snapshot, STORED_INTERVALS[..i])
      {
        if failAt == i + 1 {
          bars, ticks := savedBars, savedTicks;
          return false;
        }
        UpsertBar(snapshot, STORED_INTERVALS[i]);
        assert STORED_INTERVALS[..i + 1][..i] == STORED_INTERVALS[..i];
      }
      if failAt == |STORED_INTERVALS| + 1 {
        bars, ticks := savedBars, savedTicks;
        return false;
      }
      assert STORED_INTERVALS[..|STORED_INTERVALS|] == STORED_INTERVALS;
      log := log + [snapshot];
      assert log[..|log| - 1] == old(log);
      return true;
    }
  }
}
