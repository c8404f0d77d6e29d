/**
 * Price trend tracking against the history ledger (scripts/price_tracker.py):
 * the latest-run price index, the four-way trend classifier, the history
 * snapshot and bounded append, per-car statistics and the best-deals list.
 */
module PriceTracker {
  import opened Wrappers
  import opened Models
  import opened Lists
  import opened StableSort
  import Dedup

  // ---------------------------------------------------------------------------
  // Price index
  // ---------------------------------------------------------------------------

  function ItemIds(items: seq<HistoryItem>): set<string> {
    set i | 0 <= i < |items| :: items[i].id
  }

  /** `items[j]` is the last item carrying its id. */
  predicate LastOfId(items: seq<HistoryItem>, j: int)
    requires 0 <= j < |items|
  {
    forall k :: j < k < |items| ==> items[k].id != items[j].id
  }

  /** `{item.id: item.price for item in items}`: later items overwrite earlier ones. */
  function ItemsIndex(items: seq<HistoryItem>): (m: map<string, real>)
    ensures m.Keys == ItemIds(items)
    ensures forall j :: 0 <= j < |items| && LastOfId(items, j) ==> m[items[j].id] == items[j].price
    decreases |items|
  {
    if |items| == 0 then map[]
    else
      var init := items[..|items| - 1];
      var last := items[|items| - 1];
      var pre := ItemsIndex(init);
      ItemsIndexStep(items, init, last, pre);
      pre[last.id := last.price]
  }

  /** Writing the last item over the index of the others indexes them all. */
  lemma {:induction false} ItemsIndexStep(items: seq<HistoryItem>, init: seq<HistoryItem>, last: HistoryItem, pre: map<string, real>)
    requires |items| > 0 && init == items[..|items| - 1] && last == items[|items| - 1]
    requires pre.Keys == ItemIds(init)
    requires forall j :: 0 <= j < |init| && LastOfId(init, j) ==> pre[init[j].id] == init[j].price
    ensures pre[last.id := last.price].Keys == ItemIds(items)
    ensures forall j :: 0 <= j < |items| && LastOfId(items, j) ==>
      pre[last.id := last.price][items[j].id] == items[j].price
  {
    var m := pre[last.id := last.price];
    assert forall j :: 0 <= j < |init| ==> init[j] == items[j];
    assert ItemIds(items) == ItemIds(init) + {last.id} by {
      forall x | x in ItemIds(items) ensures x in ItemIds(init) + {last.id} {
        var i :| 0 <= i < |items| && items[i].id == x;
        if i < |init| {
          assert init[i].id == x;
        }
      }
      forall x | x in ItemIds(init) ensures x in ItemIds(items) {
        var i :| 0 <= i < |init| && init[i].id == x;
        assert items[i].id == x;
      }
    }
    forall j | 0 <= j < |items| && LastOfId(items, j)
      ensures m[items[j].id] == items[j].price
    {
      if j < |init| {
        assert items[j].id != last.id;
        assert LastOfId(init, j);
      }
    }
  }

  /** The ids in the most recent run of the history, or none when it is empty. */
  function LatestIds(h: History): set<string> {
    if |h.runs| == 0 then {} else ItemIds(h.runs[|h.runs| - 1].items)
  }

  /**
   * `build_price_index`: id to price, read from the most recent run only;
   * empty for an empty history.
   */
  function BuildPriceIndex(h: History): (m: map<string, real>)
    ensures |h.runs| == 0 ==> m == map[]
    ensures m.Keys == LatestIds(h)
    ensures |h.runs| > 0 ==> var items := h.runs[|h.runs| - 1].items;
      forall j :: 0 <= j < |items| && LastOfId(items, j) ==> m[items[j].id] == items[j].price
  {
    if |h.runs| == 0 then map[] else ItemsIndex(h.runs[|h.runs| - 1].items)
  }

  /** `price_index.get(id)` */
  function PreviousPrice(h: History, id: string): Option<real> {
    var m := BuildPriceIndex(h);
    if id in m then Some(m[id]) else None
  }

  // ---------------------------------------------------------------------------
  // Trend classification
  // ---------------------------------------------------------------------------

  /** How far apart two prices are. */
  function Distance(a: real, b: real): (d: real)
    ensures d >= 0.0 && (d == a - b || d == b - a)
  {
    if a >= b then a - b else b - a
  }

  /** The price change a trend records, with its sign restored. */
  function SignedDelta(t: PriceTrend): real {
    match t.direction
    case Up => t.delta
    case Down => -t.delta
    case Flat => 0.0
    case New => 0.0
  }

  /**
   * `detect_price_change(car, previous_price)`, with `datetime.now()` read as
   * `now`. `delta` is never negative; with a previous price, the direction is
   * the sign of the change, `delta` is the distance between the two prices
   * (zero when flat) and previous price plus signed delta is the current
   * price; a change timestamp is recorded only for up and down.
   */
  function DetectPriceChange(car: Car, previousPrice: Option<real>, now: string): (t: PriceTrend)
    ensures t.delta >= 0.0
    ensures previousPrice.None? ==> t == DefaultTrend()
    ensures previousPrice.Some? ==>
      && t.prevPrice == previousPrice
      && (t.direction == Down <==> car.price < previousPrice.value)
      && (t.direction == Up <==> car.price > previousPrice.value)
      && (t.direction == Flat <==> car.price == previousPrice.value)
      && previousPrice.value + SignedDelta(t) == car.price
      && t.delta == Distance(car.price, previousPrice.value)
      && (t.direction == Flat ==> t.delta == 0.0)
      && t.lastChangeAt == (if t.direction == Flat then None else Some(now))
  {
    match previousPrice
    case None => PriceTrend(Direction.New, 0.0, None, None)
    case Some(prev) =>
      if car.price < prev then PriceTrend(Down, prev - car.price, Some(prev), Some(now))
      else if car.price > prev then PriceTrend(Up, car.price - prev, Some(prev), Some(now))
      else PriceTrend(Flat, 0.0, Some(prev), None)
  }

  /**
   * `update_price_trends(cars, history)`: the same cars in the same order with
   * only `price_trend` replaced; a car is "new" exactly when its id is absent
   * from the latest history run. `clock(i)` is the time read for the i-th car.
   */
  function UpdatePriceTrends(cars: seq<Car>, h: History, clock: nat -> string): (r: seq<Car>)
    ensures |r| == |cars|
    ensures forall i :: 0 <= i < |r| ==> r[i].(priceTrend := cars[i].priceTrend) == cars[i]
    ensures forall i :: 0 <= i < |r| ==>
      r[i].priceTrend == DetectPriceChange(cars[i], PreviousPrice(h, cars[i].id), clock(i))
    ensures forall i :: 0 <= i < |r| ==>
      (r[i].priceTrend.direction == Direction.New <==> cars[i].id !in LatestIds(h))
  {
    seq(|cars|, i requires 0 <= i < |cars| =>
      cars[i].(priceTrend := DetectPriceChange(cars[i], PreviousPrice(h, cars[i].id), clock(i))))
  }

  // ---------------------------------------------------------------------------
  // History ledger
  // ---------------------------------------------------------------------------

  /** `create_history_snapshot(cars, timestamp)`: one (id, price) item per car, in order. */
  function CreateHistorySnapshot(cars: seq<Car>, timestamp: Option<string>, now: string): (run: HistoryRun)
    ensures run.generatedAt == timestamp.GetOr(now)
    ensures |run.items| == |cars|
    ensures forall i :: 0 <= i < |cars| ==> run.items[i] == HistoryItem(cars[i].id, cars[i].price)
  {
    HistoryRun(timestamp.GetOr(now), seq(|cars|, i requires 0 <= i < |cars| => HistoryItem(cars[i].id, cars[i].price)))
  }

  /** Python's `s[-k:]`; note that `s[-0:]` is all of `s`. */
  function PyTail<T>(s: seq<T>, k: int): seq<T> {
    if k > 0 then (if k < |s| then s[|s| - k..] else s)
    else if k == 0 then s
    else if -k < |s| then s[-k..]
    else []
  }

  /**
   * `append_to_history` as written: append, then trim with
   * `runs[-max_runs:]` when there are more than `max_runs` runs. For a
   * positive bound the result is the last `max_runs` runs ending in the new one.
   */
  function AppendToHistory(h: History, run: HistoryRun, maxRuns: int): (r: History)
    ensures maxRuns >= 1 ==>
      && |r.runs| == (if |h.runs| + 1 < maxRuns then |h.runs| + 1 else maxRuns)
      && r.runs == (h.runs + [run])[|h.runs| + 1 - |r.runs|..]
      && r.runs[|r.runs| - 1] == run
  {
    var runs := h.runs + [run];
    if |runs| > maxRuns then History(PyTail(runs, maxRuns)) else History(runs)
  }

  /** With a bound of 0 nothing is trimmed: the ledger grows past its bound. */
  lemma AppendZeroBoundKeepsEverything(h: History, run: HistoryRun)
    ensures AppendToHistory(h, run, 0).runs == h.runs + [run]
    ensures |AppendToHistory(h, run, 0).runs| > 0
  {
  }

  /**
   * The bounded append the ledger is meant to perform: keep the most recent
   * `max(maxRuns, 0)` runs of the old ledger followed by the new run.
   */
  function AppendBounded(h: History, run: HistoryRun, maxRuns: int): (r: History)
    ensures |r.runs| == (if maxRuns <= 0 then 0 else if |h.runs| + 1 < maxRuns then |h.runs| + 1 else maxRuns)
    ensures r.runs == (h.runs + [run])[|h.runs| + 1 - |r.runs|..]
    ensures maxRuns >= 1 ==> r.runs[|r.runs| - 1] == run
  {
    var runs := h.runs + [run];
    var keep := if maxRuns <= 0 then 0 else if |runs| < maxRuns then |runs| else maxRuns;
    History(runs[|runs| - keep..])
  }

  /** For every positive bound the two agree, so the pipeline's bound of 100 is unaffected. */
  lemma {:induction false} AppendAgreesForPositiveBound(h: History, run: HistoryRun, maxRuns: int)
    requires maxRuns >= 1
    ensures AppendBounded(h, run, maxRuns) == AppendToHistory(h, run, maxRuns)
  {
    var a, b := AppendBounded(h, run, maxRuns), AppendToHistory(h, run, maxRuns);
    assert a.runs == b.runs;
  }

  /**
   * Cross-run round trip: after appending this run's snapshot, the next run's
   * price index maps every snapshotted car to the price recorded now.
   */
  lemma {:induction false} IndexAfterSnapshot(h: History, cars: seq<Car>, timestamp: string, maxRuns: int)
    requires maxRuns >= 1 && Dedup.DistinctIds(cars)
    ensures var next := AppendBounded(h, CreateHistorySnapshot(cars, Some(timestamp), timestamp), maxRuns);
      && LatestIds(next) == Dedup.IdSet(cars)
      && forall c :: c in cars ==> PreviousPrice(next, c.id) == Some(c.price)
  {
    var run := CreateHistorySnapshot(cars, Some(timestamp), timestamp);
    var next := AppendBounded(h, run, maxRuns);
    assert next.runs[|next.runs| - 1] == run;
    SnapshotIds(cars, run);
    forall c | c in cars ensures PreviousPrice(next, c.id) == Some(c.price) {
      var i :| 0 <= i < |cars| && cars[i] == c;
      SnapshotLastOfId(cars, run, i);
    }
  }

  lemma SnapshotIds(cars: seq<Car>, run: HistoryRun)
    requires |run.items| == |cars|
    requires forall i :: 0 <= i < |cars| ==> run.items[i] == HistoryItem(cars[i].id, cars[i].price)
    ensures ItemIds(run.items) == Dedup.IdSet(cars)
  {
    assert forall i :: 0 <= i < |cars| ==> run.items[i].id == Dedup.Ids(cars)[i];
  }

  lemma SnapshotLastOfId(cars: seq<Car>, run: HistoryRun, i: nat)
    requires Dedup.DistinctIds(cars) && i < |cars|
    requires |run.items| == |cars|
    requires forall i :: 0 <= i < |cars| ==> run.items[i] == HistoryItem(cars[i].id, cars[i].price)
    ensures LastOfId(run.items, i)
  {
    forall k | i < k < |run.items| ensures run.items[k].id != run.items[i].id {
      assert Dedup.Ids(cars)[k] != Dedup.Ids(cars)[i];
    }
  }

  // ---------------------------------------------------------------------------
  // Statistics
  // ---------------------------------------------------------------------------

  /** `[item.price for item in items if item.id == id]` */
  function ItemPrices(items: seq<HistoryItem>, id: string): seq<real>
    decreases |items|
  {
    if |items| == 0 then []
    else
      var last := items[|items| - 1];
      ItemPrices(items[..|items| - 1], id) + (if last.id == id then [last.price] else [])
  }

  /** Every recorded price of `id`, oldest run first. */
  function RunPrices(runs: seq<HistoryRun>, id: string): seq<real>
    decreases |runs|
  {
    if |runs| == 0 then []
    else RunPrices(runs[..|runs| - 1], id) + ItemPrices(runs[|runs| - 1].items, id)
  }

  lemma {:induction false} ItemPricesEmpty(items: seq<HistoryItem>, id: string)
    ensures ItemPrices(items, id) == [] <==> forall j :: 0 <= j < |items| ==> items[j].id != id
    decreases |items|
  {
    if |items| > 0 {
      ItemPricesEmpty(items[..|items| - 1], id);
      assert forall j :: 0 <= j < |items| - 1 ==> items[..|items| - 1][j] == items[j];
    }
  }

  lemma {:induction false} RunPricesEmpty(runs: seq<HistoryRun>, id: string)
    ensures RunPrices(runs, id) == [] <==>
      forall i, j :: 0 <= i < |runs| && 0 <= j < |runs[i].items| ==> runs[i].items[j].id != id
    decreases |runs|
  {
    if |runs| > 0 {
      RunPricesEmpty(runs[..|runs| - 1], id);
      ItemPricesEmpty(runs[|runs| - 1].items, id);
      assert forall i :: 0 <= i < |runs| - 1 ==> runs[..|runs| - 1][i] == runs[i];
    }
  }

  function Sum(s: seq<real>): real
    decreases |s|
  {
    if |s| == 0 then 0.0 else Sum(s[..|s| - 1]) + s[|s| - 1]
  }

  function Min(s: seq<real>): (m: real)
    requires |s| > 0
    ensures exists i :: 0 <= i < |s| && s[i] == m
    ensures forall i :: 0 <= i < |s| ==> m <= s[i]
    decreases |s|
  {
    if |s| == 1 then s[0]
    else
      var init := s[..|s| - 1];
      var m := Min(init);
      assert forall i :: 0 <= i < |init| ==> init[i] == s[i];
      if s[|s| - 1] < m then s[|s| - 1] else m
  }

  function Max(s: seq<real>): (m: real)
    requires |s| > 0
    ensures exists i :: 0 <= i < |s| && s[i] == m
    ensures forall i :: 0 <= i < |s| ==> s[i] <= m
    decreases |s|
  {
    if |s| == 1 then s[0]
    else
      var init := s[..|s| - 1];
      var m := Max(init);
      assert forall i :: 0 <= i < |init| ==> init[i] == s[i];
      if s[|s| - 1] > m then s[|s| - 1] else m
  }

  /** A sum lies between length times the least and length times the greatest element. */
  lemma {:induction false} SumBounds(s: seq<real>, lo: real, hi: real)
    requires forall i :: 0 <= i < |s| ==> lo <= s[i] <= hi
    ensures (|s| as real) * lo <= Sum(s) <= (|s| as real) * hi
    decreases |s|
  {
    if |s| > 0 {
      var init := s[..|s| - 1];
      assert forall i :: 0 <= i < |init| ==> init[i] == s[i];
      SumBounds(init, lo, hi);
      assert (|s| as real) * lo == (|init| as real) * lo + lo;
      assert (|s| as real) * hi == (|init| as real) * hi + hi;
    }
  }

  /** The arithmetic mean of `count` values summing to `total`. */
  function Mean(total: real, count: nat): (m: real)
    requires count > 0
    ensures m * (count as real) == total
  {
    total / (count as real)
  }

  /** The mean of values between `lo` and `hi` lies between them too. */
  lemma MeanBounds(total: real, count: nat, lo: real, hi: real)
    requires count > 0 && (count as real) * lo <= total <= (count as real) * hi
    ensures lo <= Mean(total, count) <= hi
  {
  }

  lemma MeanOfPrices(prices: seq<real>, lo: real, hi: real)
    requires |prices| > 0 && forall i :: 0 <= i < |prices| ==> lo <= prices[i] <= hi
    ensures lo <= Mean(Sum(prices), |prices|) <= hi
  {
    SumBounds(prices, lo, hi);
    MeanBounds(Sum(prices), |prices|, lo, hi);
  }

  lemma MeanTimesCount(st: PriceStats, prices: seq<real>)
    requires st.count == |prices| > 0 && st.avg == Mean(Sum(prices), |prices|)
    ensures st.avg * (st.count as real) == Sum(prices)
  {
  }

  datatype PriceStats = PriceStats(min: real, max: real, avg: real, current: real, count: nat)

  /** What the statistics of a non-empty list of prices promise. */
  predicate Summarises(st: PriceStats, prices: seq<real>) {
    && st.count == |prices| > 0
    && st.current == prices[|prices| - 1]
    && (exists i :: 0 <= i < |prices| && prices[i] == st.min)
    && (exists i :: 0 <= i < |prices| && prices[i] == st.max)
    && (forall i :: 0 <= i < |prices| ==> st.min <= prices[i] <= st.max)
    && st.min <= st.avg <= st.max
    && st.avg * (st.count as real) == Sum(prices)
  }

  function StatsOf(prices: seq<real>): (st: PriceStats)
    requires |prices| > 0
    ensures Summarises(st, prices)
  {
    StatsOfSummarises(prices);
    PriceStats(Min(prices), Max(prices), Mean(Sum(prices), |prices|), prices[|prices| - 1], |prices|)
  }

  lemma StatsOfSummarises(prices: seq<real>)
    requires |prices| > 0
    ensures var st := PriceStats(Min(prices), Max(prices), Mean(Sum(prices), |prices|), prices[|prices| - 1], |prices|);
      Summarises(st, prices)
  {
    var st := PriceStats(Min(prices), Max(prices), Mean(Sum(prices), |prices|), prices[|prices| - 1], |prices|);
    MeanOfPrices(prices, st.min, st.max);
    MeanTimesCount(st, prices);
    assert Summarises(st, prices);
  }

  /**
   * `get_price_statistics(car_id, history)`: none when the id was never
   * recorded; otherwise the least, greatest, mean and most recent recorded
   * price and the number of records.
   */
  function GetPriceStatistics(id: string, h: History): (r: Option<PriceStats>)
    ensures r.None? <==>
      forall i, j :: 0 <= i < |h.runs| && 0 <= j < |h.runs[i].items| ==> h.runs[i].items[j].id != id
    ensures r.Some? ==> Summarises(r.value, RunPrices(h.runs, id))
  {
    RunPricesEmpty(h.runs, id);
    var prices := RunPrices(h.runs, id);
    if |prices| == 0 then None else Some(StatsOf(prices))
  }

  // ---------------------------------------------------------------------------
  // Best deals
  // ---------------------------------------------------------------------------

  predicate IsPriceDrop(c: Car) {
    c.priceTrend.direction == Down
  }

  function TrendDelta(c: Car): real {
    c.priceTrend.delta
  }

  /** `[car for car in cars if car.price_trend.direction == "down"]` */
  function PriceDrops(cars: seq<Car>): seq<Car> {
    Filter(cars, IsPriceDrop)
  }

  /**
   * `find_best_deals(cars, top_n)`: price drops only, largest delta first,
   * equal deltas in input order, cut to `top_n` (Python slicing, so a negative
   * `top_n` drops that many from the end). Every price drop left out has a
   * delta no larger than any that was kept.
   */
  function FindBestDeals(cars: seq<Car>, topN: int): (r: seq<Car>)
    ensures forall c :: c in r ==> c in cars && IsPriceDrop(c)
    ensures SortedDesc(r, TrendDelta)
    ensures topN >= 0 ==> |r| == (if topN < |PriceDrops(cars)| then topN else |PriceDrops(cars)|)
    ensures topN < 0 ==> |r| == (if |PriceDrops(cars)| + topN > 0 then |PriceDrops(cars)| + topN else 0)
    ensures multiset(r) <= multiset(PriceDrops(cars))
    ensures forall c, d :: c in multiset(PriceDrops(cars)) - multiset(r) && d in r ==> TrendDelta(d) >= TrendDelta(c)
    ensures forall v :: IsPrefix(KeyFilter(r, TrendDelta, v), KeyFilter(PriceDrops(cars), TrendDelta, v))
  {
    var drops := PriceDrops(cars);
    var sorted := SortDesc(drops, TrendDelta);
    var r := PyHead(sorted, topN);
    BestDealsFacts(drops, sorted, topN, r);
    r
  }

  /** The cut of the stably sorted drops has every property `find_best_deals` promises. */
  lemma BestDealsFacts(drops: seq<Car>, sorted: seq<Car>, topN: int, r: seq<Car>)
    requires sorted == SortDesc(drops, TrendDelta)
    requires r == PyHead(sorted, topN)
    ensures forall c :: c in r ==> c in drops
    ensures SortedDesc(r, TrendDelta)
    ensures topN >= 0 ==> |r| == (if topN < |drops| then topN else |drops|)
    ensures topN < 0 ==> |r| == (if |drops| + topN > 0 then |drops| + topN else 0)
    ensures multiset(r) <= multiset(drops)
    ensures forall c, d :: c in multiset(drops) - multiset(r) && d in r ==> TrendDelta(d) >= TrendDelta(c)
    ensures forall v :: IsPrefix(KeyFilter(r, TrendDelta, v), KeyFilter(drops, TrendDelta, v))
  {
    BestDealsLength(drops, sorted, topN, r);
    SortedDescPrefix(sorted, TrendDelta, |r|);
    BestDealsTopN(drops, sorted, r);
    forall v ensures IsPrefix(KeyFilter(r, TrendDelta, v), KeyFilter(drops, TrendDelta, v)) {
      BestDealsStable(drops, sorted, r, v);
    }
  }

  /** Cutting the sorted drops to `top_n` follows Python's slice length. */
  lemma BestDealsLength(drops: seq<Car>, sorted: seq<Car>, topN: int, r: seq<Car>)
    requires multiset(sorted) == multiset(drops)
    requires r == PyHead(sorted, topN)
    ensures |r| <= |sorted| && r == sorted[..|r|]
    ensures topN >= 0 ==> |r| == (if topN < |drops| then topN else |drops|)
    ensures topN < 0 ==> |r| == (if |drops| + topN > 0 then |drops| + topN else 0)
  {
    assert |sorted| == |multiset(sorted)| == |multiset(drops)| == |drops|;
  }

  /** A prefix of a descending permutation of the drops holds the largest of them. */
  lemma {:induction false} BestDealsTopN(drops: seq<Car>, sorted: seq<Car>, r: seq<Car>)
    requires multiset(sorted) == multiset(drops) && SortedDesc(sorted, TrendDelta)
    requires |r| <= |sorted| && r == sorted[..|r|]
    ensures multiset(r) <= multiset(drops)
    ensures forall c, d :: c in multiset(drops) - multiset(r) && d in r ==> TrendDelta(d) >= TrendDelta(c)
    ensures forall c :: c in r ==> c in drops
  {
    var rest := sorted[|r|..];
    assert sorted == r + rest;
    assert multiset(sorted) == multiset(r) + multiset(rest);
    assert multiset(drops) - multiset(r) == multiset(rest);
    BestDealsTop(sorted, r, rest);
    forall c | c in r ensures c in drops {
      assert c in multiset(r);
    }
  }

  /** A prefix of a stable sort keeps equal deltas in input order. */
  lemma {:induction false} BestDealsStable(drops: seq<Car>, sorted: seq<Car>, r: seq<Car>, v: real)
    requires KeyFilter(sorted, TrendDelta, v) == KeyFilter(drops, TrendDelta, v)
    requires |r| <= |sorted| && r == sorted[..|r|]
    ensures IsPrefix(KeyFilter(r, TrendDelta, v), KeyFilter(drops, TrendDelta, v))
  {
    KeyFilterPrefix(sorted, |r|, TrendDelta, v);
  }

  /** In a descending list, everything after the cut is no larger than anything before it. */
  lemma {:induction false} BestDealsTop(sorted: seq<Car>, r: seq<Car>, rest: seq<Car>)
    requires SortedDesc(sorted, TrendDelta) && sorted == r + rest
    ensures forall c, d :: c in multiset(rest) && d in r ==> TrendDelta(d) >= TrendDelta(c)
  {
    forall c, d | c in multiset(rest) && d in r ensures TrendDelta(d) >= TrendDelta(c) {
      var j :| 0 <= j < |rest| && rest[j] == c;
      var i :| 0 <= i < |r| && r[i] == d;
      assert sorted[i] == d && sorted[|r| + j] == c;
    }
  }
}
