/**
 * The data flow of one pipeline run (`run_fetch_pipeline`, scripts/fetch.py):
 * normalize every raw candidate, deduplicate, carry forward the prior
 * records not seen this run with a liveness countdown, keep the affordable
 * vehicles, refresh their price trends and append one snapshot to the
 * history ledger.
 *
 * Loading and saving files, the source adapters and all printing are left
 * to the caller: the prior inventory, the history and the raw candidates
 * are inputs, the inventory and history to be saved are the output. Clock
 * readings and the hashing, float-formatting and rounding primitives are
 * parameters.
 */
module Fetch {
  import opened Wrappers
  import opened Models
  import opened Lists
  import opened Normalize
  import opened Dedup
  import Finance
  import PriceTracker

  /** The parts of the application configuration the run uses. */
  datatype Config = Config(
    zip: string,
    radiusMiles: int,
    maxDownPayment: real,
    maxMonthlyPayment: real,
    finance: FinanceConfig)

  /** SHA-1 as lower-case hex, Python's `str(float)`, and `round(x, 2)`. */
  datatype Primitives = Primitives(
    sha1Hex: string -> string,
    floatStr: real -> string,
    roundCents: real -> real)

  /**
   * The clock as seen by one run: the run timestamp, the calendar year (one
   * for the whole run: every reading is assumed to fall in the same year), the
   * time read while normalizing the i-th candidate, and the time read while
   * updating the trend of the i-th affordable car.
   */
  datatype RunClock = RunClock(
    timestamp: string,
    currentYear: int,
    normalizedAt: nat -> string,
    trendAt: nat -> string)

  /** What the run saves, plus the number of skipped candidates. */
  datatype RunResult = RunResult(inventory: Inventory, history: History, errors: nat)

  /** The history ledger keeps at most this many runs. */
  const MaxRuns := 100

  // ---------------------------------------------------------------------------
  // Normalization loop
  // ---------------------------------------------------------------------------

  /**
   * One iteration of the normalization loop: look the candidate's stable id
   * up in the prior inventory, normalize, then re-check. `None` is a skipped
   * candidate, whether normalization raised or the re-check failed.
   */
  function NormalizeOne(raw: RawCar, existing: seq<Car>, now: string, currentYear: int, p: Primitives): (r: Option<Car>)
    ensures r.Some? <==>
      && NormalizeCar(raw, Lookup(existing, StableId(raw, p.sha1Hex, p.floatStr)), now, currentYear, p.sha1Hex, p.floatStr).Ok?
      && raw.source != ""
    ensures r.Some? ==>
      && ValidateCar(r.value, currentYear)
      && r.value.id == StableId(raw, p.sha1Hex, p.floatStr)
      && r.value.timestamps.lastSeen == now
      && r.value.timestamps.firstSeen
        == (if r.value.id in IdSet(existing) then Lookup(existing, r.value.id).value.timestamps.firstSeen else now)
  {
    var prior := Lookup(existing, StableId(raw, p.sha1Hex, p.floatStr));
    var result := NormalizeCar(raw, prior, now, currentYear, p.sha1Hex, p.floatStr);
    if result.Err? then None
    else
      ValidateAfterNormalize(raw, prior, now, currentYear, p.sha1Hex, p.floatStr);
      if ValidateCar(result.value, currentYear) then Some(result.value) else None
  }

  /** Whether the candidate at a given position of the loop is kept. */
  function KeptAt(existing: seq<Car>, clock: RunClock, p: Primitives): (RawCar, nat) -> bool {
    (raw: RawCar, i: nat) => NormalizeOne(raw, existing, clock.normalizedAt(i), clock.currentYear, p).Some?
  }

  /**
   * The normalization loop over all candidates: the cars kept, in candidate
   * order, and the error count. Every candidate is either kept or counted,
   * every kept car passes the re-check, and the count is zero exactly when
   * every candidate normalizes.
   */
  function NormalizeAll(raws: seq<RawCar>, existing: seq<Car>, clock: RunClock, p: Primitives): (r: (seq<Car>, nat))
    ensures |r.0| + r.1 == |raws|
    ensures forall k :: 0 <= k < |r.0| ==> ValidateCar(r.0[k], clock.currentYear)
    ensures r.1 == 0 <==> AllAt(raws, KeptAt(existing, clock, p))
    ensures AllNormalizedFrom(r.0, raws, existing, clock, p)
    ensures r.0 == Somes(Outcomes(raws, existing, clock, p))
    ensures r.1 == CountNone(Outcomes(raws, existing, clock, p))
    decreases |raws|
  {
    if |raws| == 0 then ([], 0)
    else
      var n := |raws| - 1;
      var pre := NormalizeAll(raws[..n], existing, clock, p);
      var one := NormalizeOne(raws[n], existing, clock.normalizedAt(n), clock.currentYear, p);
      var r := if one.Some? then (pre.0 + [one.value], pre.1) else (pre.0, pre.1 + 1);
      NormalizeStep(raws, existing, clock, p, pre, one, r);
      OutcomesStep(raws, existing, clock, p, pre, one, r);
      r
  }

  /**
   * The candidate-by-candidate outcomes of the normalization loop, each
   * normalized with the clock reading of its own position: a reference
   * for the loop that does not accumulate anything.
   */
  function Outcomes(raws: seq<RawCar>, existing: seq<Car>, clock: RunClock, p: Primitives): seq<Option<Car>> {
    seq(|raws|, i requires 0 <= i < |raws| => NormalizeOne(raws[i], existing, clock.normalizedAt(i), clock.currentYear, p))
  }

  /** One turn of the loop agrees with the outcomes of one more candidate. */
  lemma OutcomesStep(raws: seq<RawCar>, existing: seq<Car>, clock: RunClock, p: Primitives, pre: (seq<Car>, nat),
                     one: Option<Car>, r: (seq<Car>, nat))
    requires |raws| > 0
    requires pre.0 == Somes(Outcomes(raws[..|raws| - 1], existing, clock, p))
    requires pre.1 == CountNone(Outcomes(raws[..|raws| - 1], existing, clock, p))
    requires one == NormalizeOne(raws[|raws| - 1], existing, clock.normalizedAt(|raws| - 1), clock.currentYear, p)
    requires r == if one.Some? then (pre.0 + [one.value], pre.1) else (pre.0, pre.1 + 1)
    ensures r.0 == Somes(Outcomes(raws, existing, clock, p))
    ensures r.1 == CountNone(Outcomes(raws, existing, clock, p))
  {
    var n := |raws| - 1;
    var all, init := Outcomes(raws, existing, clock, p), Outcomes(raws[..n], existing, clock, p);
    assert all[..n] == init by {
      forall i | 0 <= i < n
        ensures all[..n][i] == init[i]
      {
        assert raws[..n][i] == raws[i];
      }
    }
    assert all[n] == one;
  }

  /** One turn of the normalization loop keeps the loop's contract. */
  lemma NormalizeStep(raws: seq<RawCar>, existing: seq<Car>, clock: RunClock, p: Primitives, pre: (seq<Car>, nat),
                       one: Option<Car>, r: (seq<Car>, nat))
    requires |raws| > 0
    requires |pre.0| + pre.1 == |raws| - 1
    requires forall k :: 0 <= k < |pre.0| ==> ValidateCar(pre.0[k], clock.currentYear)
    requires pre.1 == 0 <==> AllAt(raws[..|raws| - 1], KeptAt(existing, clock, p))
    requires AllNormalizedFrom(pre.0, raws[..|raws| - 1], existing, clock, p)
    requires one == NormalizeOne(raws[|raws| - 1], existing, clock.normalizedAt(|raws| - 1), clock.currentYear, p)
    requires r == if one.Some? then (pre.0 + [one.value], pre.1) else (pre.0, pre.1 + 1)
    ensures |r.0| + r.1 == |raws|
    ensures forall k :: 0 <= k < |r.0| ==> ValidateCar(r.0[k], clock.currentYear)
    ensures r.1 == 0 <==> AllAt(raws, KeptAt(existing, clock, p))
    ensures AllNormalizedFrom(r.0, raws, existing, clock, p)
  {
    var n := |raws| - 1;
    AllAtStep(raws, KeptAt(existing, clock, p));
    assert KeptAt(existing, clock, p)(raws[n], n) == one.Some?;
    NormalizedFromStep(pre.0, raws, existing, clock, p, one, r.0);
    if one.Some? {
      assert r.0[|pre.0|] == one.value;
      assert forall k :: 0 <= k < |pre.0| ==> r.0[k] == pre.0[k];
    }
  }

  /** `car` is what the loop produced for one of the candidates. */
  ghost predicate NormalizedFrom(car: Car, raws: seq<RawCar>, existing: seq<Car>, clock: RunClock, p: Primitives) {
    exists i :: 0 <= i < |raws| && NormalizeOne(raws[i], existing, clock.normalizedAt(i), clock.currentYear, p) == Some(car)
  }

  /** Each of `cars` is what the loop produced for one of the candidates. */
  ghost predicate AllNormalizedFrom(cars: seq<Car>, raws: seq<RawCar>, existing: seq<Car>, clock: RunClock, p: Primitives) {
    forall k :: 0 <= k < |cars| ==> NormalizedFrom(cars[k], raws, existing, clock, p)
  }

  lemma NormalizedFromStep(cars: seq<Car>, raws: seq<RawCar>, existing: seq<Car>, clock: RunClock, p: Primitives,
                            one: Option<Car>, r: seq<Car>)
    requires |raws| > 0 && AllNormalizedFrom(cars, raws[..|raws| - 1], existing, clock, p)
    requires one == NormalizeOne(raws[|raws| - 1], existing, clock.normalizedAt(|raws| - 1), clock.currentYear, p)
    requires r == if one.Some? then cars + [one.value] else cars
    ensures AllNormalizedFrom(r, raws, existing, clock, p)
  {
    var n := |raws| - 1;
    forall k | 0 <= k < |r|
      ensures NormalizedFrom(r[k], raws, existing, clock, p)
    {
      if k < |cars| {
        assert r[k] == cars[k];
        NormalizedFromWiden(cars[k], raws, existing, clock, p);
      } else {
        assert r[k] == one.value;
        assert NormalizeOne(raws[n], existing, clock.normalizedAt(n), clock.currentYear, p) == Some(r[k]);
      }
    }
  }

  /** A car produced from a prefix of the candidates is produced from all of them. */
  lemma NormalizedFromWiden(car: Car, raws: seq<RawCar>, existing: seq<Car>, clock: RunClock, p: Primitives)
    requires |raws| > 0 && NormalizedFrom(car, raws[..|raws| - 1], existing, clock, p)
    ensures NormalizedFrom(car, raws, existing, clock, p)
  {
    var n := |raws| - 1;
    var i :| 0 <= i < n && NormalizeOne(raws[..n][i], existing, clock.normalizedAt(i), clock.currentYear, p) == Some(car);
    assert raws[..n][i] == raws[i];
  }

  // ---------------------------------------------------------------------------
  // Liveness of prior records not seen this run
  // ---------------------------------------------------------------------------

  /**
   * One absence of a prior record: count `days_to_live` down while it stays
   * positive (clearing `expired_at`); when it reaches zero, expire the record
   * with the run timestamp; a record that had already expired is carried
   * forward as it is. Nothing but the two liveness fields changes.
   */
  function Age(car: Car, timestamp: string): (r: Car)
    ensures r.id == car.id
    ensures r.(daysToLive := car.daysToLive, expiredAt := car.expiredAt) == car
    ensures car.daysToLive > 1 ==> r.daysToLive == car.daysToLive - 1 && r.expiredAt == None
    ensures car.daysToLive <= 1 && car.expiredAt == None ==> r.daysToLive == 0 && r.expiredAt == Some(timestamp)
    ensures car.daysToLive <= 1 && car.expiredAt.Some? ==> r == car
  {
    var daysLeft := car.daysToLive - 1;
    if daysLeft > 0 then car.(daysToLive := daysLeft, expiredAt := None)
    else if car.expiredAt.None? then car.(daysToLive := 0, expiredAt := Some(timestamp))
    else car
  }

  /** Days to live never negative, and a record carrying an expiry time has none left. */
  predicate LivenessConsistent(car: Car) {
    car.daysToLive >= 0 && (car.expiredAt.Some? ==> car.daysToLive == 0)
  }

  /** Aging keeps a record's liveness fields consistent. */
  lemma AgePreservesConsistency(car: Car, timestamp: string)
    requires LivenessConsistent(car)
    ensures LivenessConsistent(Age(car, timestamp))
  {
  }

  /** A record that has expired stays exactly as it was, however long it stays away. */
  lemma {:induction false} ExpiredIsFixed(car: Car, stamps: seq<string>)
    requires LivenessConsistent(car) && car.expiredAt.Some?
    ensures AgeRepeatedly(car, stamps) == car
    decreases |stamps|
  {
    if |stamps| > 0 {
      ExpiredIsFixed(car, stamps[..|stamps| - 1]);
    }
  }

  /** The record after consecutive absences in runs with the given timestamps. */
  function AgeRepeatedly(car: Car, stamps: seq<string>): Car
    decreases |stamps|
  {
    if |stamps| == 0 then car
    else Age(AgeRepeatedly(car, stamps[..|stamps| - 1]), stamps[|stamps| - 1])
  }

  /**
   * The countdown: a live record with `d` days to live (at least one) survives
   * `d - 1` absences, each taking one day off, and expires in the `d`-th with
   * that run's timestamp; from then on it no longer changes.
   */
  lemma {:induction false} Countdown(car: Car, stamps: seq<string>)
    requires car.expiredAt == None
    ensures var d := if car.daysToLive < 1 then 1 else car.daysToLive;
      && (|stamps| < d ==>
            AgeRepeatedly(car, stamps) == car.(daysToLive := car.daysToLive - |stamps|))
      && (|stamps| >= d ==>
            AgeRepeatedly(car, stamps) == car.(daysToLive := 0, expiredAt := Some(stamps[d - 1])))
    decreases |stamps|
  {
    if |stamps| > 0 {
      var n := |stamps|;
      var pre := stamps[..n - 1];
      Countdown(car, pre);
      var d := if car.daysToLive < 1 then 1 else car.daysToLive;
      if n - 1 >= d {
        assert pre[d - 1] == stamps[d - 1];
      }
    }
  }

  /**
   * A freshly normalized record (3 days to live, not expired) counts down
   * 2, 1, 0, expires on its third consecutive absence and is unchanged by a
   * fourth.
   */
  lemma FreshRecordLifetime(car: Car, t1: string, t2: string, t3: string, t4: string)
    requires car.daysToLive == 3 && car.expiredAt == None
    ensures AgeRepeatedly(car, [t1]).daysToLive == 2
    ensures AgeRepeatedly(car, [t1, t2]).daysToLive == 1
    ensures AgeRepeatedly(car, [t1, t2]).expiredAt == None
    ensures AgeRepeatedly(car, [t1, t2, t3]) == car.(daysToLive := 0, expiredAt := Some(t3))
    ensures AgeRepeatedly(car, [t1, t2, t3, t4]) == AgeRepeatedly(car, [t1, t2, t3])
  {
    Countdown(car, [t1]);
    Countdown(car, [t1, t2]);
    Countdown(car, [t1, t2, t3]);
    Countdown(car, [t1, t2, t3, t4]);
  }

  /** With distinct ids, looking up the id of the record at `j` finds that record. */
  lemma LookupAt(existing: seq<Car>, j: nat)
    requires DistinctIds(existing) && j < |existing|
    ensures Lookup(existing, existing[j].id) == Some(existing[j])
  {
    var id := existing[j].id;
    IndexOfFound(existing, id);
    var k := IndexOf(existing, id);
    assert Ids(existing)[k] == Ids(existing)[j];
  }

  /** Each record of `r` is some prior record aged once. */
  ghost predicate AgedFromPrior(r: seq<Car>, existing: seq<Car>, timestamp: string) {
    forall i :: 0 <= i < |r| ==> exists j :: 0 <= j < |existing| && r[i] == Age(existing[j], timestamp)
  }

  /** The loop body for one prior record: skip it when found, else age and keep it. */
  function TrackOne(acc: seq<Car>, car: Car, found: set<string>, timestamp: string): seq<Car> {
    if car.id in found then acc else acc + [Age(car, timestamp)]
  }

  /**
   * The liveness loop: every prior record whose id was not found this run,
   * aged once, in prior-inventory order. Records whose id was found do not
   * appear; no other record is dropped.
   */
  function TrackMissing(existing: seq<Car>, found: set<string>, timestamp: string): (r: seq<Car>)
    ensures IdSet(r) == IdSet(existing) - found
    ensures Sublist(Ids(r), Ids(existing))
    ensures AgedFromPrior(r, existing, timestamp)
    decreases |existing|
  {
    if |existing| == 0 then []
    else
      var n := |existing| - 1;
      var pre := TrackMissing(existing[..n], found, timestamp);
      var r := TrackOne(pre, existing[n], found, timestamp);
      TrackOneFacts(existing, existing[..n], existing[n], pre, found, timestamp, r);
      r
  }

  /** One turn of the liveness loop keeps the loop's contract. */
  lemma TrackOneFacts(
    existing: seq<Car>, init: seq<Car>, last: Car, pre: seq<Car>, found: set<string>, timestamp: string, r: seq<Car>)
    requires |existing| > 0 && init == existing[..|existing| - 1] && last == existing[|existing| - 1]
    requires IdSet(pre) == IdSet(init) - found
    requires Sublist(Ids(pre), Ids(init))
    requires AgedFromPrior(pre, init, timestamp)
    requires r == TrackOne(pre, last, found, timestamp)
    ensures IdSet(r) == IdSet(existing) - found
    ensures Sublist(Ids(r), Ids(existing))
    ensures AgedFromPrior(r, existing, timestamp)
  {
    IdsSplitLast(existing, init, last);
    TrackOneIds(existing, init, last, pre, found, timestamp, r);
    TrackOneAged(existing, init, last, pre, found, timestamp, r);
  }

  lemma TrackOneIds(
    existing: seq<Car>, init: seq<Car>, last: Car, pre: seq<Car>, found: set<string>, timestamp: string, r: seq<Car>)
    requires |existing| > 0 && init == existing[..|existing| - 1] && last == existing[|existing| - 1]
    requires Ids(existing) == Ids(init) + [last.id]
    requires IdSet(pre) == IdSet(init) - found && Sublist(Ids(pre), Ids(init))
    requires r == TrackOne(pre, last, found, timestamp)
    ensures IdSet(r) == IdSet(existing) - found && Sublist(Ids(r), Ids(existing))
  {
    TrackOneIdSet(existing, init, last, pre, found, timestamp, r);
    TrackOneSublist(existing, init, last, pre, found, timestamp, r);
  }

  lemma TrackOneIdSet(
    existing: seq<Car>, init: seq<Car>, last: Car, pre: seq<Car>, found: set<string>, timestamp: string, r: seq<Car>)
    requires |existing| > 0 && init == existing[..|existing| - 1] && last == existing[|existing| - 1]
    requires IdSet(pre) == IdSet(init) - found
    requires r == TrackOne(pre, last, found, timestamp)
    ensures IdSet(r) == IdSet(existing) - found
  {
    SplitLast(existing);
    IdSetAppend(init, [last]);
    assert Ids([last]) == [last.id];
    if last.id !in found {
      IdSetAppend(pre, [Age(last, timestamp)]);
      assert Ids([Age(last, timestamp)]) == [last.id];
    }
  }

  lemma TrackOneSublist(
    existing: seq<Car>, init: seq<Car>, last: Car, pre: seq<Car>, found: set<string>, timestamp: string, r: seq<Car>)
    requires |existing| > 0 && init == existing[..|existing| - 1] && last == existing[|existing| - 1]
    requires Ids(existing) == Ids(init) + [last.id]
    requires Sublist(Ids(pre), Ids(init))
    requires r == TrackOne(pre, last, found, timestamp)
    ensures Sublist(Ids(r), Ids(existing))
  {
    assert Ids(existing)[..|existing| - 1] == Ids(init);
    if last.id in found {
      SublistDropLast(Ids(pre), Ids(existing));
    } else {
      assert Ids(r) == Ids(pre) + [last.id];
      assert Ids(r)[..|r| - 1] == Ids(pre);
    }
  }

  lemma TrackOneAged(
    existing: seq<Car>, init: seq<Car>, last: Car, pre: seq<Car>, found: set<string>, timestamp: string, r: seq<Car>)
    requires |existing| > 0 && init == existing[..|existing| - 1] && last == existing[|existing| - 1]
    requires AgedFromPrior(pre, init, timestamp)
    requires r == TrackOne(pre, last, found, timestamp)
    ensures AgedFromPrior(r, existing, timestamp)
  {
    forall i | 0 <= i < |r|
      ensures exists j :: 0 <= j < |existing| && r[i] == Age(existing[j], timestamp)
    {
      if i < |pre| {
        assert r[i] == pre[i];
        var j :| 0 <= j < |init| && pre[i] == Age(init[j], timestamp);
        assert existing[j] == init[j];
      } else {
        assert r[i] == Age(existing[|existing| - 1], timestamp);
      }
    }
  }

  /**
   * With distinct prior ids each carried record is its own prior record,
   * aged once.
   */
  lemma TrackMissingContents(existing: seq<Car>, found: set<string>, timestamp: string)
    requires DistinctIds(existing)
    ensures var r := TrackMissing(existing, found, timestamp);
      forall i :: 0 <= i < |r| ==>
        && Lookup(existing, r[i].id).Some?
        && r[i] == Age(Lookup(existing, r[i].id).value, timestamp)
  {
    var r := TrackMissing(existing, found, timestamp);
    forall i | 0 <= i < |r|
      ensures Lookup(existing, r[i].id).Some? && r[i] == Age(Lookup(existing, r[i].id).value, timestamp)
    {
      var j :| 0 <= j < |existing| && r[i] == Age(existing[j], timestamp);
      LookupAt(existing, j);
    }
  }

  /** Carried records stay consistent when every prior record was. */
  lemma TrackMissingConsistent(existing: seq<Car>, found: set<string>, timestamp: string)
    requires forall j :: 0 <= j < |existing| ==> LivenessConsistent(existing[j])
    ensures var r := TrackMissing(existing, found, timestamp);
      forall i :: 0 <= i < |r| ==> LivenessConsistent(r[i])
  {
    var r := TrackMissing(existing, found, timestamp);
    forall i | 0 <= i < |r|
      ensures LivenessConsistent(r[i])
    {
      var j :| 0 <= j < |existing| && r[i] == Age(existing[j], timestamp);
      AgePreservesConsistency(existing[j], timestamp);
    }
  }

  // ---------------------------------------------------------------------------
  // Combine
  // ---------------------------------------------------------------------------

  lemma DistinctIdsAppend(a: seq<Car>, b: seq<Car>)
    requires DistinctIds(a) && DistinctIds(b) && IdSet(a) !! IdSet(b)
    ensures DistinctIds(a + b)
  {
    var x, y := Ids(a), Ids(b);
    var ids := Ids(a + b);
    assert ids == x + y;
    forall i, j | 0 <= i < j < |ids|
      ensures ids[i] != ids[j]
    {
      if j < |x| {
        assert ids[i] == x[i] && ids[j] == x[j];
      } else if i >= |x| {
        assert ids[i] == y[i - |x|] && ids[j] == y[j - |x|];
      } else {
        assert ids[i] == x[i] && x[i] in x && x[i] in IdSet(a);
        assert ids[j] == y[j - |x|] && y[j - |x|] in y && y[j - |x|] in IdSet(b);
      }
    }
  }

  lemma IdSetAppend(a: seq<Car>, b: seq<Car>)
    ensures IdSet(a + b) == IdSet(a) + IdSet(b)
  {
    assert Ids(a + b) == Ids(a) + Ids(b);
  }

  /**
   * `all_vehicles`: the deduplicated cars of this run, in their order,
   * followed by the carried prior records, in prior order. Every id seen this run or known before is
   * tracked, each exactly once when the prior ids were distinct.
   */
  function Combine(normalized: seq<Car>, existing: seq<Car>, timestamp: string): (r: seq<Car>)
    ensures r == Dedup.Dedup(normalized, existing)
      + TrackMissing(existing, IdSet(Dedup.Dedup(normalized, existing)), timestamp)
    ensures IdSet(r) == IdSet(normalized) + IdSet(existing)
    ensures DistinctIds(existing) ==> DistinctIds(r)
  {
    var deduped := Dedup.Dedup(normalized, existing);
    var missing := TrackMissing(existing, IdSet(deduped), timestamp);
    IdSetAppend(deduped, missing);
    CombineDistinct(deduped, missing, existing);
    deduped + missing
  }

  lemma CombineDistinct(deduped: seq<Car>, missing: seq<Car>, existing: seq<Car>)
    requires DistinctIds(deduped) && Sublist(Ids(missing), Ids(existing))
    requires IdSet(missing) !! IdSet(deduped)
    ensures DistinctIds(existing) ==> DistinctIds(deduped + missing)
  {
    if DistinctIds(existing) {
      SublistDistinct(Ids(missing), Ids(existing));
      DistinctIdsAppend(deduped, missing);
    }
  }

  // ---------------------------------------------------------------------------
  // Budget filter
  // ---------------------------------------------------------------------------

  function Admission(car: Car, cfg: Config, roundCents: real -> real): (bool, Option<FinanceInfo>) {
    Finance.MeetsBudget(car.price, cfg.maxDownPayment, cfg.maxMonthlyPayment, cfg.finance, roundCents)
  }

  /** `meets_budget and finance_info` */
  predicate Affordable(car: Car, cfg: Config, roundCents: real -> real) {
    Admission(car, cfg, roundCents).0 && Admission(car, cfg, roundCents).1.Some?
  }

  function AffordableTest(cfg: Config, roundCents: real -> real): Car -> bool {
    car => Affordable(car, cfg, roundCents)
  }

  /** The car with its finance replaced by the information the budget check returned. */
  function Financed(car: Car, cfg: Config, roundCents: real -> real): Car
    requires Affordable(car, cfg, roundCents)
  {
    car.(finance := Admission(car, cfg, roundCents).1.value)
  }

  /** Each car of `r` is an affordable car of `cars` with its finance attached. */
  ghost predicate FinancedFrom(r: seq<Car>, cars: seq<Car>, cfg: Config, roundCents: real -> real) {
    forall i :: 0 <= i < |r| ==> IsFinancedOf(r[i], cars, cfg, roundCents)
  }

  ghost predicate IsFinancedOf(c: Car, cars: seq<Car>, cfg: Config, roundCents: real -> real) {
    exists j :: 0 <= j < |cars| && Affordable(cars[j], cfg, roundCents) && c == Financed(cars[j], cfg, roundCents)
  }

  /** Every affordable car of `cars`, with its finance attached, is in `r`. */
  ghost predicate KeepsAffordable(r: seq<Car>, cars: seq<Car>, cfg: Config, roundCents: real -> real) {
    forall j :: 0 <= j < |cars| && Affordable(cars[j], cfg, roundCents) ==> Financed(cars[j], cfg, roundCents) in r
  }

  /** The loop body for one car. */
  function BudgetOne(acc: seq<Car>, car: Car, cfg: Config, roundCents: real -> real): seq<Car> {
    if Affordable(car, cfg, roundCents) then acc + [Financed(car, cfg, roundCents)] else acc
  }

  /**
   * The budget loop: the affordable cars in order, each carrying its newly
   * computed finance, whose monthly payment is within the budget. Every
   * affordable car is kept; no other car is.
   */
  function BudgetFilter(cars: seq<Car>, cfg: Config, roundCents: real -> real): (r: seq<Car>)
    ensures Sublist(Ids(r), Ids(cars))
    ensures forall i :: 0 <= i < |r| ==> r[i].finance.estMonthly <= cfg.maxMonthlyPayment
    ensures FinancedFrom(r, cars, cfg, roundCents)
    ensures KeepsAffordable(r, cars, cfg, roundCents)
    ensures |r| == |Filter(cars, AffordableTest(cfg, roundCents))|
    decreases |cars|
  {
    if |cars| == 0 then []
    else
      var n := |cars| - 1;
      var pre := BudgetFilter(cars[..n], cfg, roundCents);
      BudgetOneIds(cars, pre, cfg, roundCents);
      BudgetOneContents(cars, pre, cfg, roundCents);
      BudgetOne(pre, cars[n], cfg, roundCents)
  }

  lemma BudgetOneIds(cars: seq<Car>, pre: seq<Car>, cfg: Config, roundCents: real -> real)
    requires |cars| > 0 && Sublist(Ids(pre), Ids(cars[..|cars| - 1]))
    ensures Sublist(Ids(BudgetOne(pre, cars[|cars| - 1], cfg, roundCents)), Ids(cars))
  {
    var n := |cars| - 1;
    var r := BudgetOne(pre, cars[n], cfg, roundCents);
    assert Ids(cars) == Ids(cars[..n]) + [cars[n].id];
    assert Ids(cars)[..n] == Ids(cars[..n]);
    if Affordable(cars[n], cfg, roundCents) {
      assert Ids(r) == Ids(pre) + [cars[n].id];
      assert Ids(r)[..|r| - 1] == Ids(pre);
    } else {
      SublistDropLast(Ids(pre), Ids(cars));
    }
  }

  lemma BudgetOneContents(cars: seq<Car>, pre: seq<Car>, cfg: Config, roundCents: real -> real)
    requires |cars| > 0
    requires var init := cars[..|cars| - 1];
      && (forall i :: 0 <= i < |pre| ==> pre[i].finance.estMonthly <= cfg.maxMonthlyPayment)
      && FinancedFrom(pre, init, cfg, roundCents)
      && KeepsAffordable(pre, init, cfg, roundCents)
    ensures var r := BudgetOne(pre, cars[|cars| - 1], cfg, roundCents);
      && (forall i :: 0 <= i < |r| ==> r[i].finance.estMonthly <= cfg.maxMonthlyPayment)
      && FinancedFrom(r, cars, cfg, roundCents)
      && KeepsAffordable(r, cars, cfg, roundCents)
  {
    var n := |cars| - 1;
    var init, last := cars[..n], cars[n];
    var r := BudgetOne(pre, last, cfg, roundCents);
    forall i | 0 <= i < |r|
      ensures IsFinancedOf(r[i], cars, cfg, roundCents)
    {
      if i < |pre| {
        assert IsFinancedOf(pre[i], init, cfg, roundCents);
        var j :| 0 <= j < n && Affordable(init[j], cfg, roundCents) && pre[i] == Financed(init[j], cfg, roundCents);
        assert cars[j] == init[j];
      } else {
        assert r[i] == Financed(cars[n], cfg, roundCents);
      }
    }
    forall j | 0 <= j < |cars| && Affordable(cars[j], cfg, roundCents)
      ensures Financed(cars[j], cfg, roundCents) in r
    {
      if j < n {
        assert cars[j] == init[j];
      }
    }
  }

  // ---------------------------------------------------------------------------
  // One run
  // ---------------------------------------------------------------------------

  /**
   * `run_fetch_pipeline` from the raw candidates on. With no candidates the
   * inventory saved is empty and the history is saved unchanged. Otherwise
   * the affordable cars, with refreshed trends, form the inventory, and one
   * snapshot of them is appended to the history, which keeps at most 100
   * runs.
   */
  function RunPipeline(
    cfg: Config, existing: seq<Car>, h: History, raws: seq<RawCar>, clock: RunClock, p: Primitives): (r: RunResult)
    ensures r.inventory.generatedAt == clock.timestamp
    ensures r.inventory.zip == cfg.zip && r.inventory.radiusMiles == cfg.radiusMiles
    ensures |raws| == 0 ==> r.inventory.items == [] && r.history == h && r.errors == 0
    ensures |raws| > 0 ==> r.errors == NormalizeAll(raws, existing, clock, p).1
    ensures |raws| > 0 ==>
      r.inventory.items == PriceTracker.UpdatePriceTrends(Affordables(cfg, existing, raws, clock, p).0, h, clock.trendAt)
    ensures |raws| > 0 ==> LedgerRecords(h, r.history, r.inventory.items, clock.timestamp)
    ensures |raws| > 0 ==> r.history == PriceTracker.AppendToHistory(h,
      PriceTracker.CreateHistorySnapshot(Affordables(cfg, existing, raws, clock, p).0, Some(clock.timestamp), clock.timestamp),
      MaxRuns)
    ensures r.errors <= |raws|
    ensures forall i :: 0 <= i < |r.inventory.items| ==>
      r.inventory.items[i].finance.estMonthly <= cfg.maxMonthlyPayment
    ensures DistinctIds(existing) ==> DistinctIds(r.inventory.items)
  {
    var empty := Inventory(clock.timestamp, cfg.zip, cfg.radiusMiles, []);
    if |raws| == 0 then RunResult(empty, h, 0)
    else
      var (affordable, errors) := Affordables(cfg, existing, raws, clock, p);
      var items := PriceTracker.UpdatePriceTrends(affordable, h, clock.trendAt);
      var run := PriceTracker.CreateHistorySnapshot(affordable, Some(clock.timestamp), clock.timestamp);
      var next := PriceTracker.AppendBounded(h, run, MaxRuns);
      SaveFacts(existing, h, affordable, items, run, next, cfg.maxMonthlyPayment, clock);
      RunResult(empty.(items := items), next, errors)
  }

  /** Step 7 and 8 of a run: what is saved, given the affordable cars. */
  lemma SaveFacts(existing: seq<Car>, h: History, affordable: seq<Car>, items: seq<Car>, run: HistoryRun, next: History,
                  maxMonthly: real, clock: RunClock)
    requires forall i :: 0 <= i < |affordable| ==> affordable[i].finance.estMonthly <= maxMonthly
    requires DistinctIds(existing) ==> DistinctIds(affordable)
    requires items == PriceTracker.UpdatePriceTrends(affordable, h, clock.trendAt)
    requires run == PriceTracker.CreateHistorySnapshot(affordable, Some(clock.timestamp), clock.timestamp)
    requires next == PriceTracker.AppendBounded(h, run, MaxRuns)
    ensures LedgerRecords(h, next, items, clock.timestamp)
    ensures next == PriceTracker.AppendToHistory(h, run, MaxRuns)
    ensures forall i :: 0 <= i < |items| ==> items[i].finance.estMonthly <= maxMonthly
    ensures DistinctIds(existing) ==> DistinctIds(items)
  {
    TrendsKeepIds(affordable, items);
    LedgerRecordsItems(h, affordable, items, clock.timestamp, next);
    PriceTracker.AppendAgreesForPositiveBound(h, run, MaxRuns);
  }

  /**
   * Steps 4 to 6 of a run with candidates: the affordable cars among this
   * run's deduplicated cars and the carried prior records, and the count of
   * skipped candidates.
   */
  function Affordables(cfg: Config, existing: seq<Car>, raws: seq<RawCar>, clock: RunClock, p: Primitives): (r: (seq<Car>, nat))
    ensures r.0 == BudgetFilter(Tracked(existing, raws, clock, p), cfg, p.roundCents)
    ensures FinancedFrom(r.0, Tracked(existing, raws, clock, p), cfg, p.roundCents)
    ensures KeepsAffordable(r.0, Tracked(existing, raws, clock, p), cfg, p.roundCents)
    ensures r.1 == NormalizeAll(raws, existing, clock, p).1
    ensures r.1 <= |raws|
    ensures forall i :: 0 <= i < |r.0| ==> r.0[i].finance.estMonthly <= cfg.maxMonthlyPayment
    ensures DistinctIds(existing) ==> DistinctIds(r.0)
  {
    var normalized := NormalizeAll(raws, existing, clock, p);
    var all := Tracked(existing, raws, clock, p);
    var affordable := BudgetFilter(all, cfg, p.roundCents);
    AffordableDistinct(affordable, all, existing);
    (affordable, normalized.1)
  }

  /** `all_vehicles` of a run: this run's deduplicated cars, then the carried prior records. */
  function Tracked(existing: seq<Car>, raws: seq<RawCar>, clock: RunClock, p: Primitives): seq<Car> {
    Combine(NormalizeAll(raws, existing, clock, p).0, existing, clock.timestamp)
  }

  /**
   * `next` is `h` with one run appended and the oldest runs dropped to stay
   * within `MaxRuns`; the new run is stamped `timestamp` and lists exactly the
   * ids and prices of `items`, in order.
   */
  predicate LedgerRecords(h: History, next: History, items: seq<Car>, timestamp: string) {
    && |next.runs| == (if |h.runs| + 1 < MaxRuns then |h.runs| + 1 else MaxRuns)
    && next.runs[..|next.runs| - 1] == h.runs[|h.runs| + 1 - |next.runs|..]
    && next.runs[|next.runs| - 1].generatedAt == timestamp
    && |next.runs[|next.runs| - 1].items| == |items|
    && (forall i :: 0 <= i < |items| ==>
      next.runs[|next.runs| - 1].items[i] == HistoryItem(items[i].id, items[i].price))
  }

  /** The newest ledger run lists the saved items' ids and prices, in order, after the kept older runs. */
  lemma LedgerRecordsItems(h: History, affordable: seq<Car>, items: seq<Car>, timestamp: string, next: History)
    requires |items| == |affordable|
    requires forall i :: 0 <= i < |items| ==> items[i].id == affordable[i].id && items[i].price == affordable[i].price
    requires next == PriceTracker.AppendBounded(h, PriceTracker.CreateHistorySnapshot(affordable, Some(timestamp), timestamp), MaxRuns)
    ensures LedgerRecords(h, next, items, timestamp)
  {
    var run := PriceTracker.CreateHistorySnapshot(affordable, Some(timestamp), timestamp);
    var runs := next.runs;
    assert runs[|runs| - 1] == run;
    assert runs[..|runs| - 1] == h.runs[|h.runs| + 1 - |runs|..];
  }

  lemma AffordableDistinct(affordable: seq<Car>, all: seq<Car>, existing: seq<Car>)
    requires Sublist(Ids(affordable), Ids(all))
    requires DistinctIds(existing) ==> DistinctIds(all)
    ensures DistinctIds(existing) ==> DistinctIds(affordable)
  {
    if DistinctIds(existing) {
      SublistDistinct(Ids(affordable), Ids(all));
    }
  }

  /** Replacing only the price trend keeps ids and prices in place. */
  lemma TrendsKeepIds(cars: seq<Car>, trended: seq<Car>)
    requires |trended| == |cars|
    requires forall i :: 0 <= i < |trended| ==> trended[i].(priceTrend := cars[i].priceTrend) == cars[i]
    ensures Ids(trended) == Ids(cars)
    ensures forall i :: 0 <= i < |cars| ==>
      trended[i].id == cars[i].id && trended[i].price == cars[i].price && trended[i].finance == cars[i].finance
  {
    forall i | 0 <= i < |cars|
      ensures trended[i].id == cars[i].id && trended[i].price == cars[i].price && trended[i].finance == cars[i].finance
    {
      assert trended[i].(priceTrend := cars[i].priceTrend).id == cars[i].id;
      assert trended[i].(priceTrend := cars[i].priceTrend).price == cars[i].price;
      assert trended[i].(priceTrend := cars[i].priceTrend).finance == cars[i].finance;
    }
  }

  /**
   * Across runs: a car saved in the inventory has its price recorded in the
   * ledger's newest run, so the next run compares against exactly that price.
   */
  lemma NextRunSeesSavedPrices(
    cfg: Config, existing: seq<Car>, h: History, raws: seq<RawCar>, clock: RunClock, p: Primitives)
    requires |raws| > 0 && DistinctIds(existing)
    ensures var r := RunPipeline(cfg, existing, h, raws, clock, p);
      forall i :: 0 <= i < |r.inventory.items| ==>
        PriceTracker.PreviousPrice(r.history, r.inventory.items[i].id) == Some(r.inventory.items[i].price)
  {
    var affordable := Affordables(cfg, existing, raws, clock, p).0;
    var items := PriceTracker.UpdatePriceTrends(affordable, h, clock.trendAt);
    TrendsKeepIds(affordable, items);
    PriceTracker.IndexAfterSnapshot(h, affordable, clock.timestamp, MaxRuns);
    forall i | 0 <= i < |items|
      ensures PriceTracker.PreviousPrice(RunPipeline(cfg, existing, h, raws, clock, p).history, items[i].id) == Some(items[i].price)
    {
      assert affordable[i] in affordable;
    }
  }
}
