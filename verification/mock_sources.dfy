/**
 * The filter chain of the offline data source (scripts/sources/mock_sources.py).
 * The hard-coded listings are not modelled: the chain is applied to any list
 * of raw records.
 */
module MockSources {
  import opened Wrappers
  import opened Models
  import opened Lists

  /** `car.make in include_makes`; an absent make is never in the list. */
  predicate MakeListed(f: Filters, car: RawCar) {
    car.make.Some? && car.make.value in f.includeMakes
  }

  /** `car.year and car.year >= min_year`: a year of 0 or none fails. */
  predicate RecentEnough(f: Filters, car: RawCar) {
    TruthyInt(car.year) && car.year.value >= f.minYear
  }

  /** `car.mileage and car.mileage <= max_mileage`: a mileage of 0 or none fails. */
  predicate LowMileage(f: Filters, car: RawCar) {
    TruthyInt(car.mileage) && car.mileage.value <= f.maxMileage
  }

  /** `car.condition in allowed_conditions`, compared as exact strings. */
  predicate ConditionAllowed(f: Filters, car: RawCar) {
    car.condition.Some? && car.condition.value in f.allowedConditions
  }

  /** The whole filter as one predicate: an empty make list admits every make. */
  predicate Passes(f: Filters, car: RawCar) {
    && (|f.includeMakes| == 0 || MakeListed(f, car))
    && RecentEnough(f, car)
    && LowMileage(f, car)
    && ConditionAllowed(f, car)
  }

  function MakeTest(f: Filters): RawCar -> bool {
    car => MakeListed(f, car)
  }

  function AnyMakeOrListed(f: Filters): RawCar -> bool {
    car => |f.includeMakes| == 0 || MakeListed(f, car)
  }

  function YearTest(f: Filters): RawCar -> bool {
    car => RecentEnough(f, car)
  }

  function MileageTest(f: Filters): RawCar -> bool {
    car => LowMileage(f, car)
  }

  function ConditionTest(f: Filters): RawCar -> bool {
    car => ConditionAllowed(f, car)
  }

  function MakeYearTest(f: Filters): RawCar -> bool {
    car => (|f.includeMakes| == 0 || MakeListed(f, car)) && RecentEnough(f, car)
  }

  function MakeYearMileageTest(f: Filters): RawCar -> bool {
    car => (|f.includeMakes| == 0 || MakeListed(f, car)) && RecentEnough(f, car) && LowMileage(f, car)
  }

  function PassesTest(f: Filters): RawCar -> bool {
    car => Passes(f, car)
  }

  function ByMake(cars: seq<RawCar>, f: Filters): seq<RawCar> {
    if |f.includeMakes| > 0 then Filter(cars, MakeTest(f)) else cars
  }

  /**
   * The four list comprehensions of `get_mock_vehicles`, in source order: make
   * (only when a make list is configured), year, mileage, condition. The
   * result is an order-preserving sublist of the input holding exactly the
   * records that pass every filter, each as many times as in the input.
   */
  function MockFilter(cars: seq<RawCar>, f: Filters): (r: seq<RawCar>)
    ensures Sublist(r, cars)
    ensures forall i :: 0 <= i < |r| ==> Passes(f, r[i])
    ensures forall car :: car in cars && Passes(f, car) ==> car in r
    ensures forall car :: multiset(r)[car] == if Passes(f, car) then multiset(cars)[car] else 0
  {
    SinglePass(cars, f);
    SinglePassFacts(cars, f);
    FilterCount(cars, PassesTest(f));
    Filter(Filter(Filter(ByMake(cars, f), YearTest(f)), MileageTest(f)), ConditionTest(f))
  }

  lemma SinglePassFacts(cars: seq<RawCar>, f: Filters)
    ensures var r := Filter(cars, PassesTest(f));
      && Sublist(r, cars)
      && (forall i :: 0 <= i < |r| ==> Passes(f, r[i]))
      && (forall car :: car in cars && Passes(f, car) ==> car in r)
  {
    var r := Filter(cars, PassesTest(f));
    FilterIsSublist(cars, PassesTest(f));
    forall i | 0 <= i < |r|
      ensures Passes(f, r[i])
    {
      assert r[i] in r;
    }
  }

  lemma ByMakeFilters(cars: seq<RawCar>, f: Filters)
    ensures ByMake(cars, f) == Filter(cars, AnyMakeOrListed(f))
  {
    if |f.includeMakes| == 0 {
      FilterAll(cars, AnyMakeOrListed(f));
    } else {
      FilterExtensional(cars, MakeTest(f), AnyMakeOrListed(f));
    }
  }

  /** The chain agrees with one pass of the combined predicate. */
  lemma SinglePass(cars: seq<RawCar>, f: Filters)
    ensures Filter(Filter(Filter(ByMake(cars, f), YearTest(f)), MileageTest(f)), ConditionTest(f))
      == Filter(cars, PassesTest(f))
  {
    calc {
      Filter(Filter(Filter(ByMake(cars, f), YearTest(f)), MileageTest(f)), ConditionTest(f));
      { ByMakeFilters(cars, f); }
      Filter(Filter(Filter(Filter(cars, AnyMakeOrListed(f)), YearTest(f)), MileageTest(f)), ConditionTest(f));
      { FilterCompose(cars, AnyMakeOrListed(f), YearTest(f), MakeYearTest(f)); }
      Filter(Filter(Filter(cars, MakeYearTest(f)), MileageTest(f)), ConditionTest(f));
      { FilterCompose(cars, MakeYearTest(f), MileageTest(f), MakeYearMileageTest(f)); }
      Filter(Filter(cars, MakeYearMileageTest(f)), ConditionTest(f));
      { FilterCompose(cars, MakeYearMileageTest(f), ConditionTest(f), PassesTest(f)); }
      Filter(cars, PassesTest(f));
    }
  }

  /** With no make list configured, the make of a record does not matter. */
  lemma MakesIgnoredWhenUnlisted(cars: seq<RawCar>, f: Filters, car: RawCar)
    requires |f.includeMakes| == 0
    requires car in cars && RecentEnough(f, car) && LowMileage(f, car) && ConditionAllowed(f, car)
    ensures car in MockFilter(cars, f)
  {
  }

  /** A record with mileage 0 is dropped, however the filters are set. */
  lemma ZeroMileageDropped(cars: seq<RawCar>, f: Filters)
    ensures forall i :: 0 <= i < |MockFilter(cars, f)| ==> MockFilter(cars, f)[i].mileage != Some(0)
  {
  }
}
