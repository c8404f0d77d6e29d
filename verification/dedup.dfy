/**
 * Deduplication of a batch of normalized cars by id, against the prior
 * inventory (`deduplicate_cars`), and the id-skipping merge of
 * `merge_with_existing` (scripts/normalize.py).
 *
 * The prior inventory is the id-keyed dictionary loaded from the last
 * snapshot; it is represented as the sequence of its values in iteration
 * order, whose ids are distinct because they are the dictionary's keys.
 */
module Dedup {
  import opened Wrappers
  import opened Text
  import opened Models
  import opened Lists

  function Ids(cars: seq<Car>): (r: seq<string>)
    ensures |r| == |cars| && forall i :: 0 <= i < |cars| ==> r[i] == cars[i].id
  {
    seq(|cars|, i requires 0 <= i < |cars| => cars[i].id)
  }

  /** The ids of a non-empty list are those of all but its last car, then the last car's. */
  lemma IdsSplitLast(cars: seq<Car>, init: seq<Car>, last: Car)
    requires |cars| > 0 && init == cars[..|cars| - 1] && last == cars[|cars| - 1]
    ensures Ids(cars) == Ids(init) + [last.id]
  {
  }

  predicate DistinctIds(cars: seq<Car>) {
    Distinct(Ids(cars))
  }

  function IdSet(cars: seq<Car>): set<string> {
    set id | id in Ids(cars)
  }

  /** Position of the first car with the given id, or `|cars|` when there is none. */
  function IndexOf(cars: seq<Car>, id: string): (j: nat)
    ensures j <= |cars|
    ensures j < |cars| ==> cars[j].id == id
    ensures forall i :: 0 <= i < j ==> cars[i].id != id
  {
    if |cars| == 0 then 0
    else if cars[0].id == id then 0
    else 1 + IndexOf(cars[1..], id)
  }

  lemma {:induction false} IndexOfFound(cars: seq<Car>, id: string)
    ensures IndexOf(cars, id) < |cars| <==> id in IdSet(cars)
  {
    if id in IdSet(cars) {
      var i :| 0 <= i < |cars| && cars[i].id == id;
      assert IndexOf(cars, id) <= i;
    }
  }

  /** The first index of an id is unchanged by appending to the list after it. */
  lemma {:induction false} IndexOfPrefix(cars: seq<Car>, pre: seq<Car>, id: string)
    requires |pre| <= |cars| && pre == cars[..|pre|] && IndexOf(pre, id) < |pre|
    ensures IndexOf(cars, id) == IndexOf(pre, id)
  {
    var a, b := IndexOf(cars, id), IndexOf(pre, id);
    assert pre[b] == cars[b];
  }

  /** `existing.get(id)` on the prior inventory. */
  function Lookup(existing: seq<Car>, id: string): (r: Option<Car>)
    ensures r.Some? ==> r.value in existing && r.value.id == id
    ensures r.None? <==> id !in IdSet(existing)
  {
    IndexOfFound(existing, id);
    var j := IndexOf(existing, id);
    if j < |existing| then Some(existing[j]) else None
  }

  function WithFirstSeen(car: Car, firstSeen: string): Car {
    car.(timestamps := car.timestamps.(firstSeen := firstSeen))
  }

  /** One iteration of the `deduplicate_cars` loop over the insertion-ordered dictionary `acc`. */
  function DedupStep(acc: seq<Car>, car: Car, existing: seq<Car>): seq<Car> {
    var j := IndexOf(acc, car.id);
    if j < |acc| then
      if LexLess(acc[j].timestamps.lastSeen, car.timestamps.lastSeen) then
        acc[j := WithFirstSeen(car, acc[j].timestamps.firstSeen)]
      else
        acc
    else
      match Lookup(existing, car.id)
      case Some(prior) => acc + [WithFirstSeen(car, prior.timestamps.firstSeen)]
      case None => acc + [car]
  }

  /**
   * `deduplicate_cars(cars, existing)`: one car per id, in order of first
   * occurrence. A later duplicate replaces the kept car only when its
   * `last_seen` is strictly greater (as strings), and then inherits the kept
   * car's `first_seen`; a first occurrence of an id already in the prior
   * inventory takes the prior `first_seen`.
   */
  function Dedup(cars: seq<Car>, existing: seq<Car>): (r: seq<Car>)
    ensures DistinctIds(r)
    ensures IdSet(r) == IdSet(cars)
    ensures |r| <= |cars|
    decreases |cars|
  {
    if |cars| == 0 then []
    else
      var pre := cars[..|cars| - 1];
      var acc := Dedup(pre, existing);
      DedupStepIds(acc, cars[|cars| - 1], existing);
      assert Ids(cars) == Ids(pre) + [cars[|cars| - 1].id];
      DedupStep(acc, cars[|cars| - 1], existing)
  }

  lemma {:induction false} DedupStepIds(acc: seq<Car>, car: Car, existing: seq<Car>)
    requires DistinctIds(acc)
    ensures var r := DedupStep(acc, car, existing);
      DistinctIds(r) && IdSet(r) == IdSet(acc) + {car.id} && |r| <= |acc| + 1
  {
    var r := DedupStep(acc, car, existing);
    IndexOfFound(acc, car.id);
    if IndexOf(acc, car.id) < |acc| {
      assert Ids(r) == Ids(acc);
    } else {
      assert Ids(r) == Ids(acc) + [car.id];
    }
  }

  /** Index `j` holds the first occurrence of the greatest `last_seen` among the cars sharing its id. */
  ghost predicate FirstLatest(cars: seq<Car>, j: int)
    requires 0 <= j < |cars|
  {
    forall i :: 0 <= i < |cars| && cars[i].id == cars[j].id ==>
      && (i < j ==> LexLess(cars[i].timestamps.lastSeen, cars[j].timestamps.lastSeen))
      && (j < i ==> !LexLess(cars[j].timestamps.lastSeen, cars[i].timestamps.lastSeen))
  }

  /** The `first_seen` the surviving car of an id carries. */
  function InheritedFirstSeen(cars: seq<Car>, existing: seq<Car>, id: string): string {
    match Lookup(existing, id)
    case Some(prior) => prior.timestamps.firstSeen
    case None =>
      var j := IndexOf(cars, id);
      if j < |cars| then cars[j].timestamps.firstSeen else ""
  }

  /** `c` is the input car with the latest `last_seen` for its id, carrying the inherited `first_seen`. */
  ghost predicate Survivor(cars: seq<Car>, existing: seq<Car>, c: Car) {
    exists j :: 0 <= j < |cars| && cars[j].id == c.id && FirstLatest(cars, j)
      && c == WithFirstSeen(cars[j], InheritedFirstSeen(cars, existing, c.id))
  }

  /** Extending the batch with a car of a different id keeps every survivor a survivor. */
  lemma {:induction false} SurvivorExtend(cars: seq<Car>, pre: seq<Car>, existing: seq<Car>, c: Car)
    requires |cars| > 0 && pre == cars[..|cars| - 1] && cars[|cars| - 1].id != c.id
    requires Survivor(pre, existing, c)
    ensures Survivor(cars, existing, c)
  {
    var j :| 0 <= j < |pre| && pre[j].id == c.id && FirstLatest(pre, j)
      && c == WithFirstSeen(pre[j], InheritedFirstSeen(pre, existing, c.id));
    InheritedPrefix(cars, pre, existing, c.id, j);
    assert pre[j] == cars[j];
    FirstLatestExtend(cars, pre, j);
  }

  /** The inherited `first_seen` of an id that occurs in a prefix is the prefix's. */
  lemma InheritedPrefix(cars: seq<Car>, pre: seq<Car>, existing: seq<Car>, id: string, j: nat)
    requires |pre| <= |cars| && pre == cars[..|pre|] && j < |pre| && pre[j].id == id
    ensures InheritedFirstSeen(cars, existing, id) == InheritedFirstSeen(pre, existing, id)
  {
    assert IndexOf(pre, id) <= j;
    IndexOfPrefix(cars, pre, id);
    var i := IndexOf(cars, id);
    assert pre[i] == cars[i];
  }

  /** A latest-`last_seen` index stays one when the next car does not beat it. */
  lemma {:induction false} FirstLatestExtend(cars: seq<Car>, pre: seq<Car>, j: nat)
    requires |cars| > 0 && pre == cars[..|cars| - 1] && j < |pre|
    requires FirstLatest(pre, j)
    requires cars[|cars| - 1].id == cars[j].id ==>
      !LexLess(cars[j].timestamps.lastSeen, cars[|cars| - 1].timestamps.lastSeen)
    ensures FirstLatest(cars, j)
  {
    forall i | 0 <= i < |cars| && cars[i].id == cars[j].id
      ensures i < j ==> LexLess(cars[i].timestamps.lastSeen, cars[j].timestamps.lastSeen)
      ensures j < i ==> !LexLess(cars[j].timestamps.lastSeen, cars[i].timestamps.lastSeen)
    {
      if i < |pre| {
        assert pre[i] == cars[i] && pre[j] == cars[j];
      }
    }
  }

  /** The kept car of an id survives a later duplicate that is not strictly newer. */
  lemma {:induction false} SurvivorKept(cars: seq<Car>, pre: seq<Car>, existing: seq<Car>, w: Car)
    requires |cars| > 0 && pre == cars[..|cars| - 1] && w.id == cars[|cars| - 1].id
    requires Survivor(pre, existing, w)
    requires !LexLess(w.timestamps.lastSeen, cars[|cars| - 1].timestamps.lastSeen)
    ensures Survivor(cars, existing, w)
  {
    var j :| 0 <= j < |pre| && pre[j].id == w.id && FirstLatest(pre, j)
      && w == WithFirstSeen(pre[j], InheritedFirstSeen(pre, existing, w.id));
    InheritedPrefix(cars, pre, existing, w.id, j);
    assert pre[j] == cars[j];
    FirstLatestExtend(cars, pre, j);
  }

  /** A strictly newer duplicate replaces the kept car and inherits its `first_seen`. */
  lemma {:induction false} SurvivorReplaced(cars: seq<Car>, pre: seq<Car>, existing: seq<Car>, w: Car)
    requires |cars| > 0 && pre == cars[..|cars| - 1] && w.id == cars[|cars| - 1].id
    requires Survivor(pre, existing, w)
    requires LexLess(w.timestamps.lastSeen, cars[|cars| - 1].timestamps.lastSeen)
    ensures Survivor(cars, existing, WithFirstSeen(cars[|cars| - 1], w.timestamps.firstSeen))
  {
    var j :| 0 <= j < |pre| && pre[j].id == w.id && FirstLatest(pre, j)
      && w == WithFirstSeen(pre[j], InheritedFirstSeen(pre, existing, w.id));
    InheritedPrefix(cars, pre, existing, w.id, j);
    assert pre[j] == cars[j];
    NewLatest(cars, pre, j);
  }

  /** The first occurrence of an id is appended, with the prior `first_seen` if the id was known. */
  lemma {:induction false} SurvivorAppended(cars: seq<Car>, pre: seq<Car>, existing: seq<Car>)
    requires |cars| > 0 && pre == cars[..|cars| - 1] && cars[|cars| - 1].id !in IdSet(pre)
    ensures Survivor(cars, existing, AppendedCar(cars[|cars| - 1], existing))
  {
    var n := |cars| - 1;
    var car := cars[n];
    assert forall i :: 0 <= i < n ==> cars[i].id != car.id by {
      forall i | 0 <= i < n ensures cars[i].id != car.id {
        assert Ids(pre)[i] == cars[i].id;
      }
    }
    assert IndexOf(cars, car.id) == n;
    assert FirstLatest(cars, n);
    assert car == WithFirstSeen(car, car.timestamps.firstSeen);
  }

  /** The car a first occurrence of an id is appended as. */
  function AppendedCar(car: Car, existing: seq<Car>): Car {
    match Lookup(existing, car.id)
    case Some(prior) => WithFirstSeen(car, prior.timestamps.firstSeen)
    case None => car
  }

  ghost predicate AllSurvive(cars: seq<Car>, existing: seq<Car>) {
    forall k :: 0 <= k < |Dedup(cars, existing)| ==> Survivor(cars, existing, Dedup(cars, existing)[k])
  }

  /** The `k`-th car of a deduplicated batch, given that the batch without its last car behaves. */
  lemma {:induction false} SurvivorAt(cars: seq<Car>, existing: seq<Car>, k: nat)
    requires |cars| > 0
    requires AllSurvive(cars[..|cars| - 1], existing)
    requires k < |Dedup(cars, existing)|
    ensures Survivor(cars, existing, Dedup(cars, existing)[k])
  {
    var pre := cars[..|cars| - 1];
    var acc := Dedup(pre, existing);
    assert Dedup(cars, existing) == DedupStep(acc, cars[|cars| - 1], existing);
    SurvivorStep(cars, pre, existing, acc, k);
  }

  /** One iteration of the loop keeps every output car a survivor. */
  lemma {:induction false} SurvivorStep(cars: seq<Car>, pre: seq<Car>, existing: seq<Car>, acc: seq<Car>, k: nat)
    requires |cars| > 0 && pre == cars[..|cars| - 1]
    requires DistinctIds(acc) && IdSet(acc) == IdSet(pre)
    requires forall i :: 0 <= i < |acc| ==> Survivor(pre, existing, acc[i])
    requires k < |DedupStep(acc, cars[|cars| - 1], existing)|
    ensures Survivor(cars, existing, DedupStep(acc, cars[|cars| - 1], existing)[k])
  {
    var car := cars[|cars| - 1];
    var r := DedupStep(acc, car, existing);
    var p := IndexOf(acc, car.id);
    IndexOfFound(acc, car.id);
    if k < |acc| && acc[k].id != car.id {
      assert r[k] == acc[k];
      SurvivorExtend(cars, pre, existing, acc[k]);
    } else if k < |acc| {
      assert k == p by {
        assert Ids(acc)[k] == Ids(acc)[p];
      }
      if LexLess(acc[p].timestamps.lastSeen, car.timestamps.lastSeen) {
        assert r[k] == WithFirstSeen(car, acc[p].timestamps.firstSeen);
        SurvivorReplaced(cars, pre, existing, acc[p]);
      } else {
        assert r[k] == acc[p];
        SurvivorKept(cars, pre, existing, acc[p]);
      }
    } else {
      assert p == |acc| && k == |acc|;
      assert r[k] == AppendedCar(car, existing);
      SurvivorAppended(cars, pre, existing);
    }
  }

  /**
   * Conflict resolution of `deduplicate_cars`: every output car is, apart from
   * `first_seen`, the input car of its id with the greatest `last_seen` (the
   * earliest such one on ties); its `first_seen` is the prior inventory's when
   * the id was known before, else that of the id's first occurrence.
   */
  lemma {:induction false} DedupSurvivors(cars: seq<Car>, existing: seq<Car>)
    ensures AllSurvive(cars, existing)
    decreases |cars|
  {
    if |cars| > 0 {
      DedupSurvivors(cars[..|cars| - 1], existing);
      forall k | 0 <= k < |Dedup(cars, existing)| ensures Survivor(cars, existing, Dedup(cars, existing)[k]) {
        SurvivorAt(cars, existing, k);
      }
    }
  }

  /** A strictly later `last_seen` at the end of the batch beats the previous latest of its id. */
  lemma {:induction false} NewLatest(cars: seq<Car>, pre: seq<Car>, j: nat)
    requires |cars| > 0 && pre == cars[..|cars| - 1] && j < |pre|
    requires cars[j].id == cars[|cars| - 1].id
    requires FirstLatest(pre, j)
    requires LexLess(cars[j].timestamps.lastSeen, cars[|cars| - 1].timestamps.lastSeen)
    ensures FirstLatest(cars, |cars| - 1)
  {
    var n := |cars| - 1;
    var top := cars[n].timestamps.lastSeen;
    forall i | 0 <= i < n && cars[i].id == cars[n].id
      ensures LexLess(cars[i].timestamps.lastSeen, top)
    {
      assert pre[i] == cars[i] && pre[j] == cars[j];
      var si, sj := cars[i].timestamps.lastSeen, cars[j].timestamps.lastSeen;
      if i < j {
        LexLessTransitive(si, sj, top);
      } else if j < i {
        if si != sj {
          LexLessTotal(si, sj);
          LexLessTransitive(si, sj, top);
        }
      }
    }
  }

  /** Where the ids of a deduplicated batch first occur in the input. */
  lemma {:induction false} DedupFirstIndex(cars: seq<Car>, pre: seq<Car>, existing: seq<Car>, acc: seq<Car>, k: nat)
    requires |cars| > 0 && pre == cars[..|cars| - 1] && acc == Dedup(pre, existing)
    requires k < |Dedup(cars, existing)|
    ensures k < |acc| ==> IndexOf(cars, Dedup(cars, existing)[k].id) == IndexOf(pre, acc[k].id) < |pre|
    ensures k >= |acc| ==> IndexOf(cars, Dedup(cars, existing)[k].id) == |pre|
  {
    assert Dedup(cars, existing) == DedupStep(acc, cars[|cars| - 1], existing);
    FirstIndexStep(cars, pre, existing, acc, k);
  }

  /** One iteration of the loop keeps the first-occurrence positions of the ids. */
  lemma {:induction false} FirstIndexStep(cars: seq<Car>, pre: seq<Car>, existing: seq<Car>, acc: seq<Car>, k: nat)
    requires |cars| > 0 && pre == cars[..|cars| - 1]
    requires DistinctIds(acc) && IdSet(acc) == IdSet(pre)
    requires k < |DedupStep(acc, cars[|cars| - 1], existing)|
    ensures var r := DedupStep(acc, cars[|cars| - 1], existing);
      && (k < |acc| ==> IndexOf(cars, r[k].id) == IndexOf(pre, acc[k].id) < |pre|)
      && (k >= |acc| ==> IndexOf(cars, r[k].id) == |pre|)
  {
    var car := cars[|cars| - 1];
    var r := DedupStep(acc, car, existing);
    IndexOfFound(acc, car.id);
    if k < |acc| {
      assert r[k].id == acc[k].id;
      assert acc[k].id in IdSet(pre) by {
        assert Ids(acc)[k] == acc[k].id;
      }
      IndexOfFound(pre, acc[k].id);
      IndexOfPrefix(cars, pre, acc[k].id);
    } else {
      assert r[k].id == car.id;
      IndexOfFound(pre, car.id);
      assert IndexOf(cars, car.id) == |pre| by {
        assert forall i :: 0 <= i < |pre| ==> pre[i] == cars[i];
      }
    }
  }

  /** Order of first occurrence: output ids are sorted by where each id first appears in the input. */
  lemma {:induction false} DedupFirstOccurrenceOrder(cars: seq<Car>, existing: seq<Car>)
    ensures forall a, b :: 0 <= a < b < |Dedup(cars, existing)| ==>
      IndexOf(cars, Dedup(cars, existing)[a].id) < IndexOf(cars, Dedup(cars, existing)[b].id)
    decreases |cars|
  {
    if |cars| > 0 {
      var pre := cars[..|cars| - 1];
      var acc := Dedup(pre, existing);
      var r := Dedup(cars, existing);
      DedupFirstOccurrenceOrder(pre, existing);
      forall a, b | 0 <= a < b < |r| ensures IndexOf(cars, r[a].id) < IndexOf(cars, r[b].id) {
        DedupFirstIndex(cars, pre, existing, acc, a);
        DedupFirstIndex(cars, pre, existing, acc, b);
      }
    }
  }

  /** A batch that is already free of duplicates and agrees with the prior `first_seen`s is a fixed point. */
  lemma {:induction false} DedupFixedPoint(cars: seq<Car>, existing: seq<Car>)
    requires DistinctIds(cars)
    requires forall c :: c in cars && Lookup(existing, c.id).Some? ==>
      c.timestamps.firstSeen == Lookup(existing, c.id).value.timestamps.firstSeen
    ensures Dedup(cars, existing) == cars
    decreases |cars|
  {
    if |cars| > 0 {
      var n := |cars| - 1;
      var pre := cars[..n];
      assert Ids(pre) == Ids(cars)[..n];
      assert forall c :: c in pre ==> c in cars;
      DedupFixedPoint(pre, existing);
      assert cars[n].id !in IdSet(pre) by {
        forall i | 0 <= i < n ensures Ids(pre)[i] != cars[n].id {
          assert Ids(cars)[i] != Ids(cars)[n];
        }
      }
      assert cars[n] in cars;
      StepAppendsFresh(pre, cars[n], existing);
      SplitLast(cars);
    }
  }

  /** A car with a new id and the prior `first_seen` is appended unchanged. */
  lemma StepAppendsFresh(acc: seq<Car>, car: Car, existing: seq<Car>)
    requires car.id !in IdSet(acc)
    requires Lookup(existing, car.id).Some? ==>
      car.timestamps.firstSeen == Lookup(existing, car.id).value.timestamps.firstSeen
    ensures DedupStep(acc, car, existing) == acc + [car]
  {
    IndexOfFound(acc, car.id);
    if Lookup(existing, car.id).Some? {
      assert WithFirstSeen(car, car.timestamps.firstSeen) == car;
    }
  }

  /** Deduplication is idempotent: deduplicating its output again changes nothing. */
  lemma {:induction false} DedupIdempotent(cars: seq<Car>, existing: seq<Car>)
    ensures Dedup(Dedup(cars, existing), existing) == Dedup(cars, existing)
  {
    var r := Dedup(cars, existing);
    DedupSurvivors(cars, existing);
    forall c | c in r && Lookup(existing, c.id).Some?
      ensures c.timestamps.firstSeen == Lookup(existing, c.id).value.timestamps.firstSeen
    {
      var k :| 0 <= k < |r| && r[k] == c;
      assert Survivor(cars, existing, r[k]);
    }
    DedupFixedPoint(r, existing);
  }

  /**
   * `merge_with_existing` without its age test: all new cars, then the prior
   * cars whose id is not among them and which `keepStale` (the age check,
   * not modelled) retains, in their original order and with every copy kept.
   */
  function MergeWithExisting(newCars: seq<Car>, existingCars: seq<Car>, keepStale: Car -> bool): (r: seq<Car>)
    ensures |r| >= |newCars| && r[..|newCars|] == newCars
    ensures Sublist(r[|newCars|..], existingCars)
    ensures forall c :: c in r[|newCars|..] ==> c.id !in IdSet(newCars) && keepStale(c)
    ensures forall c :: c in existingCars && c.id !in IdSet(newCars) && keepStale(c) ==> c in r
    ensures forall c ::
      multiset(r[|newCars|..])[c] == if c.id !in IdSet(newCars) && keepStale(c) then multiset(existingCars)[c] else 0
  {
    var newIds := IdSet(newCars);
    var rest := Filter(existingCars, (c: Car) => c.id !in newIds && keepStale(c));
    FilterIsSublist(existingCars, (c: Car) => c.id !in newIds && keepStale(c));
    FilterCount(existingCars, (c: Car) => c.id !in newIds && keepStale(c));
    assert (newCars + rest)[|newCars|..] == rest;
    newCars + rest
  }
}
