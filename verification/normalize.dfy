/**
 * Identity resolution, normalization of one raw candidate and the
 * post-normalization sanity check (scripts/normalize.py).
 *
 * SHA-1 and Python's `str(float)` are not modelled: they are passed in as
 * `sha1Hex` (the lower-case hex digest of a string) and `floatStr`.
 */
module Normalize {
  import opened Wrappers
  import opened Text
  import opened Models

  // ---------------------------------------------------------------------------
  // Identity
  // ---------------------------------------------------------------------------

  /** `raw.vin and len(raw.vin.strip()) > 0` */
  predicate HasUsableVin(raw: RawCar) {
    raw.vin.Some? && Strip(raw.vin.value) != ""
  }

  /** `str(raw.year or "")`: a missing year and year 0 both render as "". */
  function YearText(year: Option<int>): string {
    if TruthyInt(year) then IntToString(year.value) else ""
  }

  /** `str(raw.price or "")` */
  function PriceText(price: Option<real>, floatStr: real -> string): string {
    if TruthyReal(price) then floatStr(price.value) else ""
  }

  /** The seven fields, in order, that identify a listing without a VIN. */
  function KeyFields(raw: RawCar, floatStr: real -> string): seq<string> {
    [ raw.source, YearText(raw.year), raw.make.GetOr(""), raw.model.GetOr(""),
      raw.trim.GetOr(""), PriceText(raw.price, floatStr), raw.dealerUrl.GetOr("") ]
  }

  /** The hashed text: the key fields joined by "|" and lower-cased. */
  function HashKey(raw: RawCar, floatStr: real -> string): string {
    Lower(Join("|", KeyFields(raw, floatStr)))
  }

  /**
   * `generate_stable_id`: the stripped, upper-cased VIN when there is one,
   * otherwise "hash-" followed by the SHA-1 hex digest of the hash key.
   */
  function StableId(raw: RawCar, sha1Hex: string -> string, floatStr: real -> string): (id: string)
    ensures HasUsableVin(raw) ==> id == Upper(Strip(raw.vin.value))
    ensures !HasUsableVin(raw) ==> id == "hash-" + sha1Hex(HashKey(raw, floatStr))
    ensures id != ""
  {
    if HasUsableVin(raw) then Upper(Strip(raw.vin.value))
    else "hash-" + sha1Hex(HashKey(raw, floatStr))
  }

  /** A VIN-less id is a "hash-" id; a VIN id is the VIN with ASCII letters upper-cased. */
  lemma {:induction false} StableIdShape(raw: RawCar, sha1Hex: string -> string, floatStr: real -> string)
    ensures var id := StableId(raw, sha1Hex, floatStr);
      !HasUsableVin(raw) ==> |id| >= 5 && id[..5] == "hash-"
    ensures var id := StableId(raw, sha1Hex, floatStr);
      HasUsableVin(raw) ==> Upper(id) == id && |id| <= |raw.vin.value|
  {
    var id := StableId(raw, sha1Hex, floatStr);
    if HasUsableVin(raw) {
      UpperIdempotent(Strip(raw.vin.value));
    } else {
      assert id == "hash-" + sha1Hex(HashKey(raw, floatStr));
      assert id[..5] == "hash-";
    }
  }

  lemma {:induction false} UpperIdempotent(s: string)
    ensures Upper(Upper(s)) == Upper(s)
  {
    var u := Upper(s);
    assert forall i :: 0 <= i < |u| ==> UpperChar(u[i]) == u[i];
  }

  lemma {:induction false} LowerAppend(a: string, b: string)
    ensures Lower(a + b) == Lower(a) + Lower(b)
  {
    assert forall i :: 0 <= i < |a + b| ==>
      Lower(a + b)[i] == (if i < |a| then Lower(a)[i] else Lower(b)[i - |a|]);
  }

  /** Lower-casing a joined text is joining the lower-cased parts. */
  lemma {:induction false} LowerJoin(sep: string, parts: seq<string>)
    ensures Lower(Join(sep, parts)) == Join(Lower(sep), seq(|parts|, i requires 0 <= i < |parts| => Lower(parts[i])))
    decreases |parts|
  {
    var lp := seq(|parts|, i requires 0 <= i < |parts| => Lower(parts[i]));
    if |parts| > 1 {
      var init := parts[..|parts| - 1];
      LowerJoin(sep, init);
      assert lp[..|lp| - 1] == seq(|init|, i requires 0 <= i < |init| => Lower(init[i]));
      LowerAppend(Join(sep, init) + sep, parts[|parts| - 1]);
      LowerAppend(Join(sep, init), sep);
    }
  }

  /**
   * Identity determinism: without a usable VIN the id depends only on the key
   * fields, up to ASCII case; every other field (mileage, dealer name, ...)
   * is irrelevant.
   */
  lemma {:induction false} StableIdDeterministic(a: RawCar, b: RawCar, sha1Hex: string -> string, floatStr: real -> string)
    requires !HasUsableVin(a) && !HasUsableVin(b)
    requires forall i :: 0 <= i < 7 ==> Lower(KeyFields(a, floatStr)[i]) == Lower(KeyFields(b, floatStr)[i])
    ensures StableId(a, sha1Hex, floatStr) == StableId(b, sha1Hex, floatStr)
  {
    var ka, kb := KeyFields(a, floatStr), KeyFields(b, floatStr);
    LowerJoin("|", ka);
    LowerJoin("|", kb);
    assert seq(|ka|, i requires 0 <= i < |ka| => Lower(ka[i])) == seq(|kb|, i requires 0 <= i < |kb| => Lower(kb[i]));
  }

  /** VIN priority: a usable VIN decides the id, whatever the other fields hold. */
  lemma {:induction false} VinPriority(a: RawCar, b: RawCar, sha1Hex: string -> string, floatStr: real -> string)
    requires HasUsableVin(a) && a.vin == b.vin
    ensures StableId(a, sha1Hex, floatStr) == StableId(b, sha1Hex, floatStr)
    ensures StableId(a, sha1Hex, floatStr) == Upper(Strip(a.vin.value))
  {
  }

  lemma {:induction false} StripUnpadded(s: string)
    requires s != "" && !IsSpace(s[0]) && !IsSpace(s[|s| - 1])
    ensures Strip(s) == s
  {
    assert SkipSpaces(s, 0) == 0;
    assert BackSpaces(s, 0, |s|) == |s|;
    assert s[0..|s|] == s;
  }

  /** The worked example: VIN "1hgcm82633a004352" resolves to "1HGCM82633A004352". */
  lemma VinExample(raw: RawCar, sha1Hex: string -> string, floatStr: real -> string)
    requires raw.vin == Some("1hgcm82633a004352")
    ensures StableId(raw, sha1Hex, floatStr) == "1HGCM82633A004352"
  {
    var v := "1hgcm82633a004352";
    StripUnpadded(v);
    assert HasUsableVin(raw);
    assert Upper(v) == "1HGCM82633A004352";
  }

  // ---------------------------------------------------------------------------
  // Normalization
  // ---------------------------------------------------------------------------

  /** `(raw.condition or "used").lower()` */
  function ConditionText(condition: Option<string>): string {
    if Truthy(condition) then Lower(condition.value) else "used"
  }

  /** Canonical condition: a recognised name after lower-casing, else "used". Never rejected. */
  function CanonicalCondition(condition: Option<string>): (c: Condition)
    ensures ConditionText(condition) in ["new", "used", "certified"] ==> ConditionName(c) == ConditionText(condition)
    ensures ConditionText(condition) !in ["new", "used", "certified"] ==> c == Used
  {
    var s := ConditionText(condition);
    if s == "new" then Condition.New
    else if s == "certified" then Certified
    else Used
  }

  /** Every canonical condition's name, in any ASCII case, maps back to it. */
  lemma {:induction false} ConditionRoundTrip(c: Condition)
    ensures CanonicalCondition(Some(ConditionName(c))) == c
    ensures CanonicalCondition(Some(Upper(ConditionName(c)))) == c
  {
    assert Lower("new") == "new" && Lower("used") == "used" && Lower("certified") == "certified";
    assert Lower(Upper("new")) == "new";
    assert Lower(Upper("used")) == "used";
    assert Lower(Upper("certified")) == "certified";
  }

  /** `" ".join([str(year), make, model] + ([trim] if trim else []))` */
  function Title(year: int, make: string, model: string, trim: Option<string>): (t: string)
    ensures Truthy(trim) ==> t == IntToString(year) + " " + make + " " + model + " " + trim.value
    ensures !Truthy(trim) ==> t == IntToString(year) + " " + make + " " + model
  {
    var parts := [IntToString(year), make, model];
    assert parts[..2][..1] == [IntToString(year)];
    assert Join(" ", parts[..2]) == IntToString(year) + " " + make;
    assert Join(" ", parts) == IntToString(year) + " " + make + " " + model;
    if Truthy(trim) then
      assert (parts + [trim.value])[..3] == parts;
      Join(" ", parts + [trim.value])
    else Join(" ", parts)
  }

  /** Why `normalize_car` raised. */
  datatype NormalizeError =
    | MissingYear
    | MissingMake
    | MissingModel
    | InvalidPrice
    | MissingDealerUrl
    | Rejected(field: FieldError)

  /** The five required-field checks `normalize_car` makes before building the car. */
  predicate HasRequiredFields(raw: RawCar) {
    && TruthyInt(raw.year)
    && Truthy(raw.make)
    && Truthy(raw.model)
    && raw.price.Some? && raw.price.value > 0.0
    && Truthy(raw.dealerUrl)
  }

  /** `existing_car and existing_car.id == vehicle_id` */
  predicate SeenAgain(existing: Option<Car>, id: string) {
    existing.Some? && existing.value.id == id
  }

  /** The car `normalize_car` builds once the required fields are present. */
  function Build(raw: RawCar, existing: Option<Car>, now: string, sha1Hex: string -> string, floatStr: real -> string): Car
    requires HasRequiredFields(raw)
  {
    var id := StableId(raw, sha1Hex, floatStr);
    var firstSeen := if SeenAgain(existing, id) then existing.value.timestamps.firstSeen else now;
    Car(
      id := id,
      vin := raw.vin,
      source := raw.source,
      title := Title(raw.year.value, raw.make.value, raw.model.value, raw.trim),
      year := raw.year.value,
      make := raw.make.value,
      model := raw.model.value,
      trim := raw.trim,
      condition := CanonicalCondition(raw.condition),
      price := raw.price.value,
      mileage := raw.mileage.GetOr(0),
      distanceMiles := raw.distanceMiles.GetOr(0.0),
      dealer := DealerInfo(
        if Truthy(raw.dealerName) then raw.dealerName.value else "Unknown Dealer",
        raw.dealerPhone,
        raw.dealerUrl.value),
      media := MediaInfo(raw.thumbnailUrl),
      timestamps := Timestamps(firstSeen, now),
      finance := PlaceholderFinance(),
      priceTrend := DefaultTrend(),
      daysToLive := 3,
      expiredAt := None)
  }

  /**
   * The fields `normalize_car` takes over from the listing: the optional ones
   * as they are, mileage and distance defaulting to zero, and a missing or
   * empty dealer name replaced by "Unknown Dealer".
   */
  predicate CopiesListing(c: Car, raw: RawCar) {
    && raw.year.Some? && raw.make.Some? && raw.model.Some? && raw.dealerUrl.Some?
    && c.vin == raw.vin && c.source == raw.source
    && c.year == raw.year.value && c.make == raw.make.value && c.model == raw.model.value
    && c.trim == raw.trim
    && c.mileage == raw.mileage.GetOr(0) && c.distanceMiles == raw.distanceMiles.GetOr(0.0)
    && c.dealer.name == (if Truthy(raw.dealerName) then raw.dealerName.value else "Unknown Dealer")
    && c.dealer.phone == raw.dealerPhone && c.dealer.url == raw.dealerUrl.value
    && c.media == MediaInfo(raw.thumbnailUrl)
  }

  /**
   * `normalize_car(raw, existing_car)` with `datetime.now()` read as `now`.
   * Fails on a missing required field, and also when the constructed car
   * fails a field validator (year out of range, negative mileage).
   */
  function NormalizeCar(
    raw: RawCar, existing: Option<Car>, now: string, currentYear: int,
    sha1Hex: string -> string, floatStr: real -> string): (r: Result<Car, NormalizeError>)
    ensures r.Ok? <==>
      HasRequiredFields(raw) && YearInRange(raw.year.value, currentYear) && raw.mileage.GetOr(0) >= 0
    ensures !TruthyInt(raw.year) ==> r == Err(MissingYear)
    ensures TruthyInt(raw.year) && !Truthy(raw.make) ==> r == Err(MissingMake)
    ensures r.Ok? ==>
      var c := r.value;
      && c.id == StableId(raw, sha1Hex, floatStr)
      && c.price == raw.price.value && c.price > 0.0
      && c.timestamps.lastSeen == now
      && c.timestamps.firstSeen == (if SeenAgain(existing, c.id) then existing.value.timestamps.firstSeen else now)
      && c.daysToLive == 3 && c.expiredAt == None
      && c.priceTrend == DefaultTrend() && c.finance == PlaceholderFinance()
      && c.condition == CanonicalCondition(raw.condition)
      && c.title == Title(raw.year.value, raw.make.value, raw.model.value, raw.trim)
    ensures r.Ok? ==> CopiesListing(r.value, raw)
  {
    if !TruthyInt(raw.year) then Err(MissingYear)
    else if !Truthy(raw.make) then Err(MissingMake)
    else if !Truthy(raw.model) then Err(MissingModel)
    else if !TruthyReal(raw.price) || raw.price.value <= 0.0 then Err(InvalidPrice)
    else if !Truthy(raw.dealerUrl) then Err(MissingDealerUrl)
    else
      match CheckFields(Build(raw, existing, now, sha1Hex, floatStr), currentYear)
      case Ok(c) => Ok(c)
      case Err(e) => Err(Rejected(e))
  }

  /**
   * `validate_normalized_car`, with `datetime.now().year` read as
   * `currentYear`: the checks in source order, the first failing one
   * answering false. It accepts exactly the cars that pass the model's field
   * validators and additionally have a positive price and non-empty id,
   * source, make, model and dealer URL.
   */
  function ValidateCar(car: Car, currentYear: int): (ok: bool)
    ensures ok <==>
      && CheckFields(car, currentYear).Ok?
      && car.price != 0.0
      && car.id != "" && car.source != "" && car.make != "" && car.model != ""
      && car.dealer.url != ""
  {
    if car.id == "" then false
    else if car.source == "" then false
    else if car.year < 1900 || car.year > currentYear + 2 then false
    else if car.make == "" || car.model == "" then false
    else if car.price <= 0.0 then false
    else if car.mileage < 0 then false
    else car.dealer.url != ""
  }

  /**
   * The re-check after normalization rejects a normalized car exactly when its
   * raw source tag was empty: every other condition is already guaranteed.
   */
  lemma {:induction false} ValidateAfterNormalize(
    raw: RawCar, existing: Option<Car>, now: string, currentYear: int,
    sha1Hex: string -> string, floatStr: real -> string)
    requires NormalizeCar(raw, existing, now, currentYear, sha1Hex, floatStr).Ok?
    ensures ValidateCar(NormalizeCar(raw, existing, now, currentYear, sha1Hex, floatStr).value, currentYear)
      <==> raw.source != ""
  {
    var c := NormalizeCar(raw, existing, now, currentYear, sha1Hex, floatStr).value;
    assert c == Build(raw, existing, now, sha1Hex, floatStr);
  }

  /** Every car `validate_normalized_car` accepts also passes the model's field validators. */
  lemma {:induction false} ValidateImpliesFieldChecks(car: Car, currentYear: int)
    requires ValidateCar(car, currentYear)
    ensures CheckFields(car, currentYear) == Ok(car)
  {
  }

  /** ...but not conversely: the validators accept a price of 0, the re-check does not. */
  lemma ZeroPriceOnlyPassesFieldChecks(car: Car, currentYear: int)
    requires YearInRange(car.year, currentYear) && car.mileage >= 0 && car.price == 0.0
    ensures CheckFields(car, currentYear).Ok? && !ValidateCar(car, currentYear)
  {
  }
}
