/**
 * The records the pipeline passes between its stages (scripts/models.py) and
 * the field validators that run whenever a normalized car is constructed.
 * Python floats are modelled as `real`, ISO 8601 timestamps as opaque strings.
 */
module Models {
  import opened Wrappers

  /** `Literal["new", "used", "certified"]` */
  datatype Condition = New | Used | Certified

  function ConditionName(c: Condition): string {
    match c
    case New => "new"
    case Used => "used"
    case Certified => "certified"
  }

  /** `Literal["up", "down", "flat", "new"]` */
  datatype Direction = Up | Down | Flat | New

  /** Finance parameters from the application configuration. */
  datatype FinanceConfig = FinanceConfig(
    aprPercent: real,
    termMonths: int,
    docFees: real,
    ttlPercentOfPrice: real)

  datatype FinanceAssumptions = FinanceAssumptions(
    aprPercent: real,
    termMonths: int,
    ttlPercentOfPrice: real,
    docFees: real)

  datatype FinanceInfo = FinanceInfo(
    estDown: real,
    estMonthly: real,
    assumptions: FinanceAssumptions)

  /** Price movement since the latest history run; `delta` is an absolute amount. */
  datatype PriceTrend = PriceTrend(
    direction: Direction,
    delta: real,
    prevPrice: Option<real>,
    lastChangeAt: Option<string>)

  datatype DealerInfo = DealerInfo(name: string, phone: Option<string>, url: string)

  datatype MediaInfo = MediaInfo(thumbnail: Option<string>)

  datatype Timestamps = Timestamps(firstSeen: string, lastSeen: string)

  /**
   * A normalized car. `daysToLive` and `expiredAt` are the liveness fields the
   * pipeline reads and writes; the Python class does not declare them.
   */
  datatype Car = Car(
    id: string,
    vin: Option<string>,
    source: string,
    title: string,
    year: int,
    make: string,
    model: string,
    trim: Option<string>,
    condition: Condition,
    price: real,
    mileage: int,
    distanceMiles: real,
    dealer: DealerInfo,
    media: MediaInfo,
    timestamps: Timestamps,
    finance: FinanceInfo,
    priceTrend: PriceTrend,
    daysToLive: int,
    expiredAt: Option<string>)

  /** Raw candidate from a source: only `source` is required. */
  datatype RawCar = RawCar(
    vin: Option<string>,
    source: string,
    title: Option<string>,
    year: Option<int>,
    make: Option<string>,
    model: Option<string>,
    trim: Option<string>,
    condition: Option<string>,
    price: Option<real>,
    mileage: Option<int>,
    distanceMiles: Option<real>,
    dealerName: Option<string>,
    dealerPhone: Option<string>,
    dealerUrl: Option<string>,
    thumbnailUrl: Option<string>)

  datatype HistoryItem = HistoryItem(id: string, price: real)

  datatype HistoryRun = HistoryRun(generatedAt: string, items: seq<HistoryItem>)

  /** Chronological list of runs, oldest first. */
  datatype History = History(runs: seq<HistoryRun>)

  /** Snapshot written each run. */
  datatype Inventory = Inventory(
    generatedAt: string,
    zip: string,
    radiusMiles: int,
    items: seq<Car>)

  /**
   * Search filters. `allowedConditions` holds the condition strings the
   * configuration may list ("new", "used", "certified"); `excludeModels` is
   * declared but never consulted.
   */
  datatype Filters = Filters(
    minYear: int,
    maxMileage: int,
    allowedConditions: seq<string>,
    includeMakes: seq<string>,
    excludeModels: seq<string>)

  /** Python truthiness of an optional string: present and non-empty. */
  predicate Truthy(s: Option<string>) {
    s.Some? && s.value != ""
  }

  /** Python truthiness of an optional number: present and non-zero. */
  predicate TruthyInt(n: Option<int>) {
    n.Some? && n.value != 0
  }

  predicate TruthyReal(x: Option<real>) {
    x.Some? && x.value != 0.0
  }

  /** The trend a freshly constructed car carries. */
  function DefaultTrend(): PriceTrend {
    PriceTrend(Direction.New, 0.0, None, None)
  }

  /** The finance block a car carries until the budget filter fills it in. */
  function PlaceholderFinance(): FinanceInfo {
    FinanceInfo(0.0, 0.0, FinanceAssumptions(0.0, 0, 0.0, 0.0))
  }

  /** Which field validator of `NormalizedCar` refused a value. */
  datatype FieldError = YearOutOfRange | NegativePrice | NegativeMileage

  predicate YearInRange(year: int, currentYear: int) {
    1900 <= year <= currentYear + 2
  }

  /**
   * The field validators that run when a `NormalizedCar` is constructed:
   * the year must lie in [1900, currentYear + 2], and price and mileage must
   * not be negative (zero is accepted). `currentYear` is the clock's year.
   */
  function CheckFields(c: Car, currentYear: int): (r: Result<Car, FieldError>)
    ensures r.Ok? ==> r.value == c
    ensures r.Ok? <==> YearInRange(c.year, currentYear) && c.price >= 0.0 && c.mileage >= 0
    ensures r.Err? && !YearInRange(c.year, currentYear) ==> r.error == YearOutOfRange
  {
    if c.year < 1900 || c.year > currentYear + 2 then Err(YearOutOfRange)
    else if c.price < 0.0 then Err(NegativePrice)
    else if c.mileage < 0 then Err(NegativeMileage)
    else Ok(c)
  }
}
