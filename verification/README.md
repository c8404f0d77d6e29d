# AutoFinder core, modelled in Dafny

AutoFinder collects used-car listings around a ZIP code from several sources.
It normalizes each listing into a canonical record with a stable id and
deduplicates the batch against the previous inventory. Prior records that
were not seen again count down a few runs before they are marked expired.
Each vehicle is financed under a configured loan, and only vehicles whose
monthly payment fits the budget are kept. Each kept vehicle gets a
price-trend classification against the latest run of a bounded price-history
ledger, and one snapshot per run is appended to that ledger.

This project models that core as pure functions over immutable datatypes:

| Dafny module | file | what it models |
|---|---|---|
| `Models` | models.dfy | records, enums, optional raw fields and field validators (scripts/models.py) |
| `Normalize` | normalize.dfy | stable ids, `normalize_car`, `validate_normalized_car` (scripts/normalize.py) |
| `Dedup` | dedup.dfy | `deduplicate_cars` and the id-skipping part of `merge_with_existing` (scripts/normalize.py) |
| `PriceTracker` | price_tracker.dfy | price index, trend detection, history snapshot and bounded append, statistics, best deals (scripts/price_tracker.py) |
| `Finance` | finance.dfy | amortized monthly payment, finance info, budget admission (scripts/finance.py) |
| `MockSources` | mock_sources.dfy | the filter chain of `get_mock_vehicles` (scripts/sources/mock_sources.py) |
| `Fetch` | fetch.dfy | the data flow of `run_fetch_pipeline` (scripts/fetch.py) |
| `Text`, `Lists`, `StableSort`, `Wrappers` | text.dfy, lists.dfy, stable_sort.dfy, wrappers.dfy | Python string helpers, list comprehensions, the stable `list.sort`, `Option`/`Result` |

Outside effects are turned into parameters:

- **Clock.** Every `datetime.now()` reading is a parameter. This covers the
  run timestamp, the calendar year, the time read while normalizing each
  candidate and the time read while updating each car's trend. The source
  reads the calendar year again for each candidate (the year validator of
  scripts/models.py:126-132 and the re-check of scripts/normalize.py:276).
  The model uses one `currentYear` for the whole run, which assumes every
  reading within a run falls in the same calendar year.
- **Primitives.** SHA-1 (as lower-case hex), Python's `str(float)` and
  `round(x, 2)` are opaque function parameters.
- **Files and sources.** The prior inventory, the history and the raw
  candidates are inputs; the inventory and history to be saved are outputs.
- **Python exceptions.** Exceptions that the code catches or reports become
  `Result`/`Option` values.
- **The prior inventory.** This is an id-keyed dictionary. It is modelled as
  the sequence of its values in iteration order, with distinct ids.

## Model

| member | source | states |
|---|---|---|
| Normalize.StableId | scripts/normalize.py:22-54 | A VIN that is non-blank after stripping gives `vin.strip().upper()`. Otherwise the id is `"hash-"` followed by the SHA-1 of the lower-cased, `|`-joined key fields. The id is never empty. |
| Normalize.StableIdShape | scripts/normalize.py:38-54 | A hash id starts with `hash-`. A VIN id is already upper case, so upper-casing it again changes nothing. |
| Normalize.StableIdDeterministic | scripts/normalize.py:42-54 | Two VIN-less listings whose seven key fields agree up to lower-casing get the same id. |
| Normalize.VinPriority | scripts/normalize.py:38-39 | Two listings with the same usable VIN get the same id, whatever their other fields. |
| Normalize.VinExample | scripts/normalize.py:38-39 | The VIN `1hgcm82633a004352` yields the id `1HGCM82633A004352`. |
| Normalize.CanonicalCondition | scripts/normalize.py:95-98 | A missing or unknown condition becomes `used`; the known names, in any ASCII case, map to their enum value. |
| Normalize.ConditionRoundTrip | scripts/normalize.py:95-98 | Each condition's name, and its upper-cased name, normalize back to that condition. |
| Normalize.Title | scripts/normalize.py:89-93 | The title is `year make model`, followed by ` trim` only when the trim is non-empty. |
| Normalize.NormalizeCar | scripts/normalize.py:57-160 | Fails exactly when a required field is missing or falsy, the price is not positive, or a field validator rejects the year or mileage; the year and make errors are named. On success: the stable id, `last_seen = now`, `first_seen` carried over from a matching existing car (else `now`), 3 days to live, no expiry, the default trend, placeholder finance, the canonical condition, and the title built from the listing's year, make, model and trim. Every other field is copied from the listing: VIN, source, year, make, model, trim, dealer phone and URL, thumbnail. Mileage and distance default to 0, and a missing or empty dealer name becomes "Unknown Dealer". |
| Normalize.ValidateCar | scripts/normalize.py:258-289 | Accepts exactly the cars that pass the model's field validators (year in range, price and mileage not negative) and also have a positive price and a non-empty id, source, make, model and dealer URL. |
| Normalize.ValidateAfterNormalize | scripts/normalize.py:260-282 | A successfully normalized car fails `validate_normalized_car` exactly when its source tag is empty. |
| Normalize.ValidateImpliesFieldChecks | scripts/normalize.py:260-282 | Every car the re-check accepts also passes the model's field validators. |
| Normalize.ZeroPriceOnlyPassesFieldChecks | scripts/models.py:134-140 | A price of 0 passes the field validators but fails the re-check. |
| Models.CheckFields | scripts/models.py:125-140 | The pydantic validators accept exactly a year in [1900, current year + 2], a non-negative price and a non-negative mileage, and return the record unchanged; a bad year is reported as a year error. |
| Dedup.Lookup | scripts/fetch.py:197 | `existing.get(id)` returns a record with that id from the inventory, and returns none exactly when the id is absent. |
| Dedup.Dedup | scripts/normalize.py:183-204 | The output ids are pairwise distinct, the set of ids equals the input's, and there are no more cars than went in. |
| Dedup.DedupSurvivors | scripts/normalize.py:189-202 | Each output car is the first input car with the greatest `last_seen` (string order) among those sharing its id. Its `first_seen` comes from the first occurrence, or from the prior inventory when the id was already known. |
| Dedup.DedupFirstOccurrenceOrder | scripts/normalize.py:185-204 | Output order is the order of the ids' first occurrences in the input. |
| Dedup.DedupIdempotent | scripts/normalize.py:183-204 | Deduplicating an already deduplicated batch again, against the same prior inventory, changes nothing. |
| Dedup.MergeWithExisting | scripts/normalize.py:233-257 | All new cars come first, unchanged. The rest is an order-preserving sublist of the existing cars whose ids are not among the new ones and which the age test keeps. Every such existing car appears, as many times as it occurs among the existing cars. |
| PriceTracker.BuildPriceIndex | scripts/price_tracker.py:16-38 | An empty history gives the empty map. Otherwise the keys are exactly the ids of the last run, each mapped to the price of its last item in that run. |
| PriceTracker.DetectPriceChange | scripts/price_tracker.py:41-94 | With no previous price: new, delta 0, nothing recorded. Otherwise down, up or flat exactly as the price fell, rose or stayed. The delta is the distance between the two prices, so it is never negative and is 0 when flat. Previous price plus signed delta equals the current price. Only a flat result leaves `last_change_at` empty. |
| PriceTracker.UpdatePriceTrends | scripts/price_tracker.py:97-121 | Same cars, same order, only the trend replaced by the classification against the latest run. A car is `new` exactly when its id is absent from that run. |
| PriceTracker.CreateHistorySnapshot | scripts/price_tracker.py:124-149 | One (id, price) item per car in order, stamped with the given timestamp or else the current time. |
| PriceTracker.AppendToHistory | scripts/price_tracker.py:152-174 | As written: for a positive bound, the result is the last `min(old+1, max_runs)` runs of old-plus-new and ends with the new run. |
| PriceTracker.AppendZeroBoundKeepsEverything | scripts/price_tracker.py:168-174 | As written, a bound of 0 keeps every run, because `runs[-0:]` is the whole list. |
| PriceTracker.AppendBounded | scripts/price_tracker.py:152-174 | The intended ledger: it keeps the last `min(old+1, max(max_runs, 0))` runs of old-plus-new, ending with the new run whenever the bound is positive. |
| PriceTracker.AppendAgreesForPositiveBound | scripts/price_tracker.py:168-174 | For every positive bound, the code as written and the intended ledger agree. |
| PriceTracker.IndexAfterSnapshot | scripts/price_tracker.py:16-38 | After appending this run's snapshot, the next run's index holds exactly this run's ids, each with the price recorded now. |
| PriceTracker.GetPriceStatistics | scripts/price_tracker.py:177-208 | None exactly when the id occurs in no run. Otherwise count, current (the last price), min, max and mean all describe the id's prices across all runs, with min <= mean <= max. |
| PriceTracker.FindBestDeals | scripts/price_tracker.py:211-231 | Only price drops from the input, sorted by delta descending, cut by Python's `[:top_n]`: at most `top_n` of them, and for a negative `top_n` all but the last `-top_n` drops. No omitted drop beats a kept one. Cars with equal delta keep their input order. |
| StableSort.SortDesc | scripts/price_tracker.py:227-228 | A permutation, sorted descending by key, with the order of equal-key elements preserved (`list.sort(reverse=True)` is stable). |
| Finance.MonthlyPayment | scripts/finance.py:12-73 | Fails on a non-positive price, a negative down payment or one above the price. A non-positive principal pays 0. APR 0 splits the principal evenly (unrounded) and fails on a zero term. Otherwise it is the rounded amortization formula, for every term including negative ones. It fails exactly when `(1+r)**n` raises (base 0 with a negative term) or equals 1. |
| Finance.AnnuityRepaysLoan | scripts/finance.py:61-70 | Paying the (unrounded) formula's amount every month, with interest accruing monthly, clears the principal after exactly `n` months. |
| Finance.ZeroAprRepaysLoan | scripts/finance.py:57-58 | With APR 0, `n` payments of `principal / n` clear the loan. |
| Finance.CreateFinanceInfo | scripts/finance.py:76-103 | Fails exactly when the payment calculation fails. Otherwise it records the down payment and the payment, and copies APR, term, TTL% and doc fees unchanged. |
| Finance.FinanceInfoRepaysLoan | scripts/finance.py:76-103 | Without rounding, for a positive principal and a term of at least one month, the recorded monthly payment clears the financed amount over the term, both with interest and at 0% APR. |
| Finance.MeetsBudget | scripts/finance.py:106-143 | The down payment is `min(max_down, price)`. The car is admitted exactly when the payment computes and is <= the monthly maximum (inclusive). The flag is true exactly when finance info is returned; that info is `create_finance_info` at this down payment, so its monthly figure is the computed payment. Every failure gives (false, none). |
| Finance.ZeroTermNotAdmitted | scripts/finance.py:141-143 | APR 0 with a zero term is a division by zero, reported as "not admitted". |
| MockSources.MockFilter | scripts/sources/mock_sources.py:188-215 | The output is an order-preserving sublist of the input. Every output record passes the make (when a make list is set), year, mileage and condition tests, and every input record that passes them is kept, as many times as it occurs in the input. |
| MockSources.SinglePass | scripts/sources/mock_sources.py:188-215 | The four successive comprehensions equal one pass with the conjunction of their tests. |
| MockSources.MakesIgnoredWhenUnlisted | scripts/sources/mock_sources.py:189-195 | With an empty make list, a record's make does not matter. |
| MockSources.ZeroMileageDropped | scripts/sources/mock_sources.py:204-207 | A mileage of 0 never passes. |
| Fetch.NormalizeOne | scripts/fetch.py:196-203 | A candidate is kept exactly when it normalizes and has a non-empty source. A kept car passes the re-check, has the stable id, and takes `first_seen` from the prior record with that id when there is one. |
| Fetch.NormalizeAll | scripts/fetch.py:192-203 | The kept cars are exactly the successful per-candidate outcomes, in candidate order. The error count is the number of candidates that failed normalization or the re-check. So kept plus errors equals the number of candidates, every kept car passes the re-check and comes from some candidate, and there are no errors exactly when every candidate is kept. |
| Fetch.Age | scripts/fetch.py:223-239 | An absence decrements days to live while more than one is left, clearing the expiry. At the last day, an unexpired record gets 0 days and the run timestamp. An expired record is unchanged. Nothing else changes. |
| Fetch.AgePreservesConsistency | scripts/fetch.py:223-239 | An absence keeps the invariant "days to live >= 0, and 0 whenever an expiry is set". |
| Fetch.Countdown | scripts/fetch.py:223-239 | An unexpired record with `d >= 1` days left survives `d-1` consecutive absences, one day less each time. It expires in the `d`-th absence with that run's timestamp and never changes afterwards. |
| Fetch.FreshRecordLifetime | scripts/fetch.py:223-239 | From 3 days: 2, then 1, then 0 and expired on the third absence. A fourth absence changes nothing. |
| Fetch.ExpiredIsFixed | scripts/fetch.py:237-239 | A consistently expired record is unchanged by any number of further absences. |
| Fetch.TrackMissing | scripts/fetch.py:217-239 | The carried records are exactly the prior ids not found this run, in prior order, each some prior record aged once. |
| Fetch.TrackMissingContents | scripts/fetch.py:220-239 | With distinct prior ids, each carried record is its own prior record aged once. |
| Fetch.TrackMissingConsistent | scripts/fetch.py:223-239 | If every prior record keeps the liveness invariant, so does every carried record. |
| Fetch.Combine | scripts/fetch.py:212-242 | The deduplicated cars of this run come first, in order, then the prior records not found this run, aged once, in prior order. Every id seen this run or known before is tracked, each exactly once when the prior ids were distinct. |
| Fetch.Affordables | scripts/fetch.py:192-262 | The cars kept are the budget filter of the tracked vehicles, that is, the deduplicated cars followed by the carried prior records. Each kept car is an affordable tracked vehicle carrying its computed finance, every affordable tracked vehicle is kept, and the error count is the normalization loop's. |
| Fetch.BudgetFilter | scripts/fetch.py:247-262 | The ids form an order-preserving sublist. Each kept car is an affordable input car with its finance replaced, and its monthly payment is within budget. Every affordable car is kept, and the output has exactly as many cars as the input has affordable ones. |
| Fetch.RunPipeline | scripts/fetch.py:177-304 | With no candidates: empty items, unchanged history, no errors. Otherwise the saved items are the affordable tracked vehicles with refreshed price trends, and the error count is the normalization loop's. The history is `append_to_history` as written, with one snapshot of the saved cars and a bound of 100. So it gains exactly one run, keeps the newest `min(old + 1, 100)` runs, and the new run lists the saved items' ids and prices in order. Every saved item is within budget, and the ids stay distinct when the prior ids were. |
| Fetch.NextRunSeesSavedPrices | scripts/fetch.py:271-304 | Every saved car's price is what the next run's index returns for its id. |

## Left out

- Network and AI-backed source adapters (`google_search.py`, `ai_meta_search.py`) and the async `gather_candidates`: the raw candidates are an input.
- File I/O (`load_config`, `load_history`, `load_existing_inventory`, `save_inventory`, `save_history`), `sys.exit` and every `print`. The counting of trend directions and the display of the top three deals in `run_fetch_pipeline` only print, so `find_best_deals` is modelled on its own.
- The CLI and demo scripts, and the stage scripts (`stage1_dealerships.py` to `stage3_parse.py`).
- `get_price_varied_mock_data` and the hard-coded listings of `get_mock_vehicles`: only the filter chain is modelled, over any list. `exclude_models` is a configuration field that the chain never reads.
- Normalize.StableId: SHA-1 and Python's `str(float)` are opaque parameters. Determinism and the `hash-` prefix are proved; collision freedom is not.
- `upper()`/`lower()` are modelled as ASCII case mappings, so the model says nothing about non-ASCII letters.
- Fetch.RunPipeline: the calendar year is read once per run, not once per candidate, so a run that crosses New Year is not modelled.
- Floating point: prices and payments are exact reals. `round(x, 2)` is an opaque parameter, so no worked example is proved to the cent.
- Finance.MonthlyPayment: `**` with a negative term is modelled as exact reciprocal powers. No claim is made about float overflow.
- Dedup.MergeWithExisting: the age test (`fromisoformat`, `timedelta`) is a parameter `keepStale`. Unparsable timestamps, which the source skips, are folded into that parameter.
- Pydantic serialisation and JSON round-tripping, and the `extra = "allow"` configuration of `RawCarData`.
- `days_to_live` and `expired_at` are modelled as fields of the normalized car, because `normalize_car` passes them and the pipeline reads and writes them. The `NormalizedCar` class in scripts/models.py:100-123 does not declare them, so under pydantic's default configuration the values passed in would be dropped, and the pipeline's reads of them would fail.
- Each record is a value, not a shared mutable object. The pipeline's in-place updates (`car.finance = …`, the trend update, the liveness fields) are therefore modelled as new records. Some records are reachable from two places after an update. After `car.finance = …` (scripts/fetch.py:259) the same object is in both `all_vehicles` and `affordable_cars`. After the liveness writes (scripts/fetch.py:227-234) it is in both `existing_inventory` and `missing_vehicles`. But no second reference is read for its contents afterwards: the only later use of `all_vehicles` is its length (scripts/fetch.py:265), and `existing_inventory` is not read again. So nothing observable is lost.
- Fetch.RunPipeline: when there are no candidates, the inventory is saved with no items, so prior records are not carried forward in that run. This is modelled as written.

## Findings

| source | as written | input that shows it | evidently intended | confidence | as-written member | corrected member |
|---|---|---|---|---|---|---|
| scripts/price_tracker.py:168-174 | after appending, `runs = runs[-max_runs:]` when there are more than `max_runs` runs | `max_runs = 0` with any history: `runs[-0:]` is the whole list, so nothing is trimmed and the ledger exceeds its bound of 0 | keep at most `max(max_runs, 0)` of the most recent runs | medium; not executed | PriceTracker.AppendZeroBoundKeepsEverything | PriceTracker.AppendBounded |
