/**
 * Loan amortization and budget admission (scripts/finance.py). Floats are
 * modelled as reals; Python's `round(x, 2)` is passed in as `roundCents`.
 */
module Finance {
  import opened Wrappers
  import opened Models

  /** The `ValueError`s and `ZeroDivisionError`s the calculation can raise. */
  datatype FinanceError =
    | NonPositivePrice
    | NegativeDownPayment
    | DownPaymentExceedsPrice
    | DivisionByZero
    | DegenerateRate

  function Pow(x: real, n: nat): real
    decreases n
  {
    if n == 0 then 1.0 else Pow(x, n - 1) * x
  }

  lemma {:induction false} PowNonZero(x: real, n: nat)
    requires x != 0.0
    ensures Pow(x, n) != 0.0
    decreases n
  {
    if n > 0 {
      PowNonZero(x, n - 1);
    }
  }

  /** Python's `x ** n` for a float base and an int exponent; `0.0 ** -k` raises. */
  function PowInt(x: real, n: int): (r: Result<real, FinanceError>)
    ensures n >= 0 ==> r == Ok(Pow(x, n))
    ensures n < 0 ==> (r.Err? <==> x == 0.0)
    ensures n < 0 && r.Ok? ==> r.value * Pow(x, -n) == 1.0
  {
    if n >= 0 then Ok(Pow(x, n))
    else if x == 0.0 then Err(DivisionByZero)
    else
      PowNonZero(x, -n);
      Ok(1.0 / Pow(x, -n))
  }

  /** Amount financed: price plus tax/title/license and doc fees, less the down payment. */
  function Principal(price: real, down: real, cfg: FinanceConfig): real {
    price + price * (cfg.ttlPercentOfPrice / 100.0) + cfg.docFees - down
  }

  function MonthlyRate(cfg: FinanceConfig): real {
    cfg.aprPercent / 12.0 / 100.0
  }

  /**
   * The fixed-rate amortization formula `P * r(1+r)^n / ((1+r)^n - 1)`, before
   * rounding, with `growth` standing for `(1+r)^n`.
   */
  function AnnuityPayment(principal: real, rate: real, growth: real): real
    requires growth != 1.0
  {
    principal * (rate * growth / (growth - 1.0))
  }

  predicate ValidLoanInput(price: real, down: real) {
    price > 0.0 && down >= 0.0 && down <= price
  }

  /**
   * `calculate_monthly_payment(price, down_payment, config)`. Raises on a
   * non-positive price, a negative down payment or one above the price; pays
   * nothing when the principal is not positive; with an APR of exactly 0
   * divides the principal evenly over the term (unrounded); otherwise applies
   * the amortization formula and rounds to cents. For any term, negative ones
   * included, the interest-bearing branch fails exactly when `(1+r)**n`
   * raises (a zero base with a negative exponent) or equals 1.
   */
  function MonthlyPayment(price: real, down: real, cfg: FinanceConfig, roundCents: real -> real): (r: Result<real, FinanceError>)
    ensures !ValidLoanInput(price, down) ==> r.Err?
    ensures price <= 0.0 ==> r == Err(NonPositivePrice)
    ensures ValidLoanInput(price, down) && Principal(price, down, cfg) <= 0.0 ==> r == Ok(0.0)
    ensures ValidLoanInput(price, down) && Principal(price, down, cfg) > 0.0 && cfg.aprPercent == 0.0 ==>
      && (r.Ok? <==> cfg.termMonths != 0)
      && (r.Ok? ==> r.value * (cfg.termMonths as real) == Principal(price, down, cfg))
    ensures ValidLoanInput(price, down) && Principal(price, down, cfg) > 0.0 && cfg.aprPercent != 0.0 && cfg.termMonths >= 0 ==>
      && (r.Ok? <==> Pow(1.0 + MonthlyRate(cfg), cfg.termMonths) != 1.0)
      && (r.Ok? ==> r.value == roundCents(AnnuityPayment(Principal(price, down, cfg), MonthlyRate(cfg), Pow(1.0 + MonthlyRate(cfg), cfg.termMonths))))
    ensures ValidLoanInput(price, down) && Principal(price, down, cfg) > 0.0 && cfg.aprPercent != 0.0 ==>
      && (r.Ok? <==> PowInt(1.0 + MonthlyRate(cfg), cfg.termMonths).Ok? && PowInt(1.0 + MonthlyRate(cfg), cfg.termMonths).value != 1.0)
      && (r.Ok? ==> r.value == roundCents(AnnuityPayment(Principal(price, down, cfg), MonthlyRate(cfg), PowInt(1.0 + MonthlyRate(cfg), cfg.termMonths).value)))
  {
    if price <= 0.0 then Err(NonPositivePrice)
    else if down < 0.0 then Err(NegativeDownPayment)
    else if down > price then Err(DownPaymentExceedsPrice)
    else
      var principal := Principal(price, down, cfg);
      if principal <= 0.0 then Ok(0.0)
      else if cfg.aprPercent == 0.0 then EvenSplit(principal, cfg.termMonths)
      else Amortized(principal, MonthlyRate(cfg), cfg.termMonths, roundCents)
  }

  /** The zero-APR branch: `principal / term_months`, unrounded. */
  function EvenSplit(principal: real, term: int): (r: Result<real, FinanceError>)
    ensures r.Ok? <==> term != 0
    ensures r.Ok? ==> r.value * (term as real) == principal
  {
    if term == 0 then Err(DivisionByZero) else Ok(principal / (term as real))
  }

  /** The interest-bearing branch: the amortization formula, rounded to cents. */
  function Amortized(principal: real, rate: real, term: int, roundCents: real -> real): (r: Result<real, FinanceError>)
    ensures term >= 0 ==>
      && (r.Ok? <==> Pow(1.0 + rate, term) != 1.0)
      && (r.Ok? ==> r.value == roundCents(AnnuityPayment(principal, rate, Pow(1.0 + rate, term))))
    ensures r.Ok? <==> PowInt(1.0 + rate, term).Ok? && PowInt(1.0 + rate, term).value != 1.0
    ensures r.Ok? ==> r.value == roundCents(AnnuityPayment(principal, rate, PowInt(1.0 + rate, term).value))
  {
    var power := PowInt(1.0 + rate, term);
    if power.Err? then Err(power.error)
    else
      var g := power.value;
      if g - 1.0 == 0.0 then Err(DegenerateRate)
      else
        var monthly := AnnuityPayment(principal, rate, g);
        assert term >= 0 ==> monthly == AnnuityPayment(principal, rate, Pow(1.0 + rate, term));
        Ok(roundCents(monthly))
  }

  /** Balance still owed after `k` monthly payments of `payment`, interest accruing at `rate`. */
  function Balance(principal: real, rate: real, payment: real, k: nat): real
    decreases k
  {
    if k == 0 then principal else Balance(principal, rate, payment, k - 1) * (1.0 + rate) - payment
  }

  lemma {:induction false} BalanceClosedForm(principal: real, rate: real, payment: real, k: nat)
    ensures rate * Balance(principal, rate, payment, k)
      == rate * principal * Pow(1.0 + rate, k) - payment * (Pow(1.0 + rate, k) - 1.0)
    decreases k
  {
    if k == 0 {
      ClosedFormBase(principal, rate, payment, Balance(principal, rate, payment, 0), Pow(1.0 + rate, 0));
    } else {
      BalanceClosedForm(principal, rate, payment, k - 1);
      ClosedFormStep(principal, rate, payment, Balance(principal, rate, payment, k - 1), Pow(1.0 + rate, k - 1),
        Balance(principal, rate, payment, k), Pow(1.0 + rate, k));
    }
  }

  /** One month of interest and one payment, in the closed form's algebra. */
  lemma ClosedFormBase(principal: real, rate: real, payment: real, b: real, g: real)
    requires b == principal && g == 1.0
    ensures rate * b == rate * principal * g - payment * (g - 1.0)
  {
  }

  lemma ClosedFormStep(principal: real, rate: real, payment: real, b: real, gk: real, next: real, gNext: real)
    requires rate * b == rate * principal * gk - payment * (gk - 1.0)
    requires next == b * (1.0 + rate) - payment && gNext == gk * (1.0 + rate)
    ensures rate * next == rate * principal * gNext - payment * (gNext - 1.0)
  {
    var g := 1.0 + rate;
    calc {
      rate * (b * g - payment);
      (rate * b) * g - rate * payment;
      (rate * principal * gk - payment * (gk - 1.0)) * g - rate * payment;
      { assert (rate * principal * gk) * g == rate * principal * (gk * g); }
      rate * principal * (gk * g) - payment * (gk * g - g + rate);
      rate * principal * (gk * g) - payment * (gk * g - 1.0);
    }
  }

  /** The amortization formula's payment, paid every month, clears the loan in exactly `n` months. */
  lemma {:induction false} AnnuityRepaysLoan(principal: real, rate: real, n: nat)
    requires rate != 0.0 && Pow(1.0 + rate, n) != 1.0
    ensures Balance(principal, rate, AnnuityPayment(principal, rate, Pow(1.0 + rate, n)), n) == 0.0
  {
    var g := Pow(1.0 + rate, n);
    var m := AnnuityPayment(principal, rate, g);
    BalanceClosedForm(principal, rate, m, n);
    assert m * (g - 1.0) == principal * rate * g;
    assert rate * Balance(principal, rate, m, n) == 0.0;
  }

  lemma {:induction false} BalanceWithoutInterest(principal: real, payment: real, k: nat)
    ensures Balance(principal, 0.0, payment, k) == principal - (k as real) * payment
    decreases k
  {
    if k > 0 {
      BalanceWithoutInterest(principal, payment, k - 1);
    }
  }

  /** With an APR of 0, the even split of the principal clears the loan over the term. */
  lemma {:induction false} ZeroAprRepaysLoan(principal: real, n: nat)
    requires n >= 1
    ensures Balance(principal, 0.0, principal / (n as real), n) == 0.0
  {
    BalanceWithoutInterest(principal, principal / (n as real), n);
  }

  function Assumptions(cfg: FinanceConfig): FinanceAssumptions {
    FinanceAssumptions(cfg.aprPercent, cfg.termMonths, cfg.ttlPercentOfPrice, cfg.docFees)
  }

  /**
   * `create_finance_info`: raises whenever the payment calculation does;
   * otherwise records the down payment, the payment and the configuration
   * unchanged.
   */
  function CreateFinanceInfo(price: real, down: real, cfg: FinanceConfig, roundCents: real -> real): (r: Result<FinanceInfo, FinanceError>)
    ensures r.Ok? <==> MonthlyPayment(price, down, cfg, roundCents).Ok?
    ensures r.Ok? ==>
      && r.value.estDown == down
      && r.value.estMonthly == MonthlyPayment(price, down, cfg, roundCents).value
      && r.value.assumptions.aprPercent == cfg.aprPercent
      && r.value.assumptions.termMonths == cfg.termMonths
      && r.value.assumptions.ttlPercentOfPrice == cfg.ttlPercentOfPrice
      && r.value.assumptions.docFees == cfg.docFees
  {
    match MonthlyPayment(price, down, cfg, roundCents)
    case Err(e) => Err(e)
    case Ok(monthly) => Ok(FinanceInfo(down, monthly, Assumptions(cfg)))
  }

  /**
   * The payment `create_finance_info` records is the one that clears the
   * financed amount over the term, interest accruing monthly, whenever no
   * rounding intervenes: with interest by the amortization formula, at 0%
   * APR by the even split.
   */
  lemma FinanceInfoRepaysLoan(price: real, down: real, cfg: FinanceConfig, roundCents: real -> real)
    requires forall x :: roundCents(x) == x
    requires CreateFinanceInfo(price, down, cfg, roundCents).Ok?
    requires Principal(price, down, cfg) > 0.0 && cfg.termMonths >= 1
    ensures Balance(Principal(price, down, cfg), MonthlyRate(cfg),
      CreateFinanceInfo(price, down, cfg, roundCents).value.estMonthly, cfg.termMonths) == 0.0
  {
    var principal, rate, n := Principal(price, down, cfg), MonthlyRate(cfg), cfg.termMonths;
    var m := CreateFinanceInfo(price, down, cfg, roundCents).value.estMonthly;
    if cfg.aprPercent == 0.0 {
      assert rate == 0.0;
      assert m == principal / (n as real);
      ZeroAprRepaysLoan(principal, n);
    } else {
      assert rate != 0.0;
      assert m == AnnuityPayment(principal, rate, Pow(1.0 + rate, n));
      AnnuityRepaysLoan(principal, rate, n);
    }
  }

  /** Python's `min(a, b)` */
  function MinReal(a: real, b: real): (m: real)
    ensures m <= a && m <= b && (m == a || m == b)
  {
    if b < a then b else a
  }

  /**
   * `meets_budget_constraints`: finances with the largest possible down
   * payment, `min(max_down, price)`, and admits exactly when the resulting
   * monthly payment is at most `max_monthly` (the boundary is admitted). A
   * failed calculation is not admitted. The flag is true exactly when
   * finance information is returned.
   */
  function MeetsBudget(price: real, maxDown: real, maxMonthly: real, cfg: FinanceConfig, roundCents: real -> real)
    : (r: (bool, Option<FinanceInfo>))
    ensures r.0 <==> r.1.Some?
    ensures var m := MonthlyPayment(price, MinReal(maxDown, price), cfg, roundCents);
      r.0 <==> m.Ok? && m.value <= maxMonthly
    ensures r.0 ==>
      && r.1.value.estDown == MinReal(maxDown, price)
      && r.1.value.estMonthly <= maxMonthly
      && r.1.value.assumptions == Assumptions(cfg)
      && r.1.value == CreateFinanceInfo(price, MinReal(maxDown, price), cfg, roundCents).value
      && r.1.value.estMonthly == MonthlyPayment(price, MinReal(maxDown, price), cfg, roundCents).value
    ensures price <= 0.0 || maxDown < 0.0 ==> r == (false, None)
  {
    var down := MinReal(maxDown, price);
    match CreateFinanceInfo(price, down, cfg, roundCents)
    case Err(_) => (false, None)
    case Ok(info) => if info.estMonthly <= maxMonthly then (true, Some(info)) else (false, None)
  }

  /** An APR of 0 with a zero-month term is a division by zero, swallowed into "not admitted". */
  lemma ZeroTermNotAdmitted(price: real, maxDown: real, maxMonthly: real, cfg: FinanceConfig, roundCents: real -> real)
    requires price > 0.0 && maxDown >= 0.0
    requires cfg.aprPercent == 0.0 && cfg.termMonths == 0
    requires Principal(price, MinReal(maxDown, price), cfg) > 0.0
    ensures MeetsBudget(price, maxDown, maxMonthly, cfg, roundCents) == (false, None)
  {
  }
}
