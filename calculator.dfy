/** src/calculator_math.js: `calculateSavingsGrowth`, a balance compounded
    monthly with a fixed monthly contribution, reported year by year.
    Amounts are exact reals here; the floating-point rounding of the
    source is not modelled. */
module Calculator {

  datatype YearEntry = YearEntry(year: int, balance: real, contributions: real, interest: real)

  datatype Growth = Growth(finalBalance: real, totalContrib: real, totalInterest: real, yearly: seq<YearEntry>)

  /** `Math.max(1, years)` */
  function SafeYears(years: int): (n: int)
    ensures n >= 1 && (years >= 1 ==> n == years) && (years < 1 ==> n == 1)
  {
    if years < 1 then 1 else years
  }

  /** `annualRate / 100 / 12` */
  function MonthlyRate(annualRate: real): real
  {
    annualRate / 100.0 / 12.0
  }

  /** A month's interest on balance `b`: `balance * monthlyRate`. */
  function MonthInterest(b: real, rate: real): real
  {
    b * rate
  }

  /** The balance after `months` months: each month adds the interest on
      the balance and the contribution. */
  function Balance(initial: real, rate: real, monthly: real, months: nat): real
  {
    if months == 0 then initial
    else
      var b := Balance(initial, rate, monthly, months - 1);
      b + (MonthInterest(b, rate) + monthly)
  }

  /** The interest credited over the first `months` months. */
  function Interest(initial: real, rate: real, monthly: real, months: nat): real
  {
    if months == 0 then 0.0
    else Interest(initial, rate, monthly, months - 1) + MonthInterest(Balance(initial, rate, monthly, months - 1), rate)
  }

  /** With a non-negative start, rate and contribution the balance never
      falls below the initial amount and the interest earned is never
      negative. */
  lemma {:induction false} BalanceGrows(initial: real, rate: real, monthly: real, months: nat)
    requires initial >= 0.0 && rate >= 0.0 && monthly >= 0.0
    ensures Balance(initial, rate, monthly, months) >= initial
    ensures Interest(initial, rate, monthly, months) >= 0.0
  {
    if months > 0 {
      BalanceGrows(initial, rate, monthly, months - 1);
      var b := Balance(initial, rate, monthly, months - 1);
      assert MonthInterest(b, rate) >= 0.0 by {
        assert b >= 0.0;
      }
    }
  }

  /** `initial` plus one contribution a month for `months` months. */
  function Contributed(initial: real, monthly: real, months: nat): real
  {
    if months == 0 then initial else Contributed(initial, monthly, months - 1) + monthly
  }

  lemma {:induction false} ContributedIs(initial: real, monthly: real, months: nat)
    ensures Contributed(initial, monthly, months) == initial + months as real * monthly
  {
    if months > 0 {
      ContributedIs(initial, monthly, months - 1);
    }
  }

  /** The entry the loop pushes for year `k + 1`. */
  function Entry(initial: real, rate: real, monthly: real, k: nat): YearEntry
  {
    YearEntry(k + 1, Balance(initial, rate, monthly, 12 * (k + 1)), 12.0 * monthly,
              Interest(initial, rate, monthly, 12 * (k + 1)) - Interest(initial, rate, monthly, 12 * k))
  }

  /** `calculateSavingsGrowth({ initial, monthly, annualRate, years })` for
      a whole number of years. */
  method CalculateSavingsGrowth(initial: real, monthly: real, annualRate: real, years: int) returns (g: Growth)
    ensures var n, rate := SafeYears(years), MonthlyRate(annualRate);
      && |g.yearly| == n
      && (forall k :: 0 <= k < n ==> g.yearly[k] == Entry(initial, rate, monthly, k))
      && g.finalBalance == g.yearly[n - 1].balance == Balance(initial, rate, monthly, 12 * n)
      && g.totalContrib == initial + (12 * n) as real * monthly
      && g.totalInterest == Interest(initial, rate, monthly, 12 * n)
  {
    var safeYears := SafeYears(years);
    var rate := MonthlyRate(annualRate);
    var balance := initial;
    var totalContrib := initial;
    var totalInterest := 0.0;
    var yearly: seq<YearEntry> := [];
    var year := 1;
    while year <= safeYears
      invariant 1 <= year <= safeYears + 1
      invariant |yearly| == year - 1
      invariant forall k :: 0 <= k < |yearly| ==> yearly[k] == Entry(initial, rate, monthly, k)
      invariant balance == Balance(initial, rate, monthly, 12 * (year - 1))
      invariant totalContrib == Contributed(initial, monthly, 12 * (year - 1))
      invariant totalInterest == Interest(initial, rate, monthly, 12 * (year - 1))
    {
      var yearContrib, yearInterest;
      balance, totalContrib, totalInterest, yearContrib, yearInterest :=
        GrowYear(initial, rate, monthly, 12 * (year - 1), balance, totalContrib, totalInterest);
      yearly := yearly + [YearEntry(year, balance, yearContrib, yearInterest)];
      year := year + 1;
    }
    ContributedIs(initial, monthly, 12 * safeYears);
    g := Growth(balance, totalContrib, totalInterest, yearly);
  }

  /** The twelve months of one year, from month `start` on; the totals run
      on and the year's own contribution and interest start at zero. */
  method GrowYear(initial: real, rate: real, monthly: real, start: nat,
                  balance0: real, totalContrib0: real, totalInterest0: real)
    returns (balance: real, totalContrib: real, totalInterest: real, yearContrib: real, yearInterest: real)
    requires balance0 == Balance(initial, rate, monthly, start)
    requires totalContrib0 == Contributed(initial, monthly, start)
    requires totalInterest0 == Interest(initial, rate, monthly, start)
    ensures balance == Balance(initial, rate, monthly, start + 12)
    ensures totalContrib == Contributed(initial, monthly, start + 12)
    ensures totalInterest == Interest(initial, rate, monthly, start + 12)
    ensures yearContrib == 12.0 * monthly
    ensures yearInterest == Interest(initial, rate, monthly, start + 12) - Interest(initial, rate, monthly, start)
  {
    balance, totalContrib, totalInterest := balance0, totalContrib0, totalInterest0;
    yearContrib := 0.0;
    yearInterest := 0.0;
    var month := 0;
    while month < 12
      invariant 0 <= month <= 12
      invariant MonthState(initial, rate, monthly, start, month,
                           balance, totalContrib, totalInterest, yearContrib, yearInterest)
    {
      var interest := MonthInterest(balance, rate);
      MonthAdvance(initial, rate, monthly, start, month,
                   balance, totalContrib, totalInterest, yearContrib, yearInterest, interest);
      balance := balance + (interest + monthly);
      totalInterest := totalInterest + interest;
      totalContrib := totalContrib + monthly;
      yearContrib := yearContrib + monthly;
      yearInterest := yearInterest + interest;
      month := month + 1;
    }
    ContributedIs(0.0, monthly, 12);
  }

  /** The loop's variables after `month` months of the year beginning at
      month `start`. */
  predicate MonthState(initial: real, rate: real, monthly: real, start: nat, month: nat,
                       balance: real, totalContrib: real, totalInterest: real,
                       yearContrib: real, yearInterest: real)
  {
    && balance == Balance(initial, rate, monthly, start + month)
    && totalContrib == Contributed(initial, monthly, start + month)
    && totalInterest == Interest(initial, rate, monthly, start + month)
    && yearContrib == Contributed(0.0, monthly, month)
    && yearInterest == Interest(initial, rate, monthly, start + month) - Interest(initial, rate, monthly, start)
  }

  /** One month of the loop: crediting `MonthInterest(balance, rate)` and the
      contribution keeps the loop's variables in step with the month count. */
  lemma {:induction false} MonthAdvance(initial: real, rate: real, monthly: real, start: nat, month: nat,
                     balance: real, totalContrib: real, totalInterest: real,
                     yearContrib: real, yearInterest: real, interest: real)
    requires MonthState(initial, rate, monthly, start, month,
                        balance, totalContrib, totalInterest, yearContrib, yearInterest)
    requires interest == MonthInterest(balance, rate)
    ensures MonthState(initial, rate, monthly, start, month + 1,
                       balance + (interest + monthly), totalContrib + monthly, totalInterest + interest,
                       yearContrib + monthly, yearInterest + interest)
  {
    var m := start + month;
    assert start + (month + 1) == m + 1;
    MonthStep(initial, rate, monthly, m);
    assert Balance(initial, rate, monthly, m + 1) == balance + (interest + monthly);
    assert Interest(initial, rate, monthly, m + 1) == totalInterest + interest;
    assert Contributed(initial, monthly, m + 1) == totalContrib + monthly;
    assert Contributed(0.0, monthly, month + 1) == yearContrib + monthly;
  }

  /** One month of the loop, in terms of the month before. */
  lemma {:induction false} MonthStep(initial: real, rate: real, monthly: real, m: nat)
    ensures Balance(initial, rate, monthly, m + 1)
         == Balance(initial, rate, monthly, m) + (MonthInterest(Balance(initial, rate, monthly, m), rate) + monthly)
    ensures Interest(initial, rate, monthly, m + 1)
         == Interest(initial, rate, monthly, m) + MonthInterest(Balance(initial, rate, monthly, m), rate)
  {
  }

  /** Nothing is created or lost: the balance is the initial amount plus
      the contributions plus the interest. */
  lemma {:induction false} BalanceIsContributionsPlusInterest(initial: real, rate: real, monthly: real, months: nat)
    ensures Balance(initial, rate, monthly, months)
         == initial + months as real * monthly + Interest(initial, rate, monthly, months)
  {
    if months > 0 {
      BalanceIsContributionsPlusInterest(initial, rate, monthly, months - 1);
    }
  }

  /** The sum of the `interest` fields of the first `n` entries. */
  function YearlyInterest(yearly: seq<YearEntry>): real
  {
    if yearly == [] then 0.0 else YearlyInterest(yearly[..|yearly| - 1]) + yearly[|yearly| - 1].interest
  }

  /** The yearly interests add up to the total interest. */
  lemma {:induction false} YearlyInterestTotal(initial: real, rate: real, monthly: real, yearly: seq<YearEntry>)
    requires forall k :: 0 <= k < |yearly| ==> yearly[k] == Entry(initial, rate, monthly, k)
    ensures YearlyInterest(yearly) == Interest(initial, rate, monthly, 12 * |yearly|)
  {
    if yearly != [] {
      var init := yearly[..|yearly| - 1];
      assert forall k :: 0 <= k < |init| ==> init[k] == yearly[k];
      YearlyInterestTotal(initial, rate, monthly, init);
    }
  }

  /** With no interest the balance grows by the contributions alone. */
  lemma {:induction false} ZeroRate(initial: real, monthly: real, months: nat)
    ensures Interest(initial, 0.0, monthly, months) == 0.0
    ensures Balance(initial, 0.0, monthly, months) == initial + months as real * monthly
  {
    if months > 0 {
      ZeroRate(initial, monthly, months - 1);
    }
  }

  function Pow(x: real, n: nat): real
  {
    if n == 0 then 1.0 else Pow(x, n - 1) * x
  }

  /** With no contributions the balance compounds: `initial * (1 + rate)^months`. */
  lemma {:induction false} ZeroMonthly(initial: real, rate: real, months: nat)
    ensures Balance(initial, rate, 0.0, months) == initial * Pow(1.0 + rate, months)
  {
    if months > 0 {
      ZeroMonthly(initial, rate, months - 1);
      var b := Balance(initial, rate, 0.0, months - 1);
      assert b + (b * rate + 0.0) == b * (1.0 + rate);
    }
  }

  /** The second case of the source's tests: 100 a month for two years
      at 0% reaches 2400, none of it interest. */
  lemma {:induction false} NoInterestExample(months: nat)
    requires months == 12 * 2
    ensures Balance(0.0, 0.0, 100.0, months) == 2400.0
    ensures Interest(0.0, 0.0, 100.0, months) == 0.0
  {
    NoInterestFromZero(100.0, months);
    assert months as real == 24.0;
    ZeroRate(0.0, 100.0, months);
  }

  lemma {:induction false} NoInterestFromZero(monthly: real, months: nat)
    ensures Balance(0.0, 0.0, monthly, months) == months as real * monthly
  {
    ZeroRate(0.0, monthly, months);
  }

  /** The first case of the source's tests: 1000 at 12% a year (1% a
      month) for one year ends at `1000 * 1.01^12`, of which 1000 is the
      initial amount and the rest interest. */
  lemma {:induction false} InterestOnlyExample(months: nat)
    requires months == 12 * 1
    ensures Balance(1000.0, MonthlyRate(12.0), 0.0, months) == 1000.0 * Pow(1.01, months)
    ensures Interest(1000.0, MonthlyRate(12.0), 0.0, months) == 1000.0 * Pow(1.01, months) - 1000.0
  {
    assert 1.0 + MonthlyRate(12.0) == 1.01;
    CompoundOnly(1000.0, MonthlyRate(12.0), 1.01, months);
  }

  /** With no contributions everything above the initial amount is
      interest. */
  lemma {:induction false} CompoundOnly(initial: real, rate: real, growth: real, months: nat)
    requires growth == 1.0 + rate
    ensures Balance(initial, rate, 0.0, months) == initial * Pow(growth, months)
    ensures Interest(initial, rate, 0.0, months) == initial * Pow(growth, months) - initial
  {
    ZeroMonthly(initial, rate, months);
    BalanceIsContributionsPlusInterest(initial, rate, 0.0, months);
    assert months as real * 0.0 == 0.0;
  }
}
