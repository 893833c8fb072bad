/** The margin engine: valuation of an account's holdings and its margin status. */
module Margin {
  import opened Options

  datatype Asset = Asset(symbol: string, decimals: nat, collateralFactor: real)

  datatype Price = Price(value: int, decimals: nat)

  datatype Config = Config(marginCallHF: real, liquidationHF: real)

  /** An asset with what the balance read and the price read for it would return; None is
      an error. */
  datatype Holding = Holding(asset: Asset, balance: Option<int>, price: Option<Price>)

  function Pow10(n: nat): (p: nat)
    ensures p >= 1
  {
    if n == 0 then 1 else 10 * Pow10(n - 1)
  }

  function PriceRat(p: Price): real {
    p.value as real / Pow10(p.decimals) as real
  }

  /** What a raw balance is worth at a price. */
  function Value(bal: int, decimals: nat, price: Price): real {
    bal as real / Pow10(decimals) as real * PriceRat(price)
  }

  datatype Status = Healthy | MarginCall | Liquidatable

  function Severity(s: Status): nat {
    match s
    case Healthy => 0
    case MarginCall => 1
    case Liquidatable => 2
  }

  function StatusOf(cfg: Config, hf: real): Status {
    if hf < cfg.liquidationHF then Liquidatable
    else if hf < cfg.marginCallHF then MarginCall
    else Healthy
  }

  /** Nearest integer, halves away from zero. */
  function Round(x: real): int {
    if x >= 0.0 then (x + 0.5).Floor else -((-x + 0.5).Floor)
  }

  /** FloatString(2) and FloatString(4): the printed decimal, in units of its last digit. */
  function Print2(x: real): int {
    Round(x * 100.0)
  }

  function Print4(x: real): int {
    Round(x * 10000.0)
  }

  /** A printed position. */
  datatype Position = Position(symbol: string, balanceRaw: int, priceUSD: int, valueUSD: int,
                               collateralFactor: int, weightedUSD: int)

  /** A printed report. `healthFactor` is None for "n/a". */
  datatype Report = Report(gross: int, weighted: int, debt: int, healthFactor: Option<int>, status: Status,
                           positions: seq<Position>)

  // The exact portfolio sum, over every asset, as if an unavailable price were zero.

  function Worth(h: Holding): real {
    if h.balance.None? || h.price.None? then 0.0 else Value(h.balance.value, h.asset.decimals, h.price.value)
  }

  function WeightedWorth(h: Holding): real {
    Worth(h) * h.asset.collateralFactor
  }

  function Sum(f: Holding -> real, hs: seq<Holding>): real {
    if hs == [] then 0.0 else Sum(f, hs[..|hs| - 1]) + f(hs[|hs| - 1])
  }

  function Gross(hs: seq<Holding>): real {
    Sum(Worth, hs)
  }

  function Weighted(hs: seq<Holding>): real {
    Sum(WeightedWorth, hs)
  }

  /** The read that stops the evaluation: a failed balance, or the failed price of a
      non-zero holding. */
  predicate Fails(h: Holding) {
    h.balance.None? || (h.balance.value != 0 && h.price.None?)
  }

  predicate Held(h: Holding) {
    h.balance.Some? && h.balance.value != 0
  }

  function PositionOf(h: Holding): Position {
    Position(h.asset.symbol,
             if h.balance.Some? then h.balance.value else 0,
             if h.price.Some? then Print2(PriceRat(h.price.value)) else 0,
             Print2(Worth(h)), Print2(h.asset.collateralFactor), Print2(WeightedWorth(h)))
  }

  function Positions(hs: seq<Holding>): seq<Position> {
    if hs == [] then []
    else Positions(hs[..|hs| - 1]) + (if Held(hs[|hs| - 1]) then [PositionOf(hs[|hs| - 1])] else [])
  }

  function HealthFactor(weighted: real, debt: real): Option<real> {
    if debt <= 0.0 then None else Some(weighted / debt)
  }

  function AccountStatus(cfg: Config, weighted: real, debt: real): Status {
    match HealthFactor(weighted, debt)
    case None => Healthy
    case Some(hf) => StatusOf(cfg, hf)
  }

  function ReportOf(cfg: Config, hs: seq<Holding>, debt: real): Report {
    var hf := HealthFactor(Weighted(hs), debt);
    Report(Print2(Gross(hs)), Print2(Weighted(hs)), Print2(debt),
           if hf.Some? then Some(Print4(hf.value)) else None,
           AccountStatus(cfg, Weighted(hs), debt), Positions(hs))
  }

  /** Values are exact: scaled by both decimals, a value is the product of the raw integers. */
  lemma {:induction false} ValueIsExact(bal: int, decimals: nat, price: Price)
    ensures Value(bal, decimals, price) * (Pow10(decimals) as real * Pow10(price.decimals) as real)
         == bal as real * price.value as real
  {
    var d, e := Pow10(decimals) as real, Pow10(price.decimals) as real;
    var x, y := bal as real / d, price.value as real / e;
    assert x * d == bal as real && y * e == price.value as real;
    calc {
      (x * y) * (d * e);
      (x * d) * (y * e);
    }
  }

  /** The scale is decimal. */
  lemma {:induction false} Pow10IsDecimal(m: nat, n: nat)
    ensures Pow10(1) == 10 && Pow10(m + n) == Pow10(m) * Pow10(n)
  {
    if m > 0 {
      Pow10IsDecimal(m - 1, n);
      assert 10 * (Pow10(m - 1) * Pow10(n)) == (10 * Pow10(m - 1)) * Pow10(n);
    }
  }

  lemma {:induction false} OneDigit(x: real, p: real)
    requires p > 0.0
    ensures x / (10.0 * p) == x / p / 10.0
  {
    var y := x / p;
    assert y * p == x;
    assert (y / 10.0) * (10.0 * p) == x;
  }

  /** A decimal may be moved from the balance to the price, one decimal more in either makes
      the value a tenth, and so a balance of ten times the units is worth the same. */
  lemma {:induction false} ValueScales(bal: int, d: nat, v: int, e: nat)
    ensures Value(bal, d + 1, Price(v, e)) == Value(bal, d, Price(v, e)) / 10.0
    ensures Value(bal, d, Price(v, e + 1)) == Value(bal, d, Price(v, e)) / 10.0
    ensures Value(10 * bal, d + 1, Price(v, e)) == Value(bal, d, Price(v, e))
  {
    Pow10IsDecimal(1, d);
    Pow10IsDecimal(1, e);
    var x, y := bal as real / Pow10(d) as real, v as real / Pow10(e) as real;
    OneDigit(bal as real, Pow10(d) as real);
    OneDigit(v as real, Pow10(e) as real);
    OneDigit(10.0 * bal as real, Pow10(d) as real);
    assert (x / 10.0) * y == x * y / 10.0 && x * (y / 10.0) == x * y / 10.0;
    TenTimes(bal as real, Pow10(d) as real);
  }

  lemma {:induction false} TenTimes(x: real, p: real)
    requires p > 0.0
    ensures 10.0 * x / p / 10.0 == x / p
  {
    var y := x / p;
    assert y * p == x;
    assert (10.0 * y) * p == 10.0 * x;
    assert 10.0 * x / p == 10.0 * y;
  }

  lemma {:induction false} ZeroIsWorthless(h: Holding)
    requires h.balance == Some(0)
    ensures Worth(h) == 0.0 && WeightedWorth(h) == 0.0
  {
    if h.price.Some? {
      assert 0 as real / Pow10(h.asset.decimals) as real == 0.0;
    }
  }

  lemma {:induction false} NextHolding(hs: seq<Holding>, i: nat)
    requires i < |hs|
    ensures Gross(hs[..i + 1]) == Gross(hs[..i]) + Worth(hs[i])
    ensures Weighted(hs[..i + 1]) == Weighted(hs[..i]) + WeightedWorth(hs[i])
    ensures Positions(hs[..i + 1]) == Positions(hs[..i]) + (if Held(hs[i]) then [PositionOf(hs[i])] else [])
  {
    assert hs[..i + 1][..i] == hs[..i];
  }

  /** The evaluation loop. It fails exactly when some balance read fails or the price of some
      non-zero holding fails, and otherwise reports the exact sums over all assets. */
  method Evaluate(cfg: Config, hs: seq<Holding>, debt: real) returns (report: Option<Report>)
    ensures report.None? <==> exists i :: 0 <= i < |hs| && Fails(hs[i])
    ensures report.Some? ==> report.value == ReportOf(cfg, hs, debt)
  {
    var gross, weighted := 0.0, 0.0;
    var positions := [];
    for i := 0 to |hs|
      invariant gross == Gross(hs[..i]) && weighted == Weighted(hs[..i])
      invariant positions == Positions(hs[..i])
      invariant forall j :: 0 <= j < i ==> !Fails(hs[j])
    {
      var h := hs[i];
      NextHolding(hs, i);
      if h.balance.None? {
        return None;
      }
      var bal := h.balance.value;
      if bal == 0 {
        ZeroIsWorthless(h);
        assert positions + [] == positions;
        continue;
      }
      if h.price.None? {
        return None;
      }
      var value, w, position := Valuation(h, bal, h.price.value);
      gross := gross + value;
      weighted := weighted + w;
      positions := positions + [position];
    }
    assert hs[..|hs|] == hs;
    var r := Conclude(cfg, gross, weighted, debt, positions);
    return Some(r);
  }

  /** The value of one holding, its weighted value, and its position. */
  method Valuation(h: Holding, bal: int, price: Price) returns (value: real, w: real, position: Position)
    requires h.balance == Some(bal) && h.price == Some(price)
    ensures value == Worth(h) && w == WeightedWorth(h) && position == PositionOf(h)
  {
    value := Value(bal, h.asset.decimals, price);
    w := value * h.asset.collateralFactor;
    position := Position(h.asset.symbol, bal, Print2(PriceRat(price)), Print2(value), Print2(h.asset.collateralFactor), Print2(w));
  }

  /** The report on the totals. */
  method Conclude(cfg: Config, gross: real, weighted: real, debt: real, positions: seq<Position>) returns (r: Report)
    ensures r.gross == Print2(gross) && r.weighted == Print2(weighted) && r.debt == Print2(debt) && r.positions == positions
    ensures r.status == AccountStatus(cfg, weighted, debt)
    ensures var hf := HealthFactor(weighted, debt); r.healthFactor == if hf.Some? then Some(Print4(hf.value)) else None
  {
    if debt <= 0.0 {
      return Report(Print2(gross), Print2(weighted), Print2(debt), None, Healthy, positions);
    }
    var hf := weighted / debt;
    return Report(Print2(gross), Print2(weighted), Print2(debt), Some(Print4(hf)), StatusOf(cfg, hf), positions);
  }

  /** The reads that stop an evaluation are the failed balance, and the failed price of a
      holding that is not zero; the price of a zero holding is never asked for. */
  lemma {:induction false} FailureIsExact(a: Asset, bal: int, price: Option<Price>)
    ensures Fails(Holding(a, None, price)) && !Fails(Holding(a, Some(0), price))
    ensures bal != 0 ==> (Fails(Holding(a, Some(bal), price)) <==> price.None?)
  {
  }

  // Order does not matter.

  /** Totals add up over the assets, and an asset counts with its value, and with its value
      times its factor. */
  lemma {:induction false} TotalsAreSums(xs: seq<Holding>, ys: seq<Holding>, h: Holding)
    ensures Gross(xs + ys) == Gross(xs) + Gross(ys) && Weighted(xs + ys) == Weighted(xs) + Weighted(ys)
    ensures h.balance.Some? && h.price.Some? ==>
      && Gross([h]) == Value(h.balance.value, h.asset.decimals, h.price.value)
      && Weighted([h]) == Value(h.balance.value, h.asset.decimals, h.price.value) * h.asset.collateralFactor
    ensures h.balance == Some(0) ==> Gross([h]) == 0.0 && Weighted([h]) == 0.0
  {
    SumConcat(Worth, xs, ys);
    SumConcat(WeightedWorth, xs, ys);
    SumOfOne(Worth, h);
    SumOfOne(WeightedWorth, h);
    if h.balance == Some(0) {
      ZeroIsWorthless(h);
    }
  }

  lemma {:induction false} SumOfOne(f: Holding -> real, h: Holding)
    ensures Sum(f, [h]) == f(h)
  {
    assert [h][..0] == [] && Sum(f, []) == 0.0;
  }

  lemma {:induction false} SumConcat(f: Holding -> real, xs: seq<Holding>, ys: seq<Holding>)
    ensures Sum(f, xs + ys) == Sum(f, xs) + Sum(f, ys)
    decreases |ys|
  {
    if ys == [] {
      assert xs + ys == xs;
    } else {
      SumConcat(f, xs, ys[..|ys| - 1]);
      assert (xs + ys)[..|xs + ys| - 1] == xs + ys[..|ys| - 1];
    }
  }

  function Without(xs: seq<Holding>, k: nat): seq<Holding>
    requires k < |xs|
  {
    xs[..k] + xs[k + 1..]
  }

  lemma {:induction false} SumWithout(f: Holding -> real, xs: seq<Holding>, k: nat)
    requires k < |xs|
    ensures Sum(f, xs) == Sum(f, Without(xs, k)) + f(xs[k])
  {
    assert xs == (xs[..k] + [xs[k]]) + xs[k + 1..];
    SumConcat(f, xs[..k] + [xs[k]], xs[k + 1..]);
    SumConcat(f, xs[..k], xs[k + 1..]);
    assert (xs[..k] + [xs[k]])[..k] == xs[..k];
  }

  lemma {:induction false} MultisetWithout(xs: seq<Holding>, k: nat)
    requires k < |xs|
    ensures multiset(Without(xs, k)) == multiset(xs) - multiset{xs[k]}
  {
    assert xs == (xs[..k] + [xs[k]]) + xs[k + 1..];
  }

  lemma {:induction false} SumOfPermutation(f: Holding -> real, xs: seq<Holding>, ys: seq<Holding>)
    requires multiset(xs) == multiset(ys)
    ensures Sum(f, xs) == Sum(f, ys)
    decreases |xs|
  {
    if xs == [] {
      assert |multiset(ys)| == 0;
    } else {
      var last := |xs| - 1;
      assert xs[last] in multiset(ys);
      var k :| 0 <= k < |ys| && ys[k] == xs[last];
      MultisetWithout(xs, last);
      MultisetWithout(ys, k);
      SumOfPermutation(f, Without(xs, last), Without(ys, k));
      SumWithout(f, xs, last);
      SumWithout(f, ys, k);
    }
  }

  lemma {:induction false} PositionsConcat(xs: seq<Holding>, ys: seq<Holding>)
    ensures Positions(xs + ys) == Positions(xs) + Positions(ys)
    decreases |ys|
  {
    if ys == [] {
      assert xs + ys == xs;
    } else {
      PositionsConcat(xs, ys[..|ys| - 1]);
      assert (xs + ys)[..|xs + ys| - 1] == xs + ys[..|ys| - 1];
    }
  }

  lemma {:induction false} PositionsWithout(xs: seq<Holding>, k: nat)
    requires k < |xs|
    ensures multiset(Positions(xs)) == multiset(Positions(Without(xs, k))) + multiset(Positions([xs[k]]))
  {
    assert xs == (xs[..k] + [xs[k]]) + xs[k + 1..];
    PositionsConcat(xs[..k] + [xs[k]], xs[k + 1..]);
    PositionsConcat(xs[..k], [xs[k]]);
    PositionsConcat(xs[..k], xs[k + 1..]);
  }

  lemma {:induction false} PositionsOfPermutation(xs: seq<Holding>, ys: seq<Holding>)
    requires multiset(xs) == multiset(ys)
    ensures multiset(Positions(xs)) == multiset(Positions(ys))
    decreases |xs|
  {
    if xs == [] {
      assert |multiset(ys)| == 0;
    } else {
      var last := |xs| - 1;
      assert xs[last] in multiset(ys);
      var k :| 0 <= k < |ys| && ys[k] == xs[last];
      MultisetWithout(xs, last);
      MultisetWithout(ys, k);
      PositionsOfPermutation(Without(xs, last), Without(ys, k));
      PositionsWithout(xs, last);
      PositionsWithout(ys, k);
    }
  }

  /** Totals, health factor and status do not depend on the order of the assets, and neither
      does failure; the positions are the same up to order. */
  lemma {:induction false} OrderDoesNotMatter(cfg: Config, xs: seq<Holding>, ys: seq<Holding>, debt: real)
    requires multiset(xs) == multiset(ys)
    ensures ReportOf(cfg, xs, debt).(positions := []) == ReportOf(cfg, ys, debt).(positions := [])
    ensures multiset(ReportOf(cfg, xs, debt).positions) == multiset(ReportOf(cfg, ys, debt).positions)
    ensures (exists i :: 0 <= i < |xs| && Fails(xs[i])) <==> (exists i :: 0 <= i < |ys| && Fails(ys[i]))
  {
    SumOfPermutation(Worth, xs, ys);
    SumOfPermutation(WeightedWorth, xs, ys);
    PositionsOfPermutation(xs, ys);
    assert forall h :: h in xs <==> h in multiset(xs);
    assert forall h :: h in ys <==> h in multiset(ys);
    if i :| 0 <= i < |xs| && Fails(xs[i]) {
      assert xs[i] in ys;
    }
    if i :| 0 <= i < |ys| && Fails(ys[i]) {
      assert ys[i] in xs;
    }
  }

  // Risk is monotone.

  /** Non-negative balance, price and factor. */
  predicate NonNegative(h: Holding) {
    && h.asset.collateralFactor >= 0.0
    && (h.balance.Some? ==> h.balance.value >= 0)
    && (h.price.Some? ==> h.price.value.value >= 0)
  }

  /** The same asset with no smaller balance, price or factor. */
  predicate NoLess(h: Holding, g: Holding) {
    && h.asset.decimals == g.asset.decimals
    && h.asset.collateralFactor <= g.asset.collateralFactor
    && h.balance.Some? && g.balance.Some? && h.balance.value <= g.balance.value
    && (h.price.Some? ==> g.price.Some? && PriceRat(h.price.value) <= PriceRat(g.price.value))
  }

  lemma {:induction false} Product(a: real, b: real, c: real, d: real)
    requires 0.0 <= a <= b && 0.0 <= c <= d
    ensures 0.0 <= a * c <= b * d
  {
    assert a * c <= b * c;
    assert b * c <= b * d;
  }

  lemma {:induction false} Quotient(a: real, b: real, d: real)
    requires a <= b && d > 0.0
    ensures a / d <= b / d
    ensures 0.0 <= a ==> 0.0 <= a / d
  {
    var x, y := a / d, b / d;
    assert x * d == a && y * d == b;
    assert (y - x) * d == b - a;
  }

  lemma {:induction false} WorthNonNegative(h: Holding)
    requires NonNegative(h)
    ensures 0.0 <= Worth(h) && 0.0 <= WeightedWorth(h)
  {
    if h.balance.Some? && h.price.Some? {
      Quotient(0.0, h.balance.value as real, Pow10(h.asset.decimals) as real);
      Quotient(0.0, h.price.value.value as real, Pow10(h.price.value.decimals) as real);
      Quotient(h.balance.value as real, h.balance.value as real, Pow10(h.asset.decimals) as real);
      Quotient(h.price.value.value as real, h.price.value.value as real, Pow10(h.price.value.decimals) as real);
      var q, p := h.balance.value as real / Pow10(h.asset.decimals) as real, PriceRat(h.price.value);
      Product(q, q, p, p);
    }
    Product(Worth(h), Worth(h), h.asset.collateralFactor, h.asset.collateralFactor);
  }

  lemma {:induction false} WorthMonotone(h: Holding, g: Holding)
    requires NonNegative(h) && NonNegative(g) && NoLess(h, g)
    ensures Worth(h) <= Worth(g) && WeightedWorth(h) <= WeightedWorth(g)
  {
    WorthNonNegative(h);
    WorthNonNegative(g);
    if h.price.Some? {
      var d := Pow10(h.asset.decimals) as real;
      Quotient(h.balance.value as real, g.balance.value as real, d);
      Quotient(h.price.value.value as real, h.price.value.value as real, Pow10(h.price.value.decimals) as real);
      Product(h.balance.value as real / d, g.balance.value as real / d, PriceRat(h.price.value), PriceRat(g.price.value));
    }
    Product(Worth(h), Worth(g), h.asset.collateralFactor, g.asset.collateralFactor);
  }

  /** The positive-price guard on a feed's answer. */
  function OraclePrice(answer: Option<int>, decimals: nat): Option<Price> {
    if answer.None? || answer.value <= 0 then None else Some(Price(answer.value, decimals))
  }

  /** The guard lets exactly the positive answers through, as prices with the feed's decimals. */
  lemma {:induction false} GuardIsExact(answer: Option<int>, decimals: nat)
    ensures var p := OraclePrice(answer, decimals);
      && (p.Some? <==> answer.Some? && answer.value > 0)
      && (p.Some? ==> p.value.decimals == decimals && PriceRat(p.value) * Pow10(decimals) as real == answer.value as real)
  {
  }

  /** Raising a balance, a factor or a feed's answer, also across the price guard, gives a
      holding that is no less. */
  lemma {:induction false} RaisedReadsAreNoLess(a: Asset, factor: real, bal: nat, more: nat, answer: int, higher: int, decimals: nat)
    requires 0.0 <= a.collateralFactor <= factor && bal <= more && answer <= higher
    ensures var h := Holding(a, Some(bal), OraclePrice(Some(answer), decimals));
      var g := Holding(a.(collateralFactor := factor), Some(more), OraclePrice(Some(higher), decimals));
      NonNegative(h) && NonNegative(g) && NoLess(h, g) && (bal > 0 && Fails(g) ==> Fails(h))
  {
    Quotient(answer as real, higher as real, Pow10(decimals) as real);
  }

  lemma {:induction false} SumMonotone(hs: seq<Holding>, gs: seq<Holding>)
    requires |hs| == |gs|
    requires forall i :: 0 <= i < |hs| ==> NonNegative(hs[i]) && NonNegative(gs[i]) && NoLess(hs[i], gs[i])
    ensures 0.0 <= Weighted(hs) <= Weighted(gs) && Gross(hs) <= Gross(gs)
  {
    if hs != [] {
      SumMonotone(hs[..|hs| - 1], gs[..|gs| - 1]);
      WorthMonotone(hs[|hs| - 1], gs[|gs| - 1]);
      WorthNonNegative(hs[|hs| - 1]);
    }
  }

  lemma {:induction false} MoreDebtLowersHealth(w: real, d: real, e: real)
    requires 0.0 <= w && 0.0 < d <= e
    ensures w / e <= w / d
  {
    var x, y := w / e, w / d;
    Quotient(w, w, e);
    assert x * e == w && y * d == w;
    Product(x, x, d, e);
    assert (y - x) * d == x * e - x * d;
    Cancel(y - x, d);
  }

  lemma {:induction false} Cancel(z: real, d: real)
    requires d > 0.0 && z * d >= 0.0
    ensures z >= 0.0
  {
  }

  /** Raising balances, prices or factors never worsens the status, and raising the debt never
      improves it, also from no debt to some. */
  lemma {:induction false} RiskIsMonotone(cfg: Config, hs: seq<Holding>, gs: seq<Holding>, debt: real, more: real)
    requires |hs| == |gs| && debt <= more
    requires forall i :: 0 <= i < |hs| ==> NonNegative(hs[i]) && NonNegative(gs[i]) && NoLess(hs[i], gs[i])
    ensures Severity(ReportOf(cfg, gs, debt).status) <= Severity(ReportOf(cfg, hs, more).status)
  {
    SumMonotone(hs, gs);
    if debt > 0.0 {
      Quotient(Weighted(hs), Weighted(gs), debt);
      MoreDebtLowersHealth(Weighted(hs), debt, more);
    }
  }

  /** With factors between zero and one, borrowing power never exceeds the holdings. */
  lemma {:induction false} WeightedAtMostGross(hs: seq<Holding>)
    requires forall i :: 0 <= i < |hs| ==> NonNegative(hs[i]) && hs[i].asset.collateralFactor <= 1.0
    ensures 0.0 <= Weighted(hs) <= Gross(hs)
  {
    if hs != [] {
      WeightedAtMostGross(hs[..|hs| - 1]);
      var h := hs[|hs| - 1];
      WorthNonNegative(h);
      Product(Worth(h), Worth(h), h.asset.collateralFactor, 1.0);
    }
  }

  // What a report says.

  lemma {:induction false} BelowIff(w: real, debt: real, x: real)
    requires debt > 0.0
    ensures w / debt < x <==> w < x * debt
  {
    var y := w / debt;
    assert y * debt == w;
    if y < x {
      assert (x - y) * debt > 0.0;
    } else {
      assert (y - x) * debt >= 0.0;
    }
  }

  /** `p` ten-thousandths are `w / debt` to half a ten-thousandth. */
  ghost predicate Quotes(p: int, w: real, debt: real) {
    -debt <= 2.0 * (p as real * debt - 10000.0 * w) <= debt
  }

  lemma {:induction false} PrintedQuotient(w: real, debt: real)
    requires debt > 0.0
    ensures Quotes(Print4(w / debt), w, debt)
  {
    var y := w / debt;
    assert y * debt == w;
    RoundIsNearest(y * 10000.0);
    NearQuotient(Print4(y), y, debt, w);
  }

  lemma {:induction false} NearQuotient(p: int, y: real, debt: real, w: real)
    requires debt > 0.0 && y * debt == w && -0.5 <= p as real - y * 10000.0 <= 0.5
    ensures Quotes(p, w, debt)
  {
    ScaleOff(p as real, y, debt);
  }

  lemma {:induction false} ScaleOff(p: real, y: real, debt: real)
    requires debt > 0.0 && -1.0 <= 2.0 * (p - 10000.0 * y) <= 1.0
    ensures -debt <= 2.0 * (p * debt - 10000.0 * (y * debt)) <= debt
  {
    var off := 2.0 * (p - 10000.0 * y);
    BoundTimes(off, debt);
    assert off * debt == 2.0 * (p * debt - 10000.0 * (y * debt));
  }

  lemma {:induction false} BoundTimes(off: real, debt: real)
    requires debt > 0.0 && -1.0 <= off <= 1.0
    ensures -debt <= off * debt <= debt
  {
    assert (1.0 - off) * debt >= 0.0;
    assert (off + 1.0) * debt >= 0.0;
  }

  lemma {:induction false} StatusCompares(cfg: Config, w: real, debt: real)
    requires debt > 0.0
    ensures AccountStatus(cfg, w, debt) == Liquidatable <==> w < cfg.liquidationHF * debt
    ensures AccountStatus(cfg, w, debt) == MarginCall <==> w >= cfg.liquidationHF * debt && w < cfg.marginCallHF * debt
  {
    BelowIff(w, debt, cfg.liquidationHF);
    BelowIff(w, debt, cfg.marginCallHF);
  }

  /** With debt, the status compares weighted collateral with each threshold times the debt,
      and the printed health factor is their quotient to half a unit of its last digit; without
      debt there is none, and the account is healthy. */
  lemma {:induction false} StatusIsExact(cfg: Config, hs: seq<Holding>, debt: real)
    ensures var r := ReportOf(cfg, hs, debt); var w := Weighted(hs);
      if debt <= 0.0 then r.healthFactor == None && r.status == Healthy
      else
        && (r.status == Liquidatable <==> w < cfg.liquidationHF * debt)
        && (r.status == MarginCall <==> w >= cfg.liquidationHF * debt && w < cfg.marginCallHF * debt)
        && r.healthFactor.Some? && Quotes(r.healthFactor.value, w, debt)
  {
    if debt > 0.0 {
      StatusCompares(cfg, Weighted(hs), debt);
      PrintedQuotient(Weighted(hs), debt);
    }
  }

  /** `p` hundredths are `x` to half a hundredth. */
  ghost predicate Cents(p: int, x: real) {
    -1.0 <= 2.0 * (p as real - 100.0 * x) <= 1.0
  }

  lemma {:induction false} PrintedCents(x: real)
    ensures Cents(Print2(x), x)
  {
    RoundIsNearest(x * 100.0);
  }

  /** The printed totals and the printed debt are the exact ones to half a cent. */
  lemma {:induction false} TotalsArePrintedToTheCent(cfg: Config, hs: seq<Holding>, debt: real)
    ensures var r := ReportOf(cfg, hs, debt);
      Cents(r.gross, Gross(hs)) && Cents(r.weighted, Weighted(hs)) && Cents(r.debt, debt)
  {
    PrintedCents(Gross(hs));
    PrintedCents(Weighted(hs));
    PrintedCents(debt);
  }

  /** The position shows the asset's symbol and raw balance, and its price, value, factor and
      weighted value to half a unit of the last digit. */
  ghost predicate Shows(p: Position, h: Holding) {
    && h.balance.Some? && h.price.Some? && p.symbol == h.asset.symbol && p.balanceRaw == h.balance.value
    && Cents(p.priceUSD, h.price.value.value as real / Pow10(h.price.value.decimals) as real)
    && Cents(p.collateralFactor, h.asset.collateralFactor)
    && Cents(p.valueUSD, Gross([h])) && Cents(p.weightedUSD, Weighted([h]))
  }

  lemma {:induction false} PositionShows(h: Holding)
    requires h.balance.Some? && h.price.Some?
    ensures Shows(PositionOf(h), h)
  {
    PrintedCents(PriceRat(h.price.value));
    PrintedCents(Worth(h));
    PrintedCents(h.asset.collateralFactor);
    PrintedCents(WeightedWorth(h));
    SumOfOne(Worth, h);
    SumOfOne(WeightedWorth, h);
  }

  ghost predicate Ascending(ks: seq<nat>, bound: nat) {
    (forall k :: 0 <= k < |ks| ==> ks[k] < bound) && forall k, l :: 0 <= k < l < |ks| ==> ks[k] < ks[l]
  }

  /** When no read fails, the positions are those of the non-zero holdings, each once, in the
      order of the assets. */
  lemma {:induction false} PositionsAreHoldings(hs: seq<Holding>) returns (held: seq<nat>)
    requires forall i :: 0 <= i < |hs| ==> hs[i].balance.Some? && (hs[i].balance.value == 0 || hs[i].price.Some?)
    ensures Ascending(held, |hs|) && forall i :: 0 <= i < |hs| ==> (i in held <==> hs[i].balance.value != 0)
    ensures |Positions(hs)| == |held| && forall k :: 0 <= k < |held| ==> Shows(Positions(hs)[k], hs[held[k]])
  {
    held := [];
    if hs != [] {
      var front, h := hs[..|hs| - 1], hs[|hs| - 1];
      held := PositionsAreHoldings(front);
      assert forall i :: 0 <= i < |front| ==> front[i] == hs[i];
      if h.balance.value != 0 {
        PositionShows(h);
        held := held + [|front|];
      }
    }
  }

  // What printing loses.

  /** The printed integer is nearest, and a tie is printed away from zero. */
  lemma {:induction false} RoundIsNearest(x: real)
    ensures -0.5 <= Round(x) as real - x <= 0.5
    ensures x >= 0.0 ==> -0.5 < Round(x) as real - x
    ensures x <= 0.0 ==> Round(x) as real - x < 0.5
  {
  }

  function SumValues(ps: seq<Position>): int {
    if ps == [] then 0 else SumValues(ps[..|ps| - 1]) + ps[|ps| - 1].valueUSD
  }

  function SumWeighted(ps: seq<Position>): int {
    if ps == [] then 0 else SumWeighted(ps[..|ps| - 1]) + ps[|ps| - 1].weightedUSD
  }

  ghost predicate Near(a: int, x: real, halves: nat) {
    -(halves as real) <= 2.0 * (a as real - x) <= halves as real
  }

  lemma {:induction false} PositionsAddUp(hs: seq<Holding>)
    requires forall i :: 0 <= i < |hs| ==> !Fails(hs[i])
    ensures Near(SumValues(Positions(hs)), Gross(hs) * 100.0, |Positions(hs)|)
    ensures Near(SumWeighted(Positions(hs)), Weighted(hs) * 100.0, |Positions(hs)|)
  {
    if hs != [] {
      var front, h := hs[..|hs| - 1], hs[|hs| - 1];
      PositionsAddUp(front);
      if Held(h) {
        RoundIsNearest(Worth(h) * 100.0);
        RoundIsNearest(WeightedWorth(h) * 100.0);
        assert (Positions(front) + [PositionOf(h)])[..|Positions(front)|] == Positions(front);
      } else {
        ZeroIsWorthless(h);
        assert Positions(hs) == Positions(front);
      }
    }
  }

  /** In cents, the printed values of k positions differ from the printed total by at most
      (k + 1) / 2; likewise the weighted ones. */
  lemma {:induction false} PrintedTotalsAgree(cfg: Config, hs: seq<Holding>, debt: real)
    requires forall i :: 0 <= i < |hs| ==> !Fails(hs[i])
    ensures var r := ReportOf(cfg, hs, debt); var k := |r.positions|;
      && -(k + 1) <= 2 * (SumValues(r.positions) - r.gross) <= k + 1
      && -(k + 1) <= 2 * (SumWeighted(r.positions) - r.weighted) <= k + 1
  {
    PositionsAddUp(hs);
    RoundIsNearest(Gross(hs) * 100.0);
    RoundIsNearest(Weighted(hs) * 100.0);
  }

  /** For thresholds printed exactly with four digits, `l` below `m`, the status read off the
      printed health factor is the reported one except when the print is a threshold that the
      true value falls short of; then the reported one is one step worse. */
  lemma {:induction false} PrintedHealthTellsStatus(l: int, m: int, hf: real)
    requires l < m
    ensures var cfg := Config(m as real / 10000.0, l as real / 10000.0);
      var printed := Print4(hf); var shown := StatusOf(cfg, printed as real / 10000.0); var actual := StatusOf(cfg, hf);
      && (shown == actual <==> !((printed == l && hf < cfg.liquidationHF) || (printed == m && hf < cfg.marginCallHF)))
      && (shown != actual ==> Severity(actual) == Severity(shown) + 1)
  {
    RoundIsNearest(hf * 10000.0);
  }
}
