/** The cumulative prices over runs of transactions. */
module Oracle {
  import opened U128
  import opened Ledgers
  import opened Pool
  import opened Swaps
  import opened Conservation

  const TWO_128 := U128_MAX + 1
  const TWO_64 := U64_MAX + 1

  /** The transactions that write the reserves, and with them the prices. */
  predicate Updates(g: Genesis, s: State, step: Step) {
    SetsReserves(step.op) && Dispatch(g, s, step.op, step.now).status.Ok?
  }

  /** The cumulative price of `asset` in the other one. */
  function Cumulative(s: State, asset: Asset): u128 { if asset.Asset0? then s.price0 else s.price1 }

  function Added(g: Genesis, s: State, step: Step, asset: Asset): nat {
    if Updates(g, s, step) then PriceStep(Reserve(s, Opposite(asset)), Reserve(s, asset), Elapsed(s, step.now)) else 0
  }

  /** How a state's price fields follow from those of an earlier state. */
  predicate PricesFrom(s: State, t: State, updated: bool, now: u64) {
    if updated then
      && t.price0 == (s.price0 + PriceStep(s.reserve1, s.reserve0, Elapsed(s, now))) % TWO_128
      && t.price1 == (s.price1 + PriceStep(s.reserve0, s.reserve1, Elapsed(s, now))) % TWO_128
      && t.timestampLast == now
    else
      t.price0 == s.price0 && t.price1 == s.price1 && t.timestampLast == s.timestampLast
  }

  /** The fields that an update reads. */
  predicate SameOracle(s: State, t: State) {
    && s.reserve0 == t.reserve0 && s.reserve1 == t.reserve1
    && s.price0 == t.price0 && s.price1 == t.price1 && s.timestampLast == t.timestampLast
  }

  lemma UpdatePrices(s: State, t: State, balance0: u128, balance1: u128, now: u64)
    requires SameOracle(s, t)
    ensures PricesFrom(s, Update(t, balance0, balance1, now), true, now)
  {
    hide PriceStep, OverflowingAdd;
    assert Elapsed(s, now) == Elapsed(t, now);
    hide Elapsed;
  }

  lemma MintPrices(g: Genesis, s: State, t: State, to: Account, now: u64)
    requires SameOracle(s, t)
    ensures var r := Mint(g, t, to, now); r.status.Ok? ==> PricesFrom(s, r.state, true, now)
  {
    hide FeeLiquidity, Liquidity, Update, PricesFrom, KLastAfter;
    var liquidity := MintedLiquidity(g, t);
    var s1 := MintFee(t);
    var s2 := if s1.totalSupply == 0 then MintLp(s1, g.zero, MINIMUM_LIQUIDITY) else s1;
    var s3 := MintLp(s2, to, liquidity);
    UpdatePrices(s, s3, Held0(g, t), Held1(g, t), now);
    var s4 := Update(s3, Held0(g, t), Held1(g, t), now);
    PricesDepend(s, s4, s4.(kLast := KLastAfter(s4, t.reserve0, t.reserve1)), now);
  }

  lemma PricesDepend(s: State, t: State, u: State, now: u64)
    requires u == t.(kLast := u.kLast)
    ensures PricesFrom(s, t, true, now) == PricesFrom(s, u, true, now)
  {
    hide PriceStep, Elapsed;
  }

  lemma BurnPrices(g: Genesis, s: State, t: State, to: Account, now: u64)
    requires SameOracle(s, t)
    ensures var r := Burn(g, t, to, now); r.status.Ok? ==> PricesFrom(s, r.state, true, now)
  {
    hide FeeLiquidity, Share, Update, PricesFrom, KLastAfter, TransferTokens;
    var s1 := MintFee(t);
    var liquidity := BalanceIn(t.lp, g.contract);
    var amount0 := Share(liquidity, Held0(g, t), s1.totalSupply);
    var amount1 := Share(liquidity, Held1(g, t), s1.totalSupply);
    var s2 := BurnLp(s1, g.contract, liquidity).state;
    PaymentFrame(s2, g.contract, to, Asset0, amount0);
    var s3 := TransferTokens(s2, g.contract, to, Asset0, amount0).state;
    PaymentFrame(s3, g.contract, to, Asset1, amount1);
    var s4 := TransferTokens(s3, g.contract, to, Asset1, amount1).state;
    UpdatePrices(s, s4, Held0(g, s4), Held1(g, s4), now);
    var s5 := Update(s4, Held0(g, s4), Held1(g, s4), now);
    PricesDepend(s, s5, s5.(kLast := KLastAfter(s5, t.reserve0, t.reserve1)), now);
  }

  lemma SwapPrices(g: Genesis, s: State, t: State, out0: u128, out1: u128, to: Account, now: u64)
    requires SameOracle(s, t)
    ensures var r := Swap(g, t, out0, out1, to, now); r.status.Ok? ==> PricesFrom(s, r.state, true, now)
  {
    hide KCheck, AmountIn, Update, PricesFrom, TransferTokens;
    PaymentFrame(t, g.contract, to, Asset0, out0);
    var s1 := PayOut(t, g.contract, to, Asset0, out0).state;
    PaymentFrame(s1, g.contract, to, Asset1, out1);
    var s2 := PayOut(s1, g.contract, to, Asset1, out1).state;
    UpdatePrices(s, s2, Held0(g, s2), Held1(g, s2), now);
  }

  lemma DepositPrices(g: Genesis, s: State, caller: Account, amount0: u128, amount1: u128, now: u64)
    ensures var r := Deposit(g, s, caller, amount0, amount1, now); r.status.Ok? ==> PricesFrom(s, r.state, true, now)
  {
    hide Mint, PricesFrom, TransferTokens;
    PaymentFrame(s, caller, g.contract, Asset0, amount0);
    var s1 := TransferTokens(s, caller, g.contract, Asset0, amount0).state;
    PaymentFrame(s1, caller, g.contract, Asset1, amount1);
    MintPrices(g, s, TransferTokens(s1, caller, g.contract, Asset1, amount1).state, caller, now);
  }

  lemma SwapOpPrices(g: Genesis, s: State, op: Op, now: u64)
    requires IsSwap(op)
    ensures var r := Exec(g, s, op, now); r.status.Ok? ==> PricesFrom(s, r.state, true, now)
  {
    hide Exec, Price, Swap, PricesFrom, TransferTokens;
    SwapIs(g, s, op, now);
    var price := Price(s, op);
    if price.Amount? {
      PaymentFrame(s, op.caller, g.contract, AssetIn(op), price.value);
      SwapPrices(g, s, PaySwap(g, s, op, price.value).state, Out(op, Asset0), Out(op, Asset1), op.caller, now);
    }
  }

  /** One transaction, whatever it is, whoever calls it and whatever the state. */
  lemma StepPrices(g: Genesis, s: State, step: Step)
    ensures PricesFrom(s, Next(g, s, step), Updates(g, s, step), step.now)
  {
    hide Deposit, Matching, Burn, Update, TransferTokens, TransferLiquidity, Swap, GetAmountIn, PriceStep, Elapsed;
    var now := step.now;
    match step.op {
      case DepositAsset1(caller, amount) =>
        var matching := Matching(s, amount, s.reserve0, s.reserve1);
        if matching.Amount? {
          DepositPrices(g, s, caller, amount, matching.value, now);
        }
      case DepositAsset2(caller, amount) =>
        var matching := Matching(s, amount, s.reserve1, s.reserve0);
        if matching.Amount? {
          DepositPrices(g, s, caller, matching.value, amount, now);
        }
      case Withdraw(caller, amount) =>
        TransferLiquidityFrame(s, caller, g.contract, amount);
        BurnPrices(g, s, TransferLiquidity(s, caller, g.contract, amount).state, caller, now);
      case SwapAsset1ForAsset2(_, _) => SwapOpPrices(g, s, step.op, now);
      case SwapAsset2ForAsset1(_, _) => SwapOpPrices(g, s, step.op, now);
      case Skim(caller) =>
        SkimAssetConserves(s, g.contract, caller, Asset0, s.reserve0);
        var s1 := SkimAsset(s, g.contract, caller, Asset0, s.reserve0).state;
        SkimAssetConserves(s1, g.contract, caller, Asset1, s.reserve1);
      case Sync(_) =>
        UpdatePrices(s, s, Held0(g, s), Held1(g, s), now);
      case OutsideTransfer(caller, to, asset, amount) =>
        PaymentFrame(s, caller, to, asset, amount);
      case SetFeeTo(_, _) =>
    }
  }

  // ----- telescoping --------------------------------------------------------------------

  function Sum(g: Genesis, s: State, steps: seq<Step>, asset: Asset): nat
    decreases steps
  {
    if steps == [] then 0 else Added(g, s, steps[0], asset) + Sum(g, Next(g, s, steps[0]), steps[1..], asset)
  }

  lemma AddMod(a: nat, b: nat, c: nat)
    ensures ((a + b) % TWO_128 + c) % TWO_128 == (a + (b + c)) % TWO_128
  {}

  lemma StepAdds(g: Genesis, s: State, step: Step, asset: Asset)
    ensures Cumulative(Next(g, s, step), asset) == (Cumulative(s, asset) + Added(g, s, step, asset)) % TWO_128
  {
    hide Next, Updates, PriceStep, Elapsed;
    StepPrices(g, s, step);
  }

  /** Over every run the cumulative price of either asset grows, modulo 2^128, by the sum of the
      old price at each update times the time since the update before it. */
  lemma {:induction false} PricesTelescope(g: Genesis, s: State, steps: seq<Step>, asset: Asset)
    ensures Cumulative(Run(g, s, steps), asset) == (Cumulative(s, asset) + Sum(g, s, steps, asset)) % TWO_128
    decreases steps
  {
    hide Next, Added, Cumulative;
    if steps != [] {
      var t := Next(g, s, steps[0]);
      StepAdds(g, s, steps[0], asset);
      PricesTelescope(g, t, steps[1..], asset);
      AddMod(Cumulative(s, asset), Added(g, s, steps[0], asset), Sum(g, t, steps[1..], asset));
    }
  }

  // ----- how exact a step is ------------------------------------------------------------

  /** The highest price whose product with every elapsed time fits: 2^64 + 1. */
  const PRICE_LIMIT := U64_MAX + 2

  /** A step is the product as far as it fits 128 bits, and nothing without reserves. */
  lemma StepIs(reserveX: u128, reserveY: u128, elapsed: u64)
    ensures if reserveX > 0 && reserveY > 0 then
              PriceStep(reserveX, reserveY, elapsed) == Saturate(Quotient(reserveX, reserveY) * elapsed)
            else PriceStep(reserveX, reserveY, elapsed) == 0
  {
    hide Quotient;
  }

  /** It is the exact product if and only if that fits. */
  lemma StepExactIff(reserveX: u128, reserveY: u128, elapsed: u64)
    requires reserveX > 0 && reserveY > 0
    ensures PriceStep(reserveX, reserveY, elapsed) == Quotient(reserveX, reserveY) * elapsed
            <==> Quotient(reserveX, reserveY) * elapsed <= U128_MAX
  {
    hide PriceStep, Quotient;
    StepIs(reserveX, reserveY, elapsed);
  }

  /** The elapsed time counts modulo 2^64. */
  lemma ElapsedIs(s: State, now: u64)
    ensures Elapsed(s, now) == (now - s.timestampLast) % TWO_64
  {}

  /** It is so for every elapsed time if and only if the price is at most 2^64 + 1. */
  lemma PriceExactIff(reserveX: u128, reserveY: u128)
    requires reserveX > 0 && reserveY > 0
    ensures (forall elapsed: u64 :: PriceStep(reserveX, reserveY, elapsed) == Quotient(reserveX, reserveY) * elapsed)
            <==> Quotient(reserveX, reserveY) <= PRICE_LIMIT
  {
    hide PriceStep, Quotient;
    var price := Quotient(reserveX, reserveY);
    if price <= PRICE_LIMIT {
      forall elapsed: u64
        ensures PriceStep(reserveX, reserveY, elapsed) == price * elapsed
      {
        StepExactIff(reserveX, reserveY, elapsed);
        PriceTimesElapsed(price, elapsed);
      }
    } else {
      StepExactIff(reserveX, reserveY, U64_MAX);
      MulMonotone(PRICE_LIMIT + 1, price, U64_MAX);
      assert PriceStep(reserveX, reserveY, U64_MAX) != price * U64_MAX;
    }
  }

  lemma PriceTimesElapsed(price: nat, elapsed: u64)
    requires price <= PRICE_LIMIT
    ensures price * elapsed <= U128_MAX
  {
    MulMonotone(price, PRICE_LIMIT, elapsed);
    MulMonotone(elapsed, U64_MAX, PRICE_LIMIT);
  }

  // ----- averages -----------------------------------------------------------------------

  /** Time does not run backwards, and at every update of the run the price of `asset` in the
      other one is between `low` and `high`. */
  predicate PriceWithin(g: Genesis, s: State, steps: seq<Step>, asset: Asset, low: nat, high: nat)
    decreases steps
  {
    steps != [] ==>
      && (Updates(g, s, steps[0]) ==>
            && s.timestampLast <= steps[0].now
            && s.reserve0 > 0 && s.reserve1 > 0
            && low <= Quotient(Reserve(s, Opposite(asset)), Reserve(s, asset)) <= high)
      && PriceWithin(g, Next(g, s, steps[0]), steps[1..], asset, low, high)
  }

  lemma {:induction false} SumWithin(g: Genesis, s: State, steps: seq<Step>, asset: Asset, low: nat, high: nat)
    requires PriceWithin(g, s, steps, asset, low, high) && high <= PRICE_LIMIT
    ensures var t := Run(g, s, steps);
            && s.timestampLast <= t.timestampLast
            && var duration: nat := t.timestampLast - s.timestampLast;
            low * duration <= Sum(g, s, steps, asset) <= high * duration
    decreases steps
  {
    hide Dispatch, PriceStep, Elapsed, SetsReserves, Quotient, Reserve;
    if steps != [] {
      var t := Next(g, s, steps[0]);
      StepPrices(g, s, steps[0]);
      SumWithin(g, t, steps[1..], asset, low, high);
      var u := Run(g, t, steps[1..]);
      var rest: nat := u.timestampLast - t.timestampLast;
      if Updates(g, s, steps[0]) {
        AddedWithin(s, steps[0].now, asset, low, high);
        SumsAdd(low, high, steps[0].now - s.timestampLast, rest);
      }
    }
  }

  lemma AddedWithin(s: State, now: u64, asset: Asset, low: nat, high: nat)
    requires s.timestampLast <= now && s.reserve0 > 0 && s.reserve1 > 0
    requires low <= Quotient(Reserve(s, Opposite(asset)), Reserve(s, asset)) <= high <= PRICE_LIMIT
    ensures var elapsed: nat := now - s.timestampLast;
            var step := PriceStep(Reserve(s, Opposite(asset)), Reserve(s, asset), Elapsed(s, now));
            low * elapsed <= step <= high * elapsed
  {
    hide PriceStep, Quotient, Elapsed;
    var elapsed: nat := now - s.timestampLast;
    var reserveX, reserveY := Reserve(s, Opposite(asset)), Reserve(s, asset);
    ElapsedForward(s, now);
    PriceExactIff(reserveX, reserveY);
    var price := Quotient(reserveX, reserveY);
    assert PriceStep(reserveX, reserveY, elapsed) == price * elapsed;
    MulMonotone(low, price, elapsed);
    MulMonotone(price, high, elapsed);
  }

  lemma SumsAdd(low: nat, high: nat, elapsed: nat, rest: nat)
    ensures low * (elapsed + rest) == low * elapsed + low * rest
    ensures high * (elapsed + rest) == high * elapsed + high * rest
  {}

  lemma ElapsedForward(s: State, now: u64)
    requires s.timestampLast <= now
    ensures Elapsed(s, now) == now - s.timestampLast
  {}

  /** The use of the accumulators: two snapshots give, also across a wrap-around, a mean price
      that lies within the bounds between which the price moved. */
  lemma MeanPriceWithin(g: Genesis, s: State, steps: seq<Step>, asset: Asset, low: nat, high: nat)
    requires PriceWithin(g, s, steps, asset, low, high) && high <= PRICE_LIMIT
    ensures var t := Run(g, s, steps);
            && s.timestampLast <= t.timestampLast
            && var duration: nat := t.timestampLast - s.timestampLast;
            low * duration <= (Cumulative(t, asset) - Cumulative(s, asset)) % TWO_128 <= high * duration
  {
    hide Run, Sum, PriceWithin, Cumulative;
    SumWithin(g, s, steps, asset, low, high);
    PricesTelescope(g, s, steps, asset);
    var t := Run(g, s, steps);
    var duration: nat := t.timestampLast - s.timestampLast;
    MulMonotone(high, PRICE_LIMIT, duration);
    PriceTimesElapsed(PRICE_LIMIT, duration);
    Difference(Cumulative(s, asset), Sum(g, s, steps, asset), Cumulative(t, asset));
  }

  lemma Difference(a: nat, sum: nat, b: nat)
    requires a < TWO_128 && sum < TWO_128 && b == (a + sum) % TWO_128
    ensures (b - a) % TWO_128 == sum
  {
    if a + sum < TWO_128 {
      assert b == a + sum;
    } else {
      WrapOnce(a + sum, TWO_128);
      assert b - a == sum - TWO_128;
      if sum > 0 {
        WrapUp(sum - TWO_128, TWO_128);
      }
    }
  }
}
