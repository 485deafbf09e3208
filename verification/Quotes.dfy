/** What the quoted prices mean for the K check and for the constant product. */
module Quotes {
  import opened U128
  import opened Ledgers
  import opened Pool
  import opened Swaps
  import opened Conservation
  import opened Safety
  import opened Growth

  /** The K inequality in exact arithmetic, for a swap that takes `out` and brings `amountIn`
      on reserves that the contract held exactly. */
  ghost predicate ExactK(amountIn: nat, out: nat, reserveIn: nat, reserveOut: nat)
    requires out <= reserveOut
  {
    ExactAdjusted(reserveIn + amountIn, amountIn) * ExactAdjusted(reserveOut - out, 0)
    >= 1000000 * (reserveIn * reserveOut)
  }

  lemma ExactKIs(amountIn: nat, out: nat, reserveIn: nat, reserveOut: nat)
    requires out <= reserveOut
    ensures ExactK(amountIn, out, reserveIn, reserveOut)
            <==> 997 * (amountIn * (reserveOut - out)) >= 1000 * (reserveIn * out)
  {
    var left: nat := reserveOut - out;
    assert ExactAdjusted(reserveIn + amountIn, amountIn) == 1000 * reserveIn + 997 * amountIn;
    assert (1000 * reserveIn + 997 * amountIn) * (1000 * left)
        == 1000000 * (reserveIn * left) + 997000 * (amountIn * left);
    assert reserveIn * reserveOut == reserveIn * left + reserveIn * out;
  }

  // ----- the amount that comes out ------------------------------------------------------

  lemma OutIs(amountIn: nat, out: nat, reserveIn: nat, reserveOut: nat)
    requires out <= reserveOut
    ensures ExactK(amountIn, out, reserveIn, reserveOut)
            <==> out * (1000 * reserveIn + 997 * amountIn) <= 997 * amountIn * reserveOut
  {
    ExactKIs(amountIn, out, reserveIn, reserveOut);
    assert amountIn * (reserveOut - out) == amountIn * reserveOut - amountIn * out;
    assert out * (1000 * reserveIn + 997 * amountIn) == 1000 * (reserveIn * out) + 997 * (amountIn * out);
    assert 997 * amountIn * reserveOut == 997 * (amountIn * reserveOut);
  }

  lemma AmountOutIs(amountIn: u128, reserveIn: u128, reserveOut: u128)
    requires amountIn > 0 && reserveIn > 0 && reserveOut > 0
    requires 997 * amountIn * reserveOut <= U128_MAX && 1000 * reserveIn + 997 * amountIn <= U128_MAX
    ensures GetAmountOut(amountIn, reserveIn, reserveOut)
         == Amount(Quotient(997 * amountIn * reserveOut, 1000 * reserveIn + 997 * amountIn))
  {}

  /** `get_amount_out` is the exact optimum: of all amounts it is the largest that the
      K inequality allows, and it stays below the reserve. */
  lemma AmountOutOptimal(amountIn: u128, reserveIn: u128, reserveOut: u128)
    requires amountIn > 0 && reserveIn > 0 && reserveOut > 0
    requires 997 * amountIn * reserveOut <= U128_MAX && 1000 * reserveIn + 997 * amountIn <= U128_MAX
    ensures var r := GetAmountOut(amountIn, reserveIn, reserveOut);
            && r.Amount? && r.value < reserveOut
            && forall y: nat :: y <= reserveOut ==> (ExactK(amountIn, y, reserveIn, reserveOut) <==> y <= r.value)
  {
    hide ExactK;
    AmountOutIs(amountIn, reserveIn, reserveOut);
    hide GetAmountOut;
    var numerator, denominator := 997 * amountIn * reserveOut, 1000 * reserveIn + 997 * amountIn;
    forall y: nat | y <= reserveOut
      ensures ExactK(amountIn, y, reserveIn, reserveOut) <==> y <= Quotient(numerator, denominator)
    {
      OutIs(amountIn, y, reserveIn, reserveOut);
      AtMostQuotient(y, numerator, denominator);
    }
    NeverWholeReserve(amountIn, reserveIn, reserveOut);
  }

  lemma NeverWholeReserve(amountIn: nat, reserveIn: nat, reserveOut: nat)
    requires reserveIn > 0 && reserveOut > 0
    ensures Quotient(997 * amountIn * reserveOut, 1000 * reserveIn + 997 * amountIn) < reserveOut
  {
    var denominator := 1000 * reserveIn + 997 * amountIn;
    AtMostQuotient(reserveOut, 997 * amountIn * reserveOut, denominator);
    assert reserveOut * denominator == 997 * amountIn * reserveOut + 1000 * (reserveIn * reserveOut);
    MulMonotone(1, reserveIn, reserveOut);
  }

  // ----- the amount that is charged -----------------------------------------------------

  /** The charge of UniswapV2Library, which has the amount bought in the numerator. */
  function UniswapCharge(amountOut: nat, reserveIn: nat, reserveOut: nat): nat
    requires amountOut < reserveOut
  {
    Quotient(1000 * (reserveIn * amountOut), 997 * (reserveOut - amountOut)) + 1
  }

  /** The code's charge without saturation; it has the whole of `reserve_out` there. */
  function Charge(amountOut: nat, reserveIn: nat, reserveOut: nat): (charge: nat)
    requires amountOut < reserveOut
    ensures charge > 0
  {
    Quotient(1000 * (reserveIn * reserveOut), 997 * (reserveOut - amountOut)) + 1
  }

  lemma AmountInIs(amountOut: u128, reserveIn: u128, reserveOut: u128)
    requires 0 < amountOut < reserveOut && reserveIn > 0
    requires 1000 * (reserveIn * reserveOut) <= U128_MAX
    ensures GetAmountIn(amountOut, reserveIn, reserveOut) == Amount(Charge(amountOut, reserveIn, reserveOut))
    ensures 997 * (Charge(amountOut, reserveIn, reserveOut) - 1) <= 1000 * (reserveIn * reserveOut)
  {
    var left: nat := reserveOut - amountOut;
    MulMonotone(1, reserveIn, reserveOut);
    var n := 1000 * (reserveIn * reserveOut);
    var q := Quotient(n, 997 * left);
    assert q * (997 * left) == 997 * (left * q);
    MulMonotone(1, left, q);
  }

  /** The charge for less than the reserve, saturated or not: one more than the largest number
      that the division allows. For the reserve or more it is zero. */
  lemma AmountInIff(amountOut: u128, reserveIn: u128, reserveOut: u128, y: nat)
    ensures var price := GetAmountIn(amountOut, reserveIn, reserveOut);
            if amountOut == 0 then price == Refused(InsufficientOutputAmount)
            else if reserveIn == 0 || reserveOut == 0 then price == Refused(InsufficientLiquidity)
            else if amountOut >= reserveOut then price == Amount(0)
            else price.Amount? && price.value > 0 &&
                 (y < price.value <==>
                    y * Saturate(997 * (reserveOut - amountOut)) <= Saturate(1000 * (reserveIn * reserveOut)))
  {
    if amountOut < reserveOut {
      NumeratorIs(reserveIn * reserveOut);
      var n, d := Saturate(1000 * (reserveIn * reserveOut)), Saturate(997 * (reserveOut - amountOut));
      AtMostQuotient(y, n, d);
      AtMostPerUnit(n, d);
    }
  }

  /** What an amount buys, saturated or not. */
  lemma AmountOutIff(amountIn: u128, reserveIn: u128, reserveOut: u128, y: nat)
    ensures var price := GetAmountOut(amountIn, reserveIn, reserveOut);
            if amountIn == 0 then price == Refused(InsufficientInputAmount)
            else if reserveIn == 0 || reserveOut == 0 then price == Refused(InsufficientLiquidity)
            else
              var withFee := Saturate(997 * amountIn);
              price.Amount? && (y <= price.value <==>
                y * Saturate(Saturate(1000 * reserveIn) + withFee) <= Saturate(withFee * reserveOut))
  {
    hide Quotient;
    if amountIn > 0 && reserveIn > 0 && reserveOut > 0 {
      var withFee := Saturate(997 * amountIn);
      AtMostQuotient(y, Saturate(withFee * reserveOut), Saturate(Saturate(1000 * reserveIn) + withFee));
    }
  }

  /** Every charge from the Uniswap one on meets the K inequality, and none that is more than
      one unit below it does: that one is minimal but for rounding. */
  lemma UniswapChargeMinimal(amountIn: nat, amountOut: nat, reserveIn: nat, reserveOut: nat)
    requires amountOut < reserveOut
    ensures var charge := UniswapCharge(amountOut, reserveIn, reserveOut);
            && (amountIn >= charge ==> ExactK(amountIn, amountOut, reserveIn, reserveOut))
            && (amountIn + 1 < charge ==> !ExactK(amountIn, amountOut, reserveIn, reserveOut))
  {
    hide ExactK;
    ExactKIs(amountIn, amountOut, reserveIn, reserveOut);
    var left: nat := reserveOut - amountOut;
    var n, d := 1000 * (reserveIn * amountOut), 997 * left;
    var q := Quotient(n, d);
    assert amountIn * d == 997 * (amountIn * left);
    if amountIn >= q + 1 {
      MulMonotone(q + 1, amountIn, d);
    } else if amountIn + 1 < q + 1 {
      MulMonotone(amountIn + 1, q, d);
      assert (amountIn + 1) * d == amountIn * d + d;
    }
  }

  /** The code charges the Uniswap price and, on top of it, floor(1000 * reserve_in / 997) or
      that plus one: every swap, however small, costs more than the whole of `reserve_in`. */
  lemma Overcharge(amountOut: nat, reserveIn: nat, reserveOut: nat)
    requires 0 < amountOut < reserveOut
    ensures var extra := Charge(amountOut, reserveIn, reserveOut) - UniswapCharge(amountOut, reserveIn, reserveOut);
            var whole := Quotient(1000 * reserveIn, 997);
            && (extra == whole || extra == whole + 1)
            && whole >= reserveIn
            && Charge(amountOut, reserveIn, reserveOut) > reserveIn
  {
    hide Quotient;
    var left: nat := reserveOut - amountOut;
    var d := 997 * left;
    var a, b := 1000 * (reserveIn * amountOut), 1000 * (reserveIn * left);
    assert reserveIn * reserveOut == reserveIn * amountOut + reserveIn * left;
    var q1, q2, q := Quotient(a, d), Quotient(1000 * reserveIn, 997), Quotient(a + b, d);
    Scaled(q2, 997, 1000 * reserveIn, left);
    assert b == 1000 * reserveIn * left;
    SumOfQuotients(a, b, d, q1, q2, q);
    AtMostQuotient(reserveIn, 1000 * reserveIn, 997);
  }

  lemma Scaled(q: nat, b: nat, a: nat, c: nat)
    requires q * b <= a < (q + 1) * b && c > 0
    ensures q * (b * c) <= a * c < (q + 1) * (b * c)
  {
    MulMonotone(q * b, a, c);
    assert a * c < (q + 1) * b * c;
    assert q * b * c == q * (b * c) && (q + 1) * b * c == (q + 1) * (b * c);
  }

  lemma SumOfQuotients(a: nat, b: nat, d: nat, p: nat, q: nat, r: nat)
    requires d > 0
    requires p * d <= a < (p + 1) * d && q * d <= b < (q + 1) * d && r * d <= a + b < (r + 1) * d
    ensures r == p + q || r == p + q + 1
  {
    assert (p + q) * d == p * d + q * d;
    assert (p + q + 2) * d == (p + 1) * d + (q + 1) * d;
    if r < p + q {
      MulMonotone(r + 1, p + q, d);
    } else if r > p + q + 1 {
      MulMonotone(p + q + 2, r, d);
    }
  }

  /** The charge meets the K inequality, so buying back what it pays for is not less. */
  lemma ChargeSuffices(amountOut: nat, reserveIn: nat, reserveOut: nat)
    requires 0 < amountOut < reserveOut
    ensures ExactK(Charge(amountOut, reserveIn, reserveOut), amountOut, reserveIn, reserveOut)
  {
    hide ExactK;
    Overcharge(amountOut, reserveIn, reserveOut);
    UniswapChargeMinimal(Charge(amountOut, reserveIn, reserveOut), amountOut, reserveIn, reserveOut);
  }

  // ----- quoted swaps clear -------------------------------------------------------------

  /** Where nothing saturates, the check is the exact inequality. */
  lemma KCheckExact(b0: u128, b1: u128, i0: u128, i1: u128, r0: u128, r1: u128)
    requires i0 <= b0 && i1 <= b1
    requires 1000 * b0 <= U128_MAX && 1000 * b1 <= U128_MAX && 1000000 * (r0 * r1) <= U128_MAX
    ensures KCheck(b0, b1, i0, i1, r0, r1)
            <==> ExactAdjusted(b0, i0) * ExactAdjusted(b1, i1) >= 1000000 * (r0 * r1)
  {
    assert Adjusted(b0, i0) == ExactAdjusted(b0, i0) && Adjusted(b1, i1) == ExactAdjusted(b1, i1);
    hide Adjusted, ExactAdjusted;
    KCheckIs(b0, b1, i0, i1, r0, r1);
  }

  /** One side of the check that fits. */
  lemma AdjustedFits(balance: u128, amountIn: u128)
    requires 1000 * balance <= U128_MAX && amountIn <= balance
    ensures Adjusted(balance, amountIn) == 1000 * balance - 3 * amountIn
  {}

  /** One side of the check that saturates. */
  lemma AdjustedSaturates(balance: u128, amountIn: u128)
    requires 1000 * balance > U128_MAX && 15 * amountIn <= 4 * U128_MAX
    ensures 5 * Adjusted(balance, amountIn) >= U128_MAX
  {}

  /** The K check passes for a quoted charge on all reserves, also where its products saturate,
      and also when the contract holds up to a quarter of all that fits beyond its reserves. */
  lemma ChargePasses(amount: u128, reserveIn: u128, reserveOut: u128, balanceIn: u128, balanceOut: u128)
    requires 0 < amount < reserveOut && reserveIn > 0
    requires var price := GetAmountIn(amount, reserveIn, reserveOut);
             && price.Amount? && reserveIn + price.value <= balanceIn && reserveOut - amount <= balanceOut
             && 4 * (balanceIn - reserveIn - price.value) <= U128_MAX
             && 4 * (balanceOut - (reserveOut - amount)) <= U128_MAX
    ensures KCheck(balanceIn, balanceOut, AmountIn(balanceIn, reserveIn, 0), AmountIn(balanceOut, reserveOut, amount),
                   reserveIn, reserveOut)
  {
    hide KCheck, Adjusted, GetAmountIn;
    ChargeCovers(amount, reserveIn, reserveOut);
    var charge := GetAmountIn(amount, reserveIn, reserveOut).value;
    var in0, in1 := AmountIn(balanceIn, reserveIn, 0), AmountIn(balanceOut, reserveOut, amount);
    KCheckIs(balanceIn, balanceOut, in0, in1, reserveIn, reserveOut);
    var a, b := Adjusted(balanceIn, in0), Adjusted(balanceOut, in1);
    var left: nat := reserveOut - amount;
    if 1000 * balanceIn <= U128_MAX {
      AdjustedFits(balanceIn, in0);
      assert a >= 1000 * reserveIn + 997 * charge;
    } else {
      AdjustedSaturates(balanceIn, in0);
    }
    if 1000 * balanceOut <= U128_MAX {
      AdjustedFits(balanceOut, in1);
      assert b >= 1000 * left;
    } else {
      AdjustedSaturates(balanceOut, in1);
    }
    ProductSuffices(a, b, charge, left, Min(1000 * (reserveIn * reserveOut), U128_MAX));
  }

  lemma ProductSuffices(a: nat, b: nat, charge: nat, left: nat, n: nat)
    requires n <= U128_MAX && charge > 0 && left > 0
    requires a >= 997 * charge || 5 * a >= U128_MAX
    requires b >= 1000 * left || 5 * b >= U128_MAX
    requires b >= 1000 * left && a >= 997 * charge ==> 997 * (charge * left) > n
    ensures a * b >= Min(1000 * n, U128_MAX)
  {
    if a >= 997 * charge && b >= 1000 * left {
      MulBoth(997 * charge, a, 1000 * left, b);
      assert (997 * charge) * (1000 * left) == 1000 * (997 * (charge * left));
    } else if a < 997 * charge {
      MulBoth(5, 5, a, a);
      MulBoth(a, a, 5, b);
    } else {
      MulBoth(5, a, b, b);
    }
  }

  // ----- quoted swaps as transactions ---------------------------------------------------

  /** The contract holds no more beyond its reserves than a quarter of what 128 bits hold. */
  predicate ModestSurplus(g: Genesis, s: State) {
    4 * (Held0(g, s) - s.reserve0) <= U128_MAX && 4 * (Held1(g, s) - s.reserve1) <= U128_MAX
  }

  /** A quoted swap succeeds exactly when the amount is positive and below the reserve and the
      caller can pay the charge, and it then pays out exactly the amount asked for. Whatever the
      reserves, it never fails for its price. */
  lemma QuotedSwapClears(g: Genesis, s: State, op: Op, now: u64)
    requires Anchored(g, s) && ModestSurplus(g, s) && Signed(g, op) && IsSwap(op)
    ensures var r := Dispatch(g, s, op, now);
            var price := Price(s, op);
            && (price.Amount? <==> op.amount > 0 && s.reserve0 > 0 && s.reserve1 > 0)
            && (r.status.Ok? <==>
                  && price.Amount? && op.amount < Reserve(s, AssetOut(op))
                  && s.ledger.Balance(op.caller, AssetIn(op)) >= price.value)
            && (r.status.Ok? ==> Sold(g, s, r.state, op, price.value))
            && r.status != Err(InvalidK)
  {
    hide Exec, Sold, Total, KCheck, GetAmountIn, AmountIn, Anchored, Signed;
    SwapEffect(g, s, op, now);
    if Exec(g, s, op, now).status == Err(InvalidK) {
      InvalidKIsTheCheck(g, s, op, now);
    }
    PricedIff(op.amount, Reserve(s, AssetIn(op)), Reserve(s, AssetOut(op)));
    var price := Price(s, op);
    if price.Amount? && op.amount < Reserve(s, AssetOut(op))
       && s.ledger.Balance(op.caller, AssetIn(op)) >= price.value {
      AnchoredHeld(g, s, op, price.value);
      ChargePasses(op.amount, Reserve(s, AssetIn(op)), Reserve(s, AssetOut(op)),
                   Held(g, s, AssetIn(op)) + price.value, Held(g, s, AssetOut(op)) - op.amount);
    }
  }

  lemma PricedIff(amount: u128, reserveIn: u128, reserveOut: u128)
    ensures GetAmountIn(amount, reserveIn, reserveOut).Amount? <==> amount > 0 && reserveIn > 0 && reserveOut > 0
  {
    hide SatMul, Quotient;
  }

  lemma AnchoredHeld(g: Genesis, s: State, op: Op, charge: u128)
    requires Anchored(g, s) && IsSwap(op) && Signed(g, op)
    requires s.ledger.Balance(op.caller, AssetIn(op)) >= charge
    ensures Held(g, s, AssetIn(op)) >= Reserve(s, AssetIn(op)) && Held(g, s, AssetOut(op)) >= Reserve(s, AssetOut(op))
    ensures Held(g, s, AssetIn(op)) + charge <= U128_MAX
  {
    PartsOfTotal(s.ledger.Held(AssetIn(op)), op.caller, g.contract);
    hide Total;
  }

  // ----- when swaps make the product grow -----------------------------------------------

  /** Buying all but one unit, beyond the range: the numerator has saturated, and the charge is
      not more than what it buys. */
  lemma SaturatedPrice(reserveIn: u128, reserveOut: u128)
    requires reserveIn > 0 && reserveOut > 0 && !ChargeFits(reserveIn, reserveOut)
    ensures reserveOut > 1
    ensures GetAmountIn(reserveOut - 1, reserveIn, reserveOut) == Amount(Quotient(U128_MAX, 997) + 1)
    ensures reserveIn + Quotient(U128_MAX, 997) + 1 <= reserveIn * reserveOut
    ensures !ChargeHolds(reserveIn, reserveOut) ==> reserveIn + Quotient(U128_MAX, 997) + 1 < reserveIn * reserveOut
  {
    MulMonotone(reserveOut - 1, reserveOut, reserveIn);
    assert reserveIn * reserveOut == reserveIn * (reserveOut - 1) + reserveIn;
    NumeratorIs(reserveIn * reserveOut);
    var q := Quotient(U128_MAX, 997);
    assert q * 997 <= U128_MAX;
  }

  /** Every swap that a caller with funds can make in one direction increases the product if and
      only if 997 * reserve_in * (reserve_out - 1) is below 2^128, and none lowers it if and only
      if 997 * (reserve_in * (reserve_out - 1) - 1) is. */
  lemma SwapsGrowIff(g: Genesis, s: State, asset: Asset, caller: Account, now: u64)
    requires Anchored(g, s) && Synced(g, s) && s.reserve0 > 0 && s.reserve1 > 0
    requires g.contract != g.zero && caller != g.contract && caller != g.zero
    requires s.ledger.Balance(caller, asset) > Quotient(U128_MAX, 997)
    ensures (forall amount: u128 ::
               var r := Dispatch(g, s, SwapOf(asset, caller, amount), now); r.status.Ok? ==> K(r.state) > K(s))
            <==> ChargeFits(Reserve(s, asset), Reserve(s, Opposite(asset)))
    ensures (forall amount: u128 ::
               var r := Dispatch(g, s, SwapOf(asset, caller, amount), now); r.status.Ok? ==> K(r.state) >= K(s))
            <==> ChargeHolds(Reserve(s, asset), Reserve(s, Opposite(asset)))
  {
    hide Anchored, Exec, Price, ChargeFits, ChargeHolds, K, Quotient, Sold;
    forall amount: u128
      ensures var r := Dispatch(g, s, SwapOf(asset, caller, amount), now);
              r.status.Ok? ==>
                && (ChargeFits(Reserve(s, asset), Reserve(s, Opposite(asset))) ==> K(r.state) > K(s))
                && (ChargeHolds(Reserve(s, asset), Reserve(s, Opposite(asset))) ==> K(r.state) >= K(s))
    {
      SwapGrows(g, s, SwapOf(asset, caller, amount), now);
    }
    if !ChargeFits(Reserve(s, asset), Reserve(s, Opposite(asset))) {
      SaturatedPrice(Reserve(s, asset), Reserve(s, Opposite(asset)));
      var op := SwapOf(asset, caller, Reserve(s, Opposite(asset)) - 1);
      PriceIs(s, op);
      QuotedSwapClears(g, s, op, now);
      SoldDown(g, s, Dispatch(g, s, op, now).state, op, Quotient(U128_MAX, 997) + 1);
    } else {
      RangesAre(0, Reserve(s, asset), Reserve(s, Opposite(asset)));
    }
  }

  lemma SoldDown(g: Genesis, s: State, t: State, op: Op, charge: nat)
    requires IsSwap(op) && Synced(g, s) && Sold(g, s, t, op, charge)
    requires op.amount == Reserve(s, AssetOut(op)) - 1
    requires Reserve(s, AssetIn(op)) + charge <= Reserve(s, AssetIn(op)) * Reserve(s, AssetOut(op))
    ensures K(t) <= K(s)
    ensures Reserve(s, AssetIn(op)) + charge < Reserve(s, AssetIn(op)) * Reserve(s, AssetOut(op)) ==> K(t) < K(s)
  {
    ProductCommutes(t.reserve0, t.reserve1);
    ProductCommutes(s.reserve0, s.reserve1);
  }
}
