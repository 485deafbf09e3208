/** Fee-off runs: the constant product and what it is worth per LP token never fall. */
module Growth {
  import opened U128
  import opened Ledgers
  import opened Pool
  import opened Swaps
  import opened Conservation
  import opened Safety
  import opened FeeCap
  import opened Lock

  function K(s: State): nat { s.reserve0 * s.reserve1 }

  /** The liquidity is backed: the supply is at most the square root of the product. */
  ghost predicate Backed(s: State) {
    s.totalSupply * s.totalSupply <= K(s)
  }

  /** The reserve per LP token did not fall, cross-multiplied to avoid division. */
  ghost predicate PerShare(reserve: nat, supply: nat, reserve': nat, supply': nat) {
    supply' * reserve <= supply * reserve'
  }

  /** The product per squared share did not fall. */
  ghost predicate ValueKept(s: State, t: State) {
    K(s) * (t.totalSupply * t.totalSupply) <= K(t) * (s.totalSupply * s.totalSupply)
  }

  function Min(a: nat, b: nat): nat { if a <= b then a else b }

  /** The reserves are small enough for the K check alone to make the product grow. */
  predicate CheckFits(reserve0: nat, reserve1: nat) {
    1000000 * (reserve0 * reserve1) < U128_MAX + 3000 * Min(reserve0, reserve1)
  }

  /** The reserves are small enough for the quoted charge to make the product grow. */
  predicate ChargeFits(reserveIn: u128, reserveOut: u128) {
    997 * (reserveIn * (reserveOut - 1)) <= U128_MAX
  }

  predicate SwapFits(s: State, op: Op) {
    IsSwap(op) ==> ChargeFits(Reserve(s, AssetIn(op)), Reserve(s, AssetOut(op)))
  }

  /** They are small enough for it to keep the product from falling. */
  predicate ChargeHolds(reserveIn: u128, reserveOut: u128) {
    997 * (reserveIn * (reserveOut - 1) - 1) <= U128_MAX
  }

  predicate SwapHolds(s: State, op: Op) {
    IsSwap(op) ==> ChargeHolds(Reserve(s, AssetIn(op)), Reserve(s, AssetOut(op)))
  }

  // ----- arithmetic ---------------------------------------------------------------------

  lemma MulBoth(a: nat, b: nat, c: nat, d: nat)
    requires a <= b && c <= d
    ensures a * c <= b * d
  {
    assert a * c <= b * c <= b * d;
  }

  lemma Regroup(a: nat, b: nat, c: nat, d: nat)
    ensures (a * b) * (c * d) == (a * c) * (b * d)
  {}

  lemma CancelFactor(a: nat, b: nat, c: nat)
    requires c > 0 && c * a <= c * b
    ensures a <= b
  {}

  lemma SharesMultiply(r0: nat, r1: nat, n: nat, r0': nat, r1': nat, n': nat)
    requires PerShare(r0, n, r0', n') && PerShare(r1, n, r1', n')
    ensures (r0 * r1) * (n' * n') <= (r0' * r1') * (n * n)
  {
    MulBoth(n' * r0, n * r0', n' * r1, n * r1');
    Regroup(n', r0, n', r1);
    Regroup(n, r0', n, r1');
  }

  /** A supply that is backed stays backed when the value per share does not fall. */
  lemma BackedByValue(k: nat, n: nat, k': nat, n': nat)
    requires k > 0 && n * n <= k
    requires k * (n' * n') <= k' * (n * n)
    ensures n' * n' <= k'
  {
    MulBoth(k', k', n * n, k);
    assert k * (n' * n') <= k * k';
    CancelFactor(n' * n', k', k);
  }

  lemma ValueTransitive(k: nat, n: nat, k1: nat, n1: nat, k2: nat, n2: nat)
    requires n1 > 0
    requires k * (n1 * n1) <= k1 * (n * n) && k1 * (n2 * n2) <= k2 * (n1 * n1)
    ensures k * (n2 * n2) <= k2 * (n * n)
  {
    var a, b, c := n * n, n1 * n1, n2 * n2;
    assert b > 0;
    MulBoth(k * b, k1 * a, c, c);
    MulBoth(k1 * c, k2 * b, a, a);
    assert b * (k * c) == (k * b) * c;
    assert (k1 * a) * c == (k1 * c) * a;
    assert (k2 * b) * a == b * (k2 * a);
    CancelFactor(k * c, k2 * a, b);
  }

  lemma SquareBound(a: nat, m: nat)
    requires a * a <= m * m
    ensures a <= m
  {
    if a > m {
      Squares(m + 1, a);
    }
  }

  // ----- swaps --------------------------------------------------------------------------

  /** The left side of the K check in exact arithmetic. */
  function ExactAdjusted(balance: nat, amountIn: nat): int {
    1000 * balance - 3 * amountIn
  }

  lemma AdjustedAtMost(balance: u128, amountIn: u128)
    requires amountIn <= balance
    ensures Adjusted(balance, amountIn) <= ExactAdjusted(balance, amountIn)
  {}

  /** Payments that leave the product at or below its old value miss the check by the fee
      on one unit at least. */
  lemma MissedByFee(balance0: nat, balance1: nat, in0: nat, in1: nat, r0: nat, r1: nat)
    requires in0 <= balance0 && in1 <= balance1 && (in0 > 0 || in1 > 0)
    requires balance0 <= r0 + in0 && balance1 <= r1 + in1
    requires r0 > 0 && r1 > 0 && balance0 * balance1 <= r0 * r1
    ensures ExactAdjusted(balance0, in0) * ExactAdjusted(balance1, in1) <= 1000000 * (r0 * r1) - 3000 * Min(r0, r1)
  {
    hide ExactAdjusted;
    if balance0 > r0 {
      MissedAbove(balance0, balance1, in0, in1, r0, r1);
    } else if balance1 > r1 {
      Commutes(balance0, balance1, in0, in1, r0, r1);
      MissedAbove(balance1, balance0, in1, in0, r1, r0);
    } else if in0 > 0 {
      MissedBelow(balance0, balance1, in0, in1, r0, r1);
    } else {
      Commutes(balance0, balance1, in0, in1, r0, r1);
      MissedBelow(balance1, balance0, in1, in0, r1, r0);
    }
  }

  lemma Commutes(balance0: nat, balance1: nat, in0: nat, in1: nat, r0: nat, r1: nat)
    ensures balance1 * balance0 == balance0 * balance1 && r1 * r0 == r0 * r1
    ensures ExactAdjusted(balance1, in1) * ExactAdjusted(balance0, in0)
         == ExactAdjusted(balance0, in0) * ExactAdjusted(balance1, in1)
  {
    hide ExactAdjusted;
  }

  lemma MissedAbove(balance0: nat, balance1: nat, in0: nat, in1: nat, r0: nat, r1: nat)
    requires in0 <= balance0 && in1 <= balance1
    requires balance0 <= r0 + in0 && balance0 > r0 > 0 && balance0 * balance1 <= r0 * r1
    ensures ExactAdjusted(balance0, in0) * ExactAdjusted(balance1, in1) <= 1000000 * (r0 * r1) - 3000 * Min(r0, r1)
  {
    var d: nat := balance0 - r0;
    if balance1 >= r1 {
      MulStrictlyOrZero(r0, balance0, r1, balance1);
    }
    AboveBound(balance0, balance1, in0, in1, d);
    hide ExactAdjusted;
    RoomAbove(r0, d, balance1, r1);
  }

  lemma AboveBound(balance0: nat, balance1: nat, in0: nat, in1: nat, d: nat)
    requires d <= in0 <= balance0 && in1 <= balance1
    ensures ExactAdjusted(balance0, in0) * ExactAdjusted(balance1, in1)
            <= 1000000 * (balance0 * balance1) - 3000 * (d * balance1)
  {
    MulBoth(ExactAdjusted(balance0, in0), 1000 * balance0 - 3 * d, ExactAdjusted(balance1, in1), 1000 * balance1);
    hide ExactAdjusted;
    LessSome(balance0, balance1, d);
  }

  lemma LessSome(a: nat, b: nat, d: nat)
    ensures (1000 * a - 3 * d) * (1000 * b) == 1000000 * (a * b) - 3000 * (d * b)
  {}

  lemma RoomAbove(r0: nat, d: nat, balance1: nat, r1: nat)
    requires balance1 <= r1 && (r0 + d) * balance1 <= r0 * r1 && (balance1 == r1 ==> r1 == 0)
    ensures 1000000 * ((r0 + d) * balance1) - 3000 * (d * balance1) <= 1000000 * (r0 * r1) - 3000 * Min(r0, r1)
  {
    var e: nat := r1 - balance1;
    var p, q, x := r0 * balance1, d * balance1, r0 * e;
    assert r0 * r1 == p + x;
    assert (r0 + d) * balance1 == p + q;
    if e > 0 {
      MulMonotone(1, e, r0);
    }
  }

  lemma MulStrictlyOrZero(a: nat, b: nat, c: nat, d: nat)
    requires a < b && c <= d && b * d <= a * c
    ensures c == 0
  {
    if c > 0 {
      MulStrictly(a, b, c, d);
    }
  }

  lemma MissedBelow(balance0: nat, balance1: nat, in0: nat, in1: nat, r0: nat, r1: nat)
    requires 0 < in0 <= balance0 <= r0 && in1 <= balance1 <= r1
    ensures ExactAdjusted(balance0, in0) * ExactAdjusted(balance1, in1) <= 1000000 * (r0 * r1) - 3000 * Min(r0, r1)
  {
    BelowBound(balance0, balance1, in0, in1);
    RoomBelow(balance0, balance1, r0, r1);
  }

  lemma RoomBelow(balance0: nat, balance1: nat, r0: nat, r1: nat)
    requires balance0 <= r0 && balance1 <= r1
    ensures 1000000 * (balance0 * balance1) - 3000 * balance1 <= 1000000 * (r0 * r1) - 3000 * Min(r0, r1)
  {
    var p, q, k := balance0 * balance1, r0 * balance1, r0 * r1;
    MulMonotone(balance0, r0, balance1);
    if balance1 < r1 {
      NextMultiple(r0, balance1, r1);
    }
  }

  lemma NextMultiple(a: nat, b: nat, c: nat)
    requires b < c
    ensures a * b + a <= a * c
  {
    MulMonotone(b + 1, c, a);
  }

  lemma BelowBound(balance0: nat, balance1: nat, in0: nat, in1: nat)
    requires 0 < in0 <= balance0 && in1 <= balance1
    ensures ExactAdjusted(balance0, in0) * ExactAdjusted(balance1, in1)
            <= 1000000 * (balance0 * balance1) - 3000 * balance1
  {
    MulBoth(ExactAdjusted(balance0, in0), 1000 * balance0 - 3, ExactAdjusted(balance1, in1), 1000 * balance1);
    hide ExactAdjusted;
    LessSome(balance0, balance1, 1);
  }

  lemma MulStrictly(a: nat, b: nat, c: nat, d: nat)
    requires a < b && 0 < c <= d
    ensures a * c < b * d
  {
    assert a * c < b * c;
    MulBoth(b, b, c, d);
  }

  /** What the check compares, saturation included. */
  lemma KCheckIs(balance0: u128, balance1: u128, in0: u128, in1: u128, reserve0: u128, reserve1: u128)
    ensures KCheck(balance0, balance1, in0, in1, reserve0, reserve1)
            <==> Adjusted(balance0, in0) * Adjusted(balance1, in1) >= Min(1000000 * (reserve0 * reserve1), U128_MAX)
  {
    hide Adjusted;
    var k := reserve0 * reserve1;
    if k > U128_MAX {
      MulMonotone(1, 1000000, U128_MAX);
    }
  }

  /** Whatever the balances, and however much of them saturates: if the requirement itself fits,
      a payment that passes the check meets the exact inequality with the fee. */
  lemma KCheckSound(balance0: u128, balance1: u128, in0: u128, in1: u128, reserve0: u128, reserve1: u128)
    requires in0 <= balance0 && in1 <= balance1 && 1000000 * (reserve0 * reserve1) <= U128_MAX
    requires KCheck(balance0, balance1, in0, in1, reserve0, reserve1)
    ensures ExactAdjusted(balance0, in0) * ExactAdjusted(balance1, in1) >= 1000000 * (reserve0 * reserve1)
  {
    hide KCheck, Adjusted, ExactAdjusted;
    AdjustedAtMost(balance0, in0);
    AdjustedAtMost(balance1, in1);
    MulBoth(Adjusted(balance0, in0), ExactAdjusted(balance0, in0),
            Adjusted(balance1, in1), ExactAdjusted(balance1, in1));
    KCheckIs(balance0, balance1, in0, in1, reserve0, reserve1);
  }

  /** Every payment that passes the check makes the product grow. */
  ghost predicate CheckEnforcesGrowth(reserve0: u128, reserve1: u128) {
    forall balance0: u128, balance1: u128, out0: u128, out1: u128
      {:trigger AmountIn(balance0, reserve0, out0), AmountIn(balance1, reserve1, out1)}
      :: Passes(balance0, balance1, out0, out1, reserve0, reserve1) ==> balance0 * balance1 > reserve0 * reserve1
  }

  /** What `_swap` asks of the balances it finds after paying `out0` and `out1`. */
  predicate Passes(balance0: u128, balance1: u128, out0: u128, out1: u128, reserve0: u128, reserve1: u128) {
    var in0, in1 := AmountIn(balance0, reserve0, out0), AmountIn(balance1, reserve1, out1);
    && out0 < reserve0 && out1 < reserve1
    && (in0 > 0 || in1 > 0)
    && KCheck(balance0, balance1, in0, in1, reserve0, reserve1)
  }

  lemma PassingGrows(balance0: u128, balance1: u128, out0: u128, out1: u128, reserve0: u128, reserve1: u128)
    requires CheckFits(reserve0, reserve1) && Passes(balance0, balance1, out0, out1, reserve0, reserve1)
    ensures balance0 * balance1 > reserve0 * reserve1
  {
    hide KCheck, Adjusted;
    var in0, in1 := AmountIn(balance0, reserve0, out0), AmountIn(balance1, reserve1, out1);
    if balance0 * balance1 <= reserve0 * reserve1 {
      MissedByFee(balance0, balance1, in0, in1, reserve0, reserve1);
      AdjustedAtMost(balance0, in0);
      AdjustedAtMost(balance1, in1);
      MulBoth(Adjusted(balance0, in0), ExactAdjusted(balance0, in0),
            Adjusted(balance1, in1), ExactAdjusted(balance1, in1));
      KCheckIs(balance0, balance1, in0, in1, reserve0, reserve1);
    }
  }

  /** Beyond the bound, paying one unit and taking one unit out of the larger reserve passes. */
  lemma FreeUnit(reserve0: u128, reserve1: u128)
    requires reserve0 > 0 && reserve1 > 0 && !CheckFits(reserve0, reserve1)
    ensures Passes(reserve0, reserve1, 0, 1, reserve0, reserve1) || Passes(reserve0, reserve1, 1, 0, reserve0, reserve1)
  {
    hide KCheck, Adjusted;
    assert AmountIn(reserve0, reserve0, 0) == 0 && AmountIn(reserve1, reserve1, 0) == 0;
    if reserve0 <= reserve1 {
      assert reserve1 == 1 ==> reserve0 * reserve1 == 1;
      assert AmountIn(reserve1, reserve1, 1) == 1;
      OneUnitProduct(reserve0, reserve1);
      KCheckIs(reserve0, reserve1, 0, 1, reserve0, reserve1);
    } else {
      assert AmountIn(reserve0, reserve0, 1) == 1;
      OneUnitProduct(reserve1, reserve0);
      assert reserve1 * reserve0 == reserve0 * reserve1;
      assert Adjusted(reserve1, 0) * Adjusted(reserve0, 1) == Adjusted(reserve0, 1) * Adjusted(reserve1, 0);
      KCheckIs(reserve0, reserve1, 1, 0, reserve0, reserve1);
    }
  }

  lemma OneUnitProduct(smaller: u128, larger: u128)
    requires 0 < smaller <= larger && 1000000 * (smaller * larger) >= U128_MAX + 3000 * smaller
    ensures Adjusted(smaller, 0) * Adjusted(larger, 1) >= U128_MAX
  {
    var a, b := Adjusted(smaller, 0), Adjusted(larger, 1);
    if 1000 * larger <= U128_MAX {
      assert a == 1000 * smaller && b == 1000 * larger - 3;
      assert (1000 * smaller) * (1000 * larger - 3) == 1000000 * (smaller * larger) - 3000 * smaller;
    } else {
      assert a >= 1000 && b == U128_MAX - 3;
      MulBoth(1000, a, b, b);
    }
  }

  /** The K check enforces growth exactly up to the bound: above it, saturation makes both
      sides equal for a payment that only gives a unit back. */
  lemma CheckEnforcesGrowthIff(reserve0: u128, reserve1: u128)
    requires reserve0 > 0 && reserve1 > 0
    ensures CheckEnforcesGrowth(reserve0, reserve1) <==> CheckFits(reserve0, reserve1)
  {
    hide Passes, CheckFits, AmountIn;
    if CheckFits(reserve0, reserve1) {
      forall balance0: u128, balance1: u128, out0: u128, out1: u128
        | Passes(balance0, balance1, out0, out1, reserve0, reserve1)
        ensures balance0 * balance1 > reserve0 * reserve1
      {
        PassingGrows(balance0, balance1, out0, out1, reserve0, reserve1);
      }
    } else {
      FreeUnit(reserve0, reserve1);
      var a, b := AmountIn(reserve0, reserve0, 0), AmountIn(reserve0, reserve0, 1);
      var c, d := AmountIn(reserve1, reserve1, 0), AmountIn(reserve1, reserve1, 1);
    }
  }

  lemma SettleGrows(g: Genesis, s: State, out0: u128, out1: u128, now: u64)
    requires out0 < s.reserve0 && out1 < s.reserve1 && CheckFits(s.reserve0, s.reserve1)
    ensures var r := SettleSwap(g, s, out0, out1, now);
            r.status.Ok? ==> K(r.state) > K(s) && r.state.totalSupply == s.totalSupply
                             && r.state.reserve0 == Held0(g, s) && r.state.reserve1 == Held1(g, s)
  {
    hide KCheck, Update;
    var balance0, balance1 := Held0(g, s), Held1(g, s);
    var in0, in1 := AmountIn(balance0, s.reserve0, out0), AmountIn(balance1, s.reserve1, out1);
    UpdateKeeps(s, balance0, balance1, now);
    if SettleSwap(g, s, out0, out1, now).status.Ok? {
      PassingGrows(balance0, balance1, out0, out1, s.reserve0, s.reserve1);
    }
  }

  /** `_swap` itself, whoever has paid what before: in the range of the check, a swap that
      succeeds strictly increases the product. */
  lemma PaidSwapGrows(g: Genesis, s: State, out0: u128, out1: u128, to: Account, now: u64)
    requires CheckFits(s.reserve0, s.reserve1)
    ensures var r := Swap(g, s, out0, out1, to, now);
            r.status.Ok? ==> K(r.state) > K(s) && r.state.totalSupply == s.totalSupply
  {
    hide TransferTokens, SettleSwap, CheckFits;
    if out0 < s.reserve0 && out1 < s.reserve1 {
      PaymentFrame(s, g.contract, to, Asset0, out0);
      var s1 := PayOut(s, g.contract, to, Asset0, out0).state;
      PaymentFrame(s1, g.contract, to, Asset1, out1);
      SettleGrows(g, PayOut(s1, g.contract, to, Asset1, out1).state, out0, out1, now);
    }
  }

  // ----- public swaps -------------------------------------------------------------------

  /** What the quoted charge covers, saturated or not. */
  lemma ChargeCovers(amount: u128, reserveIn: u128, reserveOut: u128)
    requires 0 < amount < reserveOut && reserveIn > 0
    ensures var price := GetAmountIn(amount, reserveIn, reserveOut);
            && price.Amount? && 0 < price.value <= Quotient(U128_MAX, 997) + 1
            && (997 * (reserveOut - amount) <= U128_MAX ==>
                  997 * (price.value * (reserveOut - amount)) > Min(1000 * (reserveIn * reserveOut), U128_MAX))
  {
    var left: u128 := reserveOut - amount;
    var n, d := SatMul(SatMul(reserveIn, reserveOut), 1000), SatMul(left, 997);
    NumeratorIs(reserveIn * reserveOut);
    AtMostPerUnit(n, d);
    if 997 * left <= U128_MAX {
      hide SatAdd;
      RoundedUp(n, left);
    }
  }

  lemma AtMostPerUnit(n: u128, d: nat)
    requires d >= 997
    ensures Quotient(n, d) <= Quotient(U128_MAX, 997) < U128_MAX
  {
    var q := Quotient(n, d);
    MulMonotone(997, d, q);
    AtMostQuotient(q, U128_MAX, 997);
    QuotientIs(U128_MAX, 997, U128_MAX / 997);
  }

  lemma RoundedUp(n: nat, left: nat)
    requires left > 0
    ensures 997 * ((Quotient(n, 997 * left) + 1) * left) > n
  {
    var q := Quotient(n, 997 * left);
    assert (q + 1) * (997 * left) == 997 * ((q + 1) * left);
  }

  lemma NumeratorIs(k: nat)
    ensures SatMul(Saturate(k), 1000) == Min(1000 * k, U128_MAX)
  {}

  /** On all reserves the quoted charge is worth more than what it buys, unless that is more than
      the quotient that a saturated numerator gives for the last unit; then it is worth more than
      this quotient. */
  lemma ChargeWorth(amount: u128, reserveIn: u128, reserveOut: u128)
    requires 0 < amount < reserveOut && reserveIn > 0
    ensures var price := GetAmountIn(amount, reserveIn, reserveOut);
            price.Amount? && price.value * (reserveOut - amount) > Min(reserveIn * amount, Quotient(U128_MAX, 997))
  {
    hide GetAmountIn;
    ChargeCovers(amount, reserveIn, reserveOut);
    MulMonotone(amount, reserveOut, reserveIn);
    Worth(GetAmountIn(amount, reserveIn, reserveOut).value, reserveOut - amount,
          reserveIn * amount, reserveIn * reserveOut);
  }

  lemma Worth(charge: nat, left: nat, cost: nat, product: nat)
    requires charge > 0 && cost <= product
    requires 997 * left <= U128_MAX ==> 997 * (charge * left) > Min(1000 * product, U128_MAX)
    ensures charge * left > Min(cost, Quotient(U128_MAX, 997))
  {
    var worth := charge * left;
    if 997 * worth > U128_MAX {
      BelowQuotient(worth);
    } else {
      MulMonotone(1, charge, left);
    }
  }

  lemma BelowQuotient(n: nat)
    requires 997 * n > U128_MAX
    ensures n > Quotient(U128_MAX, 997)
  {
    AtMostQuotient(n, U128_MAX, 997);
  }

  lemma GrownProduct(reserveIn: nat, reserveOut: nat, heldIn: nat, heldOut: nat, charge: nat, amount: nat)
    requires reserveIn <= heldIn && reserveOut <= heldOut && amount <= reserveOut
    requires charge * (reserveOut - amount) >= reserveIn * amount
    ensures (heldIn + charge) * (heldOut - amount) >= reserveIn * reserveOut
    ensures charge * (reserveOut - amount) > reserveIn * amount ==>
              (heldIn + charge) * (heldOut - amount) > reserveIn * reserveOut
  {
    MulBoth(reserveIn + charge, heldIn + charge, reserveOut - amount, heldOut - amount);
    assert (reserveIn + charge) * (reserveOut - amount)
        == reserveIn * reserveOut - reserveIn * amount + charge * (reserveOut - amount);
  }

  /** A public swap that succeeds strictly increases the product in the one range, does not lower
      it in the other, and leaves the supply alone, with the fee on or off. It is the charge that
      ensures this, not the K check. */
  lemma SwapGrows(g: Genesis, s: State, op: Op, now: u64)
    requires Anchored(g, s) && Signed(g, op) && IsSwap(op)
    ensures var r := Exec(g, s, op, now);
            r.status.Ok? ==>
              && (SwapFits(s, op) ==> K(r.state) > K(s))
              && (SwapHolds(s, op) ==> K(r.state) >= K(s))
              && r.state.totalSupply == s.totalSupply
  {
    hide Exec, SwapCheck, Price, Total, ChargeFits, ChargeHolds;
    SwapEffect(g, s, op, now);
    var r := Exec(g, s, op, now);
    if r.status.Ok? {
      PriceAsksForSome(s, op);
      PriceIs(s, op);
      var reserveIn, reserveOut := Reserve(s, AssetIn(op)), Reserve(s, AssetOut(op));
      ChargeWorth(op.amount, reserveIn, reserveOut);
      RangesAre(op.amount, reserveIn, reserveOut);
      if SwapHolds(s, op) {
        SoldGrows(g, s, r.state, op, Price(s, op).value);
      }
    }
  }

  /** What the two ranges say about the amounts below the reserve. */
  lemma RangesAre(amount: u128, reserveIn: u128, reserveOut: u128)
    requires amount < reserveOut
    ensures ChargeFits(reserveIn, reserveOut) ==>
              ChargeHolds(reserveIn, reserveOut) && reserveIn * amount <= Quotient(U128_MAX, 997)
    ensures ChargeHolds(reserveIn, reserveOut) ==> reserveIn * amount <= Quotient(U128_MAX, 997) + 1
  {
    MulMonotone(amount, reserveOut - 1, reserveIn);
    var n := reserveIn * (reserveOut - 1);
    AtMostQuotient(n, U128_MAX, 997);
    if n > 0 {
      AtMostQuotient(n - 1, U128_MAX, 997);
    }
  }

  lemma PriceIs(s: State, op: Op)
    requires IsSwap(op)
    ensures Price(s, op) == GetAmountIn(op.amount, Reserve(s, AssetIn(op)), Reserve(s, AssetOut(op)))
  {}

  lemma SoldGrows(g: Genesis, s: State, t: State, op: Op, charge: nat)
    requires IsSwap(op) && Covered(g, s) && Sold(g, s, t, op, charge) && op.amount <= Reserve(s, AssetOut(op))
    requires charge * (Reserve(s, AssetOut(op)) - op.amount) >= Reserve(s, AssetIn(op)) * op.amount
    ensures K(t) >= K(s)
    ensures charge * (Reserve(s, AssetOut(op)) - op.amount) > Reserve(s, AssetIn(op)) * op.amount ==> K(t) > K(s)
  {
    GrownProduct(Reserve(s, AssetIn(op)), Reserve(s, AssetOut(op)), Held(g, s, AssetIn(op)), Held(g, s, AssetOut(op)),
                 charge, op.amount);
    ProductCommutes(t.reserve0, t.reserve1);
    ProductCommutes(s.reserve0, s.reserve1);
  }

  lemma ProductCommutes(a: nat, b: nat)
    ensures a * b == b * a
  {}

  // ----- mint and burn ------------------------------------------------------------------

  lemma ShareOfDeposit(amount: u128, supply: u128, reserve: u128, share: u128)
    requires share <= DivOrZero(SatMul(amount, supply), reserve) && share > 0
    ensures reserve > 0 && amount > 0 && share * reserve <= amount * supply
  {
    MulMonotone(share, DivOrZero(SatMul(amount, supply), reserve), reserve);
  }

  /** Neither reserve per LP token falls in a mint, for all amounts, also where the
      products saturate; with the fee on, the fee's tokens are minted before. */
  lemma MintPerShare(g: Genesis, s: State, to: Account, now: u64)
    requires MintFee(s).totalSupply > 0
    ensures var r := Mint(g, s, to, now);
            r.status.Ok? ==>
              && PerShare(s.reserve0, MintFee(s).totalSupply, r.state.reserve0, r.state.totalSupply)
              && PerShare(s.reserve1, MintFee(s).totalSupply, r.state.reserve1, r.state.totalSupply)
              && r.state.reserve0 == Held0(g, s) && r.state.reserve1 == Held1(g, s)
  {
    hide FeeLiquidity, MintFee, Update, DivOrZero, KLastAfter;
    var n := MintFee(s).totalSupply;
    var liquidity := MintedLiquidity(g, s);
    if liquidity > 0 {
      var amount0, amount1 := SatSub(Held0(g, s), s.reserve0), SatSub(Held1(g, s), s.reserve1);
      ShareOfDeposit(amount0, n, s.reserve0, liquidity);
      ShareOfDeposit(amount1, n, s.reserve1, liquidity);
      var s3 := MintLp(MintFee(s), to, liquidity);
      UpdateKeeps(s3, Held0(g, s), Held1(g, s), now);
      GrownShare(s.reserve0, amount0, n, liquidity, s3.totalSupply);
      GrownShare(s.reserve1, amount1, n, liquidity, s3.totalSupply);
    }
  }

  lemma GrownShare(reserve: nat, amount: nat, n: nat, liquidity: nat, n': nat)
    requires liquidity * reserve <= amount * n && n' <= n + liquidity
    ensures n' * reserve <= n * (reserve + amount)
  {
    MulMonotone(n', n + liquidity, reserve);
  }

  lemma ShrunkShare(reserve: nat, balance: nat, n: nat, liquidity: nat, amount: nat)
    requires reserve <= balance && liquidity <= n && amount <= balance
    requires amount * n <= liquidity * balance
    ensures (n - liquidity) * reserve <= n * (balance - amount)
  {
    MulBoth(n - liquidity, n - liquidity, reserve, balance);
    assert (n - liquidity) * balance == n * balance - liquidity * balance;
    assert n * (balance - amount) == n * balance - amount * n;
  }

  /** Nor does it fall in a burn, whatever has been clipped. */
  lemma BurnPerShare(g: Genesis, s: State, to: Account, now: u64)
    requires Anchored(g, s) && g.contract != g.zero && to != g.contract
    ensures var r := Burn(g, s, to, now);
            r.status.Ok? ==>
              && PerShare(s.reserve0, AfterFee(s), r.state.reserve0, r.state.totalSupply)
              && PerShare(s.reserve1, AfterFee(s), r.state.reserve1, r.state.totalSupply)
  {
    hide Burn, Fee, Share, Total, MintFee, PerShare, SatSub;
    BurnEffect(g, s, to, now);
    var n, liquidity := AfterFee(s), BalanceIn(s.lp, g.contract);
    var r := Burn(g, s, to, now);
    if r.status.Ok? {
      PaidHeld(g, s, r.state, to, Share(liquidity, Held0(g, s), n), Share(liquidity, Held1(g, s), n));
      BurntShare(s.reserve0, Held0(g, s), n, liquidity);
      BurntShare(s.reserve1, Held1(g, s), n, liquidity);
    }
  }

  lemma BurntShare(reserve: u128, balance: u128, n: u128, liquidity: u128)
    requires reserve <= balance && 0 < Share(liquidity, balance, n) <= balance
    ensures PerShare(reserve, n, balance - Share(liquidity, balance, n), SatSub(n, liquidity))
  {
    hide Share, PerShare, SatSub;
    ShareOfNothing(liquidity, balance, n);
    ShareBounds(liquidity, balance, n);
    BurntArithmetic(reserve, balance, n, liquidity, Share(liquidity, balance, n));
  }

  lemma BurntArithmetic(reserve: u128, balance: u128, n: u128, liquidity: u128, share: u128)
    requires reserve <= balance && share <= balance && share * n <= liquidity * balance
    ensures PerShare(reserve, n, balance - share, SatSub(n, liquidity))
  {
    if liquidity <= n {
      ShrunkShare(reserve, balance, n, liquidity, share);
    } else {
      hide SatSub;
      assert SatSub(n, liquidity) == 0 by { SubtractedAway(n, liquidity); }
    }
  }

  lemma SubtractedAway(a: u128, b: u128)
    requires a <= b
    ensures SatSub(a, b) == 0
  {}

  // ----- what a transaction can take from a holder --------------------------------------

  /** The reserve per LP token, counted before the fee, is at least five sixths of what it was. */
  ghost predicate FiveSixths(reserve: nat, supply: nat, reserve': nat, supply': nat) {
    5 * (supply' * reserve) <= 6 * (supply * reserve')
  }

  lemma FeeTakesASixth(s: State, reserve: nat, reserve': nat, supply': nat)
    requires PerShare(reserve, AfterFee(s), reserve', supply')
    ensures FiveSixths(reserve, s.totalSupply, reserve', supply')
  {
    FeeBoundsAfter(s);
    hide Fee;
    MulMonotone(5 * AfterFee(s), 6 * s.totalSupply, reserve');
    assert 5 * AfterFee(s) * reserve' == 5 * (AfterFee(s) * reserve');
    assert 6 * s.totalSupply * reserve' == 6 * (s.totalSupply * reserve');
  }

  lemma FeeBoundsAfter(s: State)
    ensures 5 * AfterFee(s) <= 6 * s.totalSupply
  {
    hide FeeLiquidity;
    FeeAtMostFifth(s.totalSupply, s.kLast, s.reserve0, s.reserve1);
  }

  /** With the fee on or off, no deposit, withdrawal, sync, skim or transfer takes more than a
      sixth of either reserve per LP token from the holders of a pool with supply, whatever is
      clipped. */
  lemma HoldersKeep(g: Genesis, s: State, op: Op, now: u64)
    requires Anchored(g, s) && Signed(g, op) && s.totalSupply > 0 && !IsSwap(op)
    ensures var t := Dispatch(g, s, op, now).state;
            && FiveSixths(s.reserve0, s.totalSupply, t.reserve0, t.totalSupply)
            && FiveSixths(s.reserve1, s.totalSupply, t.reserve1, t.totalSupply)
  {
    hide Deposit, Matching, FiveSixths, Anchored, Burn, TransferLiquidity, Update, TransferTokens, SkimAsset;
    NothingTaken(s);
    match op {
      case DepositAsset1(caller, amount) =>
        var matching := Matching(s, amount, s.reserve0, s.reserve1);
        if matching.Amount? {
          DepositorsKeep(g, s, caller, amount, matching.value, now);
        }
      case DepositAsset2(caller, amount) =>
        var matching := Matching(s, amount, s.reserve1, s.reserve0);
        if matching.Amount? {
          DepositorsKeep(g, s, caller, matching.value, amount, now);
        }
      case Withdraw(caller, amount) =>
        if BalanceIn(s.lp, caller) >= amount {
          WithdrawersKeep(g, s, caller, amount, now);
        } else {
          NothingToMove(s, caller, g.contract, amount);
        }
      case Sync(_) => SyncKeeps(g, s, now);
      case Skim(_) => SkimKeeps(g, s, op, now);
      case OutsideTransfer(caller, to, asset, amount) => PaymentFrame(s, caller, to, asset, amount);
      case SetFeeTo(_, _) =>
    }
  }

  lemma NothingTaken(s: State)
    ensures FiveSixths(s.reserve0, s.totalSupply, s.reserve0, s.totalSupply)
    ensures FiveSixths(s.reserve1, s.totalSupply, s.reserve1, s.totalSupply)
  {}

  lemma SyncKeeps(g: Genesis, s: State, now: u64)
    requires Anchored(g, s)
    ensures var t := Update(s, Held0(g, s), Held1(g, s), now);
            && FiveSixths(s.reserve0, s.totalSupply, t.reserve0, t.totalSupply)
            && FiveSixths(s.reserve1, s.totalSupply, t.reserve1, t.totalSupply)
  {
    hide Update;
    UpdateKeeps(s, Held0(g, s), Held1(g, s), now);
    MulMonotone(s.reserve0, Held0(g, s), s.totalSupply);
    MulMonotone(s.reserve1, Held1(g, s), s.totalSupply);
  }

  lemma DepositorsKeep(g: Genesis, s: State, caller: Account, amount0: u128, amount1: u128, now: u64)
    requires Anchored(g, s) && s.totalSupply > 0 && caller != g.contract
    ensures var r := Deposit(g, s, caller, amount0, amount1, now);
            r.status.Ok? ==>
              && FiveSixths(s.reserve0, s.totalSupply, r.state.reserve0, r.state.totalSupply)
              && FiveSixths(s.reserve1, s.totalSupply, r.state.reserve1, r.state.totalSupply)
  {
    hide DepositPaid, Deposit, DepositFits, Mint, MintFits, FiveSixths, PerShare, Anchored, Fee;
    DepositPays(g, s, caller, amount0, amount1, now);
    if s.ledger.Balance(caller, Asset0) >= amount0 && s.ledger.Balance(caller, Asset1) >= amount1 {
      var paid := DepositPaid(g, s, caller, amount0, amount1);
      SupplyAfterFee(g, paid);
      FeeOfPaid(s, paid);
      MintPerShare(g, paid, caller, now);
      var r := Mint(g, paid, caller, now);
      if r.status.Ok? {
        FeeTakesASixth(s, s.reserve0, r.state.reserve0, r.state.totalSupply);
        FeeTakesASixth(s, s.reserve1, r.state.reserve1, r.state.totalSupply);
      }
    }
  }

  lemma SupplyAfterFee(g: Genesis, s: State)
    requires Anchored(g, s)
    ensures MintFee(s).totalSupply == AfterFee(s) && (s.totalSupply > 0 ==> AfterFee(s) > 0)
  {
    hide Fee;
    MintFeeAnchors(s);
  }

  lemma WithdrawersKeep(g: Genesis, s: State, caller: Account, amount: u128, now: u64)
    requires Anchored(g, s) && Signed(g, Withdraw(caller, amount)) && BalanceIn(s.lp, caller) >= amount
    ensures var r := Burn(g, TransferLiquidity(s, caller, g.contract, amount).state, caller, now);
            r.status.Ok? ==>
              && FiveSixths(s.reserve0, s.totalSupply, r.state.reserve0, r.state.totalSupply)
              && FiveSixths(s.reserve1, s.totalSupply, r.state.reserve1, r.state.totalSupply)
  {
    hide Burn, TransferLiquidity, FiveSixths, PerShare, Anchored, Fee, Total;
    WithdrawMoves(g, s, caller, amount);
    var moved := TransferLiquidity(s, caller, g.contract, amount).state;
    BurnPerShare(g, moved, caller, now);
    var r := Burn(g, moved, caller, now);
    if r.status.Ok? {
      FeeTakesASixth(s, s.reserve0, r.state.reserve0, r.state.totalSupply);
      FeeTakesASixth(s, s.reserve1, r.state.reserve1, r.state.totalSupply);
    }
  }

  // ----- the first mint -----------------------------------------------------------------

  /** The supply that the first mint creates is the square root of what was paid in. */
  lemma FirstMintBacked(g: Genesis, s: State, to: Account, now: u64)
    requires s.totalSupply == 0 && s.feeTo.None? && Covered(g, s)
    ensures var r := Mint(g, s, to, now);
            r.status.Ok? ==> Backed(r.state)
                             && r.state.totalSupply == Root(SatMul(Held0(g, s) - s.reserve0, Held1(g, s) - s.reserve1))
  {
    hide Root, Update, Total;
    var amount0, amount1 := Held0(g, s) - s.reserve0, Held1(g, s) - s.reserve1;
    var root := Root(SatMul(amount0, amount1));
    var liquidity := MintedLiquidity(g, s);
    if liquidity > 0 {
      var s3 := MintLp(MintLp(MintFee(s), g.zero, MINIMUM_LIQUIDITY), to, liquidity);
      assert s3.totalSupply == root;
      UpdateKeeps(s3, Held0(g, s), Held1(g, s), now);
      MulBoth(amount0, Held0(g, s), amount1, Held1(g, s));
    }
  }

  // ----- transactions with the fee off --------------------------------------------------

  ghost predicate Healthy(g: Genesis, s: State) {
    Sound(g, s) && Backed(s) && s.feeTo.None?
  }

  lemma HealthyIs(g: Genesis, s: State)
    requires Healthy(g, s)
    ensures Sound(g, s) && Anchored(g, s) && LpBacked(s)
  {
    SoundIs(g, s);
  }

  /** A deposit's payments change nothing that a healthy pool depends on. */
  lemma PaidIsHealthy(g: Genesis, s: State, paid: State)
    requires Healthy(g, s) && Anchored(g, paid) && paid == s.(ledger := paid.ledger)
    ensures Healthy(g, paid)
  {
    HealthyIs(g, s);
    LpBackedDepends(s, paid);
    SoundIs(g, paid);
  }

  lemma MintedSumFits(n: u128, liquidity: u128, r0: u128, r1: u128, amount0: u128, amount1: u128)
    requires n * n <= r0 * r1 && r0 > 0 && r1 > 0
    requires r0 + amount0 <= U128_MAX && r1 + amount1 <= U128_MAX
    requires liquidity * r0 <= amount0 * n && liquidity * r1 <= amount1 * n
    ensures n + liquidity <= U128_MAX
  {
    var sum := n + liquidity;
    GrownShare(r0, amount0, n, liquidity, sum);
    GrownShare(r1, amount1, n, liquidity, sum);
    SharesMultiply(r0, r1, n, r0 + amount0, r1 + amount1, sum);
    MulMonotone(1, r0, r1);
    var k' := (r0 + amount0) * (r1 + amount1);
    BackedByValue(r0 * r1, n, k', sum);
    MulBoth(r0 + amount0, U128_MAX, r1 + amount1, U128_MAX);
    SquareBound(sum, U128_MAX);
  }

  /** With the fee off a backed supply is never clipped: even the exact sum is at most the
      square root of the balances' product. */
  lemma FeeOffMintFits(g: Genesis, s: State)
    requires Healthy(g, s)
    ensures MintFits(g, s)
  {
    hide Root, DivOrZero, LpBacked, Total, SatMul;
    var n, liquidity := s.totalSupply, MintedLiquidity(g, s);
    if n > 0 && liquidity > 0 {
      var amount0, amount1 := SatSub(Held0(g, s), s.reserve0), SatSub(Held1(g, s), s.reserve1);
      ShareOfDeposit(amount0, n, s.reserve0, liquidity);
      ShareOfDeposit(amount1, n, s.reserve1, liquidity);
      MintedSumFits(n, liquidity, s.reserve0, s.reserve1, amount0, amount1);
    }
  }

  lemma FeeOffFits(g: Genesis, s: State, op: Op)
    requires Healthy(g, s) && Signed(g, op)
    ensures SupplyFits(g, s, op)
  {
    hide Sound, Matching, DepositFits;
    match op {
      case DepositAsset1(caller, amount) =>
        var matching := Matching(s, amount, s.reserve0, s.reserve1);
        if matching.Amount? {
          FeeOffDepositFits(g, s, caller, amount, matching.value);
        }
      case DepositAsset2(caller, amount) =>
        var matching := Matching(s, amount, s.reserve1, s.reserve0);
        if matching.Amount? {
          FeeOffDepositFits(g, s, caller, matching.value, amount);
        }
      case _ =>
    }
  }

  lemma FeeOffDepositFits(g: Genesis, s: State, caller: Account, amount0: u128, amount1: u128)
    requires Healthy(g, s) && caller != g.contract
    ensures DepositFits(g, s, caller, amount0, amount1)
  {
    hide DepositPaid, Deposit, DepositFits, Mint, MintFits, Healthy, Anchored;
    HealthyIs(g, s);
    DepositPays(g, s, caller, amount0, amount1, 0);
    if s.ledger.Balance(caller, Asset0) >= amount0 && s.ledger.Balance(caller, Asset1) >= amount1 {
      PaidIsHealthy(g, s, DepositPaid(g, s, caller, amount0, amount1));
      FeeOffMintFits(g, DepositPaid(g, s, caller, amount0, amount1));
    }
  }

  /** Neither the backing nor the value per share is lost. */
  ghost predicate Kept(s: State, t: State) {
    Backed(t) && (s.totalSupply > 0 ==> ValueKept(s, t))
  }

  lemma PerShareKept(s: State, t: State)
    requires Backed(s) && s.totalSupply > 0 && K(s) > 0
    requires PerShare(s.reserve0, s.totalSupply, t.reserve0, t.totalSupply)
    requires PerShare(s.reserve1, s.totalSupply, t.reserve1, t.totalSupply)
    ensures Kept(s, t)
  {
    SharesMultiply(s.reserve0, s.reserve1, s.totalSupply, t.reserve0, t.reserve1, t.totalSupply);
    BackedByValue(K(s), s.totalSupply, K(t), t.totalSupply);
  }

  lemma GrownKept(s: State, t: State)
    requires Backed(s) && t.totalSupply == s.totalSupply && K(s) <= K(t)
    ensures Kept(s, t)
  {
    MulMonotone(K(s), K(t), s.totalSupply * s.totalSupply);
  }

  lemma LockedProduct(g: Genesis, s: State)
    requires Locked(g, s) && s.totalSupply > 0
    ensures K(s) > 0
  {
    MulMonotone(1, s.reserve0, s.reserve1);
  }

  lemma DepositValue(g: Genesis, s: State, caller: Account, amount0: u128, amount1: u128, now: u64)
    requires Healthy(g, s) && caller != g.contract
    ensures var r := Deposit(g, s, caller, amount0, amount1, now); r.status.Ok? ==> Kept(s, r.state)
  {
    hide DepositPaid, Deposit, DepositFits, Mint, MintFits, LpBacked, Total, Kept;
    HealthyIs(g, s);
    DepositPays(g, s, caller, amount0, amount1, now);
    if s.ledger.Balance(caller, Asset0) >= amount0 && s.ledger.Balance(caller, Asset1) >= amount1 {
      var paid := DepositPaid(g, s, caller, amount0, amount1);
      var r := Mint(g, paid, caller, now);
      if s.totalSupply == 0 {
        FirstMintBacked(g, paid, caller, now);
        if r.status.Ok? {
          KeptFromNothing(s, r.state);
        }
      } else {
        MintPerShare(g, paid, caller, now);
        if r.status.Ok? {
          LockedProduct(g, s);
          PerShareKept(s, r.state);
        }
      }
    }
  }

  lemma KeptFromNothing(s: State, t: State)
    requires s.totalSupply == 0 && Backed(t)
    ensures Kept(s, t)
  {}

  lemma WithdrawValue(g: Genesis, s: State, op: Op, now: u64)
    requires Healthy(g, s) && Signed(g, op) && op.Withdraw?
    ensures var r := Exec(g, s, op, now); r.status.Ok? ==> Kept(s, r.state)
  {
    hide Burn, TransferLiquidity, LpBacked, Total, Kept;
    HealthyIs(g, s);
    if s.totalSupply > 0 && BalanceIn(s.lp, op.caller) >= op.amount {
      WithdrawMoves(g, s, op.caller, op.amount);
      var moved := TransferLiquidity(s, op.caller, g.contract, op.amount).state;
      BurnPerShare(g, moved, op.caller, now);
      var r := Burn(g, moved, op.caller, now);
      if r.status.Ok? {
        LockedProduct(g, s);
        PerShareKept(s, r.state);
      }
    } else if BalanceIn(s.lp, op.caller) < op.amount {
      NothingToMove(s, op.caller, g.contract, op.amount);
    }
  }

  lemma OtherValue(g: Genesis, s: State, op: Op, now: u64)
    requires Healthy(g, s) && Signed(g, op) && (op.SetFeeTo? || op.Sync? || op.OutsideTransfer? || op.Skim?)
    ensures var r := Exec(g, s, op, now); r.status.Ok? ==> Kept(s, r.state)
  {
    hide Update, TransferTokens, SkimAsset, LpBacked, Total, Kept;
    HealthyIs(g, s);
    var t := Exec(g, s, op, now).state;
    match op {
      case Skim(_) => SkimKeeps(g, s, op, now);
      case Sync(_) =>
        UpdateKeeps(s, Held0(g, s), Held1(g, s), now);
        MulBoth(s.reserve0, Held0(g, s), s.reserve1, Held1(g, s));
      case OutsideTransfer(caller, to, asset, amount) => PaymentFrame(s, caller, to, asset, amount);
      case SetFeeTo(_, _) =>
    }
    GrownKept(s, t);
  }

  lemma ValueExec(g: Genesis, s: State, op: Op, now: u64)
    requires Healthy(g, s) && Signed(g, op) && SwapHolds(s, op)
    ensures var r := Exec(g, s, op, now); r.status.Ok? ==> Kept(s, r.state)
  {
    hide Sound, Deposit, Matching, Signed, Kept, Backed, Healthy, SwapHolds, K;
    match op {
      case DepositAsset1(caller, amount) =>
        SignedCaller(g, op);
        var matching := Matching(s, amount, s.reserve0, s.reserve1);
        if matching.Amount? {
          DepositValue(g, s, caller, amount, matching.value, now);
        }
      case DepositAsset2(caller, amount) =>
        SignedCaller(g, op);
        var matching := Matching(s, amount, s.reserve1, s.reserve0);
        if matching.Amount? {
          DepositValue(g, s, caller, matching.value, amount, now);
        }
      case Withdraw(_, _) => WithdrawValue(g, s, op, now); hide Exec;
      case SwapAsset1ForAsset2(_, _) => SwapValue(g, s, op, now); hide Exec;
      case SwapAsset2ForAsset1(_, _) => SwapValue(g, s, op, now); hide Exec;
      case _ => OtherValue(g, s, op, now); hide Exec;
    }
  }

  lemma SwapValue(g: Genesis, s: State, op: Op, now: u64)
    requires Healthy(g, s) && Signed(g, op) && SwapHolds(s, op) && IsSwap(op)
    ensures var r := Exec(g, s, op, now); r.status.Ok? ==> Kept(s, r.state)
  {
    hide Exec, Kept, Sound;
    HealthyIs(g, s);
    SwapGrows(g, s, op, now);
    var r := Exec(g, s, op, now);
    if r.status.Ok? {
      GrownKept(s, r.state);
    }
  }

  lemma HealthyStep(g: Genesis, s: State, op: Op, now: u64)
    requires Healthy(g, s) && Signed(g, op) && SwapHolds(s, op)
    requires Dispatch(g, s, op, now).state.feeTo.None?
    ensures var t := Dispatch(g, s, op, now).state;
            Healthy(g, t) && Kept(s, t) && SupplyFits(g, s, op) && (s.totalSupply > 0 ==> t.totalSupply > 0)
  {
    hide Sound, SupplyFits, Exec, Signed, SwapHolds, Synced, SetsReserves;
    FeeOffFits(g, s, op);
    SoundStep(g, s, op, now);
    if s.totalSupply > 0 {
      SupplyKept(g, s, op, now);
    }
    ValueExec(g, s, op, now);
    GrownKept(s, s);
  }

  // ----- fee-off runs -------------------------------------------------------------------

  predicate FeeOffRun(g: Genesis, s: State, steps: seq<Step>)
    decreases steps
  {
    steps != [] ==>
      && Signed(g, steps[0].op)
      && SwapHolds(s, steps[0].op)
      && Next(g, s, steps[0]).feeTo.None?
      && FeeOffRun(g, Next(g, s, steps[0]), steps[1..])
  }

  /** The backing invariant and the value of a share, over every fee-off run. */
  lemma {:induction false} ValueNeverFalls(g: Genesis, s: State, steps: seq<Step>)
    requires Healthy(g, s) && FeeOffRun(g, s, steps)
    ensures var t := Run(g, s, steps);
            Healthy(g, t) && (s.totalSupply > 0 ==> t.totalSupply > 0 && ValueKept(s, t))
    decreases steps
  {
    hide Sound, Backed, Signed, SwapHolds, Dispatch, SupplyFits, K;
    if steps != [] {
      var t := Next(g, s, steps[0]);
      HealthyStep(g, s, steps[0].op, steps[0].now);
      ValueNeverFalls(g, t, steps[1..]);
      var u := Run(g, t, steps[1..]);
      if s.totalSupply > 0 {
        ValueTransitive(K(s), s.totalSupply, K(t), t.totalSupply, K(u), u.totalSupply);
      }
    }
  }

  /** From genesis on: total_supply^2 <= reserve_0 * reserve_1 in every reachable state. */
  lemma BackedFromGenesis(g: Genesis, ledger: Ledger, steps: seq<Step>)
    requires ledger.Valid() && FeeOffRun(g, InitialState(ledger), steps)
    ensures Healthy(g, Run(g, InitialState(ledger), steps))
  {
    hide Sound, FeeOffRun, Run;
    InitiallySound(g, ledger);
    ValueNeverFalls(g, InitialState(ledger), steps);
  }

  // ----- runs of swaps ------------------------------------------------------------------

  /** Successful swaps in either direction, by anyone, each on reserves that fit the charge. */
  predicate SwapRun(g: Genesis, s: State, steps: seq<Step>)
    decreases steps
  {
    steps != [] ==>
      && IsSwap(steps[0].op)
      && Signed(g, steps[0].op)
      && SwapFits(s, steps[0].op)
      && Dispatch(g, s, steps[0].op, steps[0].now).status.Ok?
      && SwapRun(g, Next(g, s, steps[0]), steps[1..])
  }

  lemma {:induction false} SwapsGrow(g: Genesis, s: State, steps: seq<Step>)
    requires Anchored(g, s) && SwapRun(g, s, steps) && steps != []
    ensures K(Run(g, s, steps)) > K(s)
    decreases steps
  {
    hide Anchored, Signed, Exec, SwapFits, K;
    var t := Next(g, s, steps[0]);
    SwapGrows(g, s, steps[0].op, steps[0].now);
    AnchoredStep(g, s, steps[0].op, steps[0].now);
    assert Run(g, s, steps) == Run(g, t, steps[1..]);
    if steps[1..] != [] {
      SwapsGrow(g, t, steps[1..]);
    }
  }

  /** No sequence of swaps, in any order and by anyone, takes out of one reserve without
      putting more into the other. */
  lemma NoFreeLunch(g: Genesis, s: State, steps: seq<Step>)
    requires Anchored(g, s) && SwapRun(g, s, steps) && steps != []
    ensures var t := Run(g, s, steps); t.reserve0 > s.reserve0 || t.reserve1 > s.reserve1
  {
    hide Run, SwapRun, Anchored;
    SwapsGrow(g, s, steps);
    var t := Run(g, s, steps);
    if t.reserve0 <= s.reserve0 && t.reserve1 <= s.reserve1 {
      MulBoth(t.reserve0, s.reserve0, t.reserve1, s.reserve1);
    }
  }
}
