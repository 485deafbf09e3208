/** The protocol fee: at most, and up to rounding exactly, a sixth of the growth of sqrt(k)
    (section 2.4 of the Uniswap v2 Core whitepaper, with MintFee 5). */
module FeeCap {
  import opened U128
  import opened Ledgers
  import opened Pool
  import opened Conservation
  import opened Safety

  function RootK(reserve0: u128, reserve1: u128): nat { Root(SatMul(reserve0, reserve1)) }

  lemma RootBelow64Bits(n: u128)
    ensures Root(n) <= U64_MAX
  {
    hide Root;
    var r := Root(n);
    if r > U64_MAX {
      Squares(U64_MAX + 1, r);
    }
  }

  /** The denominator never saturates. */
  lemma DenominatorFits(rootK: u128, rootKLast: u128)
    requires rootK <= U64_MAX && rootKLast <= U64_MAX
    ensures SatAdd(SatMul(rootK, MINT_FEE), rootKLast) == 5 * rootK + rootKLast
  {}

  lemma FeeBounds(supply: u128, growth: nat, denominator: nat, liquidity: nat)
    requires denominator > 0 && growth <= U128_MAX && liquidity == Quotient(SatMul(supply, growth), denominator)
    ensures liquidity * denominator <= supply * growth
    ensures supply * growth <= U128_MAX ==> (liquidity + 1) * denominator > supply * growth
  {}

  /** For all inputs, and also where the numerator saturates: the holders before the fee keep
      at least five sixths of the growth. Where it does not saturate one token more would
      already take too much. */
  lemma FeeLiquidityCap(supply: u128, kLast: u128, reserve0: u128, reserve1: u128)
    ensures var liquidity := FeeLiquidity(supply, kLast, reserve0, reserve1);
            var rootK, rootKLast := RootK(reserve0, reserve1), Root(kLast);
            if kLast != 0 && rootK > rootKLast then
              && 6 * (rootK * liquidity) <= (supply + liquidity) * (rootK - rootKLast)
              && 6 * (rootK * supply) >= (supply + liquidity) * (5 * rootK + rootKLast)
              && (supply * (rootK - rootKLast) <= U128_MAX ==>
                    6 * (rootK * (liquidity + 1)) > (supply + liquidity + 1) * (rootK - rootKLast))
            else liquidity == 0
  {
    hide Root, Quotient;
    var rootK, rootKLast := RootK(reserve0, reserve1), Root(kLast);
    RootBelow64Bits(SatMul(reserve0, reserve1));
    RootBelow64Bits(kLast);
    if kLast != 0 && rootK > rootKLast {
      DenominatorFits(rootK, rootKLast);
      var growth, denominator := rootK - rootKLast, 5 * rootK + rootKLast;
      var liquidity := Quotient(SatMul(supply, growth), denominator);
      assert FeeLiquidity(supply, kLast, reserve0, reserve1) == liquidity;
      FeeBounds(supply, growth, denominator, liquidity);
      CapArithmetic(supply, rootK, rootKLast, liquidity);
      if supply * growth <= U128_MAX {
        CapTight(supply, rootK, rootKLast, liquidity);
      }
    }
  }

  lemma CapArithmetic(supply: nat, rootK: nat, rootKLast: nat, liquidity: nat)
    requires rootK > rootKLast
    requires liquidity * (5 * rootK + rootKLast) <= supply * (rootK - rootKLast)
    ensures 6 * (rootK * liquidity) <= (supply + liquidity) * (rootK - rootKLast)
    ensures 6 * (rootK * supply) >= (supply + liquidity) * (5 * rootK + rootKLast)
  {
    Expand(supply, rootK, rootKLast, liquidity);
  }

  lemma CapTight(supply: nat, rootK: nat, rootKLast: nat, liquidity: nat)
    requires rootK > rootKLast
    requires (liquidity + 1) * (5 * rootK + rootKLast) > supply * (rootK - rootKLast)
    ensures 6 * (rootK * (liquidity + 1)) > (supply + liquidity + 1) * (rootK - rootKLast)
  {
    Expand(supply, rootK, rootKLast, liquidity + 1);
  }

  lemma Expand(n: nat, r: nat, q: nat, l: nat)
    requires r >= q
    ensures l * (5 * r + q) == 5 * (r * l) + q * l
    ensures n * (r - q) == r * n - q * n
    ensures (n + l) * (r - q) == r * n + r * l - q * n - q * l
    ensures (n + l) * (5 * r + q) == 5 * (r * n) + 5 * (r * l) + q * n + q * l
  {}

  /** The fee is the largest number of tokens for which the growth pays, for all inputs. */
  lemma FeeIff(supply: u128, kLast: u128, reserve0: u128, reserve1: u128, y: nat)
    ensures var liquidity := FeeLiquidity(supply, kLast, reserve0, reserve1);
            var rootK, rootKLast := RootK(reserve0, reserve1), Root(kLast);
            if kLast != 0 && rootK > rootKLast then
              y <= liquidity <==>
                && y * (5 * rootK + rootKLast) <= supply * (rootK - rootKLast)
                && y * (5 * rootK + rootKLast) <= U128_MAX
            else liquidity == 0
  {
    hide Root, Quotient;
    var rootK, rootKLast := RootK(reserve0, reserve1), Root(kLast);
    RootBelow64Bits(SatMul(reserve0, reserve1));
    RootBelow64Bits(kLast);
    if kLast != 0 && rootK > rootKLast {
      DenominatorFits(rootK, rootKLast);
      AtMostQuotient(y, SatMul(supply, rootK - rootKLast), 5 * rootK + rootKLast);
    }
  }

  /** The fee is never more than a fifth of the supply, so it fits whenever the supply is at most
      five sixths of what 128 bits hold. */
  lemma FeeAtMostFifth(supply: u128, kLast: u128, reserve0: u128, reserve1: u128)
    ensures 5 * FeeLiquidity(supply, kLast, reserve0, reserve1) <= supply
  {
    hide FeeLiquidity, RootK, Root;
    var liquidity := FeeLiquidity(supply, kLast, reserve0, reserve1);
    var rootK, rootKLast := RootK(reserve0, reserve1), Root(kLast);
    FeeLiquidityCap(supply, kLast, reserve0, reserve1);
    if kLast != 0 && rootK > rootKLast {
      FifthArithmetic(supply, rootK, rootKLast, liquidity);
    }
  }

  lemma FifthArithmetic(supply: nat, rootK: nat, rootKLast: nat, liquidity: nat)
    requires rootK > rootKLast && 6 * (rootK * liquidity) <= (supply + liquidity) * (rootK - rootKLast)
    ensures 5 * liquidity <= supply
  {
    MulMonotone(rootK - rootKLast, rootK, supply + liquidity);
    if 6 * liquidity > supply + liquidity {
      MulMonotone(supply + liquidity + 1, 6 * liquidity, rootK);
    }
  }

  /** `_mint_fee` as a step of the state: the tokens held before stand for at least
      (5 * root_k + root_k_last) / (6 * root_k) of the supply after it, and every account but
      the receiver keeps exactly the tokens it had. */
  lemma FeeStep(s: State)
    requires LpBacked(s) && FeeFits(s) && s.feeTo.Some?
    ensures var t := MintFee(s);
            var rootK, rootKLast := RootK(s.reserve0, s.reserve1), Root(s.kLast);
            && (s.kLast != 0 && rootK > rootKLast ==>
                  6 * (rootK * s.totalSupply) >= t.totalSupply * (5 * rootK + rootKLast))
            && (s.kLast == 0 || rootK <= rootKLast ==> t == s)
            && LpBacked(t)
            && BalanceIn(t.lp, s.feeTo.value) == BalanceIn(s.lp, s.feeTo.value) + (t.totalSupply - s.totalSupply)
            && (forall who :: who != s.feeTo.value ==> BalanceIn(t.lp, who) == BalanceIn(s.lp, who))
  {
    hide FeeLiquidity, RootK, Total;
    MintFeeKeeps(s);
    FeeLiquidityCap(s.totalSupply, s.kLast, s.reserve0, s.reserve1);
    MintLpKeeps(s, s.feeTo.value, Fee(s));
  }

  // ----- what the fee is measured against -----------------------------------------------

  /** With the fee on, the product from before the operation; otherwise zero. */
  function ProductBefore(s: State): u128 {
    if s.feeTo.Some? then SatMul(s.reserve0, s.reserve1) else 0
  }

  lemma MintKLast(g: Genesis, s: State, to: Account, now: u64)
    ensures var r := Mint(g, s, to, now);
            r.status.Ok? ==> r.state.kLast == ProductBefore(s) && r.state.feeTo == s.feeTo
  {
    hide FeeLiquidity, Liquidity, Update, SatMul;
    var s1 := MintFee(s);
    var s2 := if s1.totalSupply == 0 then MintLp(s1, g.zero, MINIMUM_LIQUIDITY) else s1;
    UpdateKeeps(MintLp(s2, to, MintedLiquidity(g, s)), Held0(g, s), Held1(g, s), now);
  }

  lemma BurnKLast(g: Genesis, s: State, to: Account, now: u64)
    ensures var r := Burn(g, s, to, now);
            r.status.Ok? ==> r.state.kLast == ProductBefore(s) && r.state.feeTo == s.feeTo
  {
    hide FeeLiquidity, Share, Update, TransferTokens, SatMul;
    var s1 := MintFee(s);
    var liquidity := BalanceIn(s.lp, g.contract);
    var amount0 := Share(liquidity, Held0(g, s), s1.totalSupply);
    var amount1 := Share(liquidity, Held1(g, s), s1.totalSupply);
    var s2 := BurnLp(s1, g.contract, liquidity).state;
    PaymentFrame(s2, g.contract, to, Asset0, amount0);
    var s3 := TransferTokens(s2, g.contract, to, Asset0, amount0).state;
    PaymentFrame(s3, g.contract, to, Asset1, amount1);
    var s4 := TransferTokens(s3, g.contract, to, Asset1, amount1).state;
    UpdateKeeps(s4, Held0(g, s4), Held1(g, s4), now);
  }

  /** KLast holds the product from before the deposit or withdrawal that wrote it. */
  lemma KLastIsBehind(g: Genesis, s: State, op: Op, now: u64)
    requires op.DepositAsset1? || op.DepositAsset2? || op.Withdraw?
    ensures var r := Dispatch(g, s, op, now);
            r.status.Ok? ==> r.state.kLast == ProductBefore(s) && r.state.feeTo == s.feeTo
  {
    hide Mint, Burn, Matching, TransferTokens, TransferLiquidity, SatMul;
    match op {
      case DepositAsset1(caller, amount) =>
        var other := Matching(s, amount, s.reserve0, s.reserve1);
        if other.Amount? {
          PaidThenMint(g, s, caller, amount, other.value, now);
        }
      case DepositAsset2(caller, amount) =>
        var other := Matching(s, amount, s.reserve1, s.reserve0);
        if other.Amount? {
          PaidThenMint(g, s, caller, other.value, amount, now);
        }
      case Withdraw(caller, amount) =>
        TransferLiquidityFrame(s, caller, g.contract, amount);
        BurnKLast(g, TransferLiquidity(s, caller, g.contract, amount).state, caller, now);
    }
  }

  lemma PaidThenMint(g: Genesis, s: State, caller: Account, amount0: u128, amount1: u128, now: u64)
    ensures var r := Deposit(g, s, caller, amount0, amount1, now);
            r.status.Ok? ==> r.state.kLast == ProductBefore(s) && r.state.feeTo == s.feeTo
  {
    hide Mint, TransferTokens, SatMul;
    PaymentFrame(s, caller, g.contract, Asset0, amount0);
    var s1 := TransferTokens(s, caller, g.contract, Asset0, amount0).state;
    PaymentFrame(s1, caller, g.contract, Asset1, amount1);
    MintKLast(g, DepositPaid(g, s, caller, amount0, amount1), caller, now);
  }

  /** A withdrawal by somebody else gives the receiver the fee. */
  lemma FeeIsPaid(g: Genesis, s: State, op: Op, now: u64)
    requires Anchored(g, s) && Signed(g, op) && op.Withdraw?
    requires s.feeTo.Some? && s.feeTo.value != op.caller && s.feeTo.value != g.contract
    ensures var r := Dispatch(g, s, op, now);
            var receiver := s.feeTo.value;
            r.status.Ok? ==> BalanceIn(r.state.lp, receiver) == SatAdd(BalanceIn(s.lp, receiver), Fee(s))
  {
    hide Burn, TransferLiquidity, Total, Share, Fee, Anchored;
    if BalanceIn(s.lp, op.caller) >= op.amount {
      WithdrawMoves(g, s, op.caller, op.amount);
      var moved := TransferLiquidity(s, op.caller, g.contract, op.amount).state;
      BurnEffect(g, moved, op.caller, now);
      FeeTokens(moved);
    } else {
      NothingToMove(s, op.caller, g.contract, op.amount);
    }
  }

  lemma FeeTokens(s: State)
    requires s.feeTo.Some?
    ensures BalanceIn(MintFee(s).lp, s.feeTo.value) == SatAdd(BalanceIn(s.lp, s.feeTo.value), Fee(s))
    ensures forall who :: who != s.feeTo.value ==> BalanceIn(MintFee(s).lp, who) == BalanceIn(s.lp, who)
  {
    hide FeeLiquidity;
  }

  /** What the fee receiver gets for a growth of root k from `p` to `q`. */
  function FeeFor(supply: u128, p: nat, q: nat): nat
    requires p <= U64_MAX && q <= U64_MAX
  {
    if q > p then Quotient(SatMul(supply, q - p), 5 * q + p) else 0
  }

  /** Because KLast is behind, adding liquidity is charged as if it were earnings: when a deposit
      lifts root k from p to q, the withdrawal after it mints (q - p) / (5q + p) of the supply to
      the fee receiver although nothing was swapped in between; a deposit that doubles root k
      has one token minted for every eleven. */
  lemma DepositIsCharged(g: Genesis, s: State, op: Op, now: u64, next: Op, later: u64)
    requires Anchored(g, s) && Signed(g, op) && Signed(g, next) && next.Withdraw?
    requires s.feeTo.Some? && s.feeTo.value != next.caller && s.feeTo.value != g.contract
    requires op.DepositAsset1? || op.DepositAsset2?
    requires s.reserve0 > 0 && s.reserve1 > 0 && Dispatch(g, s, op, now).status.Ok?
    ensures var t := Dispatch(g, s, op, now).state;
            var r := Dispatch(g, t, next, later);
            var p, q := RootK(s.reserve0, s.reserve1), RootK(t.reserve0, t.reserve1);
            var receiver := s.feeTo.value;
            && p <= U64_MAX && q <= U64_MAX
            && (r.status.Ok? ==>
                  BalanceIn(r.state.lp, receiver) == SatAdd(BalanceIn(t.lp, receiver), FeeFor(t.totalSupply, p, q)))
            && (q == 2 * p && t.totalSupply * p <= U128_MAX ==>
                  FeeFor(t.totalSupply, p, q) == Quotient(t.totalSupply, 11))
  {
    hide Dispatch, Root, RootK, Total;
    KLastIsBehind(g, s, op, now);
    AnchoredStep(g, s, op, now);
    var t := Dispatch(g, s, op, now).state;
    MulMonotone(1, s.reserve0, s.reserve1);
    FeeIs(t, s.reserve0, s.reserve1);
    FeeIsPaid(g, t, next, later);
    hide SatMul, FeeLiquidity;
    var p, q := RootK(s.reserve0, s.reserve1), RootK(t.reserve0, t.reserve1);
    if q == 2 * p && t.totalSupply * p <= U128_MAX {
      PositiveRoot(s.reserve0, s.reserve1);
      Eleventh(t.totalSupply, p);
    }
  }

  lemma PositiveRoot(reserve0: u128, reserve1: u128)
    requires reserve0 > 0 && reserve1 > 0
    ensures RootK(reserve0, reserve1) > 0
  {
    hide Root;
    MulMonotone(1, reserve0, reserve1);
  }

  lemma FeeIs(t: State, reserve0: u128, reserve1: u128)
    requires t.feeTo.Some? && t.kLast == SatMul(reserve0, reserve1) > 0
    ensures var p, q := RootK(reserve0, reserve1), RootK(t.reserve0, t.reserve1);
            p <= U64_MAX && q <= U64_MAX && Fee(t) == FeeFor(t.totalSupply, p, q)
  {
    hide Root, Quotient;
    RootBelow64Bits(SatMul(reserve0, reserve1));
    RootBelow64Bits(SatMul(t.reserve0, t.reserve1));
    DenominatorFits(RootK(t.reserve0, t.reserve1), RootK(reserve0, reserve1));
  }

  lemma Eleventh(supply: u128, p: u128)
    requires p > 0 && supply * p <= U128_MAX
    ensures Quotient(SatMul(supply, p), 5 * (2 * p) + p) == Quotient(supply, 11)
  {
    var q := Quotient(supply, 11);
    MulMonotone(q * 11, supply, p);
    MulMonotone(supply + 1, (q + 1) * 11, p);
    assert q * 11 * p == q * (11 * p) && (q + 1) * 11 * p == (q + 1) * (11 * p);
    assert 5 * (2 * p) + p == 11 * p;
    assert (supply + 1) * p == supply * p + p;
    QuotientIs(supply * p, 11 * p, q);
  }
}
