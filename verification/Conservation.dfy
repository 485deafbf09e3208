/** The supply of both assets and the sum of the LP balances, over single operations and over
    runs, also where an operation fails and its writes stay in storage. */
module Conservation {
  import opened U128
  import opened Ledgers
  import opened Pool
  import opened Swaps

  /** The LP balances add up to the total supply. */
  ghost predicate LpBacked(s: State) {
    Total(s.lp) == s.totalSupply
  }

  function Held(g: Genesis, s: State, asset: Asset): u128 { s.ledger.Balance(g.contract, asset) }

  function Held0(g: Genesis, s: State): u128 { Held(g, s, Asset0) }

  function Held1(g: Genesis, s: State): u128 { Held(g, s, Asset1) }

  // ----- the condition: no LP amount is clipped -----------------------------------------

  function Fee(s: State): u128 {
    if s.feeTo.Some? then FeeLiquidity(s.totalSupply, s.kLast, s.reserve0, s.reserve1) else 0
  }

  predicate FeeFits(s: State) {
    s.totalSupply + Fee(s) <= U128_MAX
  }

  /** The supply once `_mint_fee` has run. */
  function AfterFee(s: State): u128 {
    SatAdd(s.totalSupply, Fee(s))
  }

  /** The liquidity that `mint` computes. */
  function MintedLiquidity(g: Genesis, s: State): u128 {
    Liquidity(MintFee(s).totalSupply, SatSub(Held0(g, s), s.reserve0), SatSub(Held1(g, s), s.reserve1),
              s.reserve0, s.reserve1)
  }

  predicate MintFits(g: Genesis, s: State) {
    var locked := if s.totalSupply == 0 then MINIMUM_LIQUIDITY else 0;
    FeeFits(s) && s.totalSupply + Fee(s) + locked + MintedLiquidity(g, s) <= U128_MAX
  }

  predicate DepositFits(g: Genesis, s: State, caller: Account, amount0: u128, amount1: u128) {
    var paid0 := TransferTokens(s, caller, g.contract, Asset0, amount0);
    var paid1 := TransferTokens(paid0.state, caller, g.contract, Asset1, amount1);
    paid0.status.Ok? && paid1.status.Ok? ==> MintFits(g, paid1.state)
  }

  /** The new LP tokens of `op` fit into the total supply. */
  predicate SupplyFits(g: Genesis, s: State, op: Op) {
    match op
    case DepositAsset1(caller, amount) =>
      var matching := Matching(s, amount, s.reserve0, s.reserve1);
      matching.Amount? ==> DepositFits(g, s, caller, amount, matching.value)
    case DepositAsset2(caller, amount) =>
      var matching := Matching(s, amount, s.reserve1, s.reserve0);
      matching.Amount? ==> DepositFits(g, s, caller, matching.value, amount)
    case Withdraw(_, _) => FeeFits(s)
    case _ => true
  }

  // ----- primitives ---------------------------------------------------------------------

  lemma MintLpKeeps(s: State, to: Account, value: u128)
    requires LpBacked(s) && s.totalSupply + value <= U128_MAX
    ensures var t := MintLp(s, to, value);
            && LpBacked(t) && t == s.(lp := t.lp, totalSupply := s.totalSupply + value)
            && BalanceIn(t.lp, to) == BalanceIn(s.lp, to) + value
            && (forall who :: who != to ==> BalanceIn(t.lp, who) == BalanceIn(s.lp, who))
            && (forall who :: who in s.lp ==> who in t.lp)
  {
    PartOfTotal(s.lp, to);
    TotalUpdated(s.lp, to, BalanceIn(s.lp, to) + value);
  }

  /** When the supply is clipped, some holder's tokens are no longer counted. */
  lemma ClippedSupply(s: State, to: Account, value: u128)
    requires LpBacked(s) && s.totalSupply + value > U128_MAX
    requires BalanceIn(s.lp, to) < s.totalSupply
    ensures !LpBacked(MintLp(s, to, value))
  {
    TotalUpdated(s.lp, to, SatAdd(BalanceIn(s.lp, to), value));
  }

  lemma BurnLpKeeps(s: State, from: Account, value: u128)
    requires LpBacked(s) && value <= BalanceIn(s.lp, from) && from in s.lp
    ensures var t := BurnLp(s, from, value);
            && t.status.Ok? && LpBacked(t.state) && t.state.totalSupply == s.totalSupply - value
            && (forall who :: who != from ==> BalanceIn(t.state.lp, who) == BalanceIn(s.lp, who))
  {
    PartOfTotal(s.lp, from);
    TotalUpdated(s.lp, from, BalanceIn(s.lp, from) - value);
  }

  lemma TransferLiquidityKeeps(s: State, from: Account, to: Account, amount: u128)
    requires LpBacked(s)
    ensures var t := TransferLiquidity(s, from, to, amount);
            && LpBacked(t.state)
            && t.state == s.(lp := t.state.lp)
            && (t.status.Ok? <==> BalanceIn(s.lp, from) >= amount)
            && (t.status.Ok? ==> to in t.state.lp)
            && (t.status.Ok? && from != to ==>
                  && BalanceIn(t.state.lp, from) == BalanceIn(s.lp, from) - amount
                  && BalanceIn(t.state.lp, to) == BalanceIn(s.lp, to) + amount)
            && (forall who :: who != from && who != to ==> BalanceIn(t.state.lp, who) == BalanceIn(s.lp, who))
  {
    if BalanceIn(s.lp, from) >= amount {
      var lowered := s.lp[from := BalanceIn(s.lp, from) - amount];
      TotalUpdated(s.lp, from, BalanceIn(s.lp, from) - amount);
      PartOfTotal(lowered, to);
      TotalUpdated(lowered, to, BalanceIn(lowered, to) + amount);
    }
  }

  lemma TransferLiquidityFrame(s: State, from: Account, to: Account, amount: u128)
    ensures var t := TransferLiquidity(s, from, to, amount).state; t == s.(lp := t.lp)
  {}

  lemma MintFeeKeeps(s: State)
    requires LpBacked(s) && FeeFits(s)
    ensures var t := MintFee(s);
            && LpBacked(t) && t.totalSupply == s.totalSupply + Fee(s)
            && t == s.(lp := t.lp, totalSupply := t.totalSupply, kLast := t.kLast)
            && (forall who :: BalanceIn(t.lp, who) >= BalanceIn(s.lp, who))
            && (forall who :: who in s.lp ==> who in t.lp)
            && (t.totalSupply == 0 <==> s.totalSupply == 0)
  {
    hide FeeLiquidity;
    NoFeeWithoutSupply(s.kLast, s.reserve0, s.reserve1);
    if s.feeTo.Some? {
      MintLpKeeps(s, s.feeTo.value, Fee(s));
    }
  }

  lemma NoFeeWithoutSupply(kLast: u128, reserve0: u128, reserve1: u128)
    ensures FeeLiquidity(0, kLast, reserve0, reserve1) == 0
  {
    hide Root;
  }

  /** A payment between two accounts fails only for want of funds, and moves the amount. */
  lemma Payment(s: State, from: Account, to: Account, asset: Asset, amount: u128)
    requires s.ledger.Valid() && from != to
    ensures var t := TransferTokens(s, from, to, asset, amount);
            && t.state == s.(ledger := t.state.ledger)
            && t.state.ledger.Valid()
            && (t.status.Ok? <==> s.ledger.Balance(from, asset) >= amount)
            && (t.status.Err? ==> t == Outcome(s, Err(InsufficientBalance)))
            && (t.status.Ok? ==>
                  && t.state.ledger.Balance(from, asset) == s.ledger.Balance(from, asset) - amount
                  && t.state.ledger.Balance(to, asset) == s.ledger.Balance(to, asset) + amount
                  && forall who, any :: any != asset || (who != from && who != to)
                                        ==> t.state.ledger.Balance(who, any) == s.ledger.Balance(who, any))
  {
    if s.ledger.Balance(from, asset) >= amount {
      TransferSucceeds(s.ledger, from, to, asset, amount);
      TransferMoves(s.ledger, from, to, asset, amount);
      TransferConserves(s.ledger, from, to, asset, amount);
    }
  }

  lemma PaymentConserves(s: State, from: Account, to: Account, asset: Asset, amount: u128)
    ensures SameSupply(s, TransferTokens(s, from, to, asset, amount).state)
  {
    if s.ledger.Transfer(from, to, asset, amount).Some? {
      TransferConserves(s.ledger, from, to, asset, amount);
    }
  }

  ghost predicate SameSupply(s: State, t: State) {
    t.ledger.Supply(Asset0) == s.ledger.Supply(Asset0) && t.ledger.Supply(Asset1) == s.ledger.Supply(Asset1)
  }

  /** `from` has paid both amounts to `to`, and nobody else's balances have changed. */
  ghost predicate Paid(s: State, t: State, from: Account, to: Account, amount0: int, amount1: int) {
    && t.ledger.Balance(from, Asset0) == s.ledger.Balance(from, Asset0) - amount0
    && t.ledger.Balance(from, Asset1) == s.ledger.Balance(from, Asset1) - amount1
    && t.ledger.Balance(to, Asset0) == s.ledger.Balance(to, Asset0) + amount0
    && t.ledger.Balance(to, Asset1) == s.ledger.Balance(to, Asset1) + amount1
    && forall who, any :: who != from && who != to ==> t.ledger.Balance(who, any) == s.ledger.Balance(who, any)
  }

  lemma PayBoth(s: State, from: Account, to: Account, amount0: u128, amount1: u128)
    requires s.ledger.Valid() && from != to
    requires s.ledger.Balance(from, Asset0) >= amount0 && s.ledger.Balance(from, Asset1) >= amount1
    ensures var paid0 := TransferTokens(s, from, to, Asset0, amount0);
            var paid1 := TransferTokens(paid0.state, from, to, Asset1, amount1);
            && paid0.status.Ok? && paid1.status.Ok?
            && paid1.state == s.(ledger := paid1.state.ledger) && paid1.state.ledger.Valid()
            && Paid(s, paid1.state, from, to, amount0, amount1)
  {
    hide TransferTokens, Total;
    Payment(s, from, to, Asset0, amount0);
    Payment(TransferTokens(s, from, to, Asset0, amount0).state, from, to, Asset1, amount1);
  }

  lemma PaidDepends(s: State, t: State, s': State, t': State, from: Account, to: Account, amount0: int, amount1: int)
    requires Paid(s, t, from, to, amount0, amount1)
    requires s.ledger == s'.ledger && t.ledger == t'.ledger
    ensures Paid(s', t', from, to, amount0, amount1)
  {}

  // ----- mint, burn, swap ---------------------------------------------------------------

  lemma UpdateKeeps(s: State, balance0: u128, balance1: u128, now: u64)
    ensures var t := Update(s, balance0, balance1, now);
            t == s.(reserve0 := balance0, reserve1 := balance1, timestampLast := now,
                    price0 := t.price0, price1 := t.price1)
  {
    hide PriceStep, Elapsed;
  }

  lemma LpBackedDepends(s: State, t: State)
    requires s.lp == t.lp && s.totalSupply == t.totalSupply
    ensures LpBacked(s) == LpBacked(t)
  {}

  lemma ShareOfNothing(liquidity: u128, balance: u128, supply: u128)
    ensures Share(liquidity, balance, supply) > 0 ==> supply > 0 && liquidity > 0
  {}

  lemma BurnLpFrame(s: State, from: Account, value: u128)
    ensures var t := BurnLp(s, from, value).state;
            t == s.(totalSupply := t.totalSupply, lp := t.lp)
  {}

  // ----- conservation -------------------------------------------------------------------

  /** The operations that read the contract's balances into the reserves. */
  predicate SetsReserves(op: Op) {
    !op.SetFeeTo? && !op.Skim? && !op.OutsideTransfer?
  }

  /** The same operations when the writes of a failed one stay in storage. */
  function RawRun(g: Genesis, s: State, steps: seq<Step>): State
    decreases steps
  {
    if steps == [] then s else RawRun(g, Exec(g, s, steps[0].op, steps[0].now).state, steps[1..])
  }

  lemma MintConserves(g: Genesis, s: State, to: Account, now: u64)
    requires LpBacked(s) && MintFits(g, s)
    ensures var r := Mint(g, s, to, now); LpBacked(r.state) && SameSupply(s, r.state)
  {
    hide FeeLiquidity, MintFee, MintLp, Liquidity, Update, LpBacked, KLastAfter, Total;
    MintFeeKeeps(s);
    var s1 := MintFee(s);
    var liquidity := MintedLiquidity(g, s);
    if s1.totalSupply == 0 {
      MintLpKeeps(s1, g.zero, MINIMUM_LIQUIDITY);
    }
    var s2 := if s1.totalSupply == 0 then MintLp(s1, g.zero, MINIMUM_LIQUIDITY) else s1;
    MintLpKeeps(s2, to, liquidity);
    var s3 := MintLp(s2, to, liquidity);
    UpdateKeeps(s3, Held0(g, s), Held1(g, s), now);
    var s4 := Update(s3, Held0(g, s), Held1(g, s), now);
    LpBackedDepends(s3, s4.(kLast := KLastAfter(s4, s.reserve0, s.reserve1)));
  }

  lemma BurnConserves(g: Genesis, s: State, to: Account, now: u64)
    requires LpBacked(s) && FeeFits(s)
    ensures var r := Burn(g, s, to, now); LpBacked(r.state) && SameSupply(s, r.state)
  {
    hide FeeLiquidity, MintFee, BurnLp, Share, Update, LpBacked, TransferTokens, KLastAfter, Total;
    MintFeeKeeps(s);
    var s1 := MintFee(s);
    var liquidity := BalanceIn(s.lp, g.contract);
    var amount0 := Share(liquidity, Held0(g, s), s1.totalSupply);
    var amount1 := Share(liquidity, Held1(g, s), s1.totalSupply);
    if amount0 > 0 && amount1 > 0 {
      ShareOfNothing(liquidity, Held0(g, s), s1.totalSupply);
      BurnLpKeeps(s1, g.contract, liquidity);
      BurnLpFrame(s1, g.contract, liquidity);
      var s2 := BurnLp(s1, g.contract, liquidity).state;
      PaymentConserves(s2, g.contract, to, Asset0, amount0);
      PaymentFrame(s2, g.contract, to, Asset0, amount0);
      var s3 := TransferTokens(s2, g.contract, to, Asset0, amount0).state;
      LpBackedDepends(s2, s3);
      PaymentConserves(s3, g.contract, to, Asset1, amount1);
      PaymentFrame(s3, g.contract, to, Asset1, amount1);
      var s4 := TransferTokens(s3, g.contract, to, Asset1, amount1).state;
      LpBackedDepends(s2, s4);
      UpdateKeeps(s4, Held0(g, s4), Held1(g, s4), now);
      var s5 := Update(s4, Held0(g, s4), Held1(g, s4), now);
      LpBackedDepends(s2, s5.(kLast := KLastAfter(s5, s.reserve0, s.reserve1)));
    }
  }

  lemma PaymentFrame(s: State, from: Account, to: Account, asset: Asset, amount: u128)
    ensures var t := TransferTokens(s, from, to, asset, amount).state; t == s.(ledger := t.ledger)
  {}

  lemma SwapConserves(g: Genesis, s: State, out0: u128, out1: u128, to: Account, now: u64)
    ensures var t := Swap(g, s, out0, out1, to, now).state;
            t.lp == s.lp && t.totalSupply == s.totalSupply && SameSupply(s, t)
  {
    hide TransferTokens, KCheck, Update, AmountIn, Total;
    PaymentConserves(s, g.contract, to, Asset0, out0);
    PaymentFrame(s, g.contract, to, Asset0, out0);
    var s1 := PayOut(s, g.contract, to, Asset0, out0).state;
    PaymentConserves(s1, g.contract, to, Asset1, out1);
    PaymentFrame(s1, g.contract, to, Asset1, out1);
    var s2 := PayOut(s1, g.contract, to, Asset1, out1).state;
    UpdateKeeps(s2, Held0(g, s2), Held1(g, s2), now);
  }

  lemma SwapOpConserves(g: Genesis, s: State, op: Op, now: u64)
    requires IsSwap(op)
    ensures var t := Exec(g, s, op, now).state;
            t.lp == s.lp && t.totalSupply == s.totalSupply && SameSupply(s, t)
  {
    hide Exec, Price, TransferTokens, Swap, Total;
    SwapIs(g, s, op, now);
    var price := Price(s, op);
    if price.Amount? {
      PaymentConserves(s, op.caller, g.contract, AssetIn(op), price.value);
      PaymentFrame(s, op.caller, g.contract, AssetIn(op), price.value);
      SwapConserves(g, PaySwap(g, s, op, price.value).state, Out(op, Asset0), Out(op, Asset1), op.caller, now);
    }
  }

  lemma DepositConserves(g: Genesis, s: State, caller: Account, amount0: u128, amount1: u128, now: u64)
    requires LpBacked(s) && DepositFits(g, s, caller, amount0, amount1)
    ensures var r := Deposit(g, s, caller, amount0, amount1, now); LpBacked(r.state) && SameSupply(s, r.state)
  {
    hide TransferTokens, Mint, MintFits, LpBacked, Total;
    PaymentConserves(s, caller, g.contract, Asset0, amount0);
    PaymentFrame(s, caller, g.contract, Asset0, amount0);
    var paid0 := TransferTokens(s, caller, g.contract, Asset0, amount0);
    LpBackedDepends(s, paid0.state);
    PaymentConserves(paid0.state, caller, g.contract, Asset1, amount1);
    PaymentFrame(paid0.state, caller, g.contract, Asset1, amount1);
    var paid1 := TransferTokens(paid0.state, caller, g.contract, Asset1, amount1);
    LpBackedDepends(s, paid1.state);
    if paid0.status.Ok? && paid1.status.Ok? {
      MintConserves(g, paid1.state, caller, now);
    }
  }

  /** Whatever the outcome and whoever the accounts are, an operation keeps the supply of
      both assets and the sum of the LP balances, also where it fails half way. */
  lemma ExecConserves(g: Genesis, s: State, op: Op, now: u64)
    requires LpBacked(s) && SupplyFits(g, s, op)
    ensures var t := Exec(g, s, op, now).state; LpBacked(t) && SameSupply(s, t)
  {
    hide Deposit, DepositFits, FeeFits, Matching, GetAmountIn, TransferTokens, Swap, Burn, Update, LpBacked, Total,
         TransferLiquidity;
    var t := Exec(g, s, op, now).state;
    match op {
      case DepositAsset1(caller, amount) =>
        var matching := Matching(s, amount, s.reserve0, s.reserve1);
        if matching.Amount? {
          DepositConserves(g, s, caller, amount, matching.value, now);
        }
      case DepositAsset2(caller, amount) =>
        var matching := Matching(s, amount, s.reserve1, s.reserve0);
        if matching.Amount? {
          DepositConserves(g, s, caller, matching.value, amount, now);
        }
      case Withdraw(caller, amount) =>
        TransferLiquidityKeeps(s, caller, g.contract, amount);
        var moved := TransferLiquidity(s, caller, g.contract, amount);
        FeeFitsDepends(s, moved.state);
        BurnConserves(g, moved.state, caller, now);
      case SwapAsset1ForAsset2(_, _) =>
        SwapOpConserves(g, s, op, now);
        LpBackedDepends(s, t);
      case SwapAsset2ForAsset1(_, _) =>
        SwapOpConserves(g, s, op, now);
        LpBackedDepends(s, t);
      case Skim(caller) =>
        SkimAssetConserves(s, g.contract, caller, Asset0, s.reserve0);
        var s1 := SkimAsset(s, g.contract, caller, Asset0, s.reserve0).state;
        SkimAssetConserves(s1, g.contract, caller, Asset1, s.reserve1);
        LpBackedDepends(s, t);
      case Sync(_) =>
        UpdateKeeps(s, Held0(g, s), Held1(g, s), now);
        LpBackedDepends(s, t);
      case OutsideTransfer(caller, to, asset, amount) =>
        PaymentConserves(s, caller, to, asset, amount);
        PaymentFrame(s, caller, to, asset, amount);
        LpBackedDepends(s, t);
      case SetFeeTo(_, _) =>
        LpBackedDepends(s, t);
    }
  }

  lemma FeeFitsDepends(s: State, t: State)
    requires t == s.(lp := t.lp)
    ensures FeeFits(t) == FeeFits(s)
  {
    hide FeeLiquidity;
  }

  lemma FeeOfPaid(s: State, paid: State)
    requires paid == s.(ledger := paid.ledger)
    ensures Fee(paid) == Fee(s)
  {
    hide FeeLiquidity;
  }

  lemma SkimAssetConserves(s: State, from: Account, to: Account, asset: Asset, reserve: u128)
    ensures var t := SkimAsset(s, from, to, asset, reserve).state;
            t == s.(ledger := t.ledger) && SameSupply(s, t)
  {
    hide TransferTokens, Total;
    var balance := s.ledger.Balance(from, asset);
    if balance >= reserve {
      PaymentConserves(s, from, to, asset, balance - reserve);
      PaymentFrame(s, from, to, asset, balance - reserve);
    }
  }

  predicate RawFits(g: Genesis, s: State, steps: seq<Step>)
    decreases steps
  {
    steps != [] ==>
      && SupplyFits(g, s, steps[0].op)
      && RawFits(g, Exec(g, s, steps[0].op, steps[0].now).state, steps[1..])
  }

  lemma {:induction false} RawRunConserves(g: Genesis, s: State, steps: seq<Step>)
    requires LpBacked(s) && RawFits(g, s, steps)
    ensures LpBacked(RawRun(g, s, steps)) && SameSupply(s, RawRun(g, s, steps))
    decreases steps
  {
    hide LpBacked, SupplyFits, Exec, Total;
    if steps != [] {
      ExecConserves(g, s, steps[0].op, steps[0].now);
      RawRunConserves(g, Exec(g, s, steps[0].op, steps[0].now).state, steps[1..]);
    }
  }
}
