/** What every signed transaction keeps, with the fee on or off: reserves that the contract
    really holds, liquidity that is locked as long as there is any, and, unless the supply is
    clipped, LP balances that add up to the supply. */
module Safety {
  import opened U128
  import opened Ledgers
  import opened Pool
  import opened Swaps
  import opened Conservation

  /** The contract holds its reserves. */
  predicate Covered(g: Genesis, s: State) {
    s.reserve0 <= Held0(g, s) && s.reserve1 <= Held1(g, s)
  }

  /** The contract holds its reserves and nothing else. */
  predicate Synced(g: Genesis, s: State) {
    s.reserve0 == Held0(g, s) && s.reserve1 == Held1(g, s)
  }

  /** Once there is supply, some of it is locked and both reserves are positive. */
  predicate Locked(g: Genesis, s: State) {
    s.totalSupply > 0 ==> BalanceIn(s.lp, g.zero) >= MINIMUM_LIQUIDITY && s.reserve0 > 0 && s.reserve1 > 0
  }

  /** What holds without any condition: where the supply is clipped the LP balances add up to
      more than the supply, but never to less. */
  ghost predicate Anchored(g: Genesis, s: State) {
    s.ledger.Valid() && s.totalSupply <= Total(s.lp) && Covered(g, s) && Locked(g, s)
  }

  /** What holds as long as nothing is clipped: the LP balances are exactly the supply. */
  ghost predicate Sound(g: Genesis, s: State) {
    s.ledger.Valid() && LpBacked(s) && Covered(g, s) && Locked(g, s)
  }

  lemma SoundIs(g: Genesis, s: State)
    ensures Sound(g, s) <==> Anchored(g, s) && LpBacked(s)
  {
    hide Total;
  }

  // ----- LP tokens ----------------------------------------------------------------------

  lemma MintLpAnchors(s: State, to: Account, value: u128)
    requires s.totalSupply <= Total(s.lp)
    ensures var t := MintLp(s, to, value);
            && t.totalSupply <= Total(t.lp) <= Total(s.lp) + value
            && t == s.(lp := t.lp, totalSupply := SatAdd(s.totalSupply, value))
            && BalanceIn(t.lp, to) == SatAdd(BalanceIn(s.lp, to), value)
            && (forall who :: who != to ==> BalanceIn(t.lp, who) == BalanceIn(s.lp, who))
            && (forall who :: who in s.lp ==> who in t.lp)
  {
    var balance := SatAdd(BalanceIn(s.lp, to), value);
    TotalUpdated(s.lp, to, balance);
    PartOfTotal(s.lp[to := balance], to);
  }

  lemma MintFeeAnchors(s: State)
    requires s.totalSupply <= Total(s.lp)
    ensures var t := MintFee(s);
            && t.totalSupply == AfterFee(s) <= Total(t.lp) <= Total(s.lp) + Fee(s)
            && t == s.(lp := t.lp, totalSupply := t.totalSupply, kLast := if s.feeTo.Some? then s.kLast else 0)
            && (forall who :: BalanceIn(t.lp, who) >= BalanceIn(s.lp, who))
            && (forall who :: who in s.lp ==> who in t.lp)
            && (t.totalSupply == 0 <==> s.totalSupply == 0)
  {
    hide FeeLiquidity, Total;
    NoFeeWithoutSupply(s.kLast, s.reserve0, s.reserve1);
    if s.feeTo.Some? {
      MintLpAnchors(s, s.feeTo.value, Fee(s));
    }
  }

  lemma BurnLpAnchors(s: State, from: Account, value: u128)
    requires s.totalSupply <= Total(s.lp) && value <= BalanceIn(s.lp, from) && from in s.lp
    ensures var t := BurnLp(s, from, value);
            && t.status.Ok? && t.state.totalSupply == SatSub(s.totalSupply, value) <= Total(t.state.lp)
            && t.state == s.(lp := t.state.lp, totalSupply := t.state.totalSupply)
            && BalanceIn(t.state.lp, from) == BalanceIn(s.lp, from) - value
            && (forall who :: who != from ==> BalanceIn(t.state.lp, who) == BalanceIn(s.lp, who))
  {
    PartOfTotal(s.lp, from);
    TotalUpdated(s.lp, from, BalanceIn(s.lp, from) - value);
  }

  lemma TransferLiquidityAnchors(s: State, from: Account, to: Account, amount: u128)
    requires s.totalSupply <= Total(s.lp) && from != to && BalanceIn(s.lp, from) >= amount
    ensures var t := TransferLiquidity(s, from, to, amount);
            && t.status.Ok? && t.state == s.(lp := t.state.lp) && to in t.state.lp
            && s.totalSupply <= Total(t.state.lp) <= Total(s.lp)
            && BalanceIn(t.state.lp, from) == BalanceIn(s.lp, from) - amount
            && BalanceIn(t.state.lp, to) == SatAdd(BalanceIn(s.lp, to), amount)
            && (forall who :: who != from && who != to ==> BalanceIn(t.state.lp, who) == BalanceIn(s.lp, who))
  {
    var lowered := s.lp[from := BalanceIn(s.lp, from) - amount];
    var balance := SatAdd(BalanceIn(lowered, to), amount);
    TotalUpdated(s.lp, from, BalanceIn(s.lp, from) - amount);
    TotalUpdated(lowered, to, balance);
    PartOfTotal(lowered[to := balance], to);
  }

  // ----- arithmetic of shares -----------------------------------------------------------

  lemma ShareBounds(liquidity: u128, balance: u128, supply: u128)
    requires supply > 0
    ensures Share(liquidity, balance, supply) * supply <= liquidity * balance
    ensures liquidity < supply && balance > 0 ==> Share(liquidity, balance, supply) < balance
    ensures liquidity <= supply ==> Share(liquidity, balance, supply) <= balance
    ensures Share(liquidity, balance, supply) > 0 ==> liquidity > 0 && balance > 0
  {
    var share := Share(liquidity, balance, supply);
    assert share * supply <= liquidity * balance;
    if liquidity < supply && balance > 0 {
      assert liquidity * balance < supply * balance;
      if share >= balance {
        MulMonotone(balance, share, supply);
      }
    }
    if liquidity <= supply && share > balance {
      MulMonotone(liquidity, supply, balance);
      MulMonotone(balance + 1, share, supply);
    }
  }

  lemma FirstMintAmounts(amount0: u128, amount1: u128, reserve0: u128, reserve1: u128)
    requires Liquidity(0, amount0, amount1, reserve0, reserve1) > 0
    ensures amount0 > 0 && amount1 > 0
  {
    hide Root;
    var r := Root(SatMul(amount0, amount1));
    assert r * r <= SatMul(amount0, amount1);
    MulMonotone(1, r, r);
  }

  // ----- mint, burn, swap ---------------------------------------------------------------

  /** `mint` on an anchored pool: when it succeeds, and what the supply is then. */
  lemma MintAnchors(g: Genesis, s: State, to: Account, now: u64)
    requires Anchored(g, s)
    ensures var r := Mint(g, s, to, now);
            var locked := if s.totalSupply == 0 then MINIMUM_LIQUIDITY else 0;
            && (r.status.Ok? <==> MintedLiquidity(g, s) > 0)
            && (r.status.Ok? ==>
                  && Anchored(g, r.state) && Synced(g, r.state) && r.state.ledger == s.ledger
                  && r.state.totalSupply == SatAdd(SatAdd(AfterFee(s), locked), MintedLiquidity(g, s)))
  {
    hide FeeLiquidity, MintFee, MintLp, Liquidity, Update, KLastAfter, Total, Fee;
    MintFeeAnchors(s);
    var s1 := MintFee(s);
    var liquidity := MintedLiquidity(g, s);
    MintLpAnchors(s1, g.zero, MINIMUM_LIQUIDITY);
    var s2 := if s1.totalSupply == 0 then MintLp(s1, g.zero, MINIMUM_LIQUIDITY) else s1;
    MintLpAnchors(s2, to, liquidity);
    var s3 := MintLp(s2, to, liquidity);
    UpdateKeeps(s3, Held0(g, s), Held1(g, s), now);
    if s1.totalSupply == 0 && liquidity > 0 {
      FirstMintAmounts(SatSub(Held0(g, s), s.reserve0), SatSub(Held1(g, s), s.reserve1), s.reserve0, s.reserve1);
    }
  }

  lemma MintKeeps(g: Genesis, s: State, to: Account, now: u64)
    requires Sound(g, s) && MintFits(g, s)
    ensures var r := Mint(g, s, to, now); r.status.Ok? ==> Sound(g, r.state) && Synced(g, r.state)
  {
    hide Sound, MintFits, Mint;
    SoundIs(g, s);
    MintAnchors(g, s, to, now);
    MintConserves(g, s, to, now);
    SoundIs(g, Mint(g, s, to, now).state);
  }

  /** A burn pays `to` the share of each balance that the contract's LP tokens stand for, of the
      supply that includes the fee. Whatever has been clipped, it fails only for a zero share or
      for one that exceeds the balance, and it never touches the locked tokens. */
  lemma BurnEffect(g: Genesis, s: State, to: Account, now: u64)
    requires Anchored(g, s) && g.contract != g.zero && to != g.contract
    ensures var r := Burn(g, s, to, now);
            var n, liquidity := AfterFee(s), BalanceIn(s.lp, g.contract);
            var amount0, amount1 := Share(liquidity, Held0(g, s), n), Share(liquidity, Held1(g, s), n);
            && (r.status.Ok? <==> 0 < amount0 <= Held0(g, s) && 0 < amount1 <= Held1(g, s))
            && r.status in {Ok, Err(InsufficientLiquidityBurned), Err(InsufficientBalance)}
            && (r.status.Ok? ==>
                  && Anchored(g, r.state) && Synced(g, r.state)
                  && r.state.totalSupply == SatSub(n, liquidity)
                  && r.state.feeTo == s.feeTo
                  && r.state.kLast == (if s.feeTo.Some? then SatMul(s.reserve0, s.reserve1) else 0)
                  && BalanceIn(r.state.lp, g.contract) == BalanceIn(MintFee(s).lp, g.contract) - liquidity
                  && (forall who :: who != g.contract ==> BalanceIn(r.state.lp, who) == BalanceIn(MintFee(s).lp, who))
                  && Paid(s, r.state, g.contract, to, amount0, amount1))
  {
    hide FeeLiquidity, MintFee, BurnLp, Share, Update, TransferTokens, Total, Paid, Fee, SatMul;
    MintFeeAnchors(s);
    var s1 := MintFee(s);
    var n, liquidity := AfterFee(s), BalanceIn(s.lp, g.contract);
    var amount0, amount1 := Share(liquidity, Held0(g, s), n), Share(liquidity, Held1(g, s), n);
    if amount0 > 0 && amount1 > 0 {
      ShareOfNothing(liquidity, Held0(g, s), n);
      ShareBounds(liquidity, Held0(g, s), n);
      ShareBounds(liquidity, Held1(g, s), n);
      BurnLpAnchors(s1, g.contract, liquidity);
      var s2 := BurnLp(s1, g.contract, liquidity).state;
      Payment(s2, g.contract, to, Asset0, amount0);
      var s3 := TransferTokens(s2, g.contract, to, Asset0, amount0).state;
      Payment(s3, g.contract, to, Asset1, amount1);
      if amount0 <= Held0(g, s) && amount1 <= Held1(g, s) {
        PayBoth(s2, g.contract, to, amount0, amount1);
        var s4 := TransferTokens(s3, g.contract, to, Asset1, amount1).state;
        UpdateKeeps(s4, Held0(g, s4), Held1(g, s4), now);
        PaidDepends(s2, s4, s, Burn(g, s, to, now).state, g.contract, to, amount0, amount1);
        PaidHeld(g, s, Burn(g, s, to, now).state, to, amount0, amount1);
      }
    }
  }

  lemma PaidHeld(g: Genesis, s: State, t: State, to: Account, amount0: int, amount1: int)
    requires Paid(s, t, g.contract, to, amount0, amount1)
    ensures Held0(g, t) == Held0(g, s) - amount0 && Held1(g, t) == Held1(g, s) - amount1
  {}

  lemma PayOutKeeps(s: State, from: Account, to: Account, asset: Asset, amount: u128)
    requires s.ledger.Valid() && from != to
    ensures var t := PayOut(s, from, to, asset, amount);
            && t.state == s.(ledger := t.state.ledger)
            && t.state.ledger.Valid()
            && (t.status.Ok? <==> s.ledger.Balance(from, asset) >= amount)
            && (t.status.Err? ==> t == Outcome(s, Err(InsufficientBalance)))
            && (t.status.Ok? ==>
                  && t.state.ledger.Balance(from, asset) == s.ledger.Balance(from, asset) - amount
                  && t.state.ledger.Balance(to, asset) == s.ledger.Balance(to, asset) + amount
                  && forall who, any :: any != asset || (who != from && who != to)
                                        ==> t.state.ledger.Balance(who, any) == s.ledger.Balance(who, any))
  {
    hide TransferTokens, Total;
    Payment(s, from, to, asset, amount);
  }

  /** `_swap` on reserves that the contract holds: it fails only for the amounts asked for, for
      want of a payment, or for the K check. */
  lemma SwapPays(g: Genesis, s: State, out0: u128, out1: u128, to: Account, now: u64)
    requires Anchored(g, s) && to != g.contract
    requires out0 < s.reserve0 && out1 < s.reserve1 && (out0 > 0 || out1 > 0)
    ensures var r := Swap(g, s, out0, out1, to, now);
            var b0, b1 := Held0(g, s) - out0, Held1(g, s) - out1;
            var i0, i1 := AmountIn(b0, s.reserve0, out0), AmountIn(b1, s.reserve1, out1);
            && (r.status.Ok? <==> (i0 > 0 || i1 > 0) && KCheck(b0, b1, i0, i1, s.reserve0, s.reserve1))
            && (r.status.Ok? ==>
                  && Anchored(g, r.state) && Synced(g, r.state) && Held0(g, r.state) == b0 && Held1(g, r.state) == b1
                  && r.state.totalSupply == s.totalSupply && r.state.lp == s.lp
                  && r.state.feeTo == s.feeTo && r.state.kLast == s.kLast
                  && Paid(s, r.state, g.contract, to, out0, out1))
  {
    hide PayOut, KCheck, AmountIn, Update, Total;
    PayOutKeeps(s, g.contract, to, Asset0, out0);
    var s1 := PayOut(s, g.contract, to, Asset0, out0).state;
    PayOutKeeps(s1, g.contract, to, Asset1, out1);
    var s2 := PayOut(s1, g.contract, to, Asset1, out1).state;
    UpdateKeeps(s2, Held0(g, s2), Held1(g, s2), now);
  }

  // ----- dispatchables ------------------------------------------------------------------

  /** The state in which a deposit that both payments allow calls `mint`. */
  function DepositPaid(g: Genesis, s: State, caller: Account, amount0: u128, amount1: u128): State {
    var paid0 := TransferTokens(s, caller, g.contract, Asset0, amount0).state;
    TransferTokens(paid0, caller, g.contract, Asset1, amount1).state
  }

  lemma DepositPays(g: Genesis, s: State, caller: Account, amount0: u128, amount1: u128, now: u64)
    requires Anchored(g, s) && caller != g.contract
    ensures var paid := DepositPaid(g, s, caller, amount0, amount1);
            var r := Deposit(g, s, caller, amount0, amount1, now);
            if s.ledger.Balance(caller, Asset0) >= amount0 && s.ledger.Balance(caller, Asset1) >= amount1 then
              && Anchored(g, paid) && paid == s.(ledger := paid.ledger) && r == Mint(g, paid, caller, now)
              && Held0(g, paid) == Held0(g, s) + amount0 && Held1(g, paid) == Held1(g, s) + amount1
              && paid.ledger.Balance(caller, Asset0) == s.ledger.Balance(caller, Asset0) - amount0
              && paid.ledger.Balance(caller, Asset1) == s.ledger.Balance(caller, Asset1) - amount1
              && (DepositFits(g, s, caller, amount0, amount1) <==> MintFits(g, paid))
            else
              r.status == Err(InsufficientBalance) && DepositFits(g, s, caller, amount0, amount1)
  {
    hide TransferTokens, Mint, MintFits, Total;
    Payment(s, caller, g.contract, Asset0, amount0);
    var s1 := TransferTokens(s, caller, g.contract, Asset0, amount0).state;
    Payment(s1, caller, g.contract, Asset1, amount1);
  }

  lemma DepositAnchors(g: Genesis, s: State, caller: Account, amount0: u128, amount1: u128, now: u64)
    requires Anchored(g, s) && caller != g.contract
    ensures var r := Deposit(g, s, caller, amount0, amount1, now);
            r.status.Ok? ==> Anchored(g, r.state) && Synced(g, r.state) && r.state.totalSupply > 0
  {
    hide DepositPaid, Deposit, DepositFits, Mint, MintFits, Total;
    DepositPays(g, s, caller, amount0, amount1, now);
    if s.ledger.Balance(caller, Asset0) >= amount0 && s.ledger.Balance(caller, Asset1) >= amount1 {
      MintAnchors(g, DepositPaid(g, s, caller, amount0, amount1), caller, now);
    }
  }

  lemma WithdrawMoves(g: Genesis, s: State, caller: Account, amount: u128)
    requires Anchored(g, s) && caller != g.contract && caller != g.zero && g.contract != g.zero
    requires BalanceIn(s.lp, caller) >= amount
    ensures var moved := TransferLiquidity(s, caller, g.contract, amount);
            && moved.status.Ok? && Anchored(g, moved.state) && moved.state == s.(lp := moved.state.lp)
            && BalanceIn(moved.state.lp, caller) == BalanceIn(s.lp, caller) - amount
            && BalanceIn(moved.state.lp, g.contract) == SatAdd(BalanceIn(s.lp, g.contract), amount)
            && (forall who :: who != caller && who != g.contract
                              ==> BalanceIn(moved.state.lp, who) == BalanceIn(s.lp, who))
            && g.contract in moved.state.lp
            && Total(moved.state.lp) <= Total(s.lp)
            && Fee(moved.state) == Fee(s)
  {
    hide Total, FeeLiquidity, TransferLiquidity;
    TransferLiquidityAnchors(s, caller, g.contract, amount);
  }

  /** Every withdrawal that succeeds leaves an anchored pool, be its supply zero. */
  lemma WithdrawAnchors(g: Genesis, s: State, op: Op, now: u64)
    requires Anchored(g, s) && Signed(g, op) && op.Withdraw?
    ensures var r := Exec(g, s, op, now);
            r.status.Ok? ==> Anchored(g, r.state) && Synced(g, r.state)
  {
    hide Burn, TransferLiquidity, Total, Share, Fee;
    if BalanceIn(s.lp, op.caller) >= op.amount {
      WithdrawMoves(g, s, op.caller, op.amount);
      BurnEffect(g, TransferLiquidity(s, op.caller, g.contract, op.amount).state, op.caller, now);
    } else {
      NothingToMove(s, op.caller, g.contract, op.amount);
    }
  }

  lemma NothingToMove(s: State, from: Account, to: Account, amount: u128)
    requires BalanceIn(s.lp, from) < amount
    ensures TransferLiquidity(s, from, to, amount).status.Err?
  {}

  /** The K check of a public swap, on the balances that its two payments leave. */
  predicate SwapCheck(g: Genesis, s: State, op: Op, charge: u128)
    requires IsSwap(op)
  {
    var balanceIn, balanceOut := Held(g, s, AssetIn(op)) + charge, Held(g, s, AssetOut(op)) - op.amount;
    var reserveIn, reserveOut := Reserve(s, AssetIn(op)), Reserve(s, AssetOut(op));
    && balanceIn <= U128_MAX && balanceOut >= 0
    && KCheck(balanceIn, balanceOut, AmountIn(balanceIn, reserveIn, 0), AmountIn(balanceOut, reserveOut, op.amount),
              reserveIn, reserveOut)
  }

  /** The terms on which the pool sells: who pays and gets what, and the reserves afterwards. */
  ghost predicate Sold(g: Genesis, s: State, t: State, op: Op, charge: nat)
    requires IsSwap(op)
  {
    && t.ledger.Balance(op.caller, AssetIn(op)) == s.ledger.Balance(op.caller, AssetIn(op)) - charge
    && t.ledger.Balance(op.caller, AssetOut(op)) == s.ledger.Balance(op.caller, AssetOut(op)) + op.amount
    && Held(g, t, AssetIn(op)) == Held(g, s, AssetIn(op)) + charge
    && Held(g, t, AssetOut(op)) == Held(g, s, AssetOut(op)) - op.amount
    && (forall who, any :: who != g.contract && who != op.caller
                           ==> t.ledger.Balance(who, any) == s.ledger.Balance(who, any))
    && Synced(g, t)
    && t.totalSupply == s.totalSupply && t.lp == s.lp && t.feeTo == s.feeTo && t.kLast == s.kLast
  }

  /** A public swap on an anchored pool: exactly when it succeeds, and what it does then. */
  lemma SwapEffect(g: Genesis, s: State, op: Op, now: u64)
    requires Anchored(g, s) && Signed(g, op) && IsSwap(op)
    ensures var r := Exec(g, s, op, now);
            var price := Price(s, op);
            && (r.status.Ok? <==>
                  && price.Amount? && op.amount < Reserve(s, AssetOut(op))
                  && s.ledger.Balance(op.caller, AssetIn(op)) >= price.value
                  && SwapCheck(g, s, op, price.value))
            && (r.status.Ok? ==> Anchored(g, r.state) && Sold(g, s, r.state, op, price.value))
  {
    hide Exec, Price, TransferTokens, Swap, Total, KCheck, AmountIn;
    SwapIs(g, s, op, now);
    var price := Price(s, op);
    if price.Amount? {
      Payment(s, op.caller, g.contract, AssetIn(op), price.value);
      var s1 := PaySwap(g, s, op, price.value).state;
      SwapAmounts(g, s1, Out(op, Asset0), Out(op, Asset1), op.caller, now);
      PriceAsksForSome(s, op);
      if s.ledger.Balance(op.caller, AssetIn(op)) >= price.value && op.amount < Reserve(s, AssetOut(op)) {
        PriceIsPositive(s, op);
        SwapPays(g, s1, Out(op, Asset0), Out(op, Asset1), op.caller, now);
        var balanceIn, balanceOut := Held(g, s, AssetIn(op)) + price.value, Held(g, s, AssetOut(op)) - op.amount;
        var reserveIn, reserveOut := Reserve(s, AssetIn(op)), Reserve(s, AssetOut(op));
        SomeCameIn(balanceIn, reserveIn);
        KCheckSymmetric(balanceIn, balanceOut, AmountIn(balanceIn, reserveIn, 0),
                        AmountIn(balanceOut, reserveOut, op.amount), reserveIn, reserveOut);
      }
    }
  }

  /** InvalidK is the K check's error and no other's. */
  lemma InvalidKIsTheCheck(g: Genesis, s: State, op: Op, now: u64)
    requires Anchored(g, s) && Signed(g, op) && IsSwap(op) && Exec(g, s, op, now).status == Err(InvalidK)
    ensures var price := Price(s, op);
            && price.Amount? && op.amount < Reserve(s, AssetOut(op))
            && s.ledger.Balance(op.caller, AssetIn(op)) >= price.value
  {
    hide Exec, TransferTokens, Swap, Total;
    SwapIs(g, s, op, now);
    var price := Price(s, op);
    if price.Amount? {
      hide Price;
      Payment(s, op.caller, g.contract, AssetIn(op), price.value);
      SwapAmounts(g, PaySwap(g, s, op, price.value).state, Out(op, Asset0), Out(op, Asset1), op.caller, now);
    } else {
      RefusedIsNotInvalidK(op.amount, Reserve(s, AssetIn(op)), Reserve(s, AssetOut(op)));
    }
  }

  lemma RefusedIsNotInvalidK(amount: u128, reserveIn: u128, reserveOut: u128)
    ensures GetAmountIn(amount, reserveIn, reserveOut) != Refused(InvalidK)
  {
    hide SatMul, Quotient;
  }

  lemma PriceAsksForSome(s: State, op: Op)
    requires IsSwap(op) && Price(s, op).Amount?
    ensures op.amount > 0 && s.reserve0 > 0 && s.reserve1 > 0
  {
    hide Quotient;
  }

  lemma SomeCameIn(balance: u128, reserve: u128)
    requires balance > reserve
    ensures AmountIn(balance, reserve, 0) > 0
  {}

  lemma SwapAmounts(g: Genesis, s: State, out0: u128, out1: u128, to: Account, now: u64)
    ensures Swap(g, s, out0, out1, to, now).status in {Ok, Err(InvalidK)} ==>
              out0 < s.reserve0 && out1 < s.reserve1 && (out0 > 0 || out1 > 0)
  {
    hide SettleSwap, PayOut;
  }

  lemma SkimAssetKeeps(g: Genesis, s: State, to: Account, asset: Asset, reserve: u128)
    requires Anchored(g, s) && to != g.contract && reserve == Reserve(s, asset)
    ensures var r := SkimAsset(s, g.contract, to, asset, reserve);
            r.status.Ok? && Anchored(g, r.state) && r.state == s.(ledger := r.state.ledger)
            && r.state.ledger.Balance(g.contract, asset) == reserve
            && (forall any :: any != asset
                              ==> r.state.ledger.Balance(g.contract, any) == s.ledger.Balance(g.contract, any))
  {
    hide TransferTokens, Total;
    var balance := s.ledger.Balance(g.contract, asset);
    Payment(s, g.contract, to, asset, balance - reserve);
  }

  /** Skimming takes exactly what the contract holds beyond its reserves. */
  lemma SkimKeeps(g: Genesis, s: State, op: Op, now: u64)
    requires Anchored(g, s) && Signed(g, op) && op.Skim?
    ensures var r := Exec(g, s, op, now);
            r.status.Ok? && Anchored(g, r.state) && Synced(g, r.state) && r.state == s.(ledger := r.state.ledger)
  {
    hide SkimAsset, Total;
    SkimAssetKeeps(g, s, op.caller, Asset0, s.reserve0);
    var s1 := SkimAsset(s, g.contract, op.caller, Asset0, s.reserve0).state;
    SkimAssetKeeps(g, s1, op.caller, Asset1, s1.reserve1);
  }

  lemma PlainOpAnchors(g: Genesis, s: State, op: Op, now: u64)
    requires Anchored(g, s) && Signed(g, op) && (op.SetFeeTo? || op.Sync? || op.OutsideTransfer?)
    ensures var r := Exec(g, s, op, now);
            && r.state.totalSupply == s.totalSupply
            && (r.status.Ok? ==> Anchored(g, r.state) && (op.Sync? ==> Synced(g, r.state)))
  {
    hide Update, TransferTokens, Total;
    match op {
      case Sync(_) =>
        UpdateKeeps(s, Held0(g, s), Held1(g, s), now);
      case OutsideTransfer(caller, to, asset, amount) =>
        if caller == to {
          SelfTransfer(s, caller, asset, amount);
        } else {
          Payment(s, caller, to, asset, amount);
        }
      case _ =>
    }
  }

  lemma SelfTransfer(s: State, who: Account, asset: Asset, amount: u128)
    ensures TransferTokens(s, who, who, asset, amount).state == s
  {}

  lemma SignedCaller(g: Genesis, op: Op)
    requires Signed(g, op)
    ensures op.caller != g.contract
  {}

  lemma AnchoredExec(g: Genesis, s: State, op: Op, now: u64)
    requires Anchored(g, s) && Signed(g, op)
    ensures var r := Exec(g, s, op, now);
            r.status.Ok? ==>
              && Anchored(g, r.state) && (SetsReserves(op) ==> Synced(g, r.state))
              && (s.totalSupply > 0 && !op.Withdraw? ==> r.state.totalSupply > 0)
  {
    hide Anchored, Synced, Deposit, Matching, Signed;
    match op {
      case DepositAsset1(caller, amount) =>
        SignedCaller(g, op);
        var matching := Matching(s, amount, s.reserve0, s.reserve1);
        if matching.Amount? {
          DepositAnchors(g, s, caller, amount, matching.value, now);
        }
      case DepositAsset2(caller, amount) =>
        SignedCaller(g, op);
        var matching := Matching(s, amount, s.reserve1, s.reserve0);
        if matching.Amount? {
          DepositAnchors(g, s, caller, matching.value, amount, now);
        }
      case Withdraw(_, _) => WithdrawAnchors(g, s, op, now); hide Exec;
      case SwapAsset1ForAsset2(_, _) => SwapEffect(g, s, op, now); hide Exec;
      case SwapAsset2ForAsset1(_, _) => SwapEffect(g, s, op, now); hide Exec;
      case Skim(_) => SkimKeeps(g, s, op, now); hide Exec;
      case _ => PlainOpAnchors(g, s, op, now); hide Exec;
    }
  }

  /** Every signed transaction, clipped or not, keeps the pool anchored, and an operation that
      sets the reserves leaves them equal to what the contract holds. */
  lemma AnchoredStep(g: Genesis, s: State, op: Op, now: u64)
    requires Anchored(g, s) && Signed(g, op)
    ensures var r := Dispatch(g, s, op, now);
            && Anchored(g, r.state)
            && (r.status.Ok? && SetsReserves(op) ==> Synced(g, r.state))
            && (s.totalSupply > 0 && !op.Withdraw? ==> r.state.totalSupply > 0)
  {
    hide Anchored, Synced;
    AnchoredExec(g, s, op, now);
    hide Exec;
  }

  /** Unless it clips the supply, it also keeps the LP balances adding up to the supply. */
  lemma SoundStep(g: Genesis, s: State, op: Op, now: u64)
    requires Sound(g, s) && Signed(g, op) && SupplyFits(g, s, op)
    ensures Sound(g, Dispatch(g, s, op, now).state)
  {
    hide Sound, Anchored, Exec, SupplyFits, LpBacked;
    SoundIs(g, s);
    AnchoredStep(g, s, op, now);
    ExecConserves(g, s, op, now);
    SoundIs(g, Dispatch(g, s, op, now).state);
  }

  // ----- runs ---------------------------------------------------------------------------

  predicate SignedRun(g: Genesis, steps: seq<Step>) {
    forall step :: step in steps ==> Signed(g, step.op)
  }

  lemma InitiallySound(g: Genesis, ledger: Ledger)
    requires ledger.Valid()
    ensures Sound(g, InitialState(ledger))
  {
    hide Total;
    assert Total(map[]) == 0 by { EmptyTotal(); }
  }

  lemma EmptyTotal()
    ensures Total(map[]) == 0
  {}

  /** Over every signed run, without any condition: the contract holds its reserves, the LP
      balances add up to no less than the supply, and as long as there is supply some of it is
      locked and both reserves are positive. */
  lemma {:induction false} AnchoredRun(g: Genesis, s: State, steps: seq<Step>)
    requires Anchored(g, s) && SignedRun(g, steps)
    ensures Anchored(g, Run(g, s, steps))
    decreases steps
  {
    hide Anchored, Dispatch, Signed;
    if steps != [] {
      AnchoredStep(g, s, steps[0].op, steps[0].now);
      AnchoredRun(g, Next(g, s, steps[0]), steps[1..]);
    }
  }
}
