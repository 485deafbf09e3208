/** A deposit followed at once by the withdrawal of the LP tokens it minted. */
module RoundTrip {
  import opened U128
  import opened Ledgers
  import opened Pool
  import opened Swaps
  import opened Conservation
  import opened Safety
  import opened Growth
  import opened Effects
  import opened Outcomes

  // ----- the two transactions -----------------------------------------------------------

  /** The LP tokens for paying in `amount0` and `amount1` on a synced pool. */
  function Tokens(s: State, amount0: u128, amount1: u128): u128 {
    Liquidity(s.totalSupply, amount0, amount1, s.reserve0, s.reserve1)
  }

  function SupplyAfter(s: State, tokens: u128): nat {
    s.totalSupply + tokens + (if s.totalSupply == 0 then MINIMUM_LIQUIDITY else 0)
  }

  lemma DepositEffect(g: Genesis, s: State, op: Op, now: u64)
    requires Healthy(g, s) && Synced(g, s) && Signed(g, op) && IsDeposit(op)
    requires Dispatch(g, s, op, now).status.Ok?
    ensures var t := Dispatch(g, s, op, now).state;
            var (paid0, paid1) := PaidIn(s, op);
            && paid0.Amount? && paid1.Amount?
            && var tokens := Tokens(s, paid0.value, paid1.value);
            && tokens > 0
            && Healthy(g, t) && Synced(g, t)
            && s.reserve0 + paid0.value == t.reserve0 && s.reserve1 + paid1.value == t.reserve1
            && t.totalSupply == SupplyAfter(s, tokens)
            && BalanceIn(t.lp, op.caller) == BalanceIn(s.lp, op.caller) + tokens
            && BalanceIn(t.lp, g.contract) == BalanceIn(s.lp, g.contract)
            && t.ledger.Balance(op.caller, Asset0) == s.ledger.Balance(op.caller, Asset0) - paid0.value
            && t.ledger.Balance(op.caller, Asset1) == s.ledger.Balance(op.caller, Asset1) - paid1.value
  {
    hide Matching, DepositPaid, Deposit, DepositFits, Mint, MintFits, LpBacked, Total, Liquidity, Healthy, Anchored;
    HealthyIs(g, s);
    var (paid0, paid1) := PaidIn(s, op);
    var amount0, amount1 := paid0.value, paid1.value;
    DepositPays(g, s, op.caller, amount0, amount1, now);
    var paid := DepositPaid(g, s, op.caller, amount0, amount1);
    PaidIsHealthy(g, s, paid);
    MintEffect(g, paid, op.caller, now);
  }

  lemma WithdrawEffect(g: Genesis, s: State, caller: Account, amount: u128, now: u64)
    requires Healthy(g, s) && Synced(g, s) && Signed(g, Withdraw(caller, amount)) && s.totalSupply > 0
    requires BalanceIn(s.lp, caller) >= amount && BalanceIn(s.lp, g.contract) == 0
    ensures var r := Dispatch(g, s, Withdraw(caller, amount), now);
            var amount0, amount1 := Share(amount, s.reserve0, s.totalSupply), Share(amount, s.reserve1, s.totalSupply);
            && (r.status.Ok? <==> amount0 > 0 && amount1 > 0)
            && (r.status.Ok? ==>
                  && r.state.ledger.Balance(caller, Asset0) == s.ledger.Balance(caller, Asset0) + amount0
                  && r.state.ledger.Balance(caller, Asset1) == s.ledger.Balance(caller, Asset1) + amount1)
  {
    hide TransferLiquidity, Burn, Share, LpBacked, Total;
    MovedIsHealthy(g, s, caller, amount);
    WithdrawMoves(g, s, caller, amount);
    FeeOffBurn(g, TransferLiquidity(s, caller, g.contract, amount).state, caller, now);
  }

  /** With the fee off the contract holds no LP tokens between transactions. */
  lemma NoStrayTokens(g: Genesis, s: State, op: Op, now: u64)
    requires Healthy(g, s) && Signed(g, op) && BalanceIn(s.lp, g.contract) == 0
    ensures BalanceIn(Dispatch(g, s, op, now).state.lp, g.contract) == 0
  {
    hide DepositPaid, Deposit, Matching, Burn, Update, TransferTokens, SkimAsset, TransferLiquidity, Swap, Price,
         SwapCheck, LpBacked, Total;
    HealthyIs(g, s);
    match op {
      case DepositAsset1(caller, amount) =>
        var matching := Matching(s, amount, s.reserve0, s.reserve1);
        if matching.Amount? {
          NoStrayDeposit(g, s, caller, amount, matching.value, now);
        }
      case DepositAsset2(caller, amount) =>
        var matching := Matching(s, amount, s.reserve1, s.reserve0);
        if matching.Amount? {
          NoStrayDeposit(g, s, caller, matching.value, amount, now);
        }
      case Withdraw(caller, amount) =>
        TransferLiquidityKeeps(s, caller, g.contract, amount);
        NoStrayBurn(g, TransferLiquidity(s, caller, g.contract, amount).state, caller, now);
      case SwapAsset1ForAsset2(_, _) => SwapEffect(g, s, op, now);
      case SwapAsset2ForAsset1(_, _) => SwapEffect(g, s, op, now);
      case Skim(caller) => SkimKeeps(g, s, op, now);
      case Sync(_) => UpdateKeeps(s, Held0(g, s), Held1(g, s), now);
      case OutsideTransfer(caller, to, asset, amount) => PaymentFrame(s, caller, to, asset, amount);
      case SetFeeTo(_, _) =>
    }
  }

  lemma {:induction false} NoStrayTokensInRun(g: Genesis, s: State, steps: seq<Step>)
    requires Healthy(g, s) && FeeOffRun(g, s, steps) && BalanceIn(s.lp, g.contract) == 0
    ensures BalanceIn(Run(g, s, steps).lp, g.contract) == 0
    decreases steps
  {
    hide Healthy, Dispatch, Signed, SwapHolds;
    if steps != [] {
      NoStrayTokens(g, s, steps[0].op, steps[0].now);
      HealthyStep(g, s, steps[0].op, steps[0].now);
      NoStrayTokensInRun(g, Next(g, s, steps[0]), steps[1..]);
    }
  }

  lemma NoStrayDeposit(g: Genesis, s: State, caller: Account, amount0: u128, amount1: u128, now: u64)
    requires Healthy(g, s) && caller != g.contract && caller != g.zero && g.contract != g.zero
    requires BalanceIn(s.lp, g.contract) == 0
    ensures var r := Deposit(g, s, caller, amount0, amount1, now);
            r.status.Ok? ==> BalanceIn(r.state.lp, g.contract) == 0
  {
    hide DepositPaid, Deposit, DepositFits, Mint, MintFits, MintedLiquidity, Healthy, Anchored;
    HealthyIs(g, s);
    DepositPays(g, s, caller, amount0, amount1, now);
    if s.ledger.Balance(caller, Asset0) >= amount0 && s.ledger.Balance(caller, Asset1) >= amount1 {
      var paid := DepositPaid(g, s, caller, amount0, amount1);
      PaidIsHealthy(g, s, paid);
      MintEffect(g, paid, caller, now);
    }
  }

  lemma NoStrayBurn(g: Genesis, s: State, to: Account, now: u64)
    requires s.feeTo.None?
    ensures var r := Burn(g, s, to, now); r.status.Ok? ==> BalanceIn(r.state.lp, g.contract) == 0
  {
    hide Share, Update, TransferTokens;
    var s1 := MintFee(s);
    var liquidity := BalanceIn(s.lp, g.contract);
    var amount0 := Share(liquidity, Held0(g, s), s1.totalSupply);
    var amount1 := Share(liquidity, Held1(g, s), s1.totalSupply);
    var s2 := BurnLp(s1, g.contract, liquidity).state;
    PaymentFrame(s2, g.contract, to, Asset0, amount0);
    var s3 := TransferTokens(s2, g.contract, to, Asset0, amount0).state;
    PaymentFrame(s3, g.contract, to, Asset1, amount1);
    var s4 := TransferTokens(s3, g.contract, to, Asset1, amount1).state;
    UpdateKeeps(s4, Held0(g, s4), Held1(g, s4), now);
  }

  // ----- arithmetic ---------------------------------------------------------------------

  /** On a pool with supply, tokens bought are worth no more than what they cost. */
  lemma NotWorthMore(tokens: u128, amount: u128, reserve: u128, supply: u128, supply': u128)
    requires supply > 0 && supply' == supply + tokens && reserve + amount <= U128_MAX
    requires tokens * reserve <= amount * supply
    ensures Share(tokens, reserve + amount, supply') <= amount
  {
    ShareBounds(tokens, reserve + amount, supply');
    WorthArithmetic(tokens, amount, reserve, supply, Share(tokens, reserve + amount, supply'));
  }

  lemma WorthArithmetic(tokens: nat, amount: nat, reserve: nat, supply: nat, share: nat)
    requires supply > 0 && tokens * reserve <= amount * supply
    requires share * (supply + tokens) <= tokens * (reserve + amount)
    ensures share <= amount
  {
    assert tokens * (reserve + amount) == tokens * reserve + amount * tokens;
    assert amount * (supply + tokens) == amount * supply + amount * tokens;
    assert (supply + tokens) * share == share * (supply + tokens);
    assert (supply + tokens) * amount == amount * (supply + tokens);
    CancelFactor(share, amount, supply + tokens);
  }

  lemma TokensCost(s: State, amount0: u128, amount1: u128)
    requires s.totalSupply > 0 && Tokens(s, amount0, amount1) > 0
    ensures Tokens(s, amount0, amount1) * s.reserve0 <= amount0 * s.totalSupply
    ensures Tokens(s, amount0, amount1) * s.reserve1 <= amount1 * s.totalSupply
  {
    hide DivOrZero;
    var tokens := Tokens(s, amount0, amount1);
    ShareOfDeposit(amount0, s.totalSupply, s.reserve0, tokens);
    ShareOfDeposit(amount1, s.totalSupply, s.reserve1, tokens);
  }

  /** What the first depositor's tokens stand for in a reserve, before the division by the
      supply; the product saturates. */
  function Claim(tokens: u128, reserve: u128, paid: u128): nat {
    Min(tokens * (reserve + paid), U128_MAX)
  }

  /** On an unused pool the locked tokens make the share worth less than the deposit;
      on a pool that was given reserves before it had supply they need not. */
  lemma FirstSharesWorth(tokens: u128, paid: u128, reserve: u128)
    requires tokens + MINIMUM_LIQUIDITY <= U128_MAX && reserve + paid <= U128_MAX
    ensures var supply, claim := tokens + MINIMUM_LIQUIDITY, Claim(tokens, reserve, paid);
            var share := Share(tokens, reserve + paid, supply);
            && (share > 0 <==> claim >= supply)
            && (share <= paid <==> claim < (paid + 1) * supply)
  {
    var supply, claim := tokens + MINIMUM_LIQUIDITY, Claim(tokens, reserve, paid);
    var share := Share(tokens, reserve + paid, supply);
    assert share == Quotient(claim, supply);
    hide Share, Claim;
    if share > paid {
      MulMonotone(paid + 1, share, supply);
    } else {
      MulMonotone(share + 1, paid + 1, supply);
    }
    if share > 0 {
      MulMonotone(1, share, supply);
    }
  }

  // ----- round trips --------------------------------------------------------------------

  /** Depositing and then withdrawing the new tokens never returns more of either asset than
      was paid in, on a pool that has supply and on one that has never held anything. */
  lemma NoGainRoundTrip(g: Genesis, s: State, op: Op, now: u64, later: u64)
    requires Healthy(g, s) && Synced(g, s) && Signed(g, op) && IsDeposit(op)
    requires BalanceIn(s.lp, g.contract) == 0
    requires s.totalSupply > 0 || (s.reserve0 == 0 && s.reserve1 == 0)
    requires Dispatch(g, s, op, now).status.Ok?
    ensures var t := Dispatch(g, s, op, now).state;
            && BalanceIn(t.lp, op.caller) > BalanceIn(s.lp, op.caller)
            && var tokens := BalanceIn(t.lp, op.caller) - BalanceIn(s.lp, op.caller);
            var r := Dispatch(g, t, Withdraw(op.caller, tokens), later);
            && r.state.ledger.Balance(op.caller, Asset0) <= s.ledger.Balance(op.caller, Asset0)
            && r.state.ledger.Balance(op.caller, Asset1) <= s.ledger.Balance(op.caller, Asset1)
  {
    hide Dispatch, Share, LpBacked, Total, Matching, Liquidity;
    DepositEffect(g, s, op, now);
    var t := Dispatch(g, s, op, now).state;
    var (paid0, paid1) := PaidIn(s, op);
    var amount0, amount1 := paid0.value, paid1.value;
    var tokens := Tokens(s, amount0, amount1);
    WithdrawEffect(g, t, op.caller, tokens, later);
    if s.totalSupply > 0 {
      TokensCost(s, amount0, amount1);
      NotWorthMore(tokens, amount0, s.reserve0, s.totalSupply, t.totalSupply);
      NotWorthMore(tokens, amount1, s.reserve1, s.totalSupply, t.totalSupply);
    } else {
      ShareBounds(tokens, t.reserve0, t.totalSupply);
      ShareBounds(tokens, t.reserve1, t.totalSupply);
    }
    FailureKeeps(g, t, Withdraw(op.caller, tokens), later);
  }

  lemma FailureKeeps(g: Genesis, s: State, op: Op, now: u64)
    ensures var r := Dispatch(g, s, op, now); r.status.Err? ==> r.state == s
  {
    hide Exec;
  }

  /** A pool that was given reserves (a donation and a sync) before its first deposit. With T
      tokens minted for the deposit, a supply of T + 1000, and claims of T * (reserve + paid) on
      each reserve: the round trip returns no more of an asset than was paid in if and only if
      its claim is below (paid + 1) * supply, or a claim below the supply makes the withdrawal
      fail. */
  lemma SeededRoundTripIff(g: Genesis, s: State, op: Op, now: u64, later: u64)
    requires Healthy(g, s) && Synced(g, s) && Signed(g, op) && IsDeposit(op)
    requires BalanceIn(s.lp, g.contract) == 0 && s.totalSupply == 0
    requires Dispatch(g, s, op, now).status.Ok?
    ensures var t := Dispatch(g, s, op, now).state;
            var (paid0, paid1) := PaidIn(s, op);
            var tokens := Tokens(s, paid0.value, paid1.value);
            var r := Dispatch(g, t, Withdraw(op.caller, tokens), later);
            var claim0, claim1 := Claim(tokens, s.reserve0, paid0.value), Claim(tokens, s.reserve1, paid1.value);
            && t.totalSupply == tokens + MINIMUM_LIQUIDITY
            && (r.status.Ok? <==> claim0 >= t.totalSupply && claim1 >= t.totalSupply)
            && (r.state.ledger.Balance(op.caller, Asset0) <= s.ledger.Balance(op.caller, Asset0)
                <==> r.status.Err? || claim0 < (paid0.value + 1) * t.totalSupply)
            && (r.state.ledger.Balance(op.caller, Asset1) <= s.ledger.Balance(op.caller, Asset1)
                <==> r.status.Err? || claim1 < (paid1.value + 1) * t.totalSupply)
  {
    hide Dispatch, Share, LpBacked, Total, Matching, Liquidity, Claim;
    DepositEffect(g, s, op, now);
    var t := Dispatch(g, s, op, now).state;
    var (paid0, paid1) := PaidIn(s, op);
    var tokens := Tokens(s, paid0.value, paid1.value);
    WithdrawEffect(g, t, op.caller, tokens, later);
    FailureKeeps(g, t, Withdraw(op.caller, tokens), later);
    FirstSharesWorth(tokens, paid0.value, s.reserve0);
    FirstSharesWorth(tokens, paid1.value, s.reserve1);
  }

  // ----- how much is lost ---------------------------------------------------------------

  /** None of the products of the round trip saturates; `reserveB` is the quoted asset's. */
  predicate Unsaturated(n: u128, amount: u128, reserveA: u128, reserveB: u128) {
    && reserveA > 0 && reserveB > 0
    && amount * reserveB <= U128_MAX && amount * n <= U128_MAX
    && var quoted := Quotient(amount * reserveB, reserveA);
       var tokens := Quotient(quoted * n, reserveB);
    && quoted * n <= U128_MAX && tokens * (reserveB + quoted) <= U128_MAX
  }

  /** The quoted amount and the tokens for it. */
  lemma QuotedTokens(n: u128, amount: u128, reserveA: u128, reserveB: u128)
    requires n > 0 && amount > 0 && Unsaturated(n, amount, reserveA, reserveB)
    ensures var quoted := Quotient(amount * reserveB, reserveA);
            var tokens := Quotient(quoted * n, reserveB);
            && Quote(amount, reserveA, reserveB) == Amount(quoted)
            && Liquidity(n, amount, quoted, reserveA, reserveB) == tokens
            && Liquidity(n, quoted, amount, reserveB, reserveA) == tokens
  {
    var quoted := Quotient(amount * reserveB, reserveA);
    var tokens := Quotient(quoted * n, reserveB);
    QuotedIsScarcer(amount, reserveA, reserveB, n, quoted, tokens);
    hide Quotient;
  }

  lemma ShortfallBound(n: u128, amount: u128, reserveA: u128, reserveB: u128)
    requires n > 0 && amount > 0 && Unsaturated(n, amount, reserveA, reserveB)
    ensures var quoted := Quotient(amount * reserveB, reserveA);
            var tokens := Quotient(quoted * n, reserveB);
            reserveB + quoted <= U128_MAX && n + tokens <= U128_MAX ==>
              (quoted - Share(tokens, reserveB + quoted, n + tokens)) * (n + tokens) < reserveB + (n + tokens)
  {
    var quoted := Quotient(amount * reserveB, reserveA);
    var tokens := Quotient(quoted * n, reserveB);
    assert (tokens + 1) * reserveB == tokens * reserveB + reserveB;
    hide Quotient;
    if reserveB + quoted <= U128_MAX && n + tokens <= U128_MAX {
      ShareUnsaturated(tokens, reserveB + quoted, n + tokens);
      ShortfallArithmetic(quoted, tokens, reserveB, n, Share(tokens, reserveB + quoted, n + tokens));
    }
  }

  lemma ShareUnsaturated(tokens: u128, balance: u128, supply: u128)
    requires supply > 0 && tokens * balance <= U128_MAX
    ensures var share := Share(tokens, balance, supply);
            share * supply <= tokens * balance < share * supply + supply
  {
    var share := Share(tokens, balance, supply);
    assert (share + 1) * supply == share * supply + supply;
  }

  /** What a round trip on a pool with supply costs in the quoted asset is less than one LP
      token's worth of the reserve, and one unit. */
  lemma ShortfallRoundTrip(g: Genesis, s: State, op: Op, now: u64, later: u64)
    requires Healthy(g, s) && Synced(g, s) && Signed(g, op) && IsDeposit(op)
    requires BalanceIn(s.lp, g.contract) == 0 && s.totalSupply > 0
    requires Unsaturated(s.totalSupply, op.amount, Reserve(s, Named(op)), Reserve(s, Opposite(Named(op))))
    requires Dispatch(g, s, op, now).status.Ok?
    ensures var t := Dispatch(g, s, op, now).state;
            var quoted := Opposite(Named(op));
            && BalanceIn(t.lp, op.caller) > BalanceIn(s.lp, op.caller)
            && var tokens := BalanceIn(t.lp, op.caller) - BalanceIn(s.lp, op.caller);
            var r := Dispatch(g, t, Withdraw(op.caller, tokens), later);
            r.status.Ok? ==>
              (s.ledger.Balance(op.caller, quoted) - r.state.ledger.Balance(op.caller, quoted)) * t.totalSupply
              < Reserve(s, quoted) + t.totalSupply
  {
    hide Dispatch, Share, LpBacked, Total, Liquidity, Unsaturated, Quote;
    DepositEffect(g, s, op, now);
    var t := Dispatch(g, s, op, now).state;
    var reserveA, reserveB := Reserve(s, Named(op)), Reserve(s, Opposite(Named(op)));
    QuoteRefusesZero(op.amount, reserveA, reserveB);
    QuotedTokens(s.totalSupply, op.amount, reserveA, reserveB);
    var (paid0, paid1) := PaidIn(s, op);
    WithdrawEffect(g, t, op.caller, Tokens(s, paid0.value, paid1.value), later);
    ShortfallBound(s.totalSupply, op.amount, reserveA, reserveB);
  }

  lemma QuoteRefusesZero(amount: u128, reserveA: u128, reserveB: u128)
    requires Quote(amount, reserveA, reserveB).Amount?
    ensures amount > 0
  {}

  lemma ShortfallArithmetic(quoted: nat, tokens: nat, reserve: nat, n: nat, share: nat)
    requires tokens * reserve + reserve > quoted * n
    requires share * (n + tokens) + (n + tokens) > tokens * (reserve + quoted)
    ensures (quoted - share) * (n + tokens) < reserve + (n + tokens)
  {
    assert tokens * (reserve + quoted) == tokens * reserve + tokens * quoted;
    assert quoted * (n + tokens) == quoted * n + tokens * quoted;
    assert (quoted - share) * (n + tokens) == quoted * (n + tokens) - share * (n + tokens);
  }

  /** Of the two shares that `mint` compares, the quoted asset's is the smaller one. */
  lemma QuotedIsScarcer(amount: nat, reserveA: nat, reserveB: nat, n: nat, quoted: nat, tokens: nat)
    requires reserveA > 0 && reserveB > 0
    requires quoted * reserveA <= amount * reserveB && tokens * reserveB <= quoted * n
    ensures Quotient(amount * n, reserveA) >= tokens
  {
    MulMonotone(tokens * reserveB, quoted * n, reserveA);
    MulMonotone(quoted * reserveA, amount * reserveB, n);
    assert tokens * reserveB * reserveA == reserveB * (tokens * reserveA);
    assert quoted * n * reserveA == quoted * reserveA * n;
    assert amount * reserveB * n == reserveB * (amount * n);
    CancelFactor(tokens * reserveA, amount * n, reserveB);
    var q := Quotient(amount * n, reserveA);
    if q < tokens {
      MulMonotone(q + 1, tokens, reserveA);
    }
  }
}
