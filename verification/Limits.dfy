/** Where the conditions of the other modules are needed: inputs for which the code does
    not do what it is meant to do. */
module Limits {
  import opened Words
  import opened U128
  import opened Ledgers
  import opened Pool
  import opened Conservation
  import opened Safety
  import opened Lock
  import opened Clipping
  import opened Growth
  import opened Effects
  import opened Quotes
  import opened Oracle
  import opened Outcomes
  import opened RoundTrip

  // ----- the first deposit --------------------------------------------------------------

  lemma RootOfEqualAmounts(amount: u128)
    requires amount <= U64_MAX
    ensures Root(SatMul(amount, amount)) == amount
  {
    hide Root;
    MulBoth(amount, U64_MAX, amount, U64_MAX);
    RootOfSquare(amount);
  }

  /** A new pool takes a first deposit of 1001 or more, named in either asset (pallet/README.md
      says 10000). */
  lemma FirstDepositAccepted(g: Genesis, ledger: Ledger, op: Op, now: u64)
    requires ledger.Valid() && IsDeposit(op) && Signed(g, op) && op.amount <= U64_MAX
    requires ledger.Balance(g.contract, Asset0) == 0 && ledger.Balance(g.contract, Asset1) == 0
    requires ledger.Balance(op.caller, Asset0) >= op.amount && ledger.Balance(op.caller, Asset1) >= op.amount
    ensures Exec(g, InitialState(ledger), op, now).status
         == if op.amount >= 1001 then Ok else Err(InsufficientLiquidityMinted)
  {
    hide Root, LpBacked, Total, DepositPaid, Deposit, Update, MintLp;
    var s := InitialState(ledger);
    InitiallySound(g, ledger);
    SoundIs(g, s);
    DepositPays(g, s, op.caller, op.amount, op.amount, now);
    RootOfEqualAmounts(op.amount);
  }

  /** Without a transaction around it, a smaller first deposit fails but stays in storage: the
      locked tokens exist and the reserves are still zero. */
  lemma FailedFirstDeposit(g: Genesis, ledger: Ledger, op: Op, now: u64)
    requires ledger.Valid() && IsDeposit(op) && Signed(g, op) && op.amount <= 1000
    requires ledger.Balance(g.contract, Asset0) == 0 && ledger.Balance(g.contract, Asset1) == 0
    requires ledger.Balance(op.caller, Asset0) >= op.amount && ledger.Balance(op.caller, Asset1) >= op.amount
    ensures var s := InitialState(ledger);
            var r := Exec(g, s, op, now);
            && r.status == Err(InsufficientLiquidityMinted)
            && r.state.totalSupply == MINIMUM_LIQUIDITY && r.state.reserve0 == 0 && r.state.reserve1 == 0
            && r.state.feeTo.None?
            && Sound(g, s) && !Locked(g, r.state)
  {
    hide Root, LpBacked, Total, DepositPaid, Deposit, Update;
    var s := InitialState(ledger);
    InitiallySound(g, ledger);
    SoundIs(g, s);
    DepositPays(g, s, op.caller, op.amount, op.amount, now);
    RootOfEqualAmounts(op.amount);
  }

  /** In that state no deposit is ever accepted: the tokens of each are measured against a
      reserve of zero. */
  lemma DepositsBlocked(g: Genesis, s: State, op: Op, now: u64)
    requires s.totalSupply > 0 && s.reserve0 == 0 && s.reserve1 == 0 && s.feeTo.None?
    requires op.DepositAsset1? || op.DepositAsset2?
    ensures Exec(g, s, op, now).status.Err?
  {
    hide TransferTokens, Update, MintLp;
    PaymentFrame(s, op.caller, g.contract, Asset0, op.amount);
    var s1 := TransferTokens(s, op.caller, g.contract, Asset0, op.amount).state;
    PaymentFrame(s1, op.caller, g.contract, Asset1, op.amount);
  }

  // ----- a swap beyond the range of the K check -----------------------------------------

  const HUGE: u128 := 0x1_0000_0000_0000_0000 // 2^64
  const LEFT: u128 := 0x1000_0000_0000 // 2^44
  const PAID: u128 := 19401016162321029884954 // what the saturated quote charges

  lemma SaturatedCharge()
    ensures GetAmountIn(HUGE - LEFT, HUGE, HUGE) == Amount(PAID)
  {
    QuotientIs(U128_MAX, LEFT * 997, PAID - 1);
  }

  /** On reserves of 2^64 each, a quoted swap through the public interface is accepted
      although it lowers the product: the quote has saturated, and so has the K check. */
  lemma SaturatedSwap(g: Genesis, s: State, caller: Account, now: u64)
    requires Anchored(g, s) && Synced(g, s) && Signed(g, SwapAsset1ForAsset2(caller, HUGE - LEFT))
    requires s.reserve0 == HUGE && s.reserve1 == HUGE && s.ledger.Balance(caller, Asset0) >= PAID
    ensures var r := Dispatch(g, s, SwapAsset1ForAsset2(caller, HUGE - LEFT), now);
            && r.status.Ok? && K(r.state) < K(s) && r.state.totalSupply == s.totalSupply
            && r.state.reserve0 == HUGE + PAID && r.state.reserve1 == LEFT
  {
    hide Anchored, GetAmountIn, Exec;
    SaturatedCharge();
    var op := SwapAsset1ForAsset2(caller, HUGE - LEFT);
    QuotedSwapClears(g, s, op, now);
  }

  /** Such a pool is one deposit away from genesis, and the swap breaks the backing that holds
      in every run within the range. */
  lemma BackingNeedsRange(g: Genesis, ledger: Ledger, caller: Account, now: u64)
    requires ledger.Valid() && Signed(g, DepositAsset1(caller, HUGE))
    requires ledger.Balance(g.contract, Asset0) == 0 && ledger.Balance(g.contract, Asset1) == 0
    requires ledger.Balance(caller, Asset0) >= HUGE + PAID && ledger.Balance(caller, Asset1) >= HUGE
    ensures var first, second := Dispatch(g, InitialState(ledger), DepositAsset1(caller, HUGE), now),
                                 SwapAsset1ForAsset2(caller, HUGE - LEFT);
            && first.status.Ok? && Healthy(g, first.state)
            && var r := Dispatch(g, first.state, second, now);
            r.status.Ok? && K(r.state) < K(first.state) && !Backed(r.state)
  {
    hide Root, LpBacked, Total, DepositPaid, Deposit, Mint, Liquidity;
    var s := InitialState(ledger);
    InitiallySound(g, ledger);
    SoundIs(g, s);
    DepositPays(g, s, caller, HUGE, HUGE, now);
    var paid := DepositPaid(g, s, caller, HUGE, HUGE);
    PaidIsHealthy(g, s, paid);
    MintEffect(g, paid, caller, now);
    HugeLiquidity();
    var first := Dispatch(g, s, DepositAsset1(caller, HUGE), now).state;
    HealthyIs(g, first);
    SaturatedSwap(g, first, caller, now);
    DepositEffect(g, s, DepositAsset1(caller, HUGE), now);
    var t := Dispatch(g, first, SwapAsset1ForAsset2(caller, HUGE - LEFT), now).state;
    assert K(t) == (HUGE + PAID) * LEFT && t.totalSupply == HUGE - 1;
  }

  lemma HugeLiquidity()
    ensures Liquidity(0, HUGE, HUGE, 0, 0) == HUGE - 1 - MINIMUM_LIQUIDITY
  {
    hide Root;
    RootUnique(U128_MAX, Root(U128_MAX), HUGE - 1);
  }

  // ----- a pool with reserves before it has supply --------------------------------------

  lemma SyncedFromGenesis(g: Genesis, ledger: Ledger, caller: Account, now: u64)
    requires ledger.Valid() && Signed(g, Sync(caller))
    ensures var s := Dispatch(g, InitialState(ledger), Sync(caller), now).state;
            && Healthy(g, s) && Synced(g, s) && s.ledger == ledger && s.lp == map[] && s.totalSupply == 0
            && s.reserve0 == ledger.Balance(g.contract, Asset0) && s.reserve1 == ledger.Balance(g.contract, Asset1)
  {
    hide Update, Total;
    var s := InitialState(ledger);
    InitiallySound(g, ledger);
    UpdateKeeps(s, Held0(g, s), Held1(g, s), now);
  }

  /** On a new pool that holds a million of each asset, which a sync makes its reserves, a first
      deposit of 2000 that is withdrawn at once returns 501000. */
  lemma SeededPoolPaysOut(g: Genesis, ledger: Ledger, caller: Account, first: u64, now: u64, later: u64)
    requires ledger.Valid() && Signed(g, Sync(caller))
    requires ledger.Balance(g.contract, Asset0) == 1000000 && ledger.Balance(g.contract, Asset1) == 1000000
    requires ledger.Balance(caller, Asset0) >= 2000 && ledger.Balance(caller, Asset1) >= 2000
    ensures var s := Dispatch(g, InitialState(ledger), Sync(caller), first).state;
            var t := Dispatch(g, s, DepositAsset1(caller, 2000), now);
            var r := Dispatch(g, t.state, Withdraw(caller, 1000), later);
            && t.status.Ok? && r.status.Ok?
            && r.state.ledger.Balance(caller, Asset0) == ledger.Balance(caller, Asset0) - 2000 + 501000
            && r.state.ledger.Balance(caller, Asset1) == ledger.Balance(caller, Asset1) - 2000 + 501000
  {
    hide Dispatch, Healthy, DepositPaid, Deposit, Mint, Liquidity;
    SyncedFromGenesis(g, ledger, caller, first);
    var s := Dispatch(g, InitialState(ledger), Sync(caller), first).state;
    SeededDeposit(g, s, caller, now);
    var op := DepositAsset1(caller, 2000);
    DepositEffect(g, s, op, now);
    WithdrawEffect(g, Dispatch(g, s, op, now).state, caller, 1000, later);
    SeededShare();
  }

  lemma SeededDeposit(g: Genesis, s: State, caller: Account, now: u64)
    requires Healthy(g, s) && Synced(g, s) && Signed(g, DepositAsset1(caller, 2000))
    requires s.totalSupply == 0 && s.reserve0 == 1000000 && s.reserve1 == 1000000
    requires s.ledger.Balance(caller, Asset0) >= 2000 && s.ledger.Balance(caller, Asset1) >= 2000
    ensures Matching(s, 2000, s.reserve0, s.reserve1) == Amount(2000) && Tokens(s, 2000, 2000) == 1000
    ensures Dispatch(g, s, DepositAsset1(caller, 2000), now).status.Ok?
  {
    hide Root, Healthy, Anchored, DepositPaid, Deposit, Mint, Liquidity;
    HealthyIs(g, s);
    DepositPays(g, s, caller, 2000, 2000, now);
    var paid := DepositPaid(g, s, caller, 2000, 2000);
    PaidIsHealthy(g, s, paid);
    QuotientIs(2000 * 1000000, 1000000, 2000);
    SeededLiquidity();
    FeeOffTokens(g, s);
    MintEffect(g, paid, caller, now);
  }

  lemma FeeOffTokens(g: Genesis, s: State)
    requires Healthy(g, s)
    ensures MintFee(s).totalSupply == s.totalSupply && s.feeTo.None?
  {}

  lemma SeededLiquidity()
    ensures Liquidity(0, 2000, 2000, 1000000, 1000000) == 1000
  {
    hide Root;
    RootOfEqualAmounts(2000);
  }

  lemma SeededShare()
    ensures Share(1000, 1002000, 2000) == 501000
  {
    QuotientIs(1000 * 1002000, 2000, 501000);
  }

  // ----- a price that is clipped --------------------------------------------------------

  /** A pool at a price of 2^64 + 2 that nobody touches for as long as a timestamp can count: the
      cumulative price is clipped, and the mean price that it gives is lower than the price ever
      was. */
  lemma ClippedPrice(g: Genesis, ledger: Ledger, caller: Account)
    requires ledger.Valid() && Signed(g, Sync(caller))
    requires ledger.Balance(g.contract, Asset0) == 1 && ledger.Balance(g.contract, Asset1) == PRICE_LIMIT + 1
    ensures var s := Dispatch(g, InitialState(ledger), Sync(caller), 0).state;
            var t := Dispatch(g, s, Sync(caller), U64_MAX).state;
            && Quotient(s.reserve1, s.reserve0) == PRICE_LIMIT + 1
            && t.reserve0 == s.reserve0 && t.reserve1 == s.reserve1 && t.timestampLast - s.timestampLast == U64_MAX
            && s.price0 == 0 && t.price0 == U128_MAX != ((PRICE_LIMIT + 1) * U64_MAX) % TWO_128
            && Quotient((t.price0 - s.price0) % TWO_128, U64_MAX) == PRICE_LIMIT
  {
    hide Quotient;
    QuotientIs(PRICE_LIMIT + 1, 1, PRICE_LIMIT + 1);
    QuotientIs(U128_MAX, U64_MAX, PRICE_LIMIT);
  }

  // ----- a supply that the fee has clipped ----------------------------------------------

  /** A sound pool whose supply is as large as it can be: everything but the locked tokens belongs
      to `holder`, and the product has grown from 100 to 400 since KLast was written. */
  function FullSupply(g: Genesis, ledger: Ledger, holder: Account, receiver: Account): State {
    State(20, 20, 0, 0, 0, 100, Some(receiver), U128_MAX,
          map[g.zero := MINIMUM_LIQUIDITY, holder := U128_MAX - MINIMUM_LIQUIDITY], ledger)
  }

  lemma FullSupplySound(g: Genesis, ledger: Ledger, holder: Account, receiver: Account)
    requires ledger.Valid() && holder != g.zero
    requires ledger.Balance(g.contract, Asset0) == 20 && ledger.Balance(g.contract, Asset1) == 20
    ensures Sound(g, FullSupply(g, ledger, holder, receiver))
  {
    var s := FullSupply(g, ledger, holder, receiver);
    TotalWithout(s.lp, g.zero);
    TotalWithout(s.lp - {g.zero}, holder);
    assert s.lp - {g.zero} - {holder} == map[];
  }

  lemma FullSupplyFee(g: Genesis, ledger: Ledger, holder: Account, receiver: Account)
    ensures var s := FullSupply(g, ledger, holder, receiver);
            Fee(s) >= MINIMUM_LIQUIDITY && AfterFee(s) == U128_MAX
  {
    hide Root;
    RootUnique(400, Root(400), 20);
    RootUnique(100, Root(100), 10);
    AtMostQuotient(MINIMUM_LIQUIDITY, U128_MAX, 110);
  }

  /** The lock can fail with the fee on: on that pool the receiver's fee no longer counts in the
      supply. When the holder withdraws everything, the receiver's tokens outnumber what is left,
      locked tokens included, and a withdrawal of 1000 takes both reserves. */
  lemma ClippedSupplyEmptied(g: Genesis, ledger: Ledger, holder: Account, receiver: Account, now: u64, later: u64)
    requires ledger.Valid() && g.contract != g.zero
    requires Holder(g, holder) && Holder(g, receiver) && holder != receiver
    requires ledger.Balance(g.contract, Asset0) == 20 && ledger.Balance(g.contract, Asset1) == 20
    ensures var s := FullSupply(g, ledger, holder, receiver);
            var t := Dispatch(g, s, Withdraw(holder, U128_MAX - MINIMUM_LIQUIDITY), now);
            var r := Dispatch(g, t.state, Withdraw(receiver, MINIMUM_LIQUIDITY), later);
            && Sound(g, s) && t.status.Ok? && r.status.Ok?
            && BalanceIn(r.state.lp, g.zero) == MINIMUM_LIQUIDITY
            && r.state.totalSupply == 0 && r.state.reserve0 == 0 && r.state.reserve1 == 0
  {
    hide Dispatch, Fee, Share, Total, Anchored, Root;
    var s := FullSupply(g, ledger, holder, receiver);
    FullSupplySound(g, ledger, holder, receiver);
    SoundIs(g, s);
    FullSupplyFee(g, ledger, holder, receiver);
    FirstShare();
    WithdrawWithFee(g, s, holder, U128_MAX - MINIMUM_LIQUIDITY, now);
    var t := Dispatch(g, s, Withdraw(holder, U128_MAX - MINIMUM_LIQUIDITY), now).state;
    NoFeeOnLess(t);
    SecondShare();
    WithdrawWithFee(g, t, receiver, MINIMUM_LIQUIDITY, later);
  }

  lemma FirstShare()
    ensures Share(U128_MAX - MINIMUM_LIQUIDITY, 20, U128_MAX) == 1
  {
    QuotientIs(U128_MAX, U128_MAX, 1);
  }

  lemma SecondShare()
    ensures Share(MINIMUM_LIQUIDITY, 19, MINIMUM_LIQUIDITY) == 19
  {
    QuotientIs(MINIMUM_LIQUIDITY * 19, MINIMUM_LIQUIDITY, 19);
  }

  lemma NoFeeOnLess(s: State)
    requires s.reserve0 == 19 && s.reserve1 == 19 && s.kLast == 400
    ensures Fee(s) == 0
  {
    hide Root;
    RootUnique(361, Root(361), 19);
    RootUnique(400, Root(400), 20);
  }
}
