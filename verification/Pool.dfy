/** The pallet's storage as a value, and its operations as functions on that value.

    Every function here gives the state that is in storage when the operation returns,
    also when it returns an error: the operations write before they have checked
    everything. `Dispatch` is the transactional form, which undoes the writes on an error. */
module Pool {
  import opened Words
  import opened U128
  import opened Ledgers

  const MINIMUM_LIQUIDITY: u128 := 1000
  const MINT_FEE: u128 := 5
  const BASE_FEE: u128 := 3

  datatype Error =
    | Forbidden
    | InsufficientBalance
    | InsufficientLiquidity
    | InsufficientLiquidityMinted
    | InsufficientLiquidityBurned
    | InsufficientInputAmount
    | InsufficientOutputAmount
    | InvalidK
    | WithdrawWithoutSupply
    | TransferFailed

  datatype Status = Ok | Err(error: Error)

  datatype Priced = Amount(value: u128) | Refused(error: Error)

  /** What the genesis configuration fixes. */
  datatype Genesis = Genesis(contract: Account, zero: Account, feeToSetter: Account)

  datatype State = State(
    reserve0: u128,
    reserve1: u128,
    timestampLast: u64,
    price0: u128,
    price1: u128,
    kLast: u128,
    feeTo: Option<Account>,
    totalSupply: u128,
    lp: Balances,
    ledger: Ledger)

  datatype Outcome = Outcome(state: State, status: Status)

  function InitialState(ledger: Ledger): State {
    State(0, 0, 0, 0, 0, 0, None, 0, map[], ledger)
  }

  // ----- prices -------------------------------------------------------------------------

  function GetAmountOut(amountIn: u128, reserveIn: u128, reserveOut: u128): Priced {
    if amountIn == 0 then Refused(InsufficientInputAmount)
    else if reserveIn == 0 || reserveOut == 0 then Refused(InsufficientLiquidity)
    else
      var withFee := SatMul(amountIn, 997);
      var numerator := SatMul(withFee, reserveOut);
      var denominator := SatAdd(SatMul(reserveIn, 1000), withFee);
      Amount(DivOrZero(numerator, denominator))
  }

  function GetAmountIn(amountOut: u128, reserveIn: u128, reserveOut: u128): Priced {
    if amountOut == 0 then Refused(InsufficientOutputAmount)
    else if reserveIn == 0 || reserveOut == 0 then Refused(InsufficientLiquidity)
    else
      var numerator := SatMul(SatMul(reserveIn, reserveOut), 1000);
      var denominator := SatMul(SatSub(reserveOut, amountOut), 997);
      Amount(if denominator == 0 then 0 else SatAdd(Quotient(numerator, denominator), 1))
  }

  function Quote(amountA: u128, reserveA: u128, reserveB: u128): Priced {
    if amountA == 0 then Refused(InsufficientInputAmount)
    else if reserveA == 0 || reserveB == 0 then Refused(InsufficientLiquidity)
    else Amount(DivOrZero(SatMul(amountA, reserveB), reserveA))
  }

  // ----- LP tokens ----------------------------------------------------------------------

  function MintLp(s: State, to: Account, value: u128): State {
    s.(totalSupply := SatAdd(s.totalSupply, value),
       lp := s.lp[to := SatAdd(BalanceIn(s.lp, to), value)])
  }

  function BurnLp(s: State, from: Account, value: u128): Outcome {
    if from !in s.lp then Outcome(s, Err(Forbidden))
    else Outcome(s.(totalSupply := SatSub(s.totalSupply, value),
                    lp := s.lp[from := SatSub(s.lp[from], value)]), Ok)
  }

  function TransferLiquidity(s: State, from: Account, to: Account, amount: u128): Outcome {
    if BalanceIn(s.lp, from) < amount then Outcome(s, Err(InsufficientBalance))
    else
      var lowered := s.lp[from := SatSub(BalanceIn(s.lp, from), amount)];
      Outcome(s.(lp := lowered[to := SatAdd(BalanceIn(lowered, to), amount)]), Ok)
  }

  /** The LP tokens that `_mint_fee` mints when a fee receiver is set. */
  function FeeLiquidity(supply: u128, kLast: u128, reserve0: u128, reserve1: u128): u128 {
    var rootK := Root(SatMul(reserve0, reserve1));
    var rootKLast := Root(kLast);
    if kLast != 0 && rootK > rootKLast then
      DivOrZero(SatMul(supply, SatSub(rootK, rootKLast)), SatAdd(SatMul(rootK, MINT_FEE), rootKLast))
    else 0
  }

  /** The state after `_mint_fee`; the fee is on exactly when a receiver is set. */
  function MintFee(s: State): State {
    match s.feeTo
    case None => s.(kLast := 0)
    case Some(feeTo) =>
      var liquidity := FeeLiquidity(s.totalSupply, s.kLast, s.reserve0, s.reserve1);
      if liquidity > 0 then MintLp(s, feeTo, liquidity) else s
  }

  /** What a successful `mint` or `burn` leaves in KLast: the reserves read at its start. */
  function KLastAfter(s: State, reserve0: u128, reserve1: u128): u128 {
    if s.feeTo.Some? then SatMul(reserve0, reserve1) else s.kLast
  }

  // ----- tokens, reserves and prices ----------------------------------------------------

  function TransferTokens(s: State, from: Account, to: Account, asset: Asset, amount: u128): Outcome {
    if s.ledger.Balance(from, asset) < amount then Outcome(s, Err(InsufficientBalance))
    else
      match s.ledger.Transfer(from, to, asset, amount)
      case None => Outcome(s, Err(TransferFailed))
      case Some(ledger) => Outcome(s.(ledger := ledger), Ok)
  }

  function Elapsed(s: State, now: u64): u64 {
    OverflowingSub(now, s.timestampLast, U64_MAX)
  }

  /** What one update adds to a cumulative price. */
  function PriceStep(reserveX: u128, reserveY: u128, elapsed: u64): u128 {
    if reserveX != 0 && reserveY != 0 then SatMul(DivOrZero(reserveX, reserveY), elapsed) else 0
  }

  /** `_update`, which every caller gives the reserves in storage as the old ones. */
  function Update(s: State, balance0: u128, balance1: u128, now: u64): State {
    var elapsed := Elapsed(s, now);
    s.(price0 := OverflowingAdd(s.price0, PriceStep(s.reserve1, s.reserve0, elapsed), U128_MAX),
       price1 := OverflowingAdd(s.price1, PriceStep(s.reserve0, s.reserve1, elapsed), U128_MAX),
       reserve0 := balance0,
       reserve1 := balance1,
       timestampLast := now)
  }

  // ----- mint, burn and swap ------------------------------------------------------------

  function Liquidity(supply: u128, amount0: u128, amount1: u128, reserve0: u128, reserve1: u128): u128 {
    if supply == 0 then
      SatSub(Root(SatMul(amount0, amount1)), MINIMUM_LIQUIDITY)
    else
      var share0 := DivOrZero(SatMul(amount0, supply), reserve0);
      var share1 := DivOrZero(SatMul(amount1, supply), reserve1);
      if share0 <= share1 then share0 else share1
  }

  function Mint(g: Genesis, s: State, to: Account, now: u64): Outcome {
    var balance0, balance1 := s.ledger.Balance(g.contract, Asset0), s.ledger.Balance(g.contract, Asset1);
    var amount0, amount1 := SatSub(balance0, s.reserve0), SatSub(balance1, s.reserve1);
    var s1 := MintFee(s);
    var liquidity := Liquidity(s1.totalSupply, amount0, amount1, s.reserve0, s.reserve1);
    var s2 := if s1.totalSupply == 0 then MintLp(s1, g.zero, MINIMUM_LIQUIDITY) else s1;
    if liquidity == 0 then Outcome(s2, Err(InsufficientLiquidityMinted))
    else
      var s3 := Update(MintLp(s2, to, liquidity), balance0, balance1, now);
      Outcome(s3.(kLast := KLastAfter(s3, s.reserve0, s.reserve1)), Ok)
  }

  /** What `liquidity` out of `supply` is worth of a balance. */
  function Share(liquidity: u128, balance: u128, supply: u128): u128 {
    DivOrZero(SatMul(liquidity, balance), supply)
  }

  function Burn(g: Genesis, s: State, to: Account, now: u64): Outcome {
    var balance0, balance1 := s.ledger.Balance(g.contract, Asset0), s.ledger.Balance(g.contract, Asset1);
    var liquidity := BalanceIn(s.lp, g.contract);
    var s1 := MintFee(s);
    var amount0 := Share(liquidity, balance0, s1.totalSupply);
    var amount1 := Share(liquidity, balance1, s1.totalSupply);
    if amount0 == 0 || amount1 == 0 then Outcome(s1, Err(InsufficientLiquidityBurned))
    else
      var burned := BurnLp(s1, g.contract, liquidity);
      if burned.status.Err? then burned
      else
        var paid0 := TransferTokens(burned.state, g.contract, to, Asset0, amount0);
        if paid0.status.Err? then paid0
        else
          var paid1 := TransferTokens(paid0.state, g.contract, to, Asset1, amount1);
          if paid1.status.Err? then paid1
          else
            var ledger := paid1.state.ledger;
            var s2 := Update(paid1.state, ledger.Balance(g.contract, Asset0), ledger.Balance(g.contract, Asset1), now);
            Outcome(s2.(kLast := KLastAfter(s2, s.reserve0, s.reserve1)), Ok)
  }

  /** What came in on top of what the reserve should be after paying `out`. */
  function AmountIn(balance: u128, reserve: u128, out: u128): u128 {
    SatSub(balance, SatSub(reserve, out))
  }

  function Adjusted(balance: u128, amountIn: u128): u128 {
    SatSub(SatMul(balance, 1000), SatMul(amountIn, BASE_FEE))
  }

  predicate KCheck(balance0: u128, balance1: u128, in0: u128, in1: u128, reserve0: u128, reserve1: u128) {
    SatMul(Adjusted(balance0, in0), Adjusted(balance1, in1)) >= SatMul(SatMul(reserve0, reserve1), 1000 * 1000)
  }

  /** The second half of `_swap`, after the optimistic payments. */
  function SettleSwap(g: Genesis, s: State, out0: u128, out1: u128, now: u64): Outcome {
    var balance0, balance1 := s.ledger.Balance(g.contract, Asset0), s.ledger.Balance(g.contract, Asset1);
    var in0, in1 := AmountIn(balance0, s.reserve0, out0), AmountIn(balance1, s.reserve1, out1);
    if in0 == 0 && in1 == 0 then Outcome(s, Err(InsufficientInputAmount))
    else if !KCheck(balance0, balance1, in0, in1, s.reserve0, s.reserve1) then Outcome(s, Err(InvalidK))
    else Outcome(Update(s, balance0, balance1, now), Ok)
  }

  function PayOut(s: State, from: Account, to: Account, asset: Asset, amount: u128): Outcome {
    if amount > 0 then TransferTokens(s, from, to, asset, amount) else Outcome(s, Ok)
  }

  function Swap(g: Genesis, s: State, out0: u128, out1: u128, to: Account, now: u64): Outcome {
    if out0 == 0 && out1 == 0 then Outcome(s, Err(InsufficientOutputAmount))
    else if out0 >= s.reserve0 || out1 >= s.reserve1 then Outcome(s, Err(InsufficientLiquidity))
    else
      var paid0 := PayOut(s, g.contract, to, Asset0, out0);
      if paid0.status.Err? then paid0
      else
        var paid1 := PayOut(paid0.state, g.contract, to, Asset1, out1);
        if paid1.status.Err? then paid1 else SettleSwap(g, paid1.state, out0, out1, now)
  }

  // ----- dispatchables ------------------------------------------------------------------

  datatype Op =
    | SetFeeTo(caller: Account, feeTo: Account)
    | Skim(caller: Account)
    | Sync(caller: Account)
    | DepositAsset1(caller: Account, amount: u128)
    | DepositAsset2(caller: Account, amount: u128)
    | Withdraw(caller: Account, amount: u128)
    | SwapAsset1ForAsset2(caller: Account, amount: u128)
    | SwapAsset2ForAsset1(caller: Account, amount: u128)
      // a transfer on the ledger that has nothing to do with the pallet, such as a donation to it
    | OutsideTransfer(caller: Account, to: Account, asset: Asset, amount: u128)

  function Deposit(g: Genesis, s: State, caller: Account, amount0: u128, amount1: u128, now: u64): Outcome {
    var paid0 := TransferTokens(s, caller, g.contract, Asset0, amount0);
    if paid0.status.Err? then paid0
    else
      var paid1 := TransferTokens(paid0.state, caller, g.contract, Asset1, amount1);
      if paid1.status.Err? then paid1 else Mint(g, paid1.state, caller, now)
  }

  /** The second amount of a deposit: equal on an unused pool, quoted otherwise. */
  function Matching(s: State, amount: u128, reserveA: u128, reserveB: u128): Priced {
    if s.reserve0 == 0 && s.reserve1 == 0 then Amount(amount) else Quote(amount, reserveA, reserveB)
  }

  function SkimAsset(s: State, from: Account, to: Account, asset: Asset, reserve: u128): Outcome {
    var balance := s.ledger.Balance(from, asset);
    if balance < reserve then Outcome(s, Ok) else TransferTokens(s, from, to, asset, balance - reserve)
  }

  function Exec(g: Genesis, s: State, op: Op, now: u64): Outcome {
    match op
    case SetFeeTo(caller, feeTo) =>
      if caller == g.feeToSetter then Outcome(s.(feeTo := Some(feeTo)), Ok) else Outcome(s, Err(Forbidden))
    case Skim(caller) =>
      var first := SkimAsset(s, g.contract, caller, Asset0, s.reserve0);
      if first.status.Err? then first else SkimAsset(first.state, g.contract, caller, Asset1, s.reserve1)
    case Sync(_) =>
      Outcome(Update(s, s.ledger.Balance(g.contract, Asset0), s.ledger.Balance(g.contract, Asset1), now), Ok)
    case DepositAsset1(caller, amount) =>
      (match Matching(s, amount, s.reserve0, s.reserve1)
       case Refused(error) => Outcome(s, Err(error))
       case Amount(amount1) => Deposit(g, s, caller, amount, amount1, now))
    case DepositAsset2(caller, amount) =>
      (match Matching(s, amount, s.reserve1, s.reserve0)
       case Refused(error) => Outcome(s, Err(error))
       case Amount(amount0) => Deposit(g, s, caller, amount0, amount, now))
    case Withdraw(caller, amount) =>
      if s.totalSupply == 0 then Outcome(s, Err(WithdrawWithoutSupply))
      else
        var moved := TransferLiquidity(s, caller, g.contract, amount);
        if moved.status.Err? then moved else Burn(g, moved.state, caller, now)
    case SwapAsset1ForAsset2(caller, amount) =>
      (match GetAmountIn(amount, s.reserve0, s.reserve1)
       case Refused(error) => Outcome(s, Err(error))
       case Amount(amountIn) =>
         var paid := TransferTokens(s, caller, g.contract, Asset0, amountIn);
         if paid.status.Err? then paid else Swap(g, paid.state, 0, amount, caller, now))
    case SwapAsset2ForAsset1(caller, amount) =>
      (match GetAmountIn(amount, s.reserve1, s.reserve0)
       case Refused(error) => Outcome(s, Err(error))
       case Amount(amountIn) =>
         var paid := TransferTokens(s, caller, g.contract, Asset1, amountIn);
         if paid.status.Err? then paid else Swap(g, paid.state, amount, 0, caller, now))
    case OutsideTransfer(caller, to, asset, amount) =>
      TransferTokens(s, caller, to, asset, amount)
  }

  /** An operation as a transaction. */
  function Dispatch(g: Genesis, s: State, op: Op, now: u64): Outcome {
    var done := Exec(g, s, op, now);
    if done.status.Ok? then done else Outcome(s, done.status)
  }

  // ----- runs ---------------------------------------------------------------------------

  datatype Step = Step(op: Op, now: u64)

  function Next(g: Genesis, s: State, step: Step): State {
    Dispatch(g, s, step.op, step.now).state
  }

  function Run(g: Genesis, s: State, steps: seq<Step>): State
    decreases steps
  {
    if steps == [] then s else Run(g, Next(g, s, steps[0]), steps[1..])
  }

  /** Signed calls: neither the pallet's own account nor the zero account has a key. */
  predicate Signed(g: Genesis, op: Op) {
    g.contract != g.zero && op.caller != g.contract && op.caller != g.zero
  }
}
