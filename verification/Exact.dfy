/** The pool on unbounded numbers: no saturation, no rollback, no check that can fail for
    its price, no wrap-around of the prices. Each operation is one condition and one new
    state. Below a bound on the ledger's supplies the pallet goes through exactly these
    states. */
module Exact {
  import opened Words
  import opened U128
  import opened Ledgers
  import opened Pool
  import opened Swaps
  import opened Conservation
  import opened Safety
  import opened Growth
  import opened Effects
  import opened Quotes
  import opened FeeCap
  import opened Oracle

  type Amounts = Account -> int

  datatype ExactPool = ExactPool(
    reserve0: int,
    reserve1: int,
    supply: int,
    lp: Amounts,
    held0: Amounts,
    held1: Amounts,
    price0: nat,
    price1: nat,
    time: u64)

  function Add(f: Amounts, who: Account, delta: int): Amounts {
    (a: Account) => if a == who then f(a) + delta else f(a)
  }

  function Move(f: Amounts, from: Account, to: Account, amount: int): Amounts {
    Add(Add(f, from, -amount), to, amount)
  }

  function HeldBy(e: ExactPool, asset: Asset): Amounts { if asset.Asset0? then e.held0 else e.held1 }

  function ReserveOf(e: ExactPool, asset: Asset): int { if asset.Asset0? then e.reserve0 else e.reserve1 }

  /** The pool after a payment. */
  function Pay(e: ExactPool, asset: Asset, from: Account, to: Account, amount: int): ExactPool {
    if asset.Asset0? then e.(held0 := Move(e.held0, from, to, amount))
    else e.(held1 := Move(e.held1, from, to, amount))
  }

  function Div(a: int, b: int): int {
    if a < 0 || b <= 0 then 0 else Quotient(a, b)
  }

  function Sqrt(n: int): int {
    if n < 0 then 0 else Root(n)
  }

  function Smaller(a: int, b: int): int { if a <= b then a else b }

  // ----- the operations -----------------------------------------------------------------

  /** The reserves follow what the contract holds. */
  function Resync(g: Genesis, e: ExactPool): ExactPool {
    e.(reserve0 := e.held0(g.contract), reserve1 := e.held1(g.contract))
  }

  function ExactTokens(supply: int, in0: int, in1: int, reserve0: int, reserve1: int): int {
    if supply == 0 then Sqrt(in0 * in1) - 1000
    else Smaller(Div(in0 * supply, reserve0), Div(in1 * supply, reserve1))
  }

  /** The pool once `caller` has paid both amounts and got the tokens. */
  function Deposited(g: Genesis, e: ExactPool, caller: Account, amount0: int, amount1: int, tokens: int): ExactPool {
    var locked := if e.supply == 0 then 1000 else 0;
    var paid := Pay(Pay(e, Asset0, caller, g.contract, amount0), Asset1, caller, g.contract, amount1);
    Resync(g, paid.(lp := Add(Add(e.lp, g.zero, locked), caller, tokens), supply := e.supply + locked + tokens))
  }

  function ExactDeposit(g: Genesis, e: ExactPool, caller: Account, amount0: int, amount1: int): Option<ExactPool> {
    var in0 := e.held0(g.contract) + amount0 - e.reserve0;
    var in1 := e.held1(g.contract) + amount1 - e.reserve1;
    var tokens := ExactTokens(e.supply, in0, in1, e.reserve0, e.reserve1);
    if amount0 <= e.held0(caller) && amount1 <= e.held1(caller) && tokens > 0 then
      Some(Deposited(g, e, caller, amount0, amount1, tokens))
    else None
  }

  /** The other asset's amount at the price of the reserves. */
  function ExactQuote(e: ExactPool, amount: int, reserveA: int, reserveB: int): Option<int> {
    if e.reserve0 == 0 && e.reserve1 == 0 then Some(amount)
    else if amount > 0 && reserveA > 0 && reserveB > 0 then Some(Div(amount * reserveB, reserveA))
    else None
  }

  function ExactWithdraw(g: Genesis, e: ExactPool, caller: Account, amount: int): Option<ExactPool> {
    var liquidity := e.lp(g.contract) + amount;
    var amount0 := Div(liquidity * e.held0(g.contract), e.supply);
    var amount1 := Div(liquidity * e.held1(g.contract), e.supply);
    if amount <= e.lp(caller) && amount0 > 0 && amount1 > 0 then
      var paid := Pay(Pay(e, Asset0, g.contract, caller, amount0), Asset1, g.contract, caller, amount1);
      Some(Resync(g, paid.(lp := Add(Add(e.lp, caller, -amount), g.contract, -e.lp(g.contract)),
                           supply := e.supply - liquidity)))
    else None
  }

  function ExactCharge(amount: int, reserveIn: int, reserveOut: int): int {
    Div(1000 * (reserveIn * reserveOut), 997 * (reserveOut - amount)) + 1
  }

  function ExactSwap(g: Genesis, e: ExactPool, op: Op): Option<ExactPool>
    requires IsSwap(op)
  {
    var reserveIn, reserveOut := ReserveOf(e, AssetIn(op)), ReserveOf(e, AssetOut(op));
    var charge := ExactCharge(op.amount, reserveIn, reserveOut);
    if 0 < op.amount < reserveOut && reserveIn > 0 && charge <= HeldBy(e, AssetIn(op))(op.caller) then
      var paid := Pay(e, AssetIn(op), op.caller, g.contract, charge);
      Some(Resync(g, Pay(paid, AssetOut(op), g.contract, op.caller, op.amount)))
    else None
  }

  function ExactStep(g: Genesis, e: ExactPool, op: Op): Option<ExactPool> {
    match op
    case SetFeeTo(_, _) => None
    case Skim(caller) =>
      var over0, over1 := e.held0(g.contract) - e.reserve0, e.held1(g.contract) - e.reserve1;
      Some(Pay(Pay(e, Asset0, g.contract, caller, over0), Asset1, g.contract, caller, over1))
    case Sync(_) => Some(Resync(g, e))
    case DepositAsset1(caller, amount) =>
      var other := ExactQuote(e, amount, e.reserve0, e.reserve1);
      if other.Some? then ExactDeposit(g, e, caller, amount, other.value) else None
    case DepositAsset2(caller, amount) =>
      var other := ExactQuote(e, amount, e.reserve1, e.reserve0);
      if other.Some? then ExactDeposit(g, e, caller, other.value, amount) else None
    case Withdraw(caller, amount) => ExactWithdraw(g, e, caller, amount)
    case SwapAsset1ForAsset2(_, _) => ExactSwap(g, e, op)
    case SwapAsset2ForAsset1(_, _) => ExactSwap(g, e, op)
    case OutsideTransfer(caller, to, asset, amount) =>
      if amount <= HeldBy(e, asset)(caller) then Some(Pay(e, asset, caller, to, amount)) else None
  }

  function Ratio(a: int, b: int): nat {
    if a > 0 && b > 0 then Quotient(a, b) else 0
  }

  /** The price integrals once the reserves of `e` have stood until `now`. */
  function Timed(e: ExactPool, next: ExactPool, now: u64): ExactPool {
    var elapsed: nat := (now - e.time) % TWO_64;
    next.(price0 := e.price0 + Ratio(e.reserve1, e.reserve0) * elapsed,
          price1 := e.price1 + Ratio(e.reserve0, e.reserve1) * elapsed,
          time := now)
  }

  function ExactNext(g: Genesis, e: ExactPool, step: Step): ExactPool {
    match ExactStep(g, e, step.op)
    case Some(next) => if SetsReserves(step.op) then Timed(e, next, step.now) else next
    case None => e
  }

  function ExactRun(g: Genesis, e: ExactPool, steps: seq<Step>): ExactPool
    decreases steps
  {
    if steps == [] then e else ExactRun(g, ExactNext(g, e, steps[0]), steps[1..])
  }

  // ----- the relation -------------------------------------------------------------------

  ghost predicate Matches(s: State, e: ExactPool) {
    && e.reserve0 == s.reserve0 && e.reserve1 == s.reserve1 && e.supply == s.totalSupply
    && (forall who :: e.lp(who) == BalanceIn(s.lp, who))
    && (forall who :: e.held0(who) == s.ledger.Balance(who, Asset0))
    && (forall who :: e.held1(who) == s.ledger.Balance(who, Asset1))
  }

  function ExactInitial(ledger: Ledger): ExactPool {
    ExactPool(0, 0, 0, (a: Account) => 0, (a: Account) => ledger.Balance(a, Asset0),
              (a: Account) => ledger.Balance(a, Asset1), 0, 0, 0)
  }

  const BOUND: nat := 0x40_0000_0000_0000 // 2^54

  /** Neither asset has more than 2^54 units. */
  ghost predicate Small(s: State) {
    s.ledger.Supply(Asset0) <= BOUND && s.ledger.Supply(Asset1) <= BOUND
  }

  lemma SmallBalances(g: Genesis, s: State)
    requires Healthy(g, s) && Small(s)
    ensures forall who, asset :: s.ledger.Balance(who, asset) <= BOUND
    ensures s.reserve0 <= BOUND && s.reserve1 <= BOUND && s.totalSupply <= BOUND
    ensures forall who :: BalanceIn(s.lp, who) <= BOUND
    ensures s.reserve0 * s.reserve1 <= BOUND * BOUND
  {
    hide Total;
    forall who, asset
      ensures s.ledger.Balance(who, asset) <= BOUND
    {
      PartOfTotal(s.ledger.Held(asset), who);
    }
    MulBoth(s.reserve0, BOUND, s.reserve1, BOUND);
    SquareBound(s.totalSupply, BOUND);
    forall who
      ensures BalanceIn(s.lp, who) <= BOUND
    {
      PartOfTotal(s.lp, who);
    }
  }

  lemma ProductFits(a: nat, b: nat)
    requires a <= BOUND && b <= BOUND
    ensures a * b <= BOUND * BOUND <= U128_MAX
    ensures 1000000 * (a * b) <= U128_MAX
  {
    MulBoth(a, BOUND, b, BOUND);
  }

  // ----- one operation at a time --------------------------------------------------------

  lemma ExactLiquidity(n: u128, in0: u128, in1: u128, r0: u128, r1: u128)
    requires n <= BOUND && in0 <= BOUND && in1 <= BOUND
    requires n > 0 ==> r0 > 0 && r1 > 0
    ensures var tokens := ExactTokens(n, in0, in1, r0, r1);
            Liquidity(n, in0, in1, r0, r1) == if tokens > 0 then tokens else 0
  {
    hide Root, Quotient;
    ProductFits(in0, in1);
    ProductFits(in0, n);
    ProductFits(in1, n);
  }

  lemma DepositedMatches(g: Genesis, s: State, t: State, e: ExactPool, caller: Account,
                         amount0: u128, amount1: u128, tokens: u128)
    requires Matches(s, e) && caller != g.contract && caller != g.zero
    requires Paid(s, t, caller, g.contract, amount0, amount1) && Synced(g, t)
    requires var locked := if s.totalSupply == 0 then 1000 else 0;
             && t.totalSupply == s.totalSupply + tokens + locked
             && BalanceIn(t.lp, caller) == BalanceIn(s.lp, caller) + tokens
             && BalanceIn(t.lp, g.zero) == BalanceIn(s.lp, g.zero) + locked
             && (forall who :: who != caller && who != g.zero ==> BalanceIn(t.lp, who) == BalanceIn(s.lp, who))
    ensures Matches(t, Deposited(g, e, caller, amount0, amount1, tokens))
  {}

  lemma DepositMatches(g: Genesis, s: State, e: ExactPool, caller: Account, amount0: u128, amount1: u128, now: u64)
    requires Healthy(g, s) && Small(s) && Matches(s, e)
    requires caller != g.contract && caller != g.zero && g.contract != g.zero
    ensures var r := Deposit(g, s, caller, amount0, amount1, now);
            var next := ExactDeposit(g, e, caller, amount0, amount1);
            && (r.status.Ok? <==> next.Some?)
            && (r.status.Ok? ==> Matches(r.state, next.value))
  {
    hide TransferTokens, Deposit, DepositPaid, Mint, MintFits, DepositFits, Healthy, Anchored, Liquidity, Small, Paid,
         ExactTokens, Deposited, Synced, Matches, MintedLiquidity;
    HealthyIs(g, s);
    MatchesAt(s, e, caller);
    MatchesAt(s, e, g.contract);
    SmallBalances(g, s);
    DepositPays(g, s, caller, amount0, amount1, now);
    if s.ledger.Balance(caller, Asset0) >= amount0 && s.ledger.Balance(caller, Asset1) >= amount1 {
      var paid := DepositPaid(g, s, caller, amount0, amount1);
      PaidIsPaid(g, s, caller, amount0, amount1);
      PaidIsHealthy(g, s, paid);
      MintEffect(g, paid, caller, now);
      PaidIsSmall(g, s, caller, amount0, amount1);
      HealthyIs(g, paid);
      FeeIsOff(g, s);
      TokensMatch(g, s, paid);
      var r := Mint(g, paid, caller, now);
      if r.status.Ok? {
        PaidDepends(s, paid, s, r.state, caller, g.contract, amount0, amount1);
        DepositedMatches(g, s, r.state, e, caller, amount0, amount1, MintedLiquidity(g, paid));
      }
    }
  }

  lemma FeeIsOff(g: Genesis, s: State)
    requires Healthy(g, s)
    ensures s.feeTo.None?
  {}

  lemma PaidIsPaid(g: Genesis, s: State, caller: Account, amount0: u128, amount1: u128)
    requires Anchored(g, s) && caller != g.contract
    requires s.ledger.Balance(caller, Asset0) >= amount0 && s.ledger.Balance(caller, Asset1) >= amount1
    ensures Paid(s, DepositPaid(g, s, caller, amount0, amount1), caller, g.contract, amount0, amount1)
  {
    hide TransferTokens, Paid, Total;
    PayBoth(s, caller, g.contract, amount0, amount1);
  }

  /** The liquidity that the pallet computes is the exact number of tokens, or zero. */
  lemma TokensMatch(g: Genesis, s: State, paid: State)
    requires Anchored(g, paid) && paid == s.(ledger := paid.ledger) && s.feeTo.None?
    requires Held0(g, paid) <= BOUND && Held1(g, paid) <= BOUND && s.totalSupply <= BOUND
    ensures var tokens := ExactTokens(s.totalSupply, Held0(g, paid) - s.reserve0, Held1(g, paid) - s.reserve1,
                                      s.reserve0, s.reserve1);
            MintedLiquidity(g, paid) == if tokens > 0 then tokens else 0
  {
    hide Liquidity, ExactTokens, LpBacked, Total;
    ExactLiquidity(s.totalSupply, Held0(g, paid) - s.reserve0, Held1(g, paid) - s.reserve1, s.reserve0, s.reserve1);
  }

  lemma PaidIsSmall(g: Genesis, s: State, caller: Account, amount0: u128, amount1: u128)
    requires Small(s)
    ensures var paid := DepositPaid(g, s, caller, amount0, amount1);
            Small(paid) && Held0(g, paid) <= BOUND && Held1(g, paid) <= BOUND
  {
    hide TransferTokens, Total;
    PaymentConserves(s, caller, g.contract, Asset0, amount0);
    var s1 := TransferTokens(s, caller, g.contract, Asset0, amount0).state;
    PaymentConserves(s1, caller, g.contract, Asset1, amount1);
    var paid := DepositPaid(g, s, caller, amount0, amount1);
    PartOfTotal(paid.ledger.Held(Asset0), g.contract);
    PartOfTotal(paid.ledger.Held(Asset1), g.contract);
  }

  lemma QuoteMatches(e: ExactPool, s: State, amount: u128, reserveA: u128, reserveB: u128)
    requires e.reserve0 == s.reserve0 && e.reserve1 == s.reserve1
    requires reserveA <= BOUND && reserveB <= BOUND
    ensures var m := Matching(s, amount, reserveA, reserveB);
            var x := ExactQuote(e, amount, reserveA, reserveB);
            && (m.Amount? <==> x.Some?)
            && (m.Amount? && amount <= BOUND ==> m.value == x.value)
            && (x.Some? ==> x.value >= 0)
  {
    hide Quotient;
    if amount <= BOUND {
      ProductFits(amount, reserveB);
    }
  }

  /** An amount that the caller does not have is refused by both, whatever is quoted for it. */
  lemma DepositRefused(g: Genesis, s: State, e: ExactPool, caller: Account, amount0: u128, amount1: u128, now: u64,
                       exact0: int, exact1: int)
    requires Healthy(g, s) && Matches(s, e) && caller != g.contract
    requires (amount0 == exact0 && amount0 > s.ledger.Balance(caller, Asset0))
          || (amount1 == exact1 && amount1 > s.ledger.Balance(caller, Asset1))
    ensures Deposit(g, s, caller, amount0, amount1, now).status.Err?
    ensures ExactDeposit(g, e, caller, exact0, exact1).None?
  {
    hide DepositPaid, Deposit, DepositFits, MintFits, Mint, Healthy, Anchored, ExactTokens;
    HealthyIs(g, s);
    DepositPays(g, s, caller, amount0, amount1, now);
  }

  /** A step of the pallet and the same step of the exact pool. */
  ghost predicate StepMatches(g: Genesis, s: State, e: ExactPool, op: Op, now: u64) {
    var r := Exec(g, s, op, now);
    var next := ExactStep(g, e, op);
    && (r.status.Ok? <==> next.Some?)
    && (r.status.Ok? ==> Matches(r.state, next.value))
  }

  lemma DepositStep(g: Genesis, s: State, e: ExactPool, op: Op, now: u64)
    requires Healthy(g, s) && Small(s) && Matches(s, e) && Signed(g, op)
    requires op.DepositAsset1? || op.DepositAsset2?
    ensures StepMatches(g, s, e, op, now)
  {
    hide Deposit, ExactDeposit, Matching, ExactQuote, LpBacked, Total, Small;
    SmallBalances(g, s);
    var amount := op.amount;
    if op.DepositAsset1? {
      QuoteMatches(e, s, amount, s.reserve0, s.reserve1);
      var m, x := Matching(s, amount, s.reserve0, s.reserve1), ExactQuote(e, amount, s.reserve0, s.reserve1);
      if m.Amount? {
        if amount <= s.ledger.Balance(op.caller, Asset0) {
          DepositMatches(g, s, e, op.caller, amount, m.value, now);
        } else {
          DepositRefused(g, s, e, op.caller, amount, m.value, now, amount, x.value);
        }
      }
    } else {
      QuoteMatches(e, s, amount, s.reserve1, s.reserve0);
      var m, x := Matching(s, amount, s.reserve1, s.reserve0), ExactQuote(e, amount, s.reserve1, s.reserve0);
      if m.Amount? {
        if amount <= s.ledger.Balance(op.caller, Asset1) {
          DepositMatches(g, s, e, op.caller, m.value, amount, now);
        } else {
          DepositRefused(g, s, e, op.caller, m.value, amount, now, x.value, amount);
        }
      }
    }
  }

  lemma ExactShare(liquidity: u128, balance: u128, supply: u128)
    requires liquidity <= BOUND && balance <= BOUND
    ensures Share(liquidity, balance, supply) == Div(liquidity * balance, supply)
  {
    hide Quotient;
    ProductFits(liquidity, balance);
  }

  lemma WithdrawFunded(g: Genesis, s: State, e: ExactPool, caller: Account, amount: u128, now: u64)
    requires Healthy(g, s) && Small(s) && Matches(s, e)
    requires caller != g.contract && caller != g.zero && g.contract != g.zero
    requires BalanceIn(s.lp, caller) >= amount
    ensures var r := Burn(g, TransferLiquidity(s, caller, g.contract, amount).state, caller, now);
            var next := ExactWithdraw(g, e, caller, amount);
            && (r.status.Ok? <==> next.Some?)
            && (r.status.Ok? ==> Matches(r.state, next.value))
  {
    hide Burn, TransferLiquidity, Share, Healthy, Anchored, Total, Small, Paid, Div, ExactWithdraw, Matches;
    MovedIsHealthy(g, s, caller, amount);
    WithdrawMoves(g, s, caller, amount);
    var moved := TransferLiquidity(s, caller, g.contract, amount).state;
    SmallDepends(s, moved);
    SmallBalances(g, moved);
    SmallBalances(g, s);
    FeeOffBurn(g, moved, caller, now);
    var liquidity := BalanceIn(moved.lp, g.contract);
    ExactShare(liquidity, Held0(g, s), s.totalSupply);
    ExactShare(liquidity, Held1(g, s), s.totalSupply);
    var r := Burn(g, moved, caller, now);
    if r.status.Ok? {
      PaidDepends(moved, r.state, s, r.state, g.contract, caller,
                  Share(liquidity, Held0(g, s), s.totalSupply), Share(liquidity, Held1(g, s), s.totalSupply));
    }
    WithdrawnMatches(g, s, r, e, caller, amount);
  }

  lemma WithdrawStep(g: Genesis, s: State, e: ExactPool, op: Op, now: u64)
    requires Healthy(g, s) && Small(s) && Matches(s, e) && Signed(g, op) && op.Withdraw?
    ensures StepMatches(g, s, e, op, now)
  {
    hide Burn, Healthy, Small, Matches, ExactWithdraw;
    if BalanceIn(s.lp, op.caller) >= op.amount {
      WithdrawFunded(g, s, e, op.caller, op.amount, now);
    } else {
      WithdrawRefused(g, s, e, op.caller, op.amount);
    }
    WithoutSupply(g, s, e, op.caller, op.amount);
    TransferLiquidityStatus(s, op.caller, g.contract, op.amount);
    hide TransferLiquidity;
  }

  lemma TransferLiquidityStatus(s: State, from: Account, to: Account, amount: u128)
    ensures TransferLiquidity(s, from, to, amount).status.Ok? <==> BalanceIn(s.lp, from) >= amount
  {}

  lemma SmallDepends(s: State, t: State)
    requires s.ledger == t.ledger
    ensures Small(s) == Small(t)
  {}

  lemma WithdrawRefused(g: Genesis, s: State, e: ExactPool, caller: Account, amount: u128)
    requires Matches(s, e) && BalanceIn(s.lp, caller) < amount
    ensures ExactWithdraw(g, e, caller, amount).None?
  {
    hide Div;
  }

  lemma WithoutSupply(g: Genesis, s: State, e: ExactPool, caller: Account, amount: u128)
    requires Matches(s, e)
    ensures s.totalSupply == 0 ==> ExactWithdraw(g, e, caller, amount).None?
  {
    hide Quotient;
  }

  lemma WithdrawnMatches(g: Genesis, s: State, r: Outcome, e: ExactPool, caller: Account, amount: u128)
    requires Matches(s, e) && caller != g.contract && amount <= BalanceIn(s.lp, caller)
    requires var liquidity: int := BalanceIn(s.lp, g.contract) + amount;
             var amount0 := Div(liquidity * Held0(g, s), s.totalSupply);
             var amount1 := Div(liquidity * Held1(g, s), s.totalSupply);
             && (r.status.Ok? <==> amount0 > 0 && amount1 > 0)
             && (r.status.Ok? ==>
                   && Paid(s, r.state, g.contract, caller, amount0, amount1) && Synced(g, r.state)
                   && r.state.totalSupply == s.totalSupply - liquidity
                   && BalanceIn(r.state.lp, g.contract) == 0
                   && BalanceIn(r.state.lp, caller) == BalanceIn(s.lp, caller) - amount
                   && forall who :: who != caller && who != g.contract
                                    ==> BalanceIn(r.state.lp, who) == BalanceIn(s.lp, who))
    ensures var next := ExactWithdraw(g, e, caller, amount);
            && (r.status.Ok? <==> next.Some?)
            && (r.status.Ok? ==> Matches(r.state, next.value))
  {
    hide Div;
  }

  // ----- swaps --------------------------------------------------------------------------

  lemma ChargeMatches(amount: u128, reserveIn: u128, reserveOut: u128)
    requires reserveIn <= BOUND && reserveOut <= BOUND && 0 < amount < reserveOut && reserveIn > 0
    ensures GetAmountIn(amount, reserveIn, reserveOut) == Amount(ExactCharge(amount, reserveIn, reserveOut))
  {
    hide GetAmountIn;
    ProductFits(reserveIn, reserveOut);
    AmountInIs(amount, reserveIn, reserveOut);
  }

  lemma SmallAfter(s: State, t: State)
    requires Small(s) && SameSupply(s, t)
    ensures Small(t)
  {}

  lemma SoldMatches(g: Genesis, s: State, t: State, e: ExactPool, op: Op, charge: nat)
    requires IsSwap(op) && Matches(s, e) && op.caller != g.contract && Sold(g, s, t, op, charge)
    ensures Matches(t, Resync(g, Pay(Pay(e, AssetIn(op), op.caller, g.contract, charge),
                                     AssetOut(op), g.contract, op.caller, op.amount)))
  {}

  lemma MatchesAt(s: State, e: ExactPool, who: Account)
    requires Matches(s, e)
    ensures e.reserve0 == s.reserve0 && e.reserve1 == s.reserve1 && e.supply == s.totalSupply
    ensures e.held0(who) == s.ledger.Balance(who, Asset0) && e.held1(who) == s.ledger.Balance(who, Asset1)
  {}

  lemma SwapStep(g: Genesis, s: State, e: ExactPool, op: Op, now: u64)
    requires Healthy(g, s) && Small(s) && Matches(s, e) && Signed(g, op) && IsSwap(op)
    ensures StepMatches(g, s, e, op, now)
  {
    hide Exec, Healthy, Anchored, Small, Matches, Sold, GetAmountIn, ExactCharge, Resync, Pay;
    HealthyIs(g, s);
    SmallBalances(g, s);
    QuotedSwapClears(g, s, op, now);
    MatchesAt(s, e, op.caller);
    var reserveIn, reserveOut := Reserve(s, AssetIn(op)), Reserve(s, AssetOut(op));
    if 0 < op.amount < reserveOut && reserveIn > 0 {
      ChargeMatches(op.amount, reserveIn, reserveOut);
      var r := Exec(g, s, op, now);
      if r.status.Ok? {
        SoldMatches(g, s, r.state, e, op, Price(s, op).value);
      }
    }
  }

  // ----- the other operations -----------------------------------------------------------

  lemma SkimStep(g: Genesis, s: State, e: ExactPool, op: Op, now: u64)
    requires Healthy(g, s) && Matches(s, e) && Signed(g, op) && op.Skim?
    ensures StepMatches(g, s, e, op, now)
  {
    hide TransferTokens, LpBacked, Total, Paid, Matches;
    HealthyIs(g, s);
    var over0, over1 := Held0(g, s) - s.reserve0, Held1(g, s) - s.reserve1;
    PayBoth(s, g.contract, op.caller, over0, over1);
    Payment(s, g.contract, op.caller, Asset0, over0);
    MatchesAt(s, e, g.contract);
    SkimmedMatches(s, Exec(g, s, op, now).state, e, g.contract, op.caller, over0, over1);
  }

  lemma SkimmedMatches(s: State, t: State, e: ExactPool, from: Account, to: Account, amount0: int, amount1: int)
    requires Matches(s, e) && t == s.(ledger := t.ledger) && from != to
    requires Paid(s, t, from, to, amount0, amount1)
    ensures Matches(t, Pay(Pay(e, Asset0, from, to, amount0), Asset1, from, to, amount1))
  {}

  lemma OutsideStep(g: Genesis, s: State, e: ExactPool, op: Op, now: u64)
    requires Healthy(g, s) && Matches(s, e) && op.OutsideTransfer?
    ensures StepMatches(g, s, e, op, now)
  {
    hide TransferTokens, Healthy, Anchored, Exec, Matches, Pay;
    HealthyIs(g, s);
    ValidLedger(g, s);
    OutsideIs(g, s, op, now);
    MatchesAt(s, e, op.caller);
    if op.caller != op.to {
      Payment(s, op.caller, op.to, op.asset, op.amount);
    } else {
      SelfPayment(s, op.caller, op.asset, op.amount);
    }
    if op.amount <= s.ledger.Balance(op.caller, op.asset) {
      PaymentMatches(s, Exec(g, s, op, now).state, e, op.caller, op.to, op.asset, op.amount);
    }
  }

  lemma ValidLedger(g: Genesis, s: State)
    requires Anchored(g, s)
    ensures s.ledger.Valid()
  {}

  lemma PaymentMatches(s: State, t: State, e: ExactPool, from: Account, to: Account, asset: Asset, amount: int)
    requires Matches(s, e) && t == s.(ledger := t.ledger)
    requires from == to ==> t == s
    requires from != to ==>
               && t.ledger.Balance(from, asset) == s.ledger.Balance(from, asset) - amount
               && t.ledger.Balance(to, asset) == s.ledger.Balance(to, asset) + amount
               && forall who, any :: any != asset || (who != from && who != to)
                                     ==> t.ledger.Balance(who, any) == s.ledger.Balance(who, any)
    ensures Matches(t, Pay(e, asset, from, to, amount))
  {}

  lemma OutsideIs(g: Genesis, s: State, op: Op, now: u64)
    requires op.OutsideTransfer?
    ensures Exec(g, s, op, now) == TransferTokens(s, op.caller, op.to, op.asset, op.amount)
  {
    hide TransferTokens;
  }

  lemma SelfPayment(s: State, who: Account, asset: Asset, amount: u128)
    ensures var t := TransferTokens(s, who, who, asset, amount);
            t.state == s && (t.status.Ok? <==> amount <= s.ledger.Balance(who, asset))
  {}

  lemma SyncStep(g: Genesis, s: State, e: ExactPool, op: Op, now: u64)
    requires Matches(s, e) && op.Sync?
    ensures StepMatches(g, s, e, op, now)
  {
    hide Update;
    UpdateKeeps(s, Held0(g, s), Held1(g, s), now);
  }

  // ----- any operation ------------------------------------------------------------------

  lemma AnyStep(g: Genesis, s: State, e: ExactPool, op: Op, now: u64)
    requires Healthy(g, s) && Small(s) && Matches(s, e) && Signed(g, op)
    requires Dispatch(g, s, op, now).state.feeTo.None?
    ensures StepMatches(g, s, e, op, now)
  {
    match op {
      case SetFeeTo(_, _) =>
      case Skim(_) => hide *; SkimStep(g, s, e, op, now);
      case Sync(_) => hide *; SyncStep(g, s, e, op, now);
      case DepositAsset1(_, _) => hide *; DepositStep(g, s, e, op, now);
      case DepositAsset2(_, _) => hide *; DepositStep(g, s, e, op, now);
      case Withdraw(_, _) => hide *; WithdrawStep(g, s, e, op, now);
      case SwapAsset1ForAsset2(_, _) => SwapStep(g, s, e, op, now); hide *;
      case SwapAsset2ForAsset1(_, _) => SwapStep(g, s, e, op, now); hide *;
      case OutsideTransfer(_, _, _, _) => hide *; OutsideStep(g, s, e, op, now);
    }
  }

  /** Below the bound every swap is within the range of its charge. */
  lemma SmallSwapHolds(g: Genesis, s: State, op: Op)
    requires Healthy(g, s) && Small(s)
    ensures SwapHolds(s, op)
  {
    hide Healthy, Small, ChargeHolds;
    SmallBalances(g, s);
    SmallCharge(s.reserve0, s.reserve1);
    SmallCharge(s.reserve1, s.reserve0);
  }

  lemma SmallCharge(reserveIn: u128, reserveOut: u128)
    requires reserveIn <= BOUND && reserveOut <= BOUND
    ensures ChargeHolds(reserveIn, reserveOut)
  {
    ProductFits(reserveIn, reserveOut);
    assert reserveIn * (reserveOut - 1) == reserveIn * reserveOut - reserveIn;
  }

  /** A fee-off run, without any condition on the size of a swap. */
  predicate PlainRun(g: Genesis, s: State, steps: seq<Step>)
    decreases steps
  {
    steps != [] ==>
      && Signed(g, steps[0].op)
      && Next(g, s, steps[0]).feeTo.None?
      && PlainRun(g, Next(g, s, steps[0]), steps[1..])
  }

  // ----- prices, time and KLast ---------------------------------------------------------

  /** The accumulators are the exact integrals modulo 2^128, and no fee is being measured. */
  ghost predicate Clocked(s: State, e: ExactPool) {
    && s.price0 == e.price0 % TWO_128 && s.price1 == e.price1 % TWO_128
    && s.timestampLast == e.time && s.kLast == 0
  }

  /** No operation of the exact pool touches the integrals; only the clock does. */
  lemma StepKeepsClock(g: Genesis, e: ExactPool, op: Op)
    ensures var next := ExactStep(g, e, op);
            next.Some? ==> next.value.price0 == e.price0 && next.value.price1 == e.price1 && next.value.time == e.time
  {
    hide ExactCharge, Move, Div, ExactTokens, ExactQuote;
  }

  lemma RatioIsPriceStep(reserveX: u128, reserveY: u128, elapsed: u64)
    requires reserveX <= BOUND && reserveY <= BOUND
    ensures PriceStep(reserveX, reserveY, elapsed) == Ratio(reserveX, reserveY) * elapsed
  {
    if reserveX > 0 && reserveY > 0 {
      PriceTimesElapsed(Quotient(reserveX, reserveY), elapsed);
      StepExactIff(reserveX, reserveY, elapsed);
    }
  }

  lemma ClockStep(g: Genesis, s: State, e: ExactPool, step: Step)
    requires Clocked(s, e) && e.reserve0 == s.reserve0 <= BOUND && e.reserve1 == s.reserve1 <= BOUND
    requires Exec(g, s, step.op, step.now).status.Ok? <==> ExactStep(g, e, step.op).Some?
    ensures var t, next := Next(g, s, step), ExactNext(g, e, step);
            && t.price0 == next.price0 % TWO_128 && t.price1 == next.price1 % TWO_128 && t.timestampLast == next.time
  {
    hide Exec, ExactStep, Elapsed, PriceStep, SetsReserves, Ratio;
    StepPrices(g, s, step);
    StepKeepsClock(g, e, step.op);
    ElapsedIs(s, step.now);
    var elapsed := Elapsed(s, step.now);
    RatioIsPriceStep(s.reserve1, s.reserve0, elapsed);
    RatioIsPriceStep(s.reserve0, s.reserve1, elapsed);
    SumModulo(e.price0, Ratio(s.reserve1, s.reserve0) * elapsed);
    SumModulo(e.price1, Ratio(s.reserve0, s.reserve1) * elapsed);
  }

  lemma SumModulo(a: nat, b: nat)
    ensures (a % TWO_128 + b) % TWO_128 == (a + b) % TWO_128
  {}

  lemma KLastStaysZero(g: Genesis, s: State, op: Op, now: u64)
    requires Anchored(g, s) && Signed(g, op) && s.feeTo.None? && s.kLast == 0
    ensures Dispatch(g, s, op, now).state.kLast == 0
  {
    hide Deposit, Matching, Burn, Update, TransferTokens, SkimAsset, TransferLiquidity, Swap, Price, SwapCheck,
         Anchored;
    match op {
      case SwapAsset1ForAsset2(_, _) => SwapEffect(g, s, op, now);
      case SwapAsset2ForAsset1(_, _) => SwapEffect(g, s, op, now);
      case Skim(_) => SkimKeeps(g, s, op, now);
      case Sync(_) => UpdateKeeps(s, Held0(g, s), Held1(g, s), now);
      case OutsideTransfer(caller, to, asset, amount) => PaymentFrame(s, caller, to, asset, amount);
      case SetFeeTo(_, _) =>
      case _ => KLastIsBehind(g, s, op, now);
    }
  }

  // ----- the theorem --------------------------------------------------------------------

  lemma NextMatches(g: Genesis, s: State, e: ExactPool, step: Step)
    requires Healthy(g, s) && Small(s) && Matches(s, e) && Clocked(s, e) && Signed(g, step.op)
    requires SupplyFits(g, s, step.op) && Next(g, s, step).feeTo.None?
    ensures var t, next := Next(g, s, step), ExactNext(g, e, step);
            Matches(t, next) && Clocked(t, next) && Small(t)
  {
    hide Exec, ExactStep, Small, Matches, Healthy, Anchored, Signed, SupplyFits, SetsReserves, LpBacked, Timed;
    HealthyIs(g, s);
    FeeIsOff(g, s);
    SmallBalances(g, s);
    MatchesAt(s, e, g.contract);
    AnyStep(g, s, e, step.op, step.now);
    ClockStep(g, s, e, step);
    KLastStaysZero(g, s, step.op, step.now);
    ExecConserves(g, s, step.op, step.now);
    SmallAfter(s, Exec(g, s, step.op, step.now).state);
    if ExactStep(g, e, step.op).Some? {
      TimedMatches(Exec(g, s, step.op, step.now).state, e, ExactStep(g, e, step.op).value, step.now);
    }
  }

  lemma TimedMatches(t: State, e: ExactPool, next: ExactPool, now: u64)
    requires Matches(t, next)
    ensures Matches(t, Timed(e, next, now))
  {}

  /** If neither asset has more than 2^54 units, the pallet with its saturating arithmetic, its
      optimistic payments and its K check goes through the same states as the exact pool, over
      every fee-off run: reserves, supply, all LP and asset balances, time, KLast, and the
      cumulative prices as the exact integrals modulo 2^128. Every state on the way is sound and
      backed. */
  lemma {:induction false} RefinesExact(g: Genesis, s: State, e: ExactPool, steps: seq<Step>)
    requires Healthy(g, s) && Small(s) && Matches(s, e) && Clocked(s, e) && PlainRun(g, s, steps)
    ensures Matches(Run(g, s, steps), ExactRun(g, e, steps)) && Clocked(Run(g, s, steps), ExactRun(g, e, steps))
    ensures FeeOffRun(g, s, steps)
    ensures Healthy(g, Run(g, s, steps)) && Small(Run(g, s, steps))
    decreases steps
  {
    hide Healthy, Small, Matches, Clocked, Dispatch, ExactNext, Signed, SwapHolds, SupplyFits;
    if steps != [] {
      SmallSwapHolds(g, s, steps[0].op);
      HealthyStep(g, s, steps[0].op, steps[0].now);
      NextMatches(g, s, e, steps[0]);
      RefinesExact(g, Next(g, s, steps[0]), ExactNext(g, e, steps[0]), steps[1..]);
    }
  }

  /** The same from genesis: the supply of the ledger is the only assumption. */
  lemma RefinesExactFromGenesis(g: Genesis, ledger: Ledger, steps: seq<Step>)
    requires ledger.Supply(Asset0) <= BOUND && ledger.Supply(Asset1) <= BOUND
    requires PlainRun(g, InitialState(ledger), steps)
    ensures var t, e := Run(g, InitialState(ledger), steps), ExactRun(g, ExactInitial(ledger), steps);
            Matches(t, e) && Clocked(t, e) && Healthy(g, t)
  {
    hide Run, ExactRun, PlainRun, Total, Sound;
    InitiallySound(g, ledger);
    RefinesExact(g, InitialState(ledger), ExactInitial(ledger), steps);
  }
}
