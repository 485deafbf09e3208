/** With the fee on, the locked liquidity does not keep every run from ending the supply.

    Each deposit leaves KLast behind, so a deposit and a withdrawal that restore the reserves
    leave more supply than there was. Repeated, this takes the supply to the end of 128 bits,
    where fees and deposits are clipped and one account's tokens become as many as the supply. */
module Clipping {
  import opened Words
  import opened U128
  import opened Ledgers
  import opened Pool
  import opened Conservation
  import opened Safety
  import opened FeeCap
  import opened Lock

  // ----- reaching a state ---------------------------------------------------------------

  ghost predicate Reaches(g: Genesis, s: State, t: State) {
    exists steps: seq<Step> :: SignedRun(g, steps) && Run(g, s, steps) == t
  }

  lemma {:induction false} RunConcat(g: Genesis, s: State, a: seq<Step>, b: seq<Step>)
    ensures Run(g, s, a + b) == Run(g, Run(g, s, a), b)
    decreases a
  {
    hide Next;
    if a == [] {
      assert a + b == b;
    } else {
      assert (a + b)[0] == a[0] && (a + b)[1..] == a[1..] + b;
      RunConcat(g, Next(g, s, a[0]), a[1..], b);
    }
  }

  lemma ReachesThen(g: Genesis, s: State, t: State, u: State)
    requires Reaches(g, s, t) && Reaches(g, t, u)
    ensures Reaches(g, s, u)
  {
    hide Run;
    var a: seq<Step> :| SignedRun(g, a) && Run(g, s, a) == t;
    var b: seq<Step> :| SignedRun(g, b) && Run(g, t, b) == u;
    RunConcat(g, s, a, b);
    assert SignedRun(g, a + b);
  }

  lemma ReachesSelf(g: Genesis, s: State)
    ensures Reaches(g, s, s)
  {
    assert Run(g, s, []) == s;
  }

  lemma ReachesNext(g: Genesis, s: State, op: Op)
    requires Signed(g, op)
    ensures Reaches(g, s, Dispatch(g, s, op, 0).state)
  {
    hide Dispatch;
    var steps := [Step(op, 0)];
    assert steps[1..] == [];
    assert Run(g, s, steps) == Dispatch(g, s, op, 0).state;
  }

  // ----- transactions with the fee on ---------------------------------------------------

  /** `caller` has given up `amount` tokens for a part of each reserve, and the fee has gone to its
      receiver. */
  ghost predicate TakenOut(g: Genesis, s: State, t: State, caller: Account, amount: u128, amount0: u128, amount1: u128)
    requires s.feeTo.Some? && amount <= BalanceIn(s.lp, caller)
  {
    var receiver := s.feeTo.value;
    var left := BalanceIn(s.lp, receiver) - if receiver == caller then amount else 0;
    && Anchored(g, t) && Synced(g, t)
    && Held0(g, t) == Held0(g, s) - amount0 && Held1(g, t) == Held1(g, s) - amount1
    && t.ledger.Balance(caller, Asset0) == s.ledger.Balance(caller, Asset0) + amount0
    && t.ledger.Balance(caller, Asset1) == s.ledger.Balance(caller, Asset1) + amount1
    && t.totalSupply == SatSub(AfterFee(s), amount)
    && t.feeTo == s.feeTo && t.kLast == SatMul(s.reserve0, s.reserve1)
    && BalanceIn(t.lp, g.zero) == BalanceIn(s.lp, g.zero)
    && BalanceIn(t.lp, g.contract) == 0
    && BalanceIn(t.lp, receiver) == SatAdd(left, Fee(s))
  }

  /** A withdrawal from a contract that holds no LP tokens. */
  lemma WithdrawWithFee(g: Genesis, s: State, caller: Account, amount: u128, now: u64)
    requires Anchored(g, s) && Signed(g, Withdraw(caller, amount)) && s.totalSupply > 0
    requires BalanceIn(s.lp, caller) >= amount && BalanceIn(s.lp, g.contract) == 0
    requires s.feeTo.Some? && s.feeTo.value != g.contract && s.feeTo.value != g.zero
    ensures var r := Dispatch(g, s, Withdraw(caller, amount), now);
            var amount0 := Share(amount, Held0(g, s), AfterFee(s));
            var amount1 := Share(amount, Held1(g, s), AfterFee(s));
            0 < amount0 <= Held0(g, s) && 0 < amount1 <= Held1(g, s) ==>
              r.status.Ok? && TakenOut(g, s, r.state, caller, amount, amount0, amount1)
  {
    hide Burn, TransferLiquidity, Total, Share, Fee, Anchored, Paid, SatMul;
    WithdrawMoves(g, s, caller, amount);
    var moved := TransferLiquidity(s, caller, g.contract, amount).state;
    BurnEffect(g, moved, caller, now);
    FeeTokens(moved);
    var r := Burn(g, moved, caller, now);
    if r.status.Ok? {
      var amount0, amount1 := Share(amount, Held0(g, s), AfterFee(s)), Share(amount, Held1(g, s), AfterFee(s));
      PaidHeld(g, moved, r.state, caller, amount0, amount1);
      PaidBy(g, moved, r.state, caller, amount0, amount1);
    }
  }

  lemma PaidBy(g: Genesis, s: State, t: State, to: Account, amount0: int, amount1: int)
    requires Paid(s, t, g.contract, to, amount0, amount1)
    ensures t.ledger.Balance(to, Asset0) == s.ledger.Balance(to, Asset0) + amount0
    ensures t.ledger.Balance(to, Asset1) == s.ledger.Balance(to, Asset1) + amount1
  {}

  /** Who holds what after a mint. */
  lemma MintHoldings(g: Genesis, s: State, to: Account, now: u64)
    requires Anchored(g, s) && to != g.zero && g.contract != g.zero && to != g.contract
    requires s.feeTo == Some(to)
    ensures var r := Mint(g, s, to, now);
            var locked := if s.totalSupply == 0 then MINIMUM_LIQUIDITY else 0;
            r.status.Ok? ==>
              && BalanceIn(r.state.lp, to) == SatAdd(SatAdd(BalanceIn(s.lp, to), Fee(s)), MintedLiquidity(g, s))
              && BalanceIn(r.state.lp, g.zero) == SatAdd(BalanceIn(s.lp, g.zero), locked)
              && BalanceIn(r.state.lp, g.contract) == BalanceIn(s.lp, g.contract)
  {
    hide MintFee, Liquidity, Update, KLastAfter, Total, Fee, MintLp;
    MintFeeAnchors(s);
    FeeTokens(s);
    var s1 := MintFee(s);
    var liquidity := MintedLiquidity(g, s);
    MintLpAnchors(s1, g.zero, MINIMUM_LIQUIDITY);
    var s2 := if s1.totalSupply == 0 then MintLp(s1, g.zero, MINIMUM_LIQUIDITY) else s1;
    MintLpAnchors(s2, to, liquidity);
    UpdateKeeps(MintLp(s2, to, liquidity), Held0(g, s), Held1(g, s), now);
  }

  // ----- a pool with one holder ---------------------------------------------------------

  const FUNDS := 4000
  const FIRST: u128 := 2000

  /** Equal reserves, `supply` tokens of which `held` are counted for `who`, who also receives the
      fee, and enough of both assets to double the reserves. */
  ghost predicate Single(g: Genesis, s: State, who: Account, reserve: u128, supply: u128, held: int) {
    && Anchored(g, s) && Synced(g, s) && s.reserve0 == reserve && s.reserve1 == reserve
    && s.totalSupply == supply && s.feeTo == Some(who)
    && BalanceIn(s.lp, who) == held
    && BalanceIn(s.lp, g.zero) == MINIMUM_LIQUIDITY
    && BalanceIn(s.lp, g.contract) == 0
    && s.ledger.Balance(who, Asset0) + reserve >= FUNDS
    && s.ledger.Balance(who, Asset1) + reserve >= FUNDS
  }

  predicate Actor(g: Genesis, who: Account) {
    Holder(g, who) && g.contract != g.zero
  }

  lemma QuoteOfEqual(reserve: u128)
    requires 0 < reserve <= FIRST
    ensures Quote(reserve, reserve, reserve) == Amount(reserve)
  {
    MulMonotone(reserve, FIRST, reserve);
    QuotientIs(reserve * reserve, reserve, reserve);
  }

  /** Doubling the reserves. */
  lemma Double(g: Genesis, s: State, who: Account, reserve: u128, supply: u128, held: int)
    requires Actor(g, who) && Single(g, s, who, reserve, supply, held)
    requires 0 < reserve <= FIRST && supply > 0
    ensures var t := Dispatch(g, s, DepositAsset1(who, reserve), 0).state;
            var tokens := Quotient(SatMul(reserve, AfterFee(s)), reserve);
            && Reaches(g, s, t) && t.kLast == reserve * reserve
            && Single(g, t, who, 2 * reserve, SatAdd(AfterFee(s), tokens), SatAdd(SatAdd(held, Fee(s)), tokens))
  {
    hide DepositPaid, Deposit, DepositFits, Mint, MintFits, Anchored, Fee, Quote, Reaches, Quotient;
    ReachesNext(g, s, DepositAsset1(who, reserve));
    QuoteOfEqual(reserve);
    DepositPays(g, s, who, reserve, reserve, 0);
    var paid := DepositPaid(g, s, who, reserve, reserve);
    FeeOfPaid(s, paid);
    MintAnchors(g, paid, who, 0);
    MintHoldings(g, paid, who, 0);
    MintKLast(g, paid, who, 0);
    TokensOfEqual(g, paid, reserve);
    MulMonotone(reserve, FIRST, reserve);
  }

  lemma TokensOfEqual(g: Genesis, paid: State, reserve: u128)
    requires Anchored(g, paid) && paid.reserve0 == reserve && paid.reserve1 == reserve && reserve > 0
    requires Held0(g, paid) == 2 * reserve && Held1(g, paid) == 2 * reserve && paid.totalSupply > 0
    ensures MintedLiquidity(g, paid) == Quotient(SatMul(reserve, AfterFee(paid)), reserve) > 0
  {
    hide MintFee, Fee, Quotient;
    MintFeeAnchors(paid);
    var n := AfterFee(paid);
    MulMonotone(1, n, reserve);
    OneAtLeast(SatMul(reserve, n), reserve);
  }

  lemma OneAtLeast(n: nat, d: nat)
    requires n >= d > 0
    ensures Quotient(n, d) > 0
  {}

  /** Taking a share of the reserves out. */
  lemma Take(g: Genesis, s: State, who: Account, reserve: u128, supply: u128, held: int, amount: u128)
    requires Actor(g, who) && Single(g, s, who, reserve, supply, held)
    requires supply > 0 && amount <= held && 0 < Share(amount, reserve, AfterFee(s)) <= reserve
    ensures var t := Dispatch(g, s, Withdraw(who, amount), 0).state;
            && Reaches(g, s, t) && t.kLast == SatMul(reserve, reserve)
            && Single(g, t, who, reserve - Share(amount, reserve, AfterFee(s)),
                      SatSub(AfterFee(s), amount), SatAdd(held - amount, Fee(s)))
  {
    hide Dispatch, Anchored, Fee, Reaches, Share, SatMul;
    ReachesNext(g, s, Withdraw(who, amount));
    WithdrawWithFee(g, s, who, amount, 0);
  }

  /** The fee that is due on equal reserves. */
  lemma FeeOnEqual(s: State, before: u128)
    requires s.feeTo.Some? && s.reserve0 == s.reserve1 <= FUNDS && 0 < before <= FUNDS && s.kLast == before * before
    ensures Fee(s) == FeeFor(s.totalSupply, before, s.reserve0)
  {
    hide Root, FeeLiquidity;
    MulMonotone(before, FUNDS, before);
    MulMonotone(1, before, before);
    MulMonotone(s.reserve0, FUNDS, s.reserve0);
    RootOfSquare(before);
    RootOfSquare(s.reserve0);
    FeeIs(s, before, before);
  }

  // ----- one cycle ----------------------------------------------------------------------

  /** The supply after a doubling and the fee on it. */
  function Doubled(n: nat): nat { 2 * n + Quotient(2 * n, 11) }

  lemma CycleDeposit(g: Genesis, s: State, who: Account, reserve: u128, n: u128) returns (t: State)
    requires Actor(g, who) && Single(g, s, who, reserve, n, n - MINIMUM_LIQUIDITY) && Fee(s) == 0
    requires 0 < reserve <= FIRST <= n && (Doubled(n) + 1) * reserve <= U128_MAX
    ensures Reaches(g, s, t) && 2 * n <= Doubled(n) <= U128_MAX
    ensures Single(g, t, who, 2 * reserve, 2 * n, 2 * n - MINIMUM_LIQUIDITY) && Fee(t) == Doubled(n) - 2 * n
  {
    hide Single, Reaches, Fee, Dispatch;
    DoubledFits(reserve, n);
    SingleIs(g, s, who, reserve, n, n - MINIMUM_LIQUIDITY);
    Double(g, s, who, reserve, n, n - MINIMUM_LIQUIDITY);
    t := Dispatch(g, s, DepositAsset1(who, reserve), 0).state;
    SingleIs(g, t, who, 2 * reserve, 2 * n, 2 * n - MINIMUM_LIQUIDITY);
    FeeOnEqual(t, reserve);
    Eleventh(2 * n, reserve);
  }

  lemma CycleWithdrawal(g: Genesis, s: State, who: Account, reserve: u128, n: u128) returns (t: State)
    requires 0 < reserve <= FIRST <= n && (Doubled(n) + 1) * reserve <= U128_MAX && Doubled(n) <= U128_MAX
    requires Actor(g, who) && Single(g, s, who, 2 * reserve, 2 * n, 2 * n - MINIMUM_LIQUIDITY)
    requires Fee(s) == Doubled(n) - 2 * n
    ensures Reaches(g, s, t)
    ensures Single(g, t, who, reserve, Doubled(n) / 2, Doubled(n) / 2 - MINIMUM_LIQUIDITY) && Fee(t) == 0
  {
    hide Single, Reaches, Fee, Dispatch, Doubled, Share;
    var amount := (Doubled(n) + 1) / 2;
    HalfOfDoubled(n);
    HalfShare(reserve, n);
    SingleIs(g, s, who, 2 * reserve, 2 * n, 2 * n - MINIMUM_LIQUIDITY);
    Take(g, s, who, 2 * reserve, 2 * n, 2 * n - MINIMUM_LIQUIDITY, amount);
    t := Dispatch(g, s, Withdraw(who, amount), 0).state;
    SingleIs(g, t, who, reserve, Doubled(n) / 2, Doubled(n) / 2 - MINIMUM_LIQUIDITY);
    MulMonotone(2 * reserve, FUNDS, 2 * reserve);
    FeeOnEqual(t, 2 * reserve);
  }

  /** A deposit and a withdrawal that put the reserves back and leave more supply. */
  lemma Cycle(g: Genesis, s: State, who: Account, reserve: u128, n: u128) returns (t: State)
    requires Actor(g, who) && Single(g, s, who, reserve, n, n - MINIMUM_LIQUIDITY) && Fee(s) == 0
    requires 0 < reserve <= FIRST <= n && (Doubled(n) + 1) * reserve <= U128_MAX
    ensures Reaches(g, s, t) && n < Doubled(n) / 2 && 2 * (Doubled(n) / 2) <= U128_MAX
    ensures Single(g, t, who, reserve, Doubled(n) / 2, Doubled(n) / 2 - MINIMUM_LIQUIDITY) && Fee(t) == 0
  {
    hide Single, Reaches, Fee;
    HalfOfDoubled(n);
    var doubled := CycleDeposit(g, s, who, reserve, n);
    t := CycleWithdrawal(g, doubled, who, reserve, n);
    ReachesThen(g, s, doubled, t);
  }

  lemma SingleIs(g: Genesis, s: State, who: Account, reserve: u128, supply: u128, held: int)
    requires Single(g, s, who, reserve, supply, held)
    ensures s.feeTo == Some(who) && s.reserve0 == reserve && s.reserve1 == reserve && s.totalSupply == supply
  {}

  lemma DoubledFits(reserve: u128, n: u128)
    requires 0 < reserve && (Doubled(n) + 1) * reserve <= U128_MAX
    ensures 2 * n <= Doubled(n) < U128_MAX && 2 * n * reserve <= U128_MAX && reserve * n <= U128_MAX
    ensures Quotient(reserve * n, reserve) == n
  {
    MulMonotone(1, reserve, Doubled(n) + 1);
    MulMonotone(2 * n, Doubled(n), reserve);
    MulMonotone(n, 2 * n, reserve);
    QuotientIs(reserve * n, reserve, n);
  }

  lemma HalfOfDoubled(n: nat)
    requires n >= FIRST
    ensures var amount := (Doubled(n) + 1) / 2;
            amount <= 2 * n - MINIMUM_LIQUIDITY && Doubled(n) - amount == Doubled(n) / 2 > n
  {}

  lemma HalfShare(reserve: u128, n: u128)
    requires 0 < reserve <= FIRST <= n && (Doubled(n) + 1) * reserve <= U128_MAX && Doubled(n) <= U128_MAX
    ensures Share((Doubled(n) + 1) / 2, 2 * reserve, Doubled(n)) == reserve
  {
    var d, amount := Doubled(n), (Doubled(n) + 1) / 2;
    assert d >= 2 * n && d <= 2 * amount <= d + 1;
    hide Doubled;
    MulMonotone(d, 2 * amount, reserve);
    MulMonotone(2 * amount, d + 1, reserve);
    assert amount * (2 * reserve) == 2 * amount * reserve;
    assert (d + 1) * reserve == d * reserve + reserve && (reserve + 1) * d == d * reserve + d;
    QuotientIs(amount * (2 * reserve), d, reserve);
  }

  /** Cycles until the supply has reached `goal`. */
  lemma {:induction false} Grow(g: Genesis, s: State, who: Account, reserve: u128, n: u128, goal: u128)
    returns (t: State, m: u128)
    requires Actor(g, who) && Single(g, s, who, reserve, n, n - MINIMUM_LIQUIDITY) && Fee(s) == 0
    requires 0 < reserve <= FIRST <= n && 0 < goal && (Doubled(goal - 1) + 1) * reserve <= U128_MAX
    ensures Reaches(g, s, t) && m >= goal && (m == n || 2 * m <= Doubled(goal - 1))
    ensures FIRST <= m && Single(g, t, who, reserve, m, m - MINIMUM_LIQUIDITY) && Fee(t) == 0
    decreases U128_MAX - n
  {
    hide Single, Reaches, Fee, Doubled;
    if n >= goal {
      ReachesSelf(g, s);
      t, m := s, n;
    } else {
      DoubledGrows(n, goal - 1);
      MulMonotone(Doubled(n) + 1, Doubled(goal - 1) + 1, reserve);
      var u := Cycle(g, s, who, reserve, n);
      t, m := Grow(g, u, who, reserve, Doubled(n) / 2, goal);
      ReachesThen(g, s, u, t);
    }
  }

  lemma DoubledGrows(a: nat, b: nat)
    requires a <= b
    ensures Doubled(a) <= Doubled(b)
  {}

  // ----- the run ------------------------------------------------------------------------

  /** Everything but one unit of each reserve. */
  lemma Shrink(g: Genesis, s: State, who: Account, reserve: u128, n: u128) returns (t: State)
    requires Actor(g, who) && Single(g, s, who, reserve, n, n - MINIMUM_LIQUIDITY) && Fee(s) == 0
    requires 1 < reserve <= FIRST && n >= FIRST * reserve && n * reserve <= U128_MAX
    ensures var m := Quotient(n, reserve);
            && Reaches(g, s, t) && m >= FIRST
            && Single(g, t, who, 1, m, m - MINIMUM_LIQUIDITY) && Fee(t) == 0
  {
    hide Single, Reaches, Fee, Dispatch;
    SingleIs(g, s, who, reserve, n, n - MINIMUM_LIQUIDITY);
    ShrinkNumbers(reserve, n);
    var m := Quotient(n, reserve);
    Take(g, s, who, reserve, n, n - MINIMUM_LIQUIDITY, n - m);
    t := Dispatch(g, s, Withdraw(who, n - m), 0).state;
    SingleIs(g, t, who, 1, m, m - MINIMUM_LIQUIDITY);
    MulMonotone(reserve, FIRST, reserve);
    FeeOnEqual(t, reserve);
  }

  lemma ShrinkNumbers(reserve: u128, n: u128)
    requires 1 < reserve <= FIRST && n >= FIRST * reserve && n * reserve <= U128_MAX
    ensures FIRST <= Quotient(n, reserve) <= n && Share(n - Quotient(n, reserve), reserve, n) == reserve - 1
  {
    var m := Quotient(n, reserve);
    if m < FIRST {
      MulMonotone(m + 1, FIRST, reserve);
    }
    assert (n - m) * reserve == n * reserve - m * reserve;
    assert (reserve - 1) * n == n * reserve - n;
    MulMonotone(n - m, n, reserve);
    QuotientIs((n - m) * reserve, n, reserve - 1);
  }

  /** The first supply whose doubling, with the fee on it, reaches the end of 128 bits. */
  const LAST: u128 := 0x7555_5555_5555_5555_5555_5555_5555_5555

  lemma LastDoubled()
    ensures Doubled(LAST - 1) < U128_MAX <= Doubled(LAST) && 2 * LAST <= U128_MAX
  {}

  /** Two more deposits clip the supply: the holder's tokens become as many as the supply, and
      their withdrawal ends it. */
  lemma End(g: Genesis, s: State, who: Account, n: u128) returns (t: State)
    requires Actor(g, who) && Single(g, s, who, 1, n, n - MINIMUM_LIQUIDITY) && Fee(s) == 0
    requires FIRST <= n && 2 * n <= U128_MAX <= Doubled(n)
    ensures Reaches(g, s, t) && t.totalSupply == 0 && BalanceIn(t.lp, g.zero) == MINIMUM_LIQUIDITY
  {
    hide Single, Reaches, Fee, Dispatch;
    SingleIs(g, s, who, 1, n, n - MINIMUM_LIQUIDITY);
    QuotientIs(n, 1, n);
    Double(g, s, who, 1, n, n - MINIMUM_LIQUIDITY);
    var two := Dispatch(g, s, DepositAsset1(who, 1), 0).state;
    SingleIs(g, two, who, 2, 2 * n, 2 * n - MINIMUM_LIQUIDITY);
    FeeOnEqual(two, 1);
    Double(g, two, who, 2, 2 * n, 2 * n - MINIMUM_LIQUIDITY);
    var four := Dispatch(g, two, DepositAsset1(who, 2), 0).state;
    SingleIs(g, four, who, 4, U128_MAX, U128_MAX);
    QuotientIs(U128_MAX, U128_MAX, 1);
    Take(g, four, who, 4, U128_MAX, U128_MAX, U128_MAX);
    t := Dispatch(g, four, Withdraw(who, U128_MAX), 0).state;
    EndIs(g, t, who, 3, 0, BalanceIn(t.lp, who));
    ReachesThen(g, s, two, four);
    ReachesThen(g, s, four, t);
  }

  lemma EndIs(g: Genesis, s: State, who: Account, reserve: u128, supply: u128, held: int)
    requires exists h :: Single(g, s, who, reserve, supply, h)
    ensures s.totalSupply == supply && BalanceIn(s.lp, g.zero) == MINIMUM_LIQUIDITY
  {}

  lemma FirstDeposit(g: Genesis, ledger: Ledger, who: Account) returns (t: State)
    requires ledger.Valid() && Actor(g, who) && Holder(g, g.feeToSetter)
    requires ledger.Balance(g.contract, Asset0) == 0 && ledger.Balance(g.contract, Asset1) == 0
    requires ledger.Balance(who, Asset0) >= FUNDS && ledger.Balance(who, Asset1) >= FUNDS
    ensures Reaches(g, InitialState(ledger), t)
    ensures Single(g, t, who, FIRST, FIRST, FIRST - MINIMUM_LIQUIDITY) && Fee(t) == 0
  {
    hide DepositPaid, Deposit, DepositFits, Mint, MintFits, Anchored, FeeLiquidity, Reaches, Root;
    var s0 := InitialState(ledger);
    InitiallySound(g, ledger);
    SoundIs(g, s0);
    var choice := SetFeeTo(g.feeToSetter, who);
    var s := Dispatch(g, s0, choice, 0).state;
    AnchoredStep(g, s0, choice, 0);
    ReachesNext(g, s0, choice);
    var op := DepositAsset1(who, FIRST);
    DepositPays(g, s, who, FIRST, FIRST, 0);
    var paid := DepositPaid(g, s, who, FIRST, FIRST);
    NoFeeWithoutSupply(paid.kLast, paid.reserve0, paid.reserve1);
    FirstTokens(g, paid);
    MintAnchors(g, paid, who, 0);
    MintHoldings(g, paid, who, 0);
    MintKLast(g, paid, who, 0);
    t := Dispatch(g, s, op, 0).state;
    ReachesNext(g, s, op);
    ReachesThen(g, s0, s, t);
    NoFeeWithoutKLast(t.totalSupply, t.reserve0, t.reserve1);
  }

  lemma FirstTokens(g: Genesis, paid: State)
    requires Anchored(g, paid) && paid.totalSupply == 0 && paid.reserve0 == 0 && paid.reserve1 == 0
    requires Held0(g, paid) == FIRST && Held1(g, paid) == FIRST
    ensures MintedLiquidity(g, paid) == FIRST - MINIMUM_LIQUIDITY
  {
    hide Root, MintFee;
    MintFeeAnchors(paid);
    RootOfSquare(FIRST);
  }

  lemma NoFeeWithoutKLast(supply: u128, reserve0: u128, reserve1: u128)
    ensures FeeLiquidity(supply, 0, reserve0, reserve1) == 0
  {
    hide Root;
  }

  /** From genesis, with the fee on and 4000 of each asset in one hand: a run of signed
      transactions leads to a pool with supply, and on to one without, although the zero account
      still holds the locked tokens. */
  lemma SupplyCanEnd(g: Genesis, ledger: Ledger, who: Account)
    requires ledger.Valid() && Actor(g, who) && Holder(g, g.feeToSetter)
    requires ledger.Balance(g.contract, Asset0) == 0 && ledger.Balance(g.contract, Asset1) == 0
    requires ledger.Balance(who, Asset0) >= FUNDS && ledger.Balance(who, Asset1) >= FUNDS
    ensures exists s, t ::
              && Reaches(g, InitialState(ledger), s) && s.totalSupply > 0
              && Reaches(g, s, t) && t.totalSupply == 0 && BalanceIn(t.lp, g.zero) == MINIMUM_LIQUIDITY
  {
    hide Single, Reaches, Fee, Doubled;
    var goal := FIRST * FIRST;
    var s := FirstDeposit(g, ledger, who);
    SingleIs(g, s, who, FIRST, FIRST, FIRST - MINIMUM_LIQUIDITY);
    GoalDoubled();
    var a, m := Grow(g, s, who, FIRST, FIRST, goal);
    var b := Shrink(g, a, who, FIRST, m);
    LastDoubled();
    var n := Quotient(m, FIRST);
    var c, k := Grow(g, b, who, 1, n, LAST);
    DoubledGrows(LAST, k);
    var t := End(g, c, who, k);
    ReachesThen(g, s, a, b);
    ReachesThen(g, s, b, c);
    ReachesThen(g, s, c, t);
  }

  lemma GoalDoubled()
    ensures Doubled(FIRST * FIRST - 1) <= 3 * FIRST * FIRST
  {}
}
