/** When the locked liquidity keeps the pool from being emptied, with the fee on or off.

    The zero account's tokens protect the pool only while the LP balances add up to the supply.
    A fee or a deposit that clips the supply leaves balances beyond it, and once some account
    holds as much as the whole supply, its withdrawal ends the supply. */
module Lock {
  import opened U128
  import opened Ledgers
  import opened Pool
  import opened Conservation
  import opened Safety
  import opened FeeCap

  // ----- one transaction ----------------------------------------------------------------

  /** The caller has the tokens, they are the whole supply after the fee, and the contract can
      pay what they stand for. */
  predicate EndsSupply(g: Genesis, s: State, op: Op) {
    && op.Withdraw?
    && op.amount <= BalanceIn(s.lp, op.caller)
    && var liquidity := SatAdd(BalanceIn(s.lp, g.contract), op.amount);
    && liquidity >= AfterFee(s)
    && Share(liquidity, Held0(g, s), AfterFee(s)) <= Held0(g, s)
    && Share(liquidity, Held1(g, s), AfterFee(s)) <= Held1(g, s)
  }

  lemma WholeShare(liquidity: u128, balance: u128, supply: u128)
    requires balance > 0 && 0 < supply <= liquidity
    ensures Share(liquidity, balance, supply) > 0
    ensures liquidity == supply ==> Share(liquidity, balance, supply) <= balance
  {
    MulMonotone(1, balance, liquidity);
    ShareBounds(liquidity, balance, supply);
  }

  lemma WithdrawEndsIff(g: Genesis, s: State, op: Op, now: u64)
    requires Anchored(g, s) && Signed(g, op) && op.Withdraw? && s.totalSupply > 0
    ensures Dispatch(g, s, op, now).state.totalSupply == 0 <==> EndsSupply(g, s, op)
  {
    hide Burn, TransferLiquidity, Total, Share, Fee;
    if BalanceIn(s.lp, op.caller) >= op.amount {
      WithdrawMoves(g, s, op.caller, op.amount);
      BurnEffect(g, TransferLiquidity(s, op.caller, g.contract, op.amount).state, op.caller, now);
      var liquidity := SatAdd(BalanceIn(s.lp, g.contract), op.amount);
      if liquidity >= AfterFee(s) {
        WholeShare(liquidity, Held0(g, s), AfterFee(s));
        WholeShare(liquidity, Held1(g, s), AfterFee(s));
      }
    } else {
      NothingToMove(s, op.caller, g.contract, op.amount);
    }
  }

  /** A signed transaction ends the supply if and only if it withdraws the whole of it. */
  lemma SupplyEndsIff(g: Genesis, s: State, op: Op, now: u64)
    requires Anchored(g, s) && Signed(g, op) && s.totalSupply > 0
    ensures Dispatch(g, s, op, now).state.totalSupply == 0 <==> EndsSupply(g, s, op)
  {
    hide Dispatch, Anchored, Synced;
    if op.Withdraw? {
      WithdrawEndsIff(g, s, op, now);
    } else {
      AnchoredStep(g, s, op, now);
    }
  }

  // ----- who can end the supply ---------------------------------------------------------

  /** An account other than the contract and the zero account. */
  predicate Holder(g: Genesis, who: Account) {
    who != g.contract && who != g.zero
  }

  ghost predicate CanEnd(g: Genesis, s: State) {
    exists who: Account, amount: u128 :: Holder(g, who) && EndsSupply(g, s, Withdraw(who, amount))
  }

  /** Exactly when some signed withdrawal would end the supply: when one account holds as much as
      the supply including the fee. */
  lemma CanEndIff(g: Genesis, s: State)
    requires Anchored(g, s) && s.totalSupply > 0 && BalanceIn(s.lp, g.contract) == 0
    ensures CanEnd(g, s) <==> exists who: Account :: Holder(g, who) && BalanceIn(s.lp, who) >= AfterFee(s)
  {
    hide Share, Fee, Total;
    if who: Account :| Holder(g, who) && BalanceIn(s.lp, who) >= AfterFee(s) {
      WholeShare(AfterFee(s), Held0(g, s), AfterFee(s));
      WholeShare(AfterFee(s), Held1(g, s), AfterFee(s));
      assert EndsSupply(g, s, Withdraw(who, AfterFee(s)));
    }
  }

  // ----- the excess of LP balances ------------------------------------------------------

  /** How far the LP balances add up beyond the supply, counting the fee that the next mint or
      burn gives to the receiver. */
  ghost function Excess(s: State): int {
    Total(s.lp) + Fee(s) - AfterFee(s)
  }

  /** Nothing has been clipped, and the fee will not be, exactly when there is no excess. */
  lemma NoExcessIff(s: State)
    requires s.totalSupply <= Total(s.lp)
    ensures Excess(s) >= 0
    ensures Excess(s) == 0 <==> LpBacked(s) && FeeFits(s)
  {
    hide Fee, Total;
  }

  /** As long as the excess is below the locked liquidity, nobody can end the supply. */
  lemma ExcessProtects(g: Genesis, s: State, op: Op)
    requires Anchored(g, s) && Signed(g, op) && s.totalSupply > 0 && Excess(s) < MINIMUM_LIQUIDITY
    ensures !EndsSupply(g, s, op)
  {
    hide Share, Fee;
    if op.Withdraw? && op.amount <= BalanceIn(s.lp, op.caller) {
      ThreeParts(s.lp, g.contract, g.zero, op.caller);
    }
  }

  lemma ThreeParts(m: Balances, a: Account, b: Account, c: Account)
    requires a != b && a != c && b != c
    ensures BalanceIn(m, a) + BalanceIn(m, b) + BalanceIn(m, c) <= Total(m)
  {
    PartsOfTotal(m, b, c);
    if a in m {
      TotalWithout(m, a);
      PartsOfTotal(m - {a}, b, c);
    }
  }

  /** The bound is exact: if one account holds everything but the locked liquidity and no fee is
      due, the supply can be ended if and only if the excess has reached the locked liquidity. */
  lemma ExcessExact(g: Genesis, s: State, who: Account)
    requires Anchored(g, s) && s.totalSupply > 0 && g.contract != g.zero
    requires Holder(g, who) && s.lp.Keys <= {g.zero, who} && BalanceIn(s.lp, g.zero) == MINIMUM_LIQUIDITY && Fee(s) == 0
    ensures CanEnd(g, s) <==> Excess(s) >= MINIMUM_LIQUIDITY
  {
    hide EndsSupply, CanEnd;
    CanEndIff(g, s);
    TotalWithout(s.lp, g.zero);
    var rest := s.lp - {g.zero};
    if who in s.lp {
      TotalWithout(rest, who);
      assert rest - {who} == map[];
    } else {
      assert rest == map[];
    }
    assert Total(s.lp) == MINIMUM_LIQUIDITY + BalanceIn(s.lp, who);
    hide Total, Fee;
    forall other: Account | Holder(g, other) && BalanceIn(s.lp, other) >= AfterFee(s)
      ensures other == who
    {}
  }

  // ----- runs ---------------------------------------------------------------------------

  /** There is supply in every state of the run. */
  predicate SuppliedThroughout(g: Genesis, s: State, steps: seq<Step>)
    decreases steps
  {
    s.totalSupply > 0 && (steps != [] ==> SuppliedThroughout(g, Next(g, s, steps[0]), steps[1..]))
  }

  /** No step of the run withdraws the whole supply. */
  predicate NoneWithdrawsAll(g: Genesis, s: State, steps: seq<Step>)
    decreases steps
  {
    steps != [] ==> !EndsSupply(g, s, steps[0].op) && NoneWithdrawsAll(g, Next(g, s, steps[0]), steps[1..])
  }

  /** The pool keeps its supply, and with it the locked liquidity and both reserves, over exactly
      those runs in which nobody withdraws the whole of it. */
  lemma {:induction false} SuppliedIff(g: Genesis, s: State, steps: seq<Step>)
    requires Anchored(g, s) && SignedRun(g, steps) && s.totalSupply > 0
    ensures SuppliedThroughout(g, s, steps) <==> NoneWithdrawsAll(g, s, steps)
    decreases steps
  {
    hide Anchored, EndsSupply, Dispatch, Signed;
    if steps != [] {
      SupplyEndsIff(g, s, steps[0].op, steps[0].now);
      AnchoredStep(g, s, steps[0].op, steps[0].now);
      if !EndsSupply(g, s, steps[0].op) {
        SuppliedIff(g, Next(g, s, steps[0]), steps[1..]);
      } else {
        NothingFrom(g, Next(g, s, steps[0]), steps[1..]);
      }
    }
  }

  lemma NothingFrom(g: Genesis, s: State, steps: seq<Step>)
    requires s.totalSupply == 0
    ensures !SuppliedThroughout(g, s, steps)
  {
    hide Next;
  }

  /** Signed transactions before each of which the excess is below the locked liquidity. */
  ghost predicate ProtectedRun(g: Genesis, s: State, steps: seq<Step>)
    decreases steps
  {
    steps != [] ==>
      && Signed(g, steps[0].op)
      && (steps[0].op.Withdraw? ==> Excess(s) < MINIMUM_LIQUIDITY)
      && ProtectedRun(g, Next(g, s, steps[0]), steps[1..])
  }

  /** The pool is never emptied: once there is supply, and as long as the excess stays below the
      locked liquidity at every withdrawal, the zero account keeps its tokens, there is supply
      and neither reserve reaches zero. */
  lemma {:induction false} NeverEmptied(g: Genesis, s: State, steps: seq<Step>)
    requires Anchored(g, s) && ProtectedRun(g, s, steps) && s.totalSupply > 0
    ensures var t := Run(g, s, steps);
            && Anchored(g, t) && t.totalSupply > 0
            && BalanceIn(t.lp, g.zero) >= MINIMUM_LIQUIDITY
            && t.reserve0 > 0 && t.reserve1 > 0
            && Held0(g, t) > 0 && Held1(g, t) > 0
    decreases steps
  {
    hide EndsSupply, Dispatch, Signed, Excess, Total;
    if steps != [] {
      var op, now := steps[0].op, steps[0].now;
      AnchoredStep(g, s, op, now);
      if op.Withdraw? {
        ExcessProtects(g, s, op);
        SupplyEndsIff(g, s, op, now);
      }
      NeverEmptied(g, Next(g, s, steps[0]), steps[1..]);
    }
  }

  // ----- as long as nothing is clipped --------------------------------------------------

  lemma EnoughBalances(g: Genesis, s: State)
    requires Anchored(g, s)
    ensures s.totalSupply <= Total(s.lp)
  {}

  /** A transaction that clips nothing does not end the supply. */
  lemma SupplyKept(g: Genesis, s: State, op: Op, now: u64)
    requires Sound(g, s) && Signed(g, op) && SupplyFits(g, s, op) && s.totalSupply > 0
    ensures Dispatch(g, s, op, now).state.totalSupply > 0
  {
    hide Sound, Anchored, Dispatch, Signed, Excess, EndsSupply, LpBacked, FeeFits;
    SoundIs(g, s);
    AnchoredStep(g, s, op, now);
    if op.Withdraw? {
      EnoughBalances(g, s);
      NoExcessIff(s);
      ExcessProtects(g, s, op);
      SupplyEndsIff(g, s, op, now);
    }
  }

  /** Signed transactions none of which clips the supply. */
  predicate FittingRun(g: Genesis, s: State, steps: seq<Step>)
    decreases steps
  {
    steps != [] ==>
      && Signed(g, steps[0].op)
      && SupplyFits(g, s, steps[0].op)
      && FittingRun(g, Next(g, s, steps[0]), steps[1..])
  }

  /** Over every run that clips nothing the LP balances are exactly the supply as well, and the
      pool is never emptied. */
  lemma {:induction false} SoundRun(g: Genesis, s: State, steps: seq<Step>)
    requires Sound(g, s) && FittingRun(g, s, steps)
    ensures Sound(g, Run(g, s, steps))
    ensures s.totalSupply > 0 ==> Run(g, s, steps).totalSupply >= MINIMUM_LIQUIDITY
    decreases steps
  {
    hide Sound, SupplyFits, Dispatch, Signed;
    if steps == [] {
      AtLeastLocked(g, s);
    } else {
      SoundStep(g, s, steps[0].op, steps[0].now);
      if s.totalSupply > 0 {
        SupplyKept(g, s, steps[0].op, steps[0].now);
      }
      SoundRun(g, Next(g, s, steps[0]), steps[1..]);
    }
  }

  lemma AtLeastLocked(g: Genesis, s: State)
    requires Sound(g, s)
    ensures s.totalSupply > 0 ==> s.totalSupply >= MINIMUM_LIQUIDITY
  {
    PartOfTotal(s.lp, g.zero);
  }

  // ----- a condition on the supply alone ------------------------------------------------

  /** The supply is at most five sixths of what 128 bits hold. */
  predicate Roomy(s: State) {
    6 * s.totalSupply <= 5 * U128_MAX
  }

  /** Then no fee is clipped. */
  lemma RoomyFee(s: State)
    requires Roomy(s)
    ensures FeeFits(s)
  {
    hide FeeLiquidity;
    FeeAtMostFifth(s.totalSupply, s.kLast, s.reserve0, s.reserve1);
  }

  /** And no deposit is, if there is still room after it. */
  lemma RoomyFits(g: Genesis, s: State, op: Op, now: u64)
    requires Anchored(g, s) && Signed(g, op) && Roomy(s)
    requires Dispatch(g, s, op, now).status.Ok? && Roomy(Dispatch(g, s, op, now).state)
    ensures SupplyFits(g, s, op)
  {
    hide Deposit, DepositFits, Matching, Anchored, FeeFits;
    RoomyFee(s);
    match op {
      case DepositAsset1(caller, amount) =>
        var matching := Matching(s, amount, s.reserve0, s.reserve1);
        SignedCaller(g, op);
        RoomyDeposit(g, s, caller, amount, matching.value, now);
      case DepositAsset2(caller, amount) =>
        var matching := Matching(s, amount, s.reserve1, s.reserve0);
        SignedCaller(g, op);
        RoomyDeposit(g, s, caller, matching.value, amount, now);
      case _ =>
    }
  }

  lemma RoomyDeposit(g: Genesis, s: State, caller: Account, amount0: u128, amount1: u128, now: u64)
    requires Anchored(g, s) && caller != g.contract && Roomy(s)
    requires var r := Deposit(g, s, caller, amount0, amount1, now); r.status.Ok? && Roomy(r.state)
    ensures DepositFits(g, s, caller, amount0, amount1)
  {
    hide DepositPaid, Deposit, DepositFits, Mint, MintedLiquidity, Total, Fee;
    RoomyFee(s);
    DepositPays(g, s, caller, amount0, amount1, now);
    var paid := DepositPaid(g, s, caller, amount0, amount1);
    FeeOfPaid(s, paid);
    MintAnchors(g, paid, caller, now);
  }

  /** Signed transactions with room for the supply in every state. */
  predicate RoomyRun(g: Genesis, s: State, steps: seq<Step>)
    decreases steps
  {
    Roomy(s) && (steps != [] ==> Signed(g, steps[0].op) && RoomyRun(g, Next(g, s, steps[0]), steps[1..]))
  }

  /** A run that leaves room for the supply clips nothing, with the fee on or off, so the LP
      balances are exactly the supply throughout and the pool is never emptied. */
  lemma {:induction false} SoundWhileRoomy(g: Genesis, s: State, steps: seq<Step>)
    requires Sound(g, s) && RoomyRun(g, s, steps)
    ensures Sound(g, Run(g, s, steps))
    ensures s.totalSupply > 0 ==> Run(g, s, steps).totalSupply >= MINIMUM_LIQUIDITY
    decreases steps
  {
    hide Sound, Anchored, Exec, Signed, SupplyFits, LpBacked;
    if steps == [] {
      AtLeastLocked(g, s);
    } else {
      var op, now := steps[0].op, steps[0].now;
      SoundIs(g, s);
      if Exec(g, s, op, now).status.Ok? {
        RoomyStart(g, steps[1..], Next(g, s, steps[0]));
        RoomyFits(g, s, op, now);
        SoundStep(g, s, op, now);
        if s.totalSupply > 0 {
          SupplyKept(g, s, op, now);
        }
      }
      SoundWhileRoomy(g, Next(g, s, steps[0]), steps[1..]);
    }
  }

  lemma RoomyStart(g: Genesis, steps: seq<Step>, t: State)
    requires RoomyRun(g, t, steps)
    ensures Roomy(t)
  {}
}
