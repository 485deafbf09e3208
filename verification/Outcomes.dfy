/** What every dispatchable does, with the fee on or off and whatever is clipped: with which
    status it ends, who pays and gets which assets, and which LP tokens, KLast and reserves it
    leaves; also where it fails and its writes stay in storage. Cumulative prices and the
    timestamp are in module `Oracle`. */
module Outcomes {
  import opened Words
  import opened U128
  import opened Ledgers
  import opened Pool
  import opened Swaps
  import opened Conservation
  import opened Safety
  import opened FeeCap

  // ----- the amounts --------------------------------------------------------------------

  lemma AtMostDivOrZero(y: nat, a: nat, b: u128)
    requires b > 0
    ensures y <= DivOrZero(Saturate(a), b) <==> y * b <= Saturate(a)
  {
    AtMostQuotient(y, Saturate(a), b);
  }

  /** A share is the largest amount that the part of the supply pays for. */
  lemma ShareIff(liquidity: u128, balance: u128, supply: u128, y: nat)
    ensures supply > 0 ==> (y <= Share(liquidity, balance, supply) <==> y * supply <= Saturate(liquidity * balance))
    ensures supply == 0 ==> Share(liquidity, balance, supply) == 0
  {
    if supply > 0 {
      AtMostDivOrZero(y, liquidity * balance, supply);
    }
  }

  /** On a pool with supply a mint gives as many tokens as each amount pays for at the old
      reserve per token; the first one gives the root of the product but for the locked tokens. */
  lemma TokensIff(supply: u128, amount0: u128, amount1: u128, reserve0: u128, reserve1: u128, y: nat)
    ensures var tokens := Liquidity(supply, amount0, amount1, reserve0, reserve1);
            if supply == 0 then
              y > 0 ==> (y <= tokens <==> (y + 1000) * (y + 1000) <= Saturate(amount0 * amount1))
            else if reserve0 == 0 || reserve1 == 0 then tokens == 0
            else
              y <= tokens <==>
                y * reserve0 <= Saturate(amount0 * supply) && y * reserve1 <= Saturate(amount1 * supply)
  {
    hide Root, DivOrZero;
    if supply == 0 {
      AtMostRoot(y + 1000, Saturate(amount0 * amount1));
    } else {
      if reserve0 > 0 {
        AtMostDivOrZero(y, amount0 * supply, reserve0);
      } else {
        NoDivision(SatMul(amount0, supply));
      }
      if reserve1 > 0 {
        AtMostDivOrZero(y, amount1 * supply, reserve1);
      } else {
        NoDivision(SatMul(amount1, supply));
      }
    }
  }

  lemma NoDivision(a: u128)
    ensures DivOrZero(a, 0) == 0
  {}

  lemma AtMostRoot(y: nat, n: nat)
    ensures y <= Root(n) <==> y * y <= n
  {
    hide Root;
    if y <= Root(n) {
      Squares(y, Root(n));
    } else {
      Squares(Root(n) + 1, y);
    }
  }

  predicate IsDeposit(op: Op) { op.DepositAsset1? || op.DepositAsset2? }

  /** The asset that a deposit names; the amount of the other one is quoted. */
  function Named(op: Op): Asset
    requires IsDeposit(op)
  {
    if op.DepositAsset1? then Asset0 else Asset1
  }

  /** What a deposit pays in of each asset. */
  function PaidIn(s: State, op: Op): (Priced, Priced)
    requires IsDeposit(op)
  {
    match op
    case DepositAsset1(_, amount) => (Amount(amount), Matching(s, amount, s.reserve0, s.reserve1))
    case DepositAsset2(_, amount) => (Matching(s, amount, s.reserve1, s.reserve0), Amount(amount))
  }

  function QuotedIn(s: State, op: Op): Priced
    requires IsDeposit(op)
  {
    if op.DepositAsset1? then PaidIn(s, op).1 else PaidIn(s, op).0
  }

  /** The quoted amount of a deposit: the same amount on an unused pool, otherwise the largest
      that the named one pays for at the price of the reserves. */
  lemma QuotedIff(s: State, op: Op, y: nat)
    requires IsDeposit(op)
    ensures var quoted := QuotedIn(s, op);
            var reserveA, reserveB := Reserve(s, Named(op)), Reserve(s, Opposite(Named(op)));
            if s.reserve0 == 0 && s.reserve1 == 0 then quoted == Amount(op.amount)
            else if op.amount == 0 then quoted == Refused(InsufficientInputAmount)
            else if reserveA == 0 || reserveB == 0 then quoted == Refused(InsufficientLiquidity)
            else quoted.Amount? && (y <= quoted.value <==> y * reserveA <= Saturate(op.amount * reserveB))
  {
    hide DivOrZero;
    var reserveA, reserveB := Reserve(s, Named(op)), Reserve(s, Opposite(Named(op)));
    if reserveA > 0 {
      AtMostDivOrZero(y, op.amount * reserveB, reserveA);
    }
  }

  // ----- minting ------------------------------------------------------------------------

  /** What a mint of `tokens` to `to` adds to the balance of `who`: the tokens, the fee and the
      locked tokens, or any two or all three of them. */
  function Credit(g: Genesis, s: State, to: Account, tokens: u128, who: Account): nat {
    FeeOf(s, who)
    + (if who == g.zero && s.totalSupply == 0 then MINIMUM_LIQUIDITY else 0)
    + (if who == to then tokens else 0)
  }

  function FeeOf(s: State, who: Account): nat { if s.feeTo == Some(who) then Fee(s) else 0 }

  /** `t` is `s` after a mint of `tokens` to `to`. */
  ghost predicate Minted(g: Genesis, s: State, t: State, to: Account, tokens: u128) {
    && t.totalSupply
       == Saturate(s.totalSupply + Fee(s) + tokens + (if s.totalSupply == 0 then MINIMUM_LIQUIDITY else 0))
    && forall who :: BalanceIn(t.lp, who) == Saturate(BalanceIn(s.lp, who) + Credit(g, s, to, tokens, who))
  }

  /** Only LP tokens and, with the fee off, KLast are written. */
  predicate OnlyTokens(s: State, t: State) {
    t == s.(totalSupply := t.totalSupply, lp := t.lp, kLast := if s.feeTo.Some? then s.kLast else 0)
  }

  lemma MintLpCredits(s: State, to: Account, value: u128)
    ensures var t := MintLp(s, to, value);
            && t == s.(totalSupply := Saturate(s.totalSupply + value), lp := t.lp)
            && forall who :: BalanceIn(t.lp, who) == Saturate(BalanceIn(s.lp, who) + (if who == to then value else 0))
  {}

  /** `_burn`: refused for an account without an entry; otherwise its tokens and the supply
      shrink, to zero at most. */
  lemma BurnLpOutcome(s: State, from: Account, value: u128)
    ensures var r := BurnLp(s, from, value);
            if from !in s.lp then r == Outcome(s, Err(Forbidden))
            else
              && r.status.Ok? && r.state == s.(totalSupply := SatSub(s.totalSupply, value), lp := r.state.lp)
              && forall who :: BalanceIn(r.state.lp, who)
                               == if who == from then SatSub(BalanceIn(s.lp, who), value) else BalanceIn(s.lp, who)
  {}

  /** `_transfer_liquidity`: refused for want of tokens; otherwise they move, and a transfer to
      oneself changes no balance. */
  lemma TransferLiquidityOutcome(s: State, from: Account, to: Account, amount: u128)
    ensures var r := TransferLiquidity(s, from, to, amount);
            if BalanceIn(s.lp, from) < amount then r == Outcome(s, Err(InsufficientBalance))
            else
              && r.status.Ok? && r.state == s.(lp := r.state.lp)
              && forall who :: BalanceIn(r.state.lp, who)
                               == if from == to then BalanceIn(s.lp, who)
                                  else if who == from then BalanceIn(s.lp, who) - amount
                                  else if who == to then Saturate(BalanceIn(s.lp, who) + amount)
                                  else BalanceIn(s.lp, who)
  {}

  lemma MintFeeCredits(s: State)
    ensures var t := MintFee(s);
            && OnlyTokens(s, t) && t.totalSupply == AfterFee(s) == Saturate(s.totalSupply + Fee(s))
            && (t.totalSupply == 0 <==> s.totalSupply == 0)
            && forall who :: BalanceIn(t.lp, who) == Saturate(BalanceIn(s.lp, who) + FeeOf(s, who))
  {
    hide FeeLiquidity;
    NoFeeWithoutSupply(s.kLast, s.reserve0, s.reserve1);
    if s.feeTo.Some? {
      MintLpCredits(s, s.feeTo.value, Fee(s));
    }
  }

  /** `mint`: the tokens go to `to`, the fee to its receiver and the locked tokens to the zero
      account, whichever of them are the same, and nobody else's change. Where no tokens come out
      it fails, and fee and locked tokens stay in storage. */
  lemma MintOutcome(g: Genesis, s: State, to: Account, now: u64)
    ensures var r := Mint(g, s, to, now);
            var tokens := Liquidity(AfterFee(s), SatSub(Held0(g, s), s.reserve0), SatSub(Held1(g, s), s.reserve1),
                                    s.reserve0, s.reserve1);
            && r.status == (if tokens > 0 then Ok else Err(InsufficientLiquidityMinted))
            && Minted(g, s, r.state, to, tokens)
            && (r.status.Err? ==> OnlyTokens(s, r.state))
            && (r.status.Ok? ==>
                  && r.state.reserve0 == Held0(g, s) && r.state.reserve1 == Held1(g, s)
                  && r.state.ledger == s.ledger && r.state.feeTo == s.feeTo && r.state.kLast == ProductBefore(s))
  {
    hide Fee, MintFee, MintLp, Liquidity, Update, SatMul, Minted;
    MintFeeCredits(s);
    var s1 := MintFee(s);
    var tokens := MintedLiquidity(g, s);
    MintedInAll(g, s, to, tokens);
    MintLpCredits(s1, g.zero, MINIMUM_LIQUIDITY);
    var s2 := if s1.totalSupply == 0 then MintLp(s1, g.zero, MINIMUM_LIQUIDITY) else s1;
    MintLpCredits(s2, to, tokens);
    var s3 := MintLp(s2, to, tokens);
    UpdateKeeps(s3, Held0(g, s), Held1(g, s), now);
    var r := Mint(g, s, to, now);
    if tokens > 0 {
      SameTokens(g, s, s3, r.state, to, tokens);
    } else {
      NothingMinted(g, s, s2, to);
    }
  }

  lemma MintedInAll(g: Genesis, s: State, to: Account, tokens: u128)
    ensures var s1 := MintFee(s);
            var s2 := if s1.totalSupply == 0 then MintLp(s1, g.zero, MINIMUM_LIQUIDITY) else s1;
            Minted(g, s, MintLp(s2, to, tokens), to, tokens)
  {
    hide Fee, MintFee, MintLp, FeeFor;
    MintFeeCredits(s);
    var s1 := MintFee(s);
    MintLpCredits(s1, g.zero, MINIMUM_LIQUIDITY);
    var s2 := if s1.totalSupply == 0 then MintLp(s1, g.zero, MINIMUM_LIQUIDITY) else s1;
    MintLpCredits(s2, to, tokens);
  }

  lemma SameTokens(g: Genesis, s: State, t: State, t': State, to: Account, tokens: u128)
    requires Minted(g, s, t, to, tokens) && t'.lp == t.lp && t'.totalSupply == t.totalSupply
    ensures Minted(g, s, t', to, tokens)
  {
    hide Credit, Fee;
  }

  lemma NothingMinted(g: Genesis, s: State, t: State, to: Account)
    requires Minted(g, s, MintLp(t, to, 0), to, 0)
    ensures Minted(g, s, t, to, 0)
  {
    hide Credit, Fee;
  }

  // ----- deposits -----------------------------------------------------------------------

  /** The tokens for what the contract holds beyond its reserves once both amounts are paid. */
  function TokensFor(g: Genesis, s: State, amount0: nat, amount1: nat): u128
    requires Held0(g, s) + amount0 <= U128_MAX && Held1(g, s) + amount1 <= U128_MAX
  {
    Liquidity(AfterFee(s), SatSub(Held0(g, s) + amount0, s.reserve0), SatSub(Held1(g, s) + amount1, s.reserve1),
              s.reserve0, s.reserve1)
  }

  predicate CanPay(s: State, who: Account, amount0: nat, amount1: nat) {
    s.ledger.Balance(who, Asset0) >= amount0 && s.ledger.Balance(who, Asset1) >= amount1
  }

  lemma PaymentsFit(g: Genesis, s: State, who: Account, amount0: nat, amount1: nat)
    requires Anchored(g, s) && who != g.contract && CanPay(s, who, amount0, amount1)
    ensures Held0(g, s) + amount0 <= U128_MAX && Held1(g, s) + amount1 <= U128_MAX
  {
    PartsOfTotal(s.ledger.Held(Asset0), who, g.contract);
    PartsOfTotal(s.ledger.Held(Asset1), who, g.contract);
    hide Total;
  }

  /** Both payments have been made and nothing else has happened. */
  lemma DepositIs(g: Genesis, s: State, caller: Account, amount0: u128, amount1: u128, now: u64)
    requires Anchored(g, s) && caller != g.contract
    ensures var r := Deposit(g, s, caller, amount0, amount1, now);
            if CanPay(s, caller, amount0, amount1) then
              var paid := DepositPaid(g, s, caller, amount0, amount1);
              && r == Mint(g, paid, caller, now)
              && paid == s.(ledger := paid.ledger) && Paid(s, paid, caller, g.contract, amount0, amount1)
            else
              && r.status == Err(InsufficientBalance) && r.state == s.(ledger := r.state.ledger)
              && var first := if s.ledger.Balance(caller, Asset0) >= amount0 then amount0 else 0;
              Paid(s, r.state, caller, g.contract, first, 0)
  {
    hide TransferTokens, Mint, Total;
    Payment(s, caller, g.contract, Asset0, amount0);
    var s1 := TransferTokens(s, caller, g.contract, Asset0, amount0).state;
    Payment(s1, caller, g.contract, Asset1, amount1);
    if CanPay(s, caller, amount0, amount1) {
      PayBoth(s, caller, g.contract, amount0, amount1);
    }
  }

  lemma CommonDeposit(g: Genesis, s: State, caller: Account, amount0: u128, amount1: u128, now: u64)
    requires Anchored(g, s) && caller != g.contract
    ensures var r := Deposit(g, s, caller, amount0, amount1, now);
            if CanPay(s, caller, amount0, amount1) then
              && Held0(g, s) + amount0 <= U128_MAX && Held1(g, s) + amount1 <= U128_MAX
              && var tokens := TokensFor(g, s, amount0, amount1);
              && r.status == (if tokens > 0 then Ok else Err(InsufficientLiquidityMinted))
              && DepositLeaves(g, s, r, caller, amount0, amount1, tokens)
            else
              && r.status == Err(InsufficientBalance) && r.state == s.(ledger := r.state.ledger)
              && var first := if s.ledger.Balance(caller, Asset0) >= amount0 then amount0 else 0;
              Paid(s, r.state, caller, g.contract, first, 0)
  {
    hide Deposit, DepositPaid, Mint, Liquidity, Fee, Paid, Minted, Total, SatMul;
    DepositIs(g, s, caller, amount0, amount1, now);
    if CanPay(s, caller, amount0, amount1) {
      var paid := DepositPaid(g, s, caller, amount0, amount1);
      PaymentsFit(g, s, caller, amount0, amount1);
      PaidTo(g, s, paid, caller, amount0, amount1);
      FeeOfPaid(s, paid);
      MintOutcome(g, paid, caller, now);
      var r := Mint(g, paid, caller, now);
      PaidDepends(s, paid, s, r.state, caller, g.contract, amount0, amount1);
      MintedDepends(g, s, paid, r.state, caller, TokensFor(g, s, amount0, amount1));
    }
  }

  /** The state that a deposit leaves once both amounts are paid, be it with an error. */
  ghost predicate DepositLeaves(g: Genesis, s: State, r: Outcome, caller: Account, amount0: u128, amount1: u128,
                                tokens: u128) {
    && Paid(s, r.state, caller, g.contract, amount0, amount1)
    && Minted(g, s, r.state, caller, tokens)
    && (r.status.Err? ==> OnlyTokens(s.(ledger := r.state.ledger), r.state))
    && (r.status.Ok? ==> Synced(g, r.state) && r.state.feeTo == s.feeTo && r.state.kLast == ProductBefore(s))
  }

  lemma PaidTo(g: Genesis, s: State, t: State, from: Account, amount0: int, amount1: int)
    requires Paid(s, t, from, g.contract, amount0, amount1)
    ensures Held0(g, t) == Held0(g, s) + amount0 && Held1(g, t) == Held1(g, s) + amount1
  {}

  lemma MintedDepends(g: Genesis, s: State, s': State, t: State, to: Account, tokens: u128)
    requires s' == s.(ledger := s'.ledger) && Minted(g, s', t, to, tokens)
    ensures Minted(g, s, t, to, tokens)
  {
    FeeOfPaid(s, s');
    hide Fee;
  }

  /** Either deposit, with the fee on or off: it is refused for its quote, for want of funds or
      because no tokens come out. Otherwise exactly the two amounts move to the contract and become
      part of the reserves, and the tokens are minted to the caller. */
  lemma DepositOutcome(g: Genesis, s: State, op: Op, now: u64)
    requires Anchored(g, s) && Signed(g, op) && IsDeposit(op)
    ensures var r := Exec(g, s, op, now);
            var quoted := QuotedIn(s, op);
            if quoted.Refused? then r == Outcome(s, Err(quoted.error))
            else
              var (paid0, paid1) := PaidIn(s, op);
              var amount0, amount1 := paid0.value, paid1.value;
              if !CanPay(s, op.caller, amount0, amount1) then
                && r.status == Err(InsufficientBalance) && r.state == s.(ledger := r.state.ledger)
                && var first := if s.ledger.Balance(op.caller, Asset0) >= amount0 then amount0 else 0;
                Paid(s, r.state, op.caller, g.contract, first, 0)
              else
                && Held0(g, s) + amount0 <= U128_MAX && Held1(g, s) + amount1 <= U128_MAX
                && var tokens := TokensFor(g, s, amount0, amount1);
                && r.status == (if tokens > 0 then Ok else Err(InsufficientLiquidityMinted))
                && DepositLeaves(g, s, r, op.caller, amount0, amount1, tokens)
  {
    hide Deposit, Matching, Anchored, DepositLeaves, TokensFor, Paid, Held0, Held1;
    var (paid0, paid1) := PaidIn(s, op);
    if QuotedIn(s, op).Amount? {
      CommonDeposit(g, s, op.caller, paid0.value, paid1.value, now);
    }
  }

  /** As long as the supply has not reached its end, nothing is clipped: a deposit that succeeds
      gives the caller exactly the tokens, the receiver exactly the fee and the zero account, once,
      the locked tokens, also where two of them are the same, and nobody else's tokens change. */
  lemma DepositCredits(g: Genesis, s: State, op: Op, now: u64)
    requires Sound(g, s) && Signed(g, op) && IsDeposit(op)
    requires var r := Dispatch(g, s, op, now); r.status.Ok? && r.state.totalSupply < U128_MAX
    ensures var t := Dispatch(g, s, op, now).state;
            var (paid0, paid1) := PaidIn(s, op);
            && paid0.Amount? && paid1.Amount? && CanPay(s, op.caller, paid0.value, paid1.value)
            && Held0(g, s) + paid0.value <= U128_MAX && Held1(g, s) + paid1.value <= U128_MAX
            && Paid(s, t, op.caller, g.contract, paid0.value, paid1.value)
            && var tokens := TokensFor(g, s, paid0.value, paid1.value);
            && tokens > 0
            && (forall who :: BalanceIn(t.lp, who) == BalanceIn(s.lp, who) + Credit(g, s, op.caller, tokens, who))
            && t.totalSupply == s.totalSupply + Fee(s) + tokens + (if s.totalSupply == 0 then MINIMUM_LIQUIDITY else 0)
  {
    hide Exec, Anchored, LpBacked, Sound, TokensFor, Paid, Matching, Held0, Held1, Fee, Minted;
    SoundIs(g, s);
    DepositOutcome(g, s, op, now);
    var (paid0, paid1) := PaidIn(s, op);
    var t := Exec(g, s, op, now).state;
    Unclipped(g, s, t, op.caller, TokensFor(g, s, paid0.value, paid1.value));
  }

  lemma Unclipped(g: Genesis, s: State, t: State, to: Account, tokens: u128)
    requires LpBacked(s) && Minted(g, s, t, to, tokens) && t.totalSupply < U128_MAX
    ensures forall who :: BalanceIn(t.lp, who) == BalanceIn(s.lp, who) + Credit(g, s, to, tokens, who)
    ensures t.totalSupply == s.totalSupply + Fee(s) + tokens + (if s.totalSupply == 0 then MINIMUM_LIQUIDITY else 0)
  {
    hide Fee, Total;
    forall who
      ensures BalanceIn(t.lp, who) == BalanceIn(s.lp, who) + Credit(g, s, to, tokens, who)
    {
      PartOfTotal(s.lp, who);
    }
  }

  // ----- withdrawals --------------------------------------------------------------------

  /** The LP balances once `amount` tokens of `caller` have moved to the contract. */
  function Moved(g: Genesis, s: State, caller: Account, amount: u128, who: Account): nat
    requires amount <= BalanceIn(s.lp, caller)
  {
    if who == caller then BalanceIn(s.lp, who) - amount
    else if who == g.contract then Saturate(BalanceIn(s.lp, who) + amount)
    else BalanceIn(s.lp, who)
  }

  /** The tokens have moved, the fee is minted, and `burnt` of the contract's tokens are gone. */
  ghost predicate Withdrawn(g: Genesis, s: State, t: State, caller: Account, amount: u128, burnt: u128)
    requires amount <= BalanceIn(s.lp, caller)
  {
    && t.totalSupply == SatSub(AfterFee(s), burnt)
    && forall who :: BalanceIn(t.lp, who) == Saturate(Moved(g, s, caller, amount, who) + FeeOf(s, who))
                                             - if who == g.contract then burnt else 0
  }

  /** `_burn` has been reached and one of the payments fails. */
  lemma BurnUnpaid(g: Genesis, s: State, to: Account, now: u64)
    requires Anchored(g, s) && g.contract != g.zero && to != g.contract
    requires var liquidity := BalanceIn(s.lp, g.contract);
             var amount0 := Share(liquidity, Held0(g, s), AfterFee(s));
             var amount1 := Share(liquidity, Held1(g, s), AfterFee(s));
             amount0 > 0 && amount1 > 0 && (amount0 > Held0(g, s) || amount1 > Held1(g, s))
    ensures var r := Burn(g, s, to, now);
            var liquidity := BalanceIn(s.lp, g.contract);
            var amount0 := Share(liquidity, Held0(g, s), AfterFee(s));
            && r.status == Err(InsufficientBalance)
            && OnlyTokens(s.(ledger := r.state.ledger), r.state)
            && Paid(s, r.state, g.contract, to, if amount0 <= Held0(g, s) then amount0 else 0, 0)
            && r.state.totalSupply == SatSub(AfterFee(s), liquidity)
            && BalanceIn(r.state.lp, g.contract) == BalanceIn(MintFee(s).lp, g.contract) - liquidity
            && (forall who :: who != g.contract ==> BalanceIn(r.state.lp, who) == BalanceIn(MintFee(s).lp, who))
  {
    hide FeeLiquidity, MintFee, BurnLp, Share, TransferTokens, Total, Fee;
    MintFeeAnchors(s);
    var s1 := MintFee(s);
    var n, liquidity := AfterFee(s), BalanceIn(s.lp, g.contract);
    var amount0, amount1 := Share(liquidity, Held0(g, s), n), Share(liquidity, Held1(g, s), n);
    ShareOfNothing(liquidity, Held0(g, s), n);
    BurnLpAnchors(s1, g.contract, liquidity);
    var s2 := BurnLp(s1, g.contract, liquidity).state;
    Payment(s2, g.contract, to, Asset0, amount0);
    Payment(TransferTokens(s2, g.contract, to, Asset0, amount0).state, g.contract, to, Asset1, amount1);
  }

  lemma BurnTooLittle(g: Genesis, s: State, to: Account, now: u64)
    requires var liquidity := BalanceIn(s.lp, g.contract);
             MintFee(s).totalSupply == AfterFee(s) &&
             (Share(liquidity, Held0(g, s), AfterFee(s)) == 0 || Share(liquidity, Held1(g, s), AfterFee(s)) == 0)
    ensures Burn(g, s, to, now) == Outcome(MintFee(s), Err(InsufficientLiquidityBurned))
  {
    hide Share, MintFee, Fee;
  }

  /** A withdrawal, with the fee on or off: it is refused without supply, for want of tokens, if a
      share is zero, or if one is more than the contract holds. Otherwise the caller gets exactly
      the two shares and the contract's tokens are burned. */
  lemma WithdrawOutcome(g: Genesis, s: State, op: Op, now: u64)
    requires Anchored(g, s) && Signed(g, op) && op.Withdraw?
    ensures var r := Exec(g, s, op, now);
            if s.totalSupply == 0 then r == Outcome(s, Err(WithdrawWithoutSupply))
            else if BalanceIn(s.lp, op.caller) < op.amount then r == Outcome(s, Err(InsufficientBalance))
            else
              var liquidity := Saturate(BalanceIn(s.lp, g.contract) + op.amount);
              var amount0 := Share(liquidity, Held0(g, s), AfterFee(s));
              var amount1 := Share(liquidity, Held1(g, s), AfterFee(s));
              if amount0 == 0 || amount1 == 0 then
                && r.status == Err(InsufficientLiquidityBurned)
                && OnlyTokens(s, r.state) && Withdrawn(g, s, r.state, op.caller, op.amount, 0)
              else if amount0 > Held0(g, s) || amount1 > Held1(g, s) then
                && r.status == Err(InsufficientBalance)
                && OnlyTokens(s.(ledger := r.state.ledger), r.state)
                && Withdrawn(g, s, r.state, op.caller, op.amount, liquidity)
                && Paid(s, r.state, g.contract, op.caller, if amount0 <= Held0(g, s) then amount0 else 0, 0)
              else
                && r.status.Ok? && Synced(g, r.state)
                && Withdrawn(g, s, r.state, op.caller, op.amount, liquidity)
                && Paid(s, r.state, g.contract, op.caller, amount0, amount1)
                && r.state.feeTo == s.feeTo && r.state.kLast == ProductBefore(s)
  {
    hide Burn, TransferLiquidity, Share, Fee, MintFee, Paid, Withdrawn, Total, SatMul;
    if s.totalSupply > 0 && BalanceIn(s.lp, op.caller) >= op.amount {
      WithdrawMoves(g, s, op.caller, op.amount);
      var moved := TransferLiquidity(s, op.caller, g.contract, op.amount).state;
      var liquidity := BalanceIn(moved.lp, g.contract);
      MintFeeCredits(moved);
      var amount0, amount1 := Share(liquidity, Held0(g, s), AfterFee(s)), Share(liquidity, Held1(g, s), AfterFee(s));
      var r := Burn(g, moved, op.caller, now);
      if amount0 == 0 || amount1 == 0 {
        BurnTooLittle(g, moved, op.caller, now);
        WithdrawnIs(g, s, moved, r.state, op.caller, op.amount, 0);
      } else if amount0 > Held0(g, s) || amount1 > Held1(g, s) {
        BurnUnpaid(g, moved, op.caller, now);
        WithdrawnIs(g, s, moved, r.state, op.caller, op.amount, liquidity);
        var first := if amount0 <= Held0(g, s) then amount0 else 0;
        PaidDepends(moved, r.state, s, r.state, g.contract, op.caller, first, 0);
      } else {
        BurnEffect(g, moved, op.caller, now);
        WithdrawnIs(g, s, moved, r.state, op.caller, op.amount, liquidity);
        PaidDepends(moved, r.state, s, r.state, g.contract, op.caller, amount0, amount1);
      }
    } else if BalanceIn(s.lp, op.caller) < op.amount {
      TransferLiquidityOutcome(s, op.caller, g.contract, op.amount);
    }
  }

  lemma WithdrawnIs(g: Genesis, s: State, moved: State, t: State, caller: Account, amount: u128, burnt: u128)
    requires amount <= BalanceIn(s.lp, caller) && caller != g.contract && moved == s.(lp := moved.lp)
    requires forall who :: BalanceIn(moved.lp, who) == Moved(g, s, caller, amount, who)
    requires Fee(moved) == Fee(s)
    requires t.totalSupply == SatSub(AfterFee(moved), burnt)
    requires forall who :: BalanceIn(MintFee(moved).lp, who) == Saturate(BalanceIn(moved.lp, who) + FeeOf(moved, who))
    requires forall who :: BalanceIn(t.lp, who)
                           == BalanceIn(MintFee(moved).lp, who) - if who == g.contract then burnt else 0
    ensures Withdrawn(g, s, t, caller, amount, burnt)
  {
    hide Fee, MintFee;
  }

  // ----- swaps --------------------------------------------------------------------------

  /** A public swap: it is refused for its price, for want of funds, for asking for the reserve or
      more, or by the K check, in this order; only then the reserves change. A swap that the check
      refuses leaves both payments in storage. */
  lemma SwapOutcome(g: Genesis, s: State, op: Op, now: u64)
    requires Anchored(g, s) && Signed(g, op) && IsSwap(op)
    ensures var r := Exec(g, s, op, now);
            var price := Price(s, op);
            if op.amount == 0 then r == Outcome(s, Err(InsufficientOutputAmount))
            else if s.reserve0 == 0 || s.reserve1 == 0 then r == Outcome(s, Err(InsufficientLiquidity))
            else
              && price.Amount?
              && if op.amount >= Reserve(s, AssetOut(op)) then
                   && r.status == Err(InsufficientLiquidity)
                   && r.state == s.(ledger := r.state.ledger) && Paid(s, r.state, op.caller, g.contract, 0, 0)
                 else if s.ledger.Balance(op.caller, AssetIn(op)) < price.value then
                   r == Outcome(s, Err(InsufficientBalance))
                 else if !SwapCheck(g, s, op, price.value) then
                   && r.status == Err(InvalidK)
                   && r.state == s.(ledger := r.state.ledger) && Exchanged(g, s, r.state, op, price.value)
                 else r.status.Ok? && Sold(g, s, r.state, op, price.value)
  {
    hide Exec, Price, TransferTokens, Swap, Total, KCheck, AmountIn, SwapCheck, Sold;
    SwapEffect(g, s, op, now);
    SwapIs(g, s, op, now);
    PriceOrRefusal(s, op);
    var price := Price(s, op);
    if price.Amount? {
      Payment(s, op.caller, g.contract, AssetIn(op), price.value);
      var s1 := PaySwap(g, s, op, price.value).state;
      if s.ledger.Balance(op.caller, AssetIn(op)) >= price.value {
        InnerSwapOutcome(g, s1, Out(op, Asset0), Out(op, Asset1), op.caller, now);
        if op.amount < Reserve(s, AssetOut(op)) {
          PriceIsPositive(s, op);
        }
      }
    }
  }

  /** The charge has been paid and the amount paid out, and nothing else has happened. */
  ghost predicate Exchanged(g: Genesis, s: State, t: State, op: Op, charge: nat)
    requires IsSwap(op)
  {
    if op.SwapAsset1ForAsset2? then Paid(s, t, op.caller, g.contract, charge, 0 - op.amount)
    else Paid(s, t, op.caller, g.contract, 0 - op.amount, charge)
  }

  lemma PriceOrRefusal(s: State, op: Op)
    requires IsSwap(op)
    ensures var price := Price(s, op);
            if op.amount == 0 then price == Refused(InsufficientOutputAmount)
            else if s.reserve0 == 0 || s.reserve1 == 0 then price == Refused(InsufficientLiquidity)
            else price.Amount? && (op.amount >= Reserve(s, AssetOut(op)) ==> price.value == 0)
  {
    hide Quotient;
  }

  /** `_swap` whoever has paid before: it is refused for asking for nothing, for asking for a
      reserve or more, if nothing has come in, or by the K check, in this order. The last two leave
      the payments in storage. */
  lemma InnerSwapOutcome(g: Genesis, s: State, out0: u128, out1: u128, to: Account, now: u64)
    requires Anchored(g, s) && to != g.contract
    ensures var r := Swap(g, s, out0, out1, to, now);
            if out0 == 0 && out1 == 0 then r == Outcome(s, Err(InsufficientOutputAmount))
            else if out0 >= s.reserve0 || out1 >= s.reserve1 then r == Outcome(s, Err(InsufficientLiquidity))
            else
              var in0, in1 := Held0(g, s) - s.reserve0, Held1(g, s) - s.reserve1;
              && Paid(s, r.state, g.contract, to, out0, out1)
              && r.status == (if in0 == 0 && in1 == 0 then Err(InsufficientInputAmount)
                              else if KCheck(Held0(g, s) - out0, Held1(g, s) - out1, in0, in1, s.reserve0, s.reserve1)
                              then Ok else Err(InvalidK))
              && (r.status.Err? ==> r.state == s.(ledger := r.state.ledger))
              && (r.status.Ok? ==> Synced(g, r.state))
  {
    hide PayOut, KCheck, Update, Total;
    PayOutKeeps(s, g.contract, to, Asset0, out0);
    var s1 := PayOut(s, g.contract, to, Asset0, out0).state;
    PayOutKeeps(s1, g.contract, to, Asset1, out1);
    var s2 := PayOut(s1, g.contract, to, Asset1, out1).state;
    UpdateKeeps(s2, Held0(g, s2), Held1(g, s2), now);
  }

  // ----- the other operations -----------------------------------------------------------

  lemma SkimAssetPays(s: State, from: Account, to: Account, asset: Asset, reserve: u128)
    requires s.ledger.Valid() && from != to
    ensures var r := SkimAsset(s, from, to, asset, reserve);
            var over := SatSub(s.ledger.Balance(from, asset), reserve);
            && r.status.Ok? && r.state == s.(ledger := r.state.ledger) && r.state.ledger.Valid()
            && r.state.ledger.Balance(from, asset) == s.ledger.Balance(from, asset) - over
            && r.state.ledger.Balance(to, asset) == s.ledger.Balance(to, asset) + over
            && forall who, any :: any != asset || (who != from && who != to)
                                  ==> r.state.ledger.Balance(who, any) == s.ledger.Balance(who, any)
  {
    hide TransferTokens, Total;
    var balance := s.ledger.Balance(from, asset);
    if balance >= reserve {
      Payment(s, from, to, asset, balance - reserve);
    }
  }

  /** Skimming pays the caller exactly what the contract holds beyond its reserves, nothing of an
      asset of which it holds less, and touches nobody else's balances and nothing else in
      storage. */
  lemma SkimOutcome(g: Genesis, s: State, op: Op, now: u64)
    requires s.ledger.Valid() && Signed(g, op) && op.Skim?
    ensures var r := Exec(g, s, op, now);
            && r.status.Ok? && r.state == s.(ledger := r.state.ledger)
            && Paid(s, r.state, g.contract, op.caller, SatSub(Held0(g, s), s.reserve0), SatSub(Held1(g, s), s.reserve1))
  {
    hide SkimAsset, SatSub, Total;
    SkimAssetPays(s, g.contract, op.caller, Asset0, s.reserve0);
    var s1 := SkimAsset(s, g.contract, op.caller, Asset0, s.reserve0).state;
    SkimAssetPays(s1, g.contract, op.caller, Asset1, s1.reserve1);
  }

  /** A sync writes the reserves, the prices and the timestamp. */
  lemma SyncOutcome(g: Genesis, s: State, op: Op, now: u64)
    requires op.Sync?
    ensures var r := Exec(g, s, op, now);
            && r.status.Ok? && Synced(g, r.state) && r.state.timestampLast == now
            && r.state == s.(reserve0 := r.state.reserve0, reserve1 := r.state.reserve1, timestampLast := now,
                             price0 := r.state.price0, price1 := r.state.price1)
  {
    hide Update;
    UpdateKeeps(s, Held0(g, s), Held1(g, s), now);
  }

  // ----- what is left alone -------------------------------------------------------------

  lemma LedgerIsValid(g: Genesis, s: State)
    requires Anchored(g, s)
    ensures s.ledger.Valid()
  {}

  predicate MovesLiquidity(op: Op) { IsDeposit(op) || op.Withdraw? }

  /** No operation but a deposit or a withdrawal touches LP tokens, supply or KLast. */
  lemma QuietStep(g: Genesis, s: State, op: Op, now: u64)
    requires Anchored(g, s) && Signed(g, op) && !MovesLiquidity(op)
    ensures var t := Exec(g, s, op, now).state;
            t.lp == s.lp && t.totalSupply == s.totalSupply && t.kLast == s.kLast
  {
    hide Sold, Exchanged, Anchored, TransferTokens, Update, Price, SwapCheck;
    match op {
      case SwapAsset1ForAsset2(_, _) => SwapOutcome(g, s, op, now); hide Exec; SoldFrame(g, s, op, now);
      case SwapAsset2ForAsset1(_, _) => SwapOutcome(g, s, op, now); hide Exec; SoldFrame(g, s, op, now);
      case Skim(_) => LedgerIsValid(g, s); SkimOutcome(g, s, op, now); hide Exec;
      case Sync(_) => SyncOutcome(g, s, op, now); hide Exec;
      case OutsideTransfer(caller, to, asset, amount) => PaymentFrame(s, caller, to, asset, amount);
      case SetFeeTo(_, _) =>
    }
  }

  lemma SoldFrame(g: Genesis, s: State, op: Op, now: u64)
    requires IsSwap(op)
    ensures forall t: State, charge: nat :: Sold(g, s, t, op, charge) ==>
              t.lp == s.lp && t.totalSupply == s.totalSupply && t.kLast == s.kLast && t.feeTo == s.feeTo
  {}

  /** Over a run without deposits and withdrawals LP tokens, supply and KLast stay, so the fee
      receiver gets nothing however often others sync, skim or swap. */
  lemma {:induction false} QuietRun(g: Genesis, s: State, steps: seq<Step>)
    requires Anchored(g, s) && SignedRun(g, steps)
    requires forall step :: step in steps ==> !MovesLiquidity(step.op)
    ensures var t := Run(g, s, steps);
            t.lp == s.lp && t.totalSupply == s.totalSupply && t.kLast == s.kLast
    decreases steps
  {
    hide Anchored, Exec, Signed, MovesLiquidity;
    if steps != [] {
      QuietStep(g, s, steps[0].op, steps[0].now);
      AnchoredStep(g, s, steps[0].op, steps[0].now);
      QuietRun(g, Next(g, s, steps[0]), steps[1..]);
    }
  }

  /** Only the setter's call writes the fee receiver, and it writes the one it names. */
  function ReceiverAfter(g: Genesis, receiver: Option<Account>, op: Op): Option<Account> {
    if op.SetFeeTo? && op.caller == g.feeToSetter then Some(op.feeTo) else receiver
  }

  /** The fee receiver that the setter has named last. */
  function LastNamed(g: Genesis, receiver: Option<Account>, steps: seq<Step>): Option<Account>
    decreases steps
  {
    if steps == [] then receiver else LastNamed(g, ReceiverAfter(g, receiver, steps[0].op), steps[1..])
  }

  lemma ReceiverStep(g: Genesis, s: State, op: Op, now: u64)
    requires Anchored(g, s) && Signed(g, op)
    ensures var r := Exec(g, s, op, now);
            && r.state.feeTo == ReceiverAfter(g, s.feeTo, op)
            && (op.SetFeeTo? ==> r.status == if op.caller == g.feeToSetter then Ok else Err(Forbidden))
            && (op.SetFeeTo? ==> r.state == s.(feeTo := r.state.feeTo))
  {
    hide Sold, Exchanged, Anchored, TransferTokens, Update, Price, SwapCheck, Deposit, Matching, DepositLeaves,
         TokensFor, Withdrawn, Paid, Share;
    match op {
      case SwapAsset1ForAsset2(_, _) => SwapOutcome(g, s, op, now); hide Exec; SoldFrame(g, s, op, now);
      case SwapAsset2ForAsset1(_, _) => SwapOutcome(g, s, op, now); hide Exec; SoldFrame(g, s, op, now);
      case DepositAsset1(_, _) => DepositOutcome(g, s, op, now); hide Exec; LeavesFeeTo(g, s);
      case DepositAsset2(_, _) => DepositOutcome(g, s, op, now); hide Exec; LeavesFeeTo(g, s);
      case Withdraw(_, _) => WithdrawOutcome(g, s, op, now); hide Exec;
      case Skim(_) => LedgerIsValid(g, s); SkimOutcome(g, s, op, now); hide Exec;
      case Sync(_) => SyncOutcome(g, s, op, now); hide Exec;
      case OutsideTransfer(caller, to, asset, amount) => PaymentFrame(s, caller, to, asset, amount);
      case SetFeeTo(_, _) =>
    }
  }

  lemma LeavesFeeTo(g: Genesis, s: State)
    ensures forall r: Outcome, caller: Account, amount0: u128, amount1: u128, tokens: u128 ::
              DepositLeaves(g, s, r, caller, amount0, amount1, tokens) ==> r.state.feeTo == s.feeTo
  {}

  lemma {:induction false} ReceiverIsLastNamed(g: Genesis, s: State, steps: seq<Step>)
    requires Anchored(g, s) && SignedRun(g, steps)
    ensures Run(g, s, steps).feeTo == LastNamed(g, s.feeTo, steps)
    decreases steps
  {
    hide Anchored, Exec, Signed, ReceiverAfter;
    if steps != [] {
      ReceiverStep(g, s, steps[0].op, steps[0].now);
      ReceiverKept(g, s, steps[0]);
      AnchoredStep(g, s, steps[0].op, steps[0].now);
      ReceiverIsLastNamed(g, Next(g, s, steps[0]), steps[1..]);
    }
  }

  /** A transaction that fails leaves the receiver too: the only one that names one and fails is
      not the setter's. */
  lemma ReceiverKept(g: Genesis, s: State, step: Step)
    requires Anchored(g, s) && Signed(g, step.op)
    ensures Next(g, s, step).feeTo == ReceiverAfter(g, s.feeTo, step.op)
  {
    hide Anchored, Exec, Signed;
    ReceiverStep(g, s, step.op, step.now);
  }
}
