/** What a successful mint or burn does, with the fee off. */
module Effects {
  import opened U128
  import opened Ledgers
  import opened Pool
  import opened Conservation
  import opened Safety
  import opened Growth

  lemma MintEffect(g: Genesis, s: State, to: Account, now: u64)
    requires Healthy(g, s) && to != g.zero
    ensures var r := Mint(g, s, to, now);
            var liquidity := MintedLiquidity(g, s);
            && (r.status.Ok? <==> liquidity > 0)
            && (r.status.Ok? ==>
                  && Healthy(g, r.state) && Synced(g, r.state) && r.state.ledger == s.ledger
                  && r.state.totalSupply
                     == s.totalSupply + liquidity + (if s.totalSupply == 0 then MINIMUM_LIQUIDITY else 0)
                  && BalanceIn(r.state.lp, to) == BalanceIn(s.lp, to) + liquidity
                  && BalanceIn(r.state.lp, g.zero)
                     == BalanceIn(s.lp, g.zero) + (if s.totalSupply == 0 then MINIMUM_LIQUIDITY else 0)
                  && (forall who :: who != to && who != g.zero ==> BalanceIn(r.state.lp, who) == BalanceIn(s.lp, who)))
  {
    hide Liquidity, Update, LpBacked, Total, MintLp;
    FeeOffMintFits(g, s);
    MintKeeps(g, s, to, now);
    HealthyIs(g, s);
    var s1 := MintFee(s);
    LpBackedDepends(s, s1);
    var liquidity := MintedLiquidity(g, s);
    if s.totalSupply == 0 {
      MintLpKeeps(s1, g.zero, MINIMUM_LIQUIDITY);
    }
    var s2 := if s1.totalSupply == 0 then MintLp(s1, g.zero, MINIMUM_LIQUIDITY) else s1;
    MintLpKeeps(s2, to, liquidity);
    var s3 := MintLp(s2, to, liquidity);
    UpdateKeeps(s3, Held0(g, s), Held1(g, s), now);
    if liquidity > 0 {
      MintBacked(g, s, to, now);
    }
  }

  lemma MintBacked(g: Genesis, s: State, to: Account, now: u64)
    requires Healthy(g, s)
    ensures var r := Mint(g, s, to, now); r.status.Ok? ==> Backed(r.state)
  {
    hide Mint, LpBacked, Total, Kept;
    if s.totalSupply == 0 {
      FirstMintBacked(g, s, to, now);
    } else {
      MintPerShare(g, s, to, now);
      var r := Mint(g, s, to, now);
      if r.status.Ok? {
        LockedProduct(g, s);
        PerShareKept(s, r.state);
        KeptIsBacked(s, r.state);
      }
    }
  }

  lemma KeptIsBacked(s: State, t: State)
    requires Kept(s, t)
    ensures Backed(t)
  {}

  lemma MovedIsHealthy(g: Genesis, s: State, caller: Account, amount: u128)
    requires Healthy(g, s) && caller != g.contract && caller != g.zero && g.contract != g.zero
    requires BalanceIn(s.lp, caller) >= amount
    ensures Anchored(g, s) && Healthy(g, TransferLiquidity(s, caller, g.contract, amount).state)
  {
    hide TransferLiquidity, LpBacked, Total;
    HealthyIs(g, s);
    WithdrawMoves(g, s, caller, amount);
    TransferLiquidityKeeps(s, caller, g.contract, amount);
    SoundIs(g, TransferLiquidity(s, caller, g.contract, amount).state);
  }

  /** A burn with the fee off: what the contract's LP tokens stand for is always in the pool. */
  lemma FeeOffBurn(g: Genesis, s: State, to: Account, now: u64)
    requires Healthy(g, s) && g.contract != g.zero && to != g.contract
    ensures var r := Burn(g, s, to, now);
            var liquidity := BalanceIn(s.lp, g.contract);
            var amount0 := Share(liquidity, Held0(g, s), s.totalSupply);
            var amount1 := Share(liquidity, Held1(g, s), s.totalSupply);
            && (r.status.Ok? <==> amount0 > 0 && amount1 > 0)
            && (r.status.Ok? ==>
                  && Synced(g, r.state)
                  && r.state.totalSupply == s.totalSupply - liquidity
                  && BalanceIn(r.state.lp, g.contract) == 0
                  && (forall who :: who != g.contract ==> BalanceIn(r.state.lp, who) == BalanceIn(s.lp, who))
                  && Paid(s, r.state, g.contract, to, amount0, amount1))
  {
    hide Burn, Share, Total, Paid, Backed;
    HealthyIs(g, s);
    BurnEffect(g, s, to, now);
    var liquidity := BalanceIn(s.lp, g.contract);
    if s.totalSupply > 0 {
      PartsOfTotal(s.lp, g.contract, g.zero);
      ShareBounds(liquidity, Held0(g, s), s.totalSupply);
      ShareBounds(liquidity, Held1(g, s), s.totalSupply);
    } else {
      ShareOfNothing(liquidity, Held0(g, s), 0);
    }
  }
}
