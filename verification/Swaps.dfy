/** Both public swaps at once: which asset a swap takes in, what it is charged, and what it
    asks `_swap` to pay out. */
module Swaps {
  import opened U128
  import opened Ledgers
  import opened Pool

  predicate IsSwap(op: Op) { op.SwapAsset1ForAsset2? || op.SwapAsset2ForAsset1? }

  /** The public swap that takes `asset` in. */
  function SwapOf(asset: Asset, caller: Account, amount: u128): Op {
    if asset.Asset0? then SwapAsset1ForAsset2(caller, amount) else SwapAsset2ForAsset1(caller, amount)
  }

  function Opposite(asset: Asset): Asset { if asset.Asset0? then Asset1 else Asset0 }

  function Reserve(s: State, asset: Asset): u128 { if asset.Asset0? then s.reserve0 else s.reserve1 }

  function AssetIn(op: Op): Asset
    requires IsSwap(op)
  {
    if op.SwapAsset1ForAsset2? then Asset0 else Asset1
  }

  function AssetOut(op: Op): Asset
    requires IsSwap(op)
  {
    Opposite(AssetIn(op))
  }

  function Out(op: Op, asset: Asset): u128
    requires IsSwap(op)
  {
    if asset == AssetOut(op) then op.amount else 0
  }

  /** What the caller is asked to pay. */
  function Price(s: State, op: Op): Priced
    requires IsSwap(op)
  {
    GetAmountIn(op.amount, Reserve(s, AssetIn(op)), Reserve(s, AssetOut(op)))
  }

  function PaySwap(g: Genesis, s: State, op: Op, charge: u128): Outcome
    requires IsSwap(op)
  {
    TransferTokens(s, op.caller, g.contract, AssetIn(op), charge)
  }

  lemma SwapIs(g: Genesis, s: State, op: Op, now: u64)
    requires IsSwap(op)
    ensures Exec(g, s, op, now) ==
            match Price(s, op)
            case Refused(error) => Outcome(s, Err(error))
            case Amount(charge) =>
              var paid := PaySwap(g, s, op, charge);
              if paid.status.Err? then paid
              else Swap(g, paid.state, Out(op, Asset0), Out(op, Asset1), op.caller, now)
  {
    hide GetAmountIn, TransferTokens, Swap;
  }

  lemma KCheckSymmetric(b0: u128, b1: u128, i0: u128, i1: u128, r0: u128, r1: u128)
    ensures KCheck(b0, b1, i0, i1, r0, r1) == KCheck(b1, b0, i1, i0, r1, r0)
  {
    hide Adjusted;
    assert Adjusted(b0, i0) * Adjusted(b1, i1) == Adjusted(b1, i1) * Adjusted(b0, i0);
    assert r0 * r1 == r1 * r0;
  }

  /** A price that a swap can pay for is at least one. */
  lemma PriceIsPositive(s: State, op: Op)
    requires IsSwap(op) && Price(s, op).Amount? && op.amount < Reserve(s, AssetOut(op))
    ensures Price(s, op).value > 0
  {
    hide Quotient;
  }
}
