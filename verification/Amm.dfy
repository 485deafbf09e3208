/** The pallet as an object: its storage items are fields that the helpers and the
    dispatchables read and overwrite one at a time. Each method is proved to leave
    exactly the state that the function of the same name in module `Pool` describes,
    also when it stops with an error half way. */
module Amm {
  import opened Words
  import opened U128
  import opened Ledgers
  import opened Pool

  class Pallet {
    const genesis: Genesis

    var reserve0: u128
    var reserve1: u128
    var timestampLast: u64
    var price0CumulativeLast: u128
    var price1CumulativeLast: u128
    var kLast: u128
    var feeTo: Option<Account>
    var totalSupply: u128
    var lpBalances: Balances
    var ledger: Ledger

    /** The storage as a value. */
    function Storage(): State
      reads this
    {
      State(reserve0, reserve1, timestampLast, price0CumulativeLast, price1CumulativeLast,
            kLast, feeTo, totalSupply, lpBalances, ledger)
    }

    constructor (genesis: Genesis, ledger: Ledger)
      ensures this.genesis == genesis && Storage() == InitialState(ledger)
    {
      this.genesis := genesis;
      reserve0, reserve1, timestampLast := 0, 0, 0;
      price0CumulativeLast, price1CumulativeLast, kLast := 0, 0, 0;
      feeTo, totalSupply, lpBalances := None, 0, map[];
      this.ledger := ledger;
    }

    // ----- LP tokens --------------------------------------------------------------------

    method MintLp(to: Account, value: u128)
      modifies this`totalSupply, this`lpBalances
      ensures Storage() == Pool.MintLp(old(Storage()), to, value)
    {
      totalSupply := SatAdd(totalSupply, value);
      var previous := BalanceIn(lpBalances, to);
      lpBalances := lpBalances[to := SatAdd(previous, value)];
    }

    method BurnLp(from: Account, value: u128) returns (status: Status)
      modifies this`totalSupply, this`lpBalances
      ensures Outcome(Storage(), status) == Pool.BurnLp(old(Storage()), from, value)
    {
      if from !in lpBalances {
        return Err(Forbidden);
      }
      var previous := lpBalances[from];
      totalSupply := SatSub(totalSupply, value);
      lpBalances := lpBalances[from := SatSub(previous, value)];
      return Ok;
    }

    method TransferLiquidity(from: Account, to: Account, amount: u128) returns (status: Status)
      modifies this`lpBalances
      ensures Outcome(Storage(), status) == Pool.TransferLiquidity(old(Storage()), from, to, amount)
    {
      var fromBalance := BalanceIn(lpBalances, from);
      if fromBalance < amount {
        return Err(InsufficientBalance);
      }
      lpBalances := lpBalances[from := SatSub(fromBalance, amount)];
      var toBalance := BalanceIn(lpBalances, to);
      lpBalances := lpBalances[to := SatAdd(toBalance, amount)];
      return Ok;
    }

    method MintFee(r0: u128, r1: u128) returns (feeOn: bool)
      requires r0 == reserve0 && r1 == reserve1
      modifies this`totalSupply, this`lpBalances, this`kLast
      ensures Storage() == Pool.MintFee(old(Storage()))
      ensures feeOn == feeTo.Some?
    {
      match feeTo {
        case Some(receiver) =>
          if kLast != 0 {
            var rootK := IntegerSqrt(SatMul(r0, r1));
            var rootKLast := IntegerSqrt(kLast);
            if rootK > rootKLast {
              var numerator := SatMul(totalSupply, SatSub(rootK, rootKLast));
              var denominator := SatAdd(SatMul(rootK, MINT_FEE), rootKLast);
              var liquidity := DivOrZero(numerator, denominator);
              if liquidity > 0 {
                MintLp(receiver, liquidity);
              }
            }
          }
          return true;
        case None =>
          if kLast != 0 {
            kLast := 0;
          }
          return false;
      }
    }

    // ----- tokens, reserves and prices --------------------------------------------------

    method TransferTokens(from: Account, to: Account, asset: Asset, amount: u128) returns (status: Status)
      modifies this`ledger
      ensures Outcome(Storage(), status) == Pool.TransferTokens(old(Storage()), from, to, asset, amount)
    {
      var fromBalance := ledger.Balance(from, asset);
      if fromBalance < amount {
        return Err(InsufficientBalance);
      }
      match ledger.Transfer(from, to, asset, amount) {
        case None =>
          return Err(TransferFailed);
        case Some(moved) =>
          ledger := moved;
          return Ok;
      }
    }

    method Update(balance0: u128, balance1: u128, r0: u128, r1: u128, now: u64)
      requires r0 == reserve0 && r1 == reserve1
      modifies this`price0CumulativeLast, this`price1CumulativeLast, this`reserve0, this`reserve1, this`timestampLast
      ensures Storage() == Pool.Update(old(Storage()), balance0, balance1, now)
    {
      var elapsed := OverflowingSub(now, timestampLast, U64_MAX);
      if elapsed > 0 && r0 != 0 && r1 != 0 {
        var toAdd := SatMul(DivOrZero(r1, r0), elapsed);
        price0CumulativeLast := OverflowingAdd(price0CumulativeLast, toAdd, U128_MAX);
        toAdd := SatMul(DivOrZero(r0, r1), elapsed);
        price1CumulativeLast := OverflowingAdd(price1CumulativeLast, toAdd, U128_MAX);
      }
      reserve0, reserve1, timestampLast := balance0, balance1, now;
    }

    // ----- mint, burn and swap ----------------------------------------------------------

    method Mint(to: Account, now: u64) returns (status: Status)
      modifies this
      ensures Outcome(Storage(), status) == Pool.Mint(genesis, old(Storage()), to, now)
    {
      var r0, r1 := reserve0, reserve1;
      var balance0 := ledger.Balance(genesis.contract, Asset0);
      var balance1 := ledger.Balance(genesis.contract, Asset1);
      var amount0, amount1 := SatSub(balance0, r0), SatSub(balance1, r1);

      var feeOn := MintFee(r0, r1);
      var supply := totalSupply;
      var liquidity: u128;
      if supply == 0 {
        var root := IntegerSqrt(SatMul(amount0, amount1));
        liquidity := SatSub(root, MINIMUM_LIQUIDITY);
        // permanently locked
        MintLp(genesis.zero, MINIMUM_LIQUIDITY);
      } else {
        var share0 := DivOrZero(SatMul(amount0, supply), r0);
        var share1 := DivOrZero(SatMul(amount1, supply), r1);
        liquidity := if share0 <= share1 then share0 else share1;
      }
      if liquidity == 0 {
        return Err(InsufficientLiquidityMinted);
      }
      MintLp(to, liquidity);
      Update(balance0, balance1, r0, r1, now);
      if feeOn {
        kLast := SatMul(r0, r1);
      }
      return Ok;
    }

    method Burn(to: Account, now: u64) returns (status: Status)
      requires genesis.contract in lpBalances
      modifies this
      ensures Outcome(Storage(), status) == Pool.Burn(genesis, old(Storage()), to, now)
    {
      var contract := genesis.contract;
      var r0, r1 := reserve0, reserve1;
      var balance0, balance1 := ledger.Balance(contract, Asset0), ledger.Balance(contract, Asset1);
      var liquidity := lpBalances[contract];

      var feeOn := MintFee(r0, r1);
      var supply := totalSupply;
      var amount0 := DivOrZero(SatMul(liquidity, balance0), supply);
      var amount1 := DivOrZero(SatMul(liquidity, balance1), supply);
      if !(amount0 > 0 && amount1 > 0) {
        return Err(InsufficientLiquidityBurned);
      }
      status := BurnLp(contract, liquidity);
      if status.Err? {
        return;
      }
      status := TransferTokens(contract, to, Asset0, amount0);
      if status.Err? {
        return;
      }
      status := TransferTokens(contract, to, Asset1, amount1);
      if status.Err? {
        return;
      }
      balance0, balance1 := ledger.Balance(contract, Asset0), ledger.Balance(contract, Asset1);
      Update(balance0, balance1, r0, r1, now);
      if feeOn {
        kLast := SatMul(r0, r1);
      }
    }

    method Swap(out0: u128, out1: u128, to: Account, now: u64) returns (status: Status)
      modifies this
      ensures Outcome(Storage(), status) == Pool.Swap(genesis, old(Storage()), out0, out1, to, now)
    {
      if !(out0 > 0 || out1 > 0) {
        return Err(InsufficientOutputAmount);
      }
      var r0, r1 := reserve0, reserve1;
      if !(out0 < r0 && out1 < r1) {
        return Err(InsufficientLiquidity);
      }
      var contract := genesis.contract;
      // the payments are optimistic: what came in is only looked at afterwards
      if out0 > 0 {
        status := TransferTokens(contract, to, Asset0, out0);
        if status.Err? {
          return;
        }
      }
      if out1 > 0 {
        status := TransferTokens(contract, to, Asset1, out1);
        if status.Err? {
          return;
        }
      }
      var balance0, balance1 := ledger.Balance(contract, Asset0), ledger.Balance(contract, Asset1);
      var in0 := if balance0 > SatSub(r0, out0) then SatSub(balance0, SatSub(r0, out0)) else 0;
      var in1 := if balance1 > SatSub(r1, out1) then SatSub(balance1, SatSub(r1, out1)) else 0;
      if !(in0 > 0 || in1 > 0) {
        return Err(InsufficientInputAmount);
      }
      var adjusted0 := SatSub(SatMul(balance0, 1000), SatMul(in0, BASE_FEE));
      var adjusted1 := SatSub(SatMul(balance1, 1000), SatMul(in1, BASE_FEE));
      var product := SatMul(adjusted0, adjusted1);
      var required := SatMul(SatMul(r0, r1), 1000 * 1000);
      if !(product >= required) {
        return Err(InvalidK);
      }
      Update(balance0, balance1, r0, r1, now);
      return Ok;
    }

    // ----- dispatchables ----------------------------------------------------------------

    method SetFeeTo(caller: Account, receiver: Account) returns (status: Status)
      modifies this`feeTo
      ensures forall now ::
                Outcome(Storage(), status) == Exec(genesis, old(Storage()), Op.SetFeeTo(caller, receiver), now)
    {
      if caller != genesis.feeToSetter {
        return Err(Forbidden);
      }
      feeTo := Some(receiver);
      return Ok;
    }

    method Skim(caller: Account) returns (status: Status)
      modifies this`ledger
      ensures forall now :: Outcome(Storage(), status) == Exec(genesis, old(Storage()), Op.Skim(caller), now)
    {
      var contract := genesis.contract;
      status := Ok;
      if ledger.Balance(contract, Asset0) >= reserve0 {
        status := TransferTokens(contract, caller, Asset0, ledger.Balance(contract, Asset0) - reserve0);
        if status.Err? {
          return;
        }
      }
      if ledger.Balance(contract, Asset1) >= reserve1 {
        status := TransferTokens(contract, caller, Asset1, ledger.Balance(contract, Asset1) - reserve1);
      }
    }

    method Sync(caller: Account, now: u64) returns (status: Status)
      modifies this
      ensures Outcome(Storage(), status) == Exec(genesis, old(Storage()), Op.Sync(caller), now)
    {
      var balance0 := ledger.Balance(genesis.contract, Asset0);
      var balance1 := ledger.Balance(genesis.contract, Asset1);
      Update(balance0, balance1, reserve0, reserve1, now);
      return Ok;
    }

    /** The common end of both deposits. */
    method Deposit(caller: Account, amount0: u128, amount1: u128, now: u64) returns (status: Status)
      modifies this
      ensures Outcome(Storage(), status) == Pool.Deposit(genesis, old(Storage()), caller, amount0, amount1, now)
    {
      status := TransferTokens(caller, genesis.contract, Asset0, amount0);
      if status.Err? {
        return;
      }
      status := TransferTokens(caller, genesis.contract, Asset1, amount1);
      if status.Err? {
        return;
      }
      status := Mint(caller, now);
    }

    method DepositAsset1(caller: Account, amount: u128, now: u64) returns (status: Status)
      modifies this
      ensures Outcome(Storage(), status) == Exec(genesis, old(Storage()), Op.DepositAsset1(caller, amount), now)
    {
      var amount1 := amount;
      if !(reserve0 == 0 && reserve1 == 0) {
        match Quote(amount, reserve0, reserve1) {
          case Refused(error) => return Err(error);
          case Amount(quoted) => amount1 := quoted;
        }
      }
      status := Deposit(caller, amount, amount1, now);
    }

    method DepositAsset2(caller: Account, amount: u128, now: u64) returns (status: Status)
      modifies this
      ensures Outcome(Storage(), status) == Exec(genesis, old(Storage()), Op.DepositAsset2(caller, amount), now)
    {
      var amount0 := amount;
      if !(reserve0 == 0 && reserve1 == 0) {
        match Quote(amount, reserve1, reserve0) {
          case Refused(error) => return Err(error);
          case Amount(quoted) => amount0 := quoted;
        }
      }
      status := Deposit(caller, amount0, amount, now);
    }

    method Withdraw(caller: Account, amount: u128, now: u64) returns (status: Status)
      modifies this
      ensures Outcome(Storage(), status) == Exec(genesis, old(Storage()), Op.Withdraw(caller, amount), now)
    {
      if totalSupply == 0 {
        return Err(WithdrawWithoutSupply);
      }
      status := TransferLiquidity(caller, genesis.contract, amount);
      if status.Err? {
        return;
      }
      status := Burn(caller, now);
    }

    method SwapAsset1ForAsset2(caller: Account, amount: u128, now: u64) returns (status: Status)
      modifies this
      ensures Outcome(Storage(), status) == Exec(genesis, old(Storage()), Op.SwapAsset1ForAsset2(caller, amount), now)
    {
      match GetAmountIn(amount, reserve0, reserve1) {
        case Refused(error) =>
          return Err(error);
        case Amount(amountIn) =>
          status := TransferTokens(caller, genesis.contract, Asset0, amountIn);
          if status.Err? {
            return;
          }
          status := Swap(0, amount, caller, now);
      }
    }

    method SwapAsset2ForAsset1(caller: Account, amount: u128, now: u64) returns (status: Status)
      modifies this
      ensures Outcome(Storage(), status) == Exec(genesis, old(Storage()), Op.SwapAsset2ForAsset1(caller, amount), now)
    {
      match GetAmountIn(amount, reserve1, reserve0) {
        case Refused(error) =>
          return Err(error);
        case Amount(amountIn) =>
          status := TransferTokens(caller, genesis.contract, Asset1, amountIn);
          if status.Err? {
            return;
          }
          status := Swap(amount, 0, caller, now);
      }
    }

    method Execute(op: Op, now: u64) returns (status: Status)
      modifies this
      ensures Outcome(Storage(), status) == Exec(genesis, old(Storage()), op, now)
    {
      match op {
        case SetFeeTo(caller, receiver) => status := SetFeeTo(caller, receiver);
        case Skim(caller) => status := Skim(caller);
        case Sync(caller) => status := Sync(caller, now);
        case DepositAsset1(caller, amount) => status := DepositAsset1(caller, amount, now);
        case DepositAsset2(caller, amount) => status := DepositAsset2(caller, amount, now);
        case Withdraw(caller, amount) => status := Withdraw(caller, amount, now);
        case SwapAsset1ForAsset2(caller, amount) => status := SwapAsset1ForAsset2(caller, amount, now);
        case SwapAsset2ForAsset1(caller, amount) => status := SwapAsset2ForAsset1(caller, amount, now);
        case OutsideTransfer(caller, to, asset, amount) => status := TransferTokens(caller, to, asset, amount);
      }
    }

    /** An operation inside a storage transaction: its writes are dropped when it fails. */
    method Transact(op: Op, now: u64) returns (status: Status)
      modifies this
      ensures Outcome(Storage(), status) == Dispatch(genesis, old(Storage()), op, now)
    {
      var before := Storage();
      status := Execute(op, now);
      if status.Err? {
        reserve0, reserve1, timestampLast := before.reserve0, before.reserve1, before.timestampLast;
        price0CumulativeLast, price1CumulativeLast, kLast := before.price0, before.price1, before.kLast;
        feeTo, totalSupply, lpBalances := before.feeTo, before.totalSupply, before.lp;
        ledger := before.ledger;
      }
    }

    /** A sequence of transactions. */
    method Replay(steps: seq<Step>)
      modifies this
      ensures Storage() == Run(genesis, old(Storage()), steps)
    {
      for i := 0 to |steps|
        invariant Run(genesis, Storage(), steps[i..]) == Run(genesis, old(Storage()), steps)
      {
        var status := Transact(steps[i].op, steps[i].now);
        assert steps[i..][1..] == steps[i + 1..];
      }
    }
  }
}
