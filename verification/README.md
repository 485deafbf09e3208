# Verified model of the Pendulum AMM

Two parts of the repository, with the properties they exist for.

**The constant-product pool of the pallet.** `Amm.Pallet` is the pallet as an object: its
storage items are fields, and the helpers and dispatchables overwrite them one at a time with
the pallet's saturating, checked and wrapping 128-bit arithmetic. Every method is proved to
leave exactly the state that module `Pool` describes, also where it stops with an error half
way. Everything else is proved about those state functions, over single calls and over runs of
any length:

- `Conservation`: asset supplies are conserved, and LP balances add up to the total supply as
  long as the supply is not clipped at 2^128.
- `Safety` (fee on or off, no condition): over every run the contract holds its reserves, the LP
  balances add up to no less than the supply, and as long as there is supply 1000 tokens are
  locked and both reserves are positive.
- `Outcomes` (fee on or off, clipped or not): for every dispatchable the status it ends with, who
  pays and gets which assets and LP tokens, and which storage items it leaves alone, also where
  it fails and its writes stay; and every quotient of the pallet as the largest number that its
  division allows.
- `Lock`: when the supply can come to an end. A transaction ends it if and only if it withdraws
  all of it. That is impossible while the LP balances, with the fee that is due, exceed the supply
  by less than the locked 1000, so in particular in every run in which the supply stays at or
  below five sixths of 2^128 - 1; and the 1000 is exact.
- `Clipping`: with the fee on the condition is needed. A run of signed transactions from genesis
  ends the supply.
- `Growth`: with the fee off and every swap on reserves with
  997 * (reserve_in * (reserve_out - 1) - 1) < 2^128, `total_supply^2 <= reserve_0 * reserve_1`,
  and the value of an LP token never falls. With 997 * reserve_in * (reserve_out - 1) < 2^128 a
  swap strictly increases the product, and runs of swaps give nothing for free.
  `Quotes.SwapsGrowIff` shows that both bounds are exact. With the fee on, no transaction but a
  swap takes more than a sixth of either reserve per LP token.
- `Exact`: if neither asset has more than 2^54 units, the pallet goes through the same states as
  a pool on unbounded numbers that has no saturation, no rollback, no wrap-around of prices and
  no K check.
- `Quotes`, `RoundTrip`: what the quoted prices mean for the K check, that quoted swaps always
  clear, whatever the reserves, and what a deposit followed by a withdrawal can return.
- `FeeCap`, `Oracle`: the protocol fee, and the cumulative prices through their wrap-around.
- `Limits`: concrete inputs for which the conditions above are needed.

**The Stellar key codec of the smart contract.** `Base32` is the shift-and-carry coder against
RFC 4648 section 6 stated on one stream of bits; `Crc` is the table-free checksum against
polynomial long division; `StellarKey` puts them together (SEP-0023). The modules use `Words`
(bytes and bits), `U128` (arithmetic, integer square root) and `Ledgers` (accounts and sums).
`Swaps` treats the two directions of a swap as one.

## Assumptions

- Both assets differ. The pallet's account and the zero account differ and sign no calls
  (`Pool.Signed`); this is assumed only where a lemma says so. Genesis sets all three accounts.
- The external ledger is a map per asset. A transfer fails or moves the amount; it also fails
  when the recipient's balance would not fit 128 bits. Transfers on the ledger that have nothing
  to do with the pallet (donations among them) are steps of the runs.
- Constants as in the runtime: minimum liquidity 1000, mint fee 5, base fee 3.
- The time of a call is a parameter.
- Whether the writes of a failing dispatchable are undone is decided outside the pallet, which
  asks for no transaction itself. Both readings are modelled: `Pool.Exec` keeps the writes,
  `Pool.Dispatch` undoes them. Conservation (`Conservation.ExecConserves`,
  `Conservation.RawRunConserves`) and what `_swap` does to the product (`Growth.PaidSwapGrows`)
  hold for both, and `Outcomes` says what a failing call leaves behind. The invariants over runs in `Safety`, `Lock`, `Growth`, `Exact` and `Oracle` are
  about transactions: `Limits.FailedFirstDeposit` is what happens without one.

## Where the code differs from what is said about it

- The repository's README says that the calculations follow Uniswap V2 closely. `get_amount_in`
  multiplies `reserve_in` with `reserve_out` instead of `amount_out`, so where nothing saturates
  every swap costs more than the whole of `reserve_in` (`Quotes.Overcharge`). A comment in `pallet/src/tests.rs:123`
  expects the Uniswap amount.
- KLast is written from the reserves read before the operation (`FeeCap.KLastIsBehind`), so a
  deposit is charged the protocol fee as if it were earnings (`FeeCap.DepositIsCharged`).
- The minimum liquidity is said to be locked for ever (a comment in `mint`). It is, but with the
  fee on it does not always keep the pool from being emptied: as deposits are charged, cycles of
  deposits and withdrawals make the supply grow until it saturates, and tokens beyond 2^128 are
  then tokens without supply (`Clipping.SupplyCanEnd` from genesis, `Limits.ClippedSupplyEmptied`
  for a short example; exactly when, in `Lock.SupplyEndsIff` and `Lock.SuppliedIff`).
- `pallet/README.md:21` asks for a first deposit of at least 10000; 1001 is enough
  (`Limits.FirstDepositAccepted`).
- A comment in `_update` says that the product of price and time never overflows. It does so for
  no elapsed time if and only if the price is at most 2^64 + 1 (`Oracle.PriceExactIff`); above,
  it can saturate, and the price that two snapshots give is then too low (`Limits.ClippedPrice`).
- Beyond `Growth.CheckFits` both sides of the K check saturate and `_swap` alone no longer makes
  the product grow (`Growth.CheckEnforcesGrowthIff`). The public swaps pay the quoted charge
  first, and with it the product grows in a range about a thousand times wider. Beyond that range
  a caller with funds can keep it from growing, and from one more unit of
  reserve_in * (reserve_out - 1) on can lower it (`Quotes.SwapsGrowIff`, and a run from genesis in
  `Limits.BackingNeedsRange`). Unless the contract holds 2^126 or more beyond its reserves, the
  K check never rejects a public swap (`Quotes.QuotedSwapClears`).
- Reserves that were donated and synced before the first deposit belong to whoever deposits
  first (`RoundTrip.SeededRoundTripIff`, `Limits.SeededPoolPaysOut`).

## Model

| member | source | states |
|---|---|---|
| Amm.Pallet.MintLp | pallet/src/helper.rs:319-328 | supply and the receiver's balance grow by the value, saturating; nothing else changes |
| Amm.Pallet.BurnLp | pallet/src/helper.rs:330-342 | Forbidden for an account without an entry, otherwise supply and balance shrink |
| Amm.Pallet.TransferLiquidity | pallet/src/helper.rs:344-366 | fails for want of tokens, otherwise moves them, also between equal accounts |
| Amm.Pallet.MintFee | pallet/src/helper.rs:278-317 | the fee state for a set and an unset receiver, with loops for both square roots |
| Amm.Pallet.TransferTokens | pallet/src/helper.rs:213-225 | the ledger after a checked transfer, or the error and no change |
| Amm.Pallet.Update | pallet/src/helper.rs:232-276 | both cumulative prices, the reserves and the timestamp |
| Amm.Pallet.Mint | pallet/src/helper.rs:24-73 | full state and status, error states included |
| Amm.Pallet.Burn | pallet/src/helper.rs:75-127 | full state and status, error states included |
| Amm.Pallet.Swap | pallet/src/helper.rs:129-211 | full state and status of the optimistic swap, error states included |
| Amm.Pallet.SetFeeTo | pallet/src/lib.rs:301-312 | only the setter sets the receiver |
| Amm.Pallet.Skim | pallet/src/lib.rs:318-339 | full state and status |
| Amm.Pallet.Sync | pallet/src/lib.rs:342-356 | full state and status |
| Amm.Pallet.Deposit | pallet/src/lib.rs:376-379 | both payments, then mint; stops at the first error |
| Amm.Pallet.DepositAsset1 | pallet/src/lib.rs:360-380 | full state and status, quote errors included |
| Amm.Pallet.DepositAsset2 | pallet/src/lib.rs:383-403 | full state and status, quote errors included |
| Amm.Pallet.Withdraw | pallet/src/lib.rs:407-419 | full state and status |
| Amm.Pallet.SwapAsset1ForAsset2 | pallet/src/lib.rs:422-439 | full state and status |
| Amm.Pallet.SwapAsset2ForAsset1 | pallet/src/lib.rs:442-459 | full state and status |
| Amm.Pallet.Transact | pallet/src/lib.rs:298-460 | a dispatchable in a transaction: on an error the storage is what it was |
| Amm.Pallet.Replay | pallet/src/lib.rs:298-460 | a sequence of transactions leaves the state of the run, the subject of all run lemmas |
| U128.IntegerSqrt | pallet/src/helper.rs:42-44 | the root r of n with r*r <= n < (r+1)*(r+1), in place of the library function |
| U128.OverflowingAdd | pallet/src/helper.rs:438-446 | addition modulo max+1, with every intermediate value in range |
| U128.OverflowingSub | pallet/src/helper.rs:448-458 | subtraction modulo max+1, with every intermediate value in range |
| Conservation.ExecConserves | pallet/src/helper.rs:319-366 | if the supply is not clipped: success or error, any accounts, the asset supplies are kept and the LP balances sum to the total supply |
| Conservation.RawRunConserves | pallet/src/helper.rs:319-366 | the same over every run that clips nothing, with failed writes staying in storage |
| Conservation.ClippedSupply | pallet/src/helper.rs:319-325 | when the supply is clipped the sum is lost, so the condition is needed |
| Safety.AnchoredStep | pallet/src/lib.rs:298-460 | every signed transaction, clipped or not, keeps: reserves covered, LP balances no less than the supply, liquidity locked while there is supply; deposit, withdraw, swap and sync leave reserves equal to balances |
| Safety.SoundStep | pallet/src/lib.rs:298-460 | one that does not clip the supply also keeps the LP balances equal to it |
| Safety.SkimKeeps | pallet/src/lib.rs:318-339 | skim always succeeds on a covered pool and takes exactly the surplus |
| Safety.BurnEffect | pallet/src/helper.rs:75-127 | fee on or off, clipped or not: a burn succeeds exactly when both shares are positive and in the pool, pays them, and touches no tokens but the contract's and the fee |
| Safety.SwapEffect | pallet/src/lib.rs:422-459 | a public swap succeeds exactly for an amount below the reserve, a caller who can pay, and a passed K check; who pays and gets what |
| Safety.AnchoredRun | pallet/src/lib.rs:298-460 | the invariants of AnchoredStep over every signed run, without any condition |
| Outcomes.DepositOutcome | pallet/src/lib.rs:360-403 | either deposit, fee on or off: refused for its quote, for want of funds or for giving no tokens, with what each failure leaves; otherwise exactly both amounts move to the contract, the tokens go to the caller, the fee to its receiver, the locked ones to the zero account, reserves are the balances and KLast the product before |
| Outcomes.DepositCredits | pallet/src/lib.rs:360-403 | while the supply has not reached 2^128 - 1: the LP balances of caller, receiver and zero account grow by exactly tokens, fee and locked tokens, also where they coincide, all others stay |
| Outcomes.MintOutcome | pallet/src/helper.rs:24-73 | the same of mint, from any state |
| Outcomes.WithdrawOutcome | pallet/src/lib.rs:407-419 | refused without supply, for want of tokens, for a zero share or for one beyond the balance, with what each failure leaves; otherwise the caller gets exactly both shares, the contract's tokens are burned and the fee is minted |
| Outcomes.SwapOutcome | pallet/src/lib.rs:422-459 | the status for zero, for empty reserves, for the reserve or more, for want of funds and for the K check, with what each failure leaves; otherwise the terms of SwapEffect |
| Outcomes.InnerSwapOutcome | pallet/src/helper.rs:129-211 | the same of _swap for any two amounts |
| Outcomes.SkimOutcome | pallet/src/lib.rs:318-339 | fee on or off, the caller gets exactly the surplus of each asset, nothing of one that is short, and nobody else's balances move |
| Outcomes.SyncOutcome | pallet/src/lib.rs:342-356 | a sync writes reserves, prices and timestamp and nothing else |
| Outcomes.BurnLpOutcome | pallet/src/helper.rs:330-342 | Forbidden without an entry; otherwise every balance and the supply afterwards |
| Outcomes.TransferLiquidityOutcome | pallet/src/helper.rs:344-366 | every balance afterwards, a transfer to oneself included |
| Outcomes.QuietRun | pallet/src/lib.rs:298-460 | over every run without deposits and withdrawals LP balances, supply and KLast stay |
| Outcomes.ReceiverStep | pallet/src/lib.rs:301-312 | only the setter's call writes the fee receiver, it writes nothing else, and anybody else's is Forbidden |
| Outcomes.ReceiverIsLastNamed | pallet/src/lib.rs:301-312 | over every run the fee receiver is the one the setter has named last |
| Outcomes.ShareIff | pallet/src/helper.rs:92-102 | a share is the largest amount y with y * supply <= liquidity * balance, the product saturated |
| Outcomes.TokensIff | pallet/src/helper.rs:42-61 | the tokens of a mint are the largest number that both amounts pay for, or the root but for the locked tokens |
| Outcomes.QuotedIff | pallet/src/helper.rs:420-436 | the quoted amount of a deposit is equal on an unused pool, otherwise the largest that the named one pays for, or the error |
| Lock.SupplyEndsIff | pallet/src/lib.rs:407-419 | a signed transaction ends the supply if and only if it withdraws at least the supply including the fee, and the contract can pay |
| Lock.CanEndIff | pallet/src/lib.rs:407-419 | some signed withdrawal would end the supply if and only if one account holds as much as the supply including the fee (the contract itself holding none) |
| Lock.NoExcessIff | pallet/src/helper.rs:319-325 | the LP balances with the fee that is due never fall short of the supply, and match it if and only if nothing was or will be clipped |
| Lock.ExcessProtects | pallet/src/helper.rs:42-51 | while the LP balances and the fee that is due exceed the supply by less than 1000, nobody can |
| Lock.ExcessExact | pallet/src/helper.rs:42-51 | with one holder beside the locked tokens and no fee due, somebody can if and only if the excess is 1000 or more |
| Lock.SuppliedIff | pallet/src/lib.rs:298-460 | a run keeps its supply throughout if and only if no step of it withdraws the whole |
| Lock.SoundRun | pallet/src/lib.rs:298-460 | over every run that clips nothing, fee on or off: LP balances equal the supply, and once there is supply it is 1000 at least |
| Lock.NeverEmptied | pallet/src/helper.rs:42-51 | once there is supply, and while that excess is below 1000 at every withdrawal: locked tokens, supply and positive reserves in every later state |
| Lock.RoomyFee | pallet/src/helper.rs:278-317 | no fee is clipped while the supply is at most five sixths of 2^128 - 1 |
| Lock.SoundWhileRoomy | pallet/src/lib.rs:298-460 | over every run in which the supply stays at most that, fee on or off: nothing is clipped, LP balances equal the supply, and once there is supply it is 1000 at least |
| Clipping.Cycle | pallet/src/lib.rs:360-419 | fee on, one holder: depositing the reserves once more and withdrawing half of the supply puts the reserves back and leaves floor((2n + floor(2n/11))/2) > n tokens |
| Clipping.SupplyCanEnd | pallet/src/lib.rs:298-419 | fee on, from genesis, 4000 of each asset in one hand: signed transactions reach a state with supply and from it one without, while the zero account holds its 1000 |
| Growth.CheckEnforcesGrowthIff | pallet/src/helper.rs:161-194 | the saturating K check alone makes the product grow for all payments if and only if 10^6*r0*r1 < 2^128-1 + 3000*min(r0,r1) |
| Growth.KCheckIs | pallet/src/helper.rs:181-194 | what the check compares once saturation is included |
| Growth.KCheckSound | pallet/src/helper.rs:173-194 | if 10^6*r0*r1 fits 128 bits, a payment that passes the saturating check meets the exact inequality, for all balances |
| Growth.PaidSwapGrows | pallet/src/helper.rs:129-211 | in the range of the check, a _swap that succeeds strictly increases the product, whoever paid |
| Growth.ChargeWorth | pallet/src/helper.rs:391-418 | on all reserves, saturated or not, the quoted charge is worth more than what it buys, or more than floor((2^128-1)/997) if that is less |
| Growth.SwapGrows | pallet/src/lib.rs:422-459 | fee on or off, a public swap that succeeds strictly increases the product if 997*reserve_in*(reserve_out-1) < 2^128, and does not lower it if 997*(reserve_in*(reserve_out-1)-1) < 2^128 |
| Growth.MintPerShare | pallet/src/helper.rs:53-64 | on a pool with supply neither reserve per token falls in a mint, for all amounts, saturated or not, against the supply that includes the fee |
| Growth.BurnPerShare | pallet/src/helper.rs:92-112 | neither reserve per token falls in a burn, for all amounts, clipped or not, against the supply that includes the fee |
| Growth.HoldersKeep | pallet/src/lib.rs:298-419 | fee on or off, clipped or not, no transaction but a swap takes more than a sixth of either reserve per token: 5*r*ts' <= 6*r'*ts |
| Growth.FirstMintBacked | pallet/src/helper.rs:42-51 | with the fee off, the first supply is the square root of the deposit's product and is backed |
| Growth.FeeOffMintFits | pallet/src/helper.rs:49-64 | with the fee off a mint on a backed pool is never clipped |
| Growth.HealthyStep | pallet/src/lib.rs:298-460 | with the fee off, every transaction (a swap: in the second of those ranges) keeps the backing and the value per token |
| Growth.ValueNeverFalls | pallet/src/lib.rs:298-460 | over every fee-off run whose swaps are in that range, k' * ts^2 >= k * ts'^2, and the supply stays backed |
| Growth.BackedFromGenesis | pallet/src/helper.rs:42-64 | total_supply^2 <= reserve_0*reserve_1 in every state that such a run reaches from genesis |
| Growth.SwapsGrow | pallet/src/lib.rs:422-459 | the product strictly grows over every non-empty run of successful swaps in the first of those ranges, fee on or off |
| Growth.NoFreeLunch | pallet/src/lib.rs:422-459 | after any such run, in any directions and by anyone, one reserve is above its old value |
| Effects.MintEffect | pallet/src/helper.rs:24-73 | fee off, backed: succeeds exactly when tokens come out; who holds what afterwards |
| Effects.FeeOffBurn | pallet/src/helper.rs:75-127 | fee off: succeeds exactly when both shares are positive; pays the shares and burns all the contract's tokens |
| Exact.DepositMatches | pallet/src/lib.rs:359-403 | below 2^54 a deposit is the one-step deposit on unbounded numbers |
| Exact.RefinesExact | pallet/src/helper.rs:24-211 | below 2^54 every fee-off run goes through the states of the exact pool, with the same successes: reserves, supply, balances, time, KLast, and prices as exact integrals modulo 2^128 |
| Exact.RefinesExactFromGenesis | pallet/src/lib.rs:360-459 | the same from genesis, with the ledger's supplies as the only bound |
| Quotes.AmountOutOptimal | pallet/src/helper.rs:368-389 | where nothing saturates, get_amount_out is below the reserve and the largest amount that meets the K inequality |
| Quotes.AmountOutIff | pallet/src/helper.rs:368-389 | on all inputs: the errors, otherwise the largest number the saturated division allows |
| Quotes.AmountInIs | pallet/src/helper.rs:391-418 | the charge as written, without saturation |
| Quotes.AmountInIff | pallet/src/helper.rs:391-418 | on all inputs: the errors, zero for the reserve or more, otherwise one more than the largest number the saturated division allows |
| Quotes.UniswapChargeMinimal | pallet/src/helper.rs:391-418 | the charge of UniswapV2Library meets the K inequality, and nothing more than one unit below it does |
| Quotes.Overcharge | pallet/src/helper.rs:409-417 | the code's formula, without saturation, charges floor(1000*reserve_in/997) or one more on top of that, so more than reserve_in |
| Quotes.ChargeSuffices | pallet/src/helper.rs:391-418 | the charge as written, without saturation, meets the K inequality |
| Quotes.KCheckExact | pallet/src/helper.rs:181-194 | where nothing saturates the check is the exact inequality, both ways |
| Quotes.ChargePasses | pallet/src/helper.rs:173-194 | a quoted charge passes the K check on all reserves, saturated or not, and also if the contract holds something below 2^126 beyond its reserves |
| Quotes.QuotedSwapClears | pallet/src/lib.rs:422-459 | on all reserves, with such a surplus or none: succeeds exactly for 0 < x < reserve and a caller who can pay, never with InvalidK, and pays exactly x |
| Quotes.SwapsGrowIff | pallet/src/lib.rs:422-459 | on a synced pool and for a caller with funds, every swap in a direction increases the product if and only if it is in the first range, and none lowers it if and only if it is in the second |
| RoundTrip.DepositEffect | pallet/src/lib.rs:359-403 | fee off, synced: what a successful deposit moves, mints and leaves as reserves |
| RoundTrip.WithdrawEffect | pallet/src/lib.rs:405-419 | fee off, synced: a withdrawal of tokens one has succeeds exactly when both shares are positive and pays them |
| RoundTrip.NoStrayTokensInRun | pallet/src/lib.rs:405-419 | the contract holds no LP tokens between the transactions of a fee-off run whose swaps are in the second range |
| RoundTrip.NoGainRoundTrip | pallet/src/lib.rs:359-419 | fee off, synced: deposit and withdrawal never return more of either asset, on a pool with supply or an unused one |
| RoundTrip.SeededRoundTripIff | pallet/src/lib.rs:370-419 | fee off, on a pool given reserves before its first deposit: exactly when the round trip returns no more than was paid in, and exactly when its withdrawal succeeds |
| RoundTrip.ShortfallRoundTrip | pallet/src/helper.rs:420-436 | fee off, where nothing saturates: the loss in the quoted asset, for either deposit: (paid - returned) * ts' < reserve + ts' |
| FeeCap.FeeLiquidityCap | pallet/src/helper.rs:278-309 | for all inputs 6*root_k*liq <= (ts+liq)*(root_k-root_k_last), and where the numerator fits 128 bits one token more would break it |
| FeeCap.FeeAtMostFifth | pallet/src/helper.rs:278-309 | the fee is never more than a fifth of the supply |
| FeeCap.FeeIff | pallet/src/helper.rs:278-309 | the fee is the largest number y with y*(5*root_k + root_k_last) <= supply*(root_k - root_k_last), the product saturated |
| FeeCap.FeeStep | pallet/src/helper.rs:278-317 | an unclipped fee leaves holders five sixths of the growth and every account but the receiver its tokens |
| FeeCap.KLastIsBehind | pallet/src/helper.rs:66-68 | after a deposit or withdrawal KLast is the product from before it, or zero with the fee off |
| FeeCap.DepositIsCharged | pallet/src/helper.rs:278-309 | with the fee on, a deposit that lifts root k from p to q makes a withdrawal by somebody else after it mint floor(ts*(q-p)/(5q+p)) to the receiver, without any swap; floor(ts/11) when it doubles and nothing saturates |
| Oracle.StepPrices | pallet/src/helper.rs:232-276 | prices and timestamp after any transaction, from the old reserves and the elapsed time |
| Oracle.StepIs | pallet/src/helper.rs:252-260 | a step is price times elapsed time, saturated, and nothing without reserves |
| Oracle.ElapsedIs | pallet/src/helper.rs:241-245 | elapsed time counts modulo 2^64 |
| Oracle.PricesTelescope | pallet/src/helper.rs:232-276 | over every run and for either asset the difference of two snapshots modulo 2^128 is the sum of price times elapsed time |
| Oracle.StepExactIff | pallet/src/helper.rs:252-260 | a step is the exact product if and only if that fits 128 bits |
| Oracle.PriceExactIff | pallet/src/helper.rs:252-260 | it is so for every elapsed time if and only if the price is at most 2^64 + 1 |
| Oracle.MeanPriceWithin | pallet/src/helper.rs:262-270 | if time runs forwards and the price stays at or below 2^64 + 1, two snapshots of either price give a mean within the bounds the price kept, across a wrap-around too |
| Limits.FirstDepositAccepted | pallet/src/helper.rs:42-61 | on a new pool, for a caller with funds and up to 2^64, the first deposit, named in either asset, succeeds exactly from 1001 on |
| Limits.FailedFirstDeposit | pallet/src/helper.rs:48-61 | without a transaction a failed first deposit leaves supply without reserves |
| Limits.DepositsBlocked | pallet/src/helper.rs:53-61 | in that state every deposit fails |
| Limits.SaturatedSwap | pallet/src/lib.rs:422-439 | a public swap on reserves of 2^64 that lowers the product |
| Limits.BackingNeedsRange | pallet/src/lib.rs:360-439 | that pool is one deposit from genesis and the swap breaks its backing |
| Limits.SeededPoolPaysOut | pallet/src/lib.rs:342-419 | a new pool that holds a million of each asset, a sync, and a deposit of 2000 that returns 501000 |
| Limits.ClippedSupplyEmptied | pallet/src/lib.rs:407-419 | a sound fee-on pool, not itself derived from genesis, that two withdrawals leave without supply and reserves |
| Limits.ClippedPrice | pallet/src/helper.rs:252-260 | two syncs from genesis at a price of 2^64 + 2: the cumulative price is clipped and the mean price it gives is 2^64 + 1 |
| Base32.Encode | smart_contract/src/lib.rs:114-139 | the loop gives the letters of RFC 4648, ceil(8n/5) of them, with every shift below 8 |
| Base32.Decode | smart_contract/src/lib.rs:141-175 | the loop gives all whole octets of the letters before '=' and the rest if it is not zero, or the error |
| Base32.QuintetIsGroup | smart_contract/src/lib.rs:119-132 | five bits of the stream are what shifting two bytes cuts out |
| Base32.ReadValue | smart_contract/src/lib.rs:151-164 | what one more letter does to the carry |
| Base32.ValueOfLetter | smart_contract/src/lib.rs:101-112 | every letter of the alphabet reads back as its value |
| Base32.LetterIs | smart_contract/src/lib.rs:101-101 | the alphabet is A to Z and 2 to 7, in this order |
| Base32.ReadableIff | smart_contract/src/lib.rs:101-112 | the characters that are read are letters of either case and the digits 0 to 7 |
| Base32.DecodedCanonical | smart_contract/src/lib.rs:101-175 | decoding is blind to case and reads 0 as O and 1 as I |
| Base32.PaddingIgnored | smart_contract/src/lib.rs:146-149 | for a text without =, whatever follows an = after it is not looked at |
| Base32.DecodeFailsIff | smart_contract/src/lib.rs:151-169 | decoding fails if and only if some character before the first = is not read |
| Base32.DecodedBits | smart_contract/src/lib.rs:141-175 | the bytes carry the bits of the letters and then zeros; one byte per whole eight bits, one more exactly if the rest is not all zeros |
| Base32.EncodedBits | smart_contract/src/lib.rs:114-139 | the letters carry the bits of the bytes and then zeros, and there are no more than it takes |
| Base32.DecodeEncode | smart_contract/src/lib.rs:114-175 | decoding undoes encoding for every byte sequence, so no byte is added |
| Base32.DecodePadded | smart_contract/src/lib.rs:141-175 | a padded text decodes to the bytes as well |
| Base32.EncodedInjective | smart_contract/src/lib.rs:114-139 | different bytes have different texts |
| Crc.Compute | smart_contract/src/lib.rs:245-262 | the loop computes the checksum |
| Crc.ChecksumIsLongDivision | smart_contract/src/lib.rs:245-262 | the checksum is the remainder of the message times x^16 by x^16+x^12+x^5+1, bit by bit |
| Crc.ChecksumLinear | smart_contract/src/lib.rs:245-262 | the checksum of the XOR of equally long messages is the XOR of the checksums |
| Crc.ChangeDetected | smart_contract/src/lib.rs:245-262 | every change within one byte or two adjacent bytes changes it, at every place and length |
| StellarKey.EncodeStellarKey | smart_contract/src/lib.rs:230-243 | version, key and checksum, low byte first, as text |
| StellarKey.DecodeStellarKey | smart_contract/src/lib.rs:197-227 | the checks and their errors in the order of the code |
| StellarKey.EncodingErrorsIff | smart_contract/src/lib.rs:201-204 | BadCharacter if and only if decoding fails; BadEncoding if and only if it does not and no bytes have this text |
| StellarKey.BadLengthIff | smart_contract/src/lib.rs:206-209 | BadLength if and only if the text is one of more or fewer bytes |
| StellarKey.TextOutcome | smart_contract/src/lib.rs:206-227 | of a text of bytes: length, then checksum with the expected and the found one, then version, then the key |
| StellarKey.WrongChecksum | smart_contract/src/lib.rs:211-219 | a wrong checksum is reported as such, with the expected one first and the one found, read low byte first, second |
| StellarKey.ChecksumOrder | smart_contract/src/lib.rs:211-213 | the checksum is stored low byte first |
| StellarKey.AcceptedIffEncoded | smart_contract/src/lib.rs:197-243 | a text is accepted as a key if and only if it is the text of that key |
| StellarKey.DecodeEncodeKey | smart_contract/src/lib.rs:197-243 | decoding an encoded key returns it, for every key and version |
| StellarKey.OtherVersion | smart_contract/src/lib.rs:221-224 | the text of another kind of key fails for its version and nothing else |
| StellarKey.OneLetterApart | smart_contract/src/lib.rs:201-219 | no two packed keys agree outside the five bits of one letter |
| StellarKey.WrongLetterRejected | smart_contract/src/lib.rs:197-227 | replacing any one letter of an accepted text makes it rejected, for keys of every length |

## Left out

- `Pair` in the smart contract: the same pool a second time. It differs where the pallet turns a
  division by zero into 0 and the contract's `saturating_div` would panic, and in `withdraw`,
  whose missing entry reads as 0 where the pallet unwraps.
- Quotes.QuotedSwapClears: stated for a contract that holds less than 2^126 beyond its reserves of
  either asset; a larger donation that was not synced can itself saturate the K check.
- Lock.NeverEmptied: without the condition on the excess the property is false, see
  `Clipping.SupplyCanEnd`; what holds without it is `Safety.AnchoredRun` and `Lock.SuppliedIff`.
- Growth.SwapGrows: beyond the range the property is false, see `Quotes.SwapsGrowIff`.
- Exact.RefinesExact: which of several errors a failing call returns is not compared.
- Growth.ValueNeverFalls: fee off, because the fee mints tokens; for one transaction the fee-on
  case is `Growth.HoldersKeep`, with `Growth.MintPerShare`, `Growth.BurnPerShare` and
  `FeeCap.FeeLiquidityCap` for the exact share of the fee.
- Base32.Decode: text is a sequence of characters where the code has ASCII bytes.
- Existential deposits, frozen and reserved balances of the ledger, and minting or burning of an
  asset on it.
- The library integer square root (another algorithm stands in for it under the same
  specification) and vector capacities.
- Events, weights, benchmarks, encoding of storage, runtime and node wiring, the chain extension.
- `asset_from_string`, `trim_zeros` and the getters of the contract: easy members only.
