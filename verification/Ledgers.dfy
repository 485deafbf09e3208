/** Accounts with balances, and the external ledger of the two assets.

    The ledger stands for the currency pallet behind `AmmExtension`: a transfer either
    fails or moves the amount, and never creates or destroys any. */
module Ledgers {
  import opened Words
  import opened U128

  type Account = nat

  type Balances = map<Account, u128>

  function BalanceIn(m: Balances, who: Account): u128 {
    if who in m then m[who] else 0
  }

  ghost function Total(m: Balances): nat {
    if m == map[] then 0
    else
      var who :| who in m;
      m[who] + Total(m - {who})
  }

  lemma {:induction false} TotalWithout(m: Balances, who: Account)
    requires who in m
    ensures Total(m) == m[who] + Total(m - {who})
    decreases |m|
  {
    var other :| other in m && Total(m) == m[other] + Total(m - {other});
    if other != who {
      TotalWithout(m - {other}, who);
      TotalWithout(m - {who}, other);
      assert m - {other} - {who} == m - {who} - {other};
    }
  }

  lemma TotalUpdated(m: Balances, who: Account, amount: u128)
    ensures Total(m[who := amount]) == Total(m) - BalanceIn(m, who) + amount
  {
    var n := m[who := amount];
    TotalWithout(n, who);
    if who in m {
      TotalWithout(m, who);
      assert n - {who} == m - {who};
    } else {
      assert n - {who} == m;
    }
  }

  lemma PartOfTotal(m: Balances, who: Account)
    ensures BalanceIn(m, who) <= Total(m)
  {
    if who in m {
      TotalWithout(m, who);
    }
  }

  lemma PartsOfTotal(m: Balances, who: Account, other: Account)
    requires who != other
    ensures BalanceIn(m, who) + BalanceIn(m, other) <= Total(m)
  {
    PartOfTotal(m, other);
    if who in m {
      TotalWithout(m, who);
      PartOfTotal(m - {who}, other);
    }
  }

  // ----- the ledger of the two assets ---------------------------------------------------

  datatype Asset = Asset0 | Asset1

  datatype Ledger = Ledger(held0: Balances, held1: Balances) {

    function Held(asset: Asset): Balances {
      match asset
      case Asset0 => held0
      case Asset1 => held1
    }

    /** `fetch_balance` */
    function Balance(who: Account, asset: Asset): u128 {
      BalanceIn(Held(asset), who)
    }

    function With(asset: Asset, held: Balances): Ledger {
      match asset
      case Asset0 => this.(held0 := held)
      case Asset1 => this.(held1 := held)
    }

    /** `transfer_balance`; a transfer that the recipient's balance cannot hold fails. */
    function Transfer(from: Account, to: Account, asset: Asset, amount: u128): Option<Ledger> {
      var held := Held(asset);
      if BalanceIn(held, from) < amount then None
      else if from == to then Some(this)
      else if BalanceIn(held, to) + amount > U128_MAX then None
      else Some(With(asset, held[from := BalanceIn(held, from) - amount][to := BalanceIn(held, to) + amount]))
    }

    ghost function Supply(asset: Asset): nat {
      Total(Held(asset))
    }

    /** The supply of each asset is itself a balance. */
    ghost predicate Valid() {
      Supply(Asset0) <= U128_MAX && Supply(Asset1) <= U128_MAX
    }
  }

  lemma TransferConserves(l: Ledger, from: Account, to: Account, asset: Asset, amount: u128)
    requires l.Transfer(from, to, asset, amount).Some?
    ensures var l' := l.Transfer(from, to, asset, amount).value;
            l'.Supply(Asset0) == l.Supply(Asset0) && l'.Supply(Asset1) == l.Supply(Asset1)
  {
    if from != to {
      var held := l.Held(asset);
      var lowered := held[from := BalanceIn(held, from) - amount];
      TotalUpdated(held, from, BalanceIn(held, from) - amount);
      TotalUpdated(lowered, to, BalanceIn(held, to) + amount);
    }
  }

  lemma TransferMoves(l: Ledger, from: Account, to: Account, asset: Asset, amount: u128)
    requires from != to && l.Transfer(from, to, asset, amount).Some?
    ensures var l' := l.Transfer(from, to, asset, amount).value;
            && l.Balance(from, asset) >= amount
            && l'.Balance(from, asset) == l.Balance(from, asset) - amount
            && l'.Balance(to, asset) == l.Balance(to, asset) + amount
            && (forall who, any :: any != asset || (who != from && who != to)
                                   ==> l'.Balance(who, any) == l.Balance(who, any))
  {}

  /** With a valid supply a transfer fails only for want of funds. */
  lemma TransferSucceeds(l: Ledger, from: Account, to: Account, asset: Asset, amount: u128)
    requires l.Valid() && l.Balance(from, asset) >= amount
    ensures l.Transfer(from, to, asset, amount).Some?
  {
    if from != to {
      PartsOfTotal(l.Held(asset), from, to);
    }
  }
}
