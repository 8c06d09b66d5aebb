/**
 Can an account pay the fee, and the transfer after it (lib/fee-preflight.js, and the
 balance panel of lib/balance-locks.js)? Planck amounts are natural numbers. The checks are
 compared with the pallet's own two steps, the withdrawal of the fee and the transfer.
 */
module FeePreflight {
  import opened Util

  datatype Account = Account(free: nat, reserved: nat, frozen: nat)

  const FEE_MARGIN: nat := 50_000_000_000

  // One unit of the fourth decimal.
  const STEP: nat := 100_000_000

  function Sub0(a: nat, b: nat): nat {
    if a > b then a - b else 0
  }

  // Rounded up to four decimals.
  function Ceil4(v: nat): nat {
    (v + STEP - 1) / STEP * STEP
  }

  function FeeFloor(acc: Account, ed: nat): nat {
    if acc.free >= ed then Max(acc.frozen, ed) else acc.frozen
  }

  function TransferKeep(acc: Account, ed: nat, keepAlive: bool): nat {
    var untouchable := Sub0(acc.frozen, acc.reserved);
    if keepAlive || acc.frozen > 0 || acc.reserved > 0 then Max(untouchable, ed) else untouchable
  }

  datatype Shortfall = Shortfall(needed: nat, topUp: nat, neverIncluded: bool)

  function FeeShortfall(acc: Account, ed: nat, fee: nat, amount: nat, keepAlive: bool): Option<Shortfall> {
    var feeNeeds := fee + FeeFloor(acc, ed);
    var amountNeeds := if amount == 0 then 0 else fee + amount + TransferKeep(acc, ed, keepAlive);
    var needed := Max(feeNeeds, amountNeeds);
    if acc.free >= needed then None
    else Some(Shortfall(needed, needed - acc.free, acc.free < feeNeeds && acc.free >= fee + acc.frozen && acc.free >= ed))
  }

  datatype Breakdown = Breakdown(transferable: nat, transferableAllowDeath: nat, canPayFee: bool, feeTopUp: Option<nat>, edWithheld: nat)

  function BalanceBreakdown(acc: Account, ed: nat): Breakdown {
    var untouchable := Sub0(acc.frozen, acc.reserved);
    var short := FeeShortfall(acc, ed, FEE_MARGIN, 0, true);
    Breakdown(
      if short.None? then Sub0(acc.free, TransferKeep(acc, ed, true)) else 0,
      if short.None? then Sub0(acc.free, TransferKeep(acc, ed, false)) else 0,
      short.None?,
      if short.Some? then Some(short.value.topUp) else None,
      if ed > untouchable then Sub0(Min(acc.free, ed), untouchable) else 0)
  }

  // ---- the pallet ----------------------------------------------------

  // The pool's check: free covers the fee and all of frozen.
  predicate PoolAccepts(acc: Account, fee: nat) {
    fee <= acc.free && acc.free - fee >= acc.frozen
  }

  // Currency::withdraw(fee, KeepAlive): all of frozen stays, and an account that had the existential deposit keeps it.
  function Withdraw(acc: Account, ed: nat, fee: nat): Option<Account> {
    if !PoolAccepts(acc, fee) then None
    else if acc.free >= ed && acc.free - fee < ed then None
    else Some(acc.(free := acc.free - fee))
  }

  // An account with anything locked or reserved has consumers and cannot be reaped.
  predicate Reapable(acc: Account) {
    acc.frozen == 0 && acc.reserved == 0
  }

  // What a transfer may take: reserves count toward the locks; the existential deposit stays unless the account may die.
  function Reducible(acc: Account, ed: nat, keepAlive: bool): nat {
    var untouchable := Sub0(acc.frozen, acc.reserved);
    Sub0(acc.free, if keepAlive || !Reapable(acc) then Max(untouchable, ed) else untouchable)
  }

  // The fee, then the amount.
  predicate Succeeds(acc: Account, ed: nat, fee: nat, amount: nat, keepAlive: bool) {
    var paid := Withdraw(acc, ed, fee);
    paid.Some? && amount <= Reducible(paid.value, ed, keepAlive)
  }

  function Funded(acc: Account, extra: nat): Account {
    acc.(free := acc.free + extra)
  }

  // ---- the checks ----------------------------------------------------

  // CHECK: there is no shortfall exactly when the fee and then the transfer go through; and the warning that the call
  // would be accepted but never included is given exactly when the pool takes it and the withdrawal refuses it.
  lemma NoShortfallMeansSucceeds(acc: Account, ed: nat, fee: nat, amount: nat, keepAlive: bool)
    ensures FeeShortfall(acc, ed, fee, amount, keepAlive).None? <==> Succeeds(acc, ed, fee, amount, keepAlive)
    ensures var s := FeeShortfall(acc, ed, fee, amount, keepAlive);
            s.Some? && s.value.neverIncluded <==> PoolAccepts(acc, fee) && Withdraw(acc, ed, fee).None?
  {
  }

  // What must stay or go besides the fee: the locks, or the amount with what a transfer leaves behind.
  function Besides(acc: Account, ed: nat, amount: nat, keepAlive: bool): nat {
    Max(acc.frozen, if amount == 0 then 0 else amount + TransferKeep(acc, ed, keepAlive))
  }

  // ENOUGH: an account with `extra` added can pay exactly when it covers the fee and, with the deposit reached, the
  // deposit too.
  lemma EnoughExactly(acc: Account, ed: nat, fee: nat, amount: nat, keepAlive: bool, extra: nat)
    ensures var m := Besides(acc, ed, amount, keepAlive);
            Succeeds(Funded(acc, extra), ed, fee, amount, keepAlive)
            <==> acc.free + extra >= fee + if acc.free + extra >= ed then Max(m, ed) else m
  {
    NoShortfallMeansSucceeds(Funded(acc, extra), ed, fee, amount, keepAlive);
  }

  // Below the deposit, a top-up that reaches it by less than the fee: the fee may then not touch the deposit.
  predicate FallsShort(acc: Account, ed: nat, fee: nat, amount: nat, keepAlive: bool, topUp: nat) {
    acc.free < ed && Besides(acc, ed, amount, keepAlive) < ed <= acc.free + topUp < fee + ed
  }

  // TOP-UP: no smaller amount than topUp is ever enough, and topUp is enough exactly unless an account below the
  // existential deposit, whose locks and amount are below it, reaches it with the fee on top; from at least the
  // deposit everything above topUp is enough too.
  lemma TopUpIsLeast(acc: Account, ed: nat, fee: nat, amount: nat, keepAlive: bool, extra: nat)
    requires FeeShortfall(acc, ed, fee, amount, keepAlive).Some?
    ensures var topUp, m := FeeShortfall(acc, ed, fee, amount, keepAlive).value.topUp, Besides(acc, ed, amount, keepAlive);
            && (extra < topUp ==> !Succeeds(Funded(acc, extra), ed, fee, amount, keepAlive))
            && (Succeeds(Funded(acc, topUp), ed, fee, amount, keepAlive) <==> !(acc.free < ed && m < ed <= fee + m))
            && (acc.free >= ed && extra >= topUp ==> Succeeds(Funded(acc, extra), ed, fee, amount, keepAlive))
  {
    EnoughExactly(acc, ed, fee, amount, keepAlive, extra);
    EnoughExactly(acc, ed, fee, amount, keepAlive, FeeShortfall(acc, ed, fee, amount, keepAlive).value.topUp);
  }

  // SHOWN: the figure shown (topUp in four decimals, rounded up) is less than one such step more than needed; it is
  // enough from at least the existential deposit, and below it unless it falls short in the same way.
  lemma ShownTopUpIsEnough(acc: Account, ed: nat, fee: nat, amount: nat, keepAlive: bool)
    requires FeeShortfall(acc, ed, fee, amount, keepAlive).Some?
    ensures var topUp, m := FeeShortfall(acc, ed, fee, amount, keepAlive).value.topUp, Besides(acc, ed, amount, keepAlive);
            && topUp <= Ceil4(topUp) < topUp + STEP
            && (acc.free < ed ==> topUp == fee + m - acc.free)
            && (Succeeds(Funded(acc, Ceil4(topUp)), ed, fee, amount, keepAlive) <==>
                  !FallsShort(acc, ed, fee, amount, keepAlive, Ceil4(topUp)))
  {
    EnoughExactly(acc, ed, fee, amount, keepAlive, Ceil4(FeeShortfall(acc, ed, fee, amount, keepAlive).value.topUp));
  }

  // The failing family is real: nothing free, a deposit of 1 PDEX, and locks of 1 PDEX less the fee. The suggested
  // 1 PDEX reaches the deposit, and then the fee may not touch it.
  lemma TopUpBelowDepositFallsShort()
    ensures var ed, fee := 1_000_000_000_000, 15_000_000_000;
            var acc := Account(0, 0, ed - fee);
            && FeeShortfall(acc, ed, fee, 0, true) == Some(Shortfall(ed, ed, false))
            && !Succeeds(Funded(acc, ed), ed, fee, 0, true)
            && FeeShortfall(Funded(acc, ed), ed, fee, 0, true) == Some(Shortfall(ed + fee, fee, true))
  {
  }

  // PANEL: when a fee is payable, the card's parts add up to free; and the largest amount that passes the check at the
  // panel's fee is Transferable less that fee, for both settings of Keep alive.
  lemma PanelAddsUp(acc: Account, ed: nat)
    requires BalanceBreakdown(acc, ed).canPayFee
    ensures var b := BalanceBreakdown(acc, ed);
            b.transferable + b.edWithheld + Min(acc.free, Sub0(acc.frozen, acc.reserved)) == acc.free
  {
  }

  lemma TransferableIsSendable(acc: Account, ed: nat, amount: nat, keepAlive: bool)
    requires BalanceBreakdown(acc, ed).canPayFee && amount > 0
    ensures var b := BalanceBreakdown(acc, ed);
            Succeeds(acc, ed, FEE_MARGIN, amount, keepAlive)
            <==> amount + FEE_MARGIN <= if keepAlive then b.transferable else b.transferableAllowDeath
  {
    NoShortfallMeansSucceeds(acc, ed, FEE_MARGIN, amount, keepAlive);
  }

  lemma PanelNeedsFee(acc: Account, ed: nat)
    ensures var b := BalanceBreakdown(acc, ed);
            && (b.canPayFee <==> Withdraw(acc, ed, FEE_MARGIN).Some?)
            && (!b.canPayFee ==> b.transferable == 0 && b.transferableAllowDeath == 0 && b.feeTopUp.Some?)
  {
    NoShortfallMeansSucceeds(acc, ed, FEE_MARGIN, 0, true);
  }
}
