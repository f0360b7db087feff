/**
  Applying one message: the checks, buying gas, execution, the refund and the tip.
  Execution itself is a parameter, of which only what `WellBehaved` says is used.
 */
module StateTransition {
  import opened Wrappers
  import opened Gas
  import opened WorldState

  const MAX_INIT_CODE_SIZE: int := 2 * 24576
  const REFUND_QUOTIENT: Uint64 := 5
  const TWO_256: int := 0x1_0000_0000_0000_0000_0000_0000_0000_0000_0000_0000_0000_0000_0000_0000_0000_0000

  datatype Transaction = Transaction(sender: Option<Address>, nonce: Uint64, gas: Uint64, tipCap: nat, feeCap: nat,
                                     to: Option<Address>, value: nat, data: seq<bv8>, accessList: seq<AccessTuple>)

  datatype Message = Message(to: Option<Address>, from: Address, nonce: Uint64, value: nat, gasLimit: Uint64,
                             gasPrice: nat, feeCap: nat, tipCap: nat, data: seq<bv8>, accessList: seq<AccessTuple>,
                             skipAccountChecks: bool)

  /** What the block fixes for all its messages. */
  datatype Env = Env(coinbase: Address, baseFee: nat, noBaseFee: bool)

  datatype Execution = Execution(world: World, gasLeft: Uint64, refund: Uint64, failed: bool)

  datatype ExecutionResult = ExecutionResult(usedGas: Uint64, failed: bool)

  datatype TxError =
    | BadSignature
    | NonceTooHigh
    | NonceTooLow
    | NonceMax
    | SenderNoEOA
    | FeeCapVeryHigh
    | TipVeryHigh
    | TipAboveFeeCap
    | FeeCapTooLow
    | InsufficientFunds
    | GasLimitReached
    | GasUintOverflow
    | IntrinsicGasTooLow
    | InsufficientFundsForTransfer
    | MaxInitCodeSizeExceeded

  /** Runs a message with some gas in a world; the nonce of a plain call is already raised. */
  type Machine = (World, Message, Uint64) -> Execution

  function Min(a: int, b: int): int { if a < b then a else b }

  function Price(tipCap: nat, feeCap: nat, baseFee: nat): nat { Min(tipCap + baseFee, feeCap) }

  function Tip(tipCap: nat, feeCap: nat, baseFee: nat): int { Min(tipCap, feeCap - baseFee) }

  /** What `gas` units cost at `price` each. */
  function Cost(gas: int, price: int): int { gas * price }

  function ToMessage(tx: Transaction, baseFee: nat): Result<Message, TxError> {
    if tx.sender.None? then Err(BadSignature)
    else Ok(Message(tx.to, tx.sender.value, tx.nonce, tx.value, tx.gas, Price(tx.tipCap, tx.feeCap, baseFee),
                    tx.feeCap, tx.tipCap, tx.data, tx.accessList, false))
  }

  /** The price is set the way `ToMessage` sets it. */
  predicate Priced(msg: Message, env: Env) {
    msg.gasPrice == Price(msg.tipCap, msg.feeCap, env.baseFee)
  }

  /** A simulated call that offers no fee and is charged none. */
  predicate Free(msg: Message, env: Env) {
    env.noBaseFee && msg.feeCap == 0 && msg.tipCap == 0
  }

  /** What is used of the machine: money is neither made nor lost, gas not made, no other key's nonce
      moves, and the nonce of a sender without code moves by one for a creation only.  A sender with code,
      which only a simulated call can have, may create contracts when it is called back. */
  ghost predicate Behaves(w: World, msg: Message, gas: Uint64, x: Execution, owned: Address -> bool) {
    && x.gasLeft <= gas
    && Solvent(x.world) && Total(x.world) == Total(w)
    && (!Get(w, msg.from).hasCode ==>
          Nonce(x.world, msg.from) == Nonce(w, msg.from) + if msg.to.None? && Nonce(w, msg.from) < MAX_UINT64 then 1 else 0)
    && (forall a {:trigger Nonce(x.world, a)} :: owned(a) && a != msg.from ==> Nonce(x.world, a) == Nonce(w, a))
  }

  ghost predicate WellBehaved(zvm: Machine, owned: Address -> bool) {
    forall w: World, msg: Message, gas: Uint64 {:trigger zvm(w, msg, gas)} ::
      && zvm(w, msg, gas).gasLeft <= gas
      && (Solvent(w) && Balance(w, msg.from) >= msg.value ==> Behaves(w, msg, gas, zvm(w, msg, gas), owned))
  }

  /** The least machine: it runs nothing and raises the nonce of a creation's sender. */
  function Idle(w: World, msg: Message, gas: Uint64): Execution {
    Execution(if msg.to.None? && Nonce(w, msg.from) < MAX_UINT64 then SetNonce(w, msg.from, Nonce(w, msg.from) + 1) else w,
              gas, 0, false)
  }

  /** There is a machine of the kind assumed. */
  lemma IdleBehaves(owned: Address -> bool)
    ensures WellBehaved(Idle, owned)
  {
    forall w: World, msg: Message, gas: Uint64 {:trigger Idle(w, msg, gas)} | Solvent(w)
      ensures Behaves(w, msg, gas, Idle(w, msg, gas), owned)
    {
      if Nonce(w, msg.from) < MAX_UINT64 {
        TotalNonce(w, msg.from, Nonce(w, msg.from) + 1);
      }
      forall a ensures Balance(Idle(w, msg, gas).world, a) >= 0 {
        assert Balance(w, a) >= 0;
      }
    }
  }

  /** The intrinsic gas as the source computes it, access list wrap-around included. */
  function Intrinsic(msg: Message): Uint64 {
    (DataCost(msg.data, msg.to.None?) + AccessCost(msg.accessList)) % TWO_64
  }

  /** The checks before anything is changed, in order. */
  function PreVerdict(w: World, msg: Message, env: Env, pool: Uint64): Option<TxError> {
    var nonce := Nonce(w, msg.from);
    if !msg.skipAccountChecks && nonce < msg.nonce then Some(NonceTooHigh)
    else if !msg.skipAccountChecks && nonce > msg.nonce then Some(NonceTooLow)
    else if !msg.skipAccountChecks && nonce == MAX_UINT64 then Some(NonceMax)
    else if !msg.skipAccountChecks && Get(w, msg.from).hasCode then Some(SenderNoEOA)
    else if !Free(msg, env) && msg.feeCap >= TWO_256 then Some(FeeCapVeryHigh)
    else if !Free(msg, env) && msg.tipCap >= TWO_256 then Some(TipVeryHigh)
    else if !Free(msg, env) && msg.feeCap < msg.tipCap then Some(TipAboveFeeCap)
    else if !Free(msg, env) && msg.feeCap < env.baseFee then Some(FeeCapTooLow)
    else BuyVerdict(w, msg, pool)
  }

  function BuyVerdict(w: World, msg: Message, pool: Uint64): Option<TxError> {
    if Balance(w, msg.from) < Cost(msg.gasLimit, msg.feeCap) + msg.value then Some(InsufficientFunds)
    else if pool < msg.gasLimit then Some(GasLimitReached)
    else None
  }

  /** Why a message is not applied, in order. */
  function Verdict(w: World, msg: Message, env: Env, pool: Uint64): Option<TxError> {
    var pre := PreVerdict(w, msg, env, pool);
    if pre.Some? then pre
    else if DataCost(msg.data, msg.to.None?) > MAX_UINT64 then Some(GasUintOverflow)
    else if msg.gasLimit < Intrinsic(msg) then Some(IntrinsicGasTooLow)
    else if msg.value > 0 && Balance(Charged(w, msg), msg.from) < msg.value then Some(InsufficientFundsForTransfer)
    else if msg.to.None? && |msg.data| > MAX_INIT_CODE_SIZE then Some(MaxInitCodeSizeExceeded)
    else None
  }

  /** When a message may be applied: the conditions of the protocol, without their order. */
  predicate Acceptable(w: World, msg: Message, env: Env, pool: Uint64) {
    && (!msg.skipAccountChecks ==>
          msg.nonce == Nonce(w, msg.from) < 0xFFFF_FFFF_FFFF_FFFF && !Get(w, msg.from).hasCode)
    && (!env.noBaseFee || msg.feeCap > 0 || msg.tipCap > 0 ==> env.baseFee <= msg.feeCap < TWO_256 && msg.tipCap <= msg.feeCap)
    && msg.gasLimit * msg.feeCap + msg.value <= Balance(w, msg.from)
    && msg.gasLimit <= pool
    && DataCost(msg.data, msg.to.None?) < TWO_64
    && (DataCost(msg.data, msg.to.None?) + AccessCost(msg.accessList)) % TWO_64 <= msg.gasLimit
    && (msg.value > 0 ==> msg.gasLimit * msg.gasPrice + msg.value <= Balance(w, msg.from))
    && (msg.to.None? ==> |msg.data| <= 49152)
  }

  /** What an error complains of, whatever else is wrong with the message. */
  predicate Violates(w: World, msg: Message, env: Env, pool: Uint64, e: TxError) {
    var priced := !env.noBaseFee || msg.feeCap > 0 || msg.tipCap > 0;
    match e
    case BadSignature => false
    case NonceTooHigh => !msg.skipAccountChecks && Nonce(w, msg.from) < msg.nonce
    case NonceTooLow => !msg.skipAccountChecks && Nonce(w, msg.from) > msg.nonce
    case NonceMax => !msg.skipAccountChecks && Nonce(w, msg.from) == 0xFFFF_FFFF_FFFF_FFFF
    case SenderNoEOA => !msg.skipAccountChecks && Get(w, msg.from).hasCode
    case FeeCapVeryHigh => priced && msg.feeCap >= TWO_256
    case TipVeryHigh => priced && msg.tipCap >= TWO_256
    case TipAboveFeeCap => priced && msg.tipCap > msg.feeCap
    case FeeCapTooLow => priced && msg.feeCap < env.baseFee
    case InsufficientFunds => Balance(w, msg.from) < msg.gasLimit * msg.feeCap + msg.value
    case GasLimitReached => pool < msg.gasLimit
    case GasUintOverflow => DataCost(msg.data, msg.to.None?) >= TWO_64
    case IntrinsicGasTooLow => msg.gasLimit < (DataCost(msg.data, msg.to.None?) + AccessCost(msg.accessList)) % TWO_64
    case InsufficientFundsForTransfer => msg.value > 0 && Balance(w, msg.from) < msg.gasLimit * msg.gasPrice + msg.value
    case MaxInitCodeSizeExceeded => msg.to.None? && |msg.data| > 49152
  }

  /** The place of an error in the order of the checks. */
  function Rank(e: TxError): nat {
    match e
    case BadSignature => 0
    case NonceTooHigh => 1
    case NonceTooLow => 2
    case NonceMax => 3
    case SenderNoEOA => 4
    case FeeCapVeryHigh => 5
    case TipVeryHigh => 6
    case TipAboveFeeCap => 7
    case FeeCapTooLow => 8
    case InsufficientFunds => 9
    case GasLimitReached => 10
    case GasUintOverflow => 11
    case IntrinsicGasTooLow => 12
    case InsufficientFundsForTransfer => 13
    case MaxInitCodeSizeExceeded => 14
  }

  /** The error is the complaint that comes first. */
  ghost predicate FirstComplaint(w: World, msg: Message, env: Env, pool: Uint64, e: TxError) {
    && Violates(w, msg, env, pool, e)
    && (forall other :: Violates(w, msg, env, pool, other) ==> Rank(e) <= Rank(other))
  }

  lemma VerdictIsComplaint(w: World, msg: Message, env: Env, pool: Uint64)
    ensures Verdict(w, msg, env, pool).Some? ==> Violates(w, msg, env, pool, Verdict(w, msg, env, pool).value)
  {
    assert Balance(Charged(w, msg), msg.from) == Balance(w, msg.from) - msg.gasLimit * msg.gasPrice;
  }

  /** A complaint leads to a refusal, by it or by one that comes before it. */
  lemma VerdictComesFirst(w: World, msg: Message, env: Env, pool: Uint64, e: TxError)
    requires Violates(w, msg, env, pool, e)
    ensures Verdict(w, msg, env, pool).Some? && Rank(Verdict(w, msg, env, pool).value) <= Rank(e)
  {
    assert Balance(Charged(w, msg), msg.from) == Balance(w, msg.from) - msg.gasLimit * msg.gasPrice;
  }

  lemma AcceptedExactly(w: World, msg: Message, env: Env, pool: Uint64)
    ensures Verdict(w, msg, env, pool).None? <==> Acceptable(w, msg, env, pool)
  {
    assert Balance(Charged(w, msg), msg.from) == Balance(w, msg.from) - msg.gasLimit * msg.gasPrice;
  }

  lemma RanksDiffer(e: TxError, other: TxError)
    requires Rank(e) == Rank(other)
    ensures e == other
  {
  }

  /** The checks accept exactly the acceptable messages, which are those nothing can be said against, and refuse
      any other with the first complaint. */
  lemma VerdictIsExact(w: World, msg: Message, env: Env, pool: Uint64)
    ensures Verdict(w, msg, env, pool).None? <==> Acceptable(w, msg, env, pool)
    ensures Acceptable(w, msg, env, pool) <==> forall e :: !Violates(w, msg, env, pool, e)
    ensures forall e :: Verdict(w, msg, env, pool) == Some(e) <==> FirstComplaint(w, msg, env, pool, e)
  {
    AcceptedExactly(w, msg, env, pool);
    VerdictIsComplaint(w, msg, env, pool);
    var verdict := Verdict(w, msg, env, pool);
    forall e | Violates(w, msg, env, pool, e) ensures verdict.Some? && Rank(verdict.value) <= Rank(e) {
      VerdictComesFirst(w, msg, env, pool, e);
    }
    forall e | FirstComplaint(w, msg, env, pool, e) ensures verdict == Some(e) {
      RanksDiffer(e, verdict.value);
    }
  }

  /** A plain transfer with exactly 21000 gas is accepted, with one unit less it is refused. */
  lemma PlainTransfer()
    ensures var w := map[1 := Account(0, 1_000_000, false)];
            var msg := Message(Some(2), 1, 0, 5, 21000, 11, 20, 1, [], [], false);
            && Verdict(w, msg, Env(3, 10, false), 30_000_000).None?
            && Verdict(w, msg.(gasLimit := 20999), Env(3, 10, false), 30_000_000) == Some(IntrinsicGasTooLow)
  {
    assert NonZero([]) == 0 && StorageKeys([]) == 0;
  }

  /** The world after gas has been bought, and for a call the nonce raised. */
  function Charged(w: World, msg: Message): World { Credit(w, msg.from, -Cost(msg.gasLimit, msg.gasPrice)) }

  function Prepared(w: World, msg: Message): World {
    if msg.to.None? then Charged(w, msg)
    else SetNonce(Charged(w, msg), msg.from, (Nonce(w, msg.from) + 1) % TWO_64)
  }

  /** What the machine makes of an accepted message. */
  function Executed(zvm: Machine, w: World, msg: Message): Execution
    requires Intrinsic(msg) <= msg.gasLimit
  {
    zvm(Prepared(w, msg), msg, msg.gasLimit - Intrinsic(msg))
  }

  /** The refund: a fifth of what was consumed, or less if less was earned. */
  function Refund(msg: Message, x: Execution): Uint64
    requires x.gasLeft <= msg.gasLimit
  {
    Min((msg.gasLimit - x.gasLeft) / REFUND_QUOTIENT, x.refund)
  }

  function Used(msg: Message, x: Execution): Uint64
    requires x.gasLeft <= msg.gasLimit
  {
    msg.gasLimit - x.gasLeft - Refund(msg, x)
  }

  /** The tip credited for the gas used. */
  function Fee(msg: Message, env: Env, used: Uint64): int {
    if Free(msg, env) then 0 else Cost(used, Tip(msg.tipCap, msg.feeCap, env.baseFee))
  }

  /** Unused gas is paid back. */
  function Repaid(w: World, msg: Message, used: Uint64): World {
    Credit(w, msg.from, Cost(msg.gasLimit - used, msg.gasPrice))
  }

  /** The final world: unused gas is paid back, then the tip is credited. */
  function Paid(w: World, msg: Message, env: Env, used: Uint64): World {
    var back := Repaid(w, msg, used);
    if Free(msg, env) then back else Credit(back, env.coinbase, Fee(msg, env, used))
  }

  /** What the coinbase gains by the last step, whoever else it may be. */
  lemma CoinbaseGains(w: World, msg: Message, env: Env, used: Uint64)
    ensures Balance(Paid(w, msg, env, used), env.coinbase) - Balance(Repaid(w, msg, used), env.coinbase) == Fee(msg, env, used)
  {
  }

  /** What a message burns: the base fee of the gas used. */
  function Burnt(msg: Message, env: Env, used: Uint64): nat {
    if Free(msg, env) then 0 else Cost(used, env.baseFee)
  }

  lemma CostSplits(gas: int, used: int, price: int)
    ensures Cost(gas, price) == Cost(gas - used, price) + Cost(used, price)
  {
  }

  lemma CostAdds(gas: int, a: int, b: int)
    ensures Cost(gas, a + b) == Cost(gas, a) + Cost(gas, b)
  {
  }

  lemma CostMonotone(gas: nat, a: int, b: int)
    requires a <= b
    ensures Cost(gas, a) <= Cost(gas, b)
  {
  }

  /** The price paid is the base fee plus the tip that is credited. */
  lemma PriceSplits(tipCap: nat, feeCap: nat, baseFee: nat)
    requires baseFee <= feeCap
    ensures Price(tipCap, feeCap, baseFee) == baseFee + Tip(tipCap, feeCap, baseFee)
    ensures Tip(tipCap, feeCap, baseFee) >= 0
  {
  }

  /** The sender can still pay the value after buying gas, so the transfer check cannot fail. */
  lemma TransferIsCovered(w: World, msg: Message, env: Env, pool: Uint64)
    requires Priced(msg, env) && PreVerdict(w, msg, env, pool).None? && Solvent(w)
    ensures Balance(Prepared(w, msg), msg.from) == Balance(Charged(w, msg), msg.from) >= msg.value
    ensures Solvent(Charged(w, msg)) && Solvent(Prepared(w, msg))
  {
    CostMonotone(msg.gasLimit, msg.gasPrice, msg.feeCap);
    forall a ensures Balance(Charged(w, msg), a) >= 0 && Balance(Prepared(w, msg), a) >= 0 {
      assert Balance(w, a) >= 0;
    }
  }

  lemma TotalPrepared(w: World, msg: Message)
    ensures Total(Prepared(w, msg)) == Total(w) - Cost(msg.gasLimit, msg.gasPrice)
  {
    TotalCredit(w, msg.from, -Cost(msg.gasLimit, msg.gasPrice));
    TotalNonce(Charged(w, msg), msg.from, (Nonce(w, msg.from) + 1) % TWO_64);
  }

  lemma TotalPaid(w: World, msg: Message, env: Env, used: Uint64)
    ensures Total(Paid(w, msg, env, used)) == Total(w) + Cost(msg.gasLimit - used, msg.gasPrice) + Fee(msg, env, used)
  {
    var back := Credit(w, msg.from, Cost(msg.gasLimit - used, msg.gasPrice));
    TotalCredit(w, msg.from, Cost(msg.gasLimit - used, msg.gasPrice));
    TotalCredit(back, env.coinbase, Fee(msg, env, used));
  }

  /** The price of the gas used is what is burnt plus what is credited. */
  lemma PriceIsAccountedFor(msg: Message, env: Env, used: Uint64)
    requires Priced(msg, env) && (Free(msg, env) || env.baseFee <= msg.feeCap)
    ensures Cost(used, msg.gasPrice) == Burnt(msg, env, used) + Fee(msg, env, used)
  {
    if !Free(msg, env) {
      PriceSplits(msg.tipCap, msg.feeCap, env.baseFee);
      CostAdds(used, env.baseFee, Tip(msg.tipCap, msg.feeCap, env.baseFee));
    }
  }

  /** For a message with the price it was offered, a short balance is never found only at the transfer. */
  lemma TransferNeverFails(w: World, msg: Message, env: Env, pool: Uint64)
    requires Priced(msg, env)
    ensures Verdict(w, msg, env, pool) != Some(InsufficientFundsForTransfer)
  {
    CostMonotone(msg.gasLimit, msg.gasPrice, msg.feeCap);
  }

  /** Total balance falls by exactly what is burnt. */
  lemma TotalFalls(w: World, msg: Message, env: Env, x: World, used: Uint64)
    requires Priced(msg, env) && (Free(msg, env) || env.baseFee <= msg.feeCap)
    requires Total(x) == Total(Prepared(w, msg))
    ensures Total(Paid(x, msg, env, used)) == Total(w) - Burnt(msg, env, used)
  {
    TotalPrepared(w, msg);
    TotalPaid(x, msg, env, used);
    CostSplits(msg.gasLimit, used, msg.gasPrice);
    PriceIsAccountedFor(msg, env, used);
  }

  /** Paying never overdraws an account and moves no nonce. */
  lemma PaidIsSolvent(w: World, msg: Message, env: Env, used: Uint64)
    requires Solvent(w) && used <= msg.gasLimit && (Free(msg, env) || env.baseFee <= msg.feeCap)
    ensures Solvent(Paid(w, msg, env, used))
    ensures forall a :: Nonce(Paid(w, msg, env, used), a) == Nonce(w, a)
  {
    if !Free(msg, env) {
      CostMonotone(used, 0, Tip(msg.tipCap, msg.feeCap, env.baseFee));
    }
    CostMonotone(msg.gasLimit - used, 0, msg.gasPrice);
    forall a ensures Balance(Paid(w, msg, env, used), a) >= 0 {
      assert Balance(w, a) >= 0;
    }
  }

  /** The refund is at most the quotient's share of the gas consumed before it. */
  lemma RefundIsCapped(msg: Message, x: Execution)
    requires x.gasLeft <= msg.gasLimit
    ensures 5 * Refund(msg, x) <= msg.gasLimit - x.gasLeft && Refund(msg, x) <= x.refund
    ensures Refund(msg, x) < x.refund ==> 5 * (Refund(msg, x) + 1) > msg.gasLimit - x.gasLeft
    ensures x.gasLeft + Refund(msg, x) == msg.gasLimit - Used(msg, x)
  {
  }

  /** The state database, holding the current world.  `tips` adds up what the balance of the coinbase gained
      whenever a tip was credited. */
  class StateDB {
    var world: World
    ghost var tips: int

    constructor (world: World)
      ensures this.world == world && tips == 0
    {
      this.world, tips := world, 0;
    }
  }

  /** Everything an accepted message does, to the world and to the gas it used. */
  ghost predicate Applies(zvm: Machine, w: World, msg: Message, env: Env, w': World, r: ExecutionResult)
  {
    && Intrinsic(msg) <= msg.gasLimit
    && var x := Executed(zvm, w, msg);
    && x.gasLeft <= msg.gasLimit
    && r == ExecutionResult(Used(msg, x), x.failed)
    && w' == Paid(x.world, msg, env, r.usedGas)
  }

  /**
    What every applied message guarantees: money falls by exactly what is burnt, no account is
    overdrawn, the nonce of a sender without code moves on by one and no other key's nonce moves.
   */
  lemma AppliedSafely(owned: Address -> bool, w: World, msg: Message, env: Env, pool: Uint64, x: Execution)
    requires Solvent(w) && Priced(msg, env) && Verdict(w, msg, env, pool).None?
    requires Behaves(Prepared(w, msg), msg, msg.gasLimit - Intrinsic(msg), x, owned)
    ensures var used := Used(msg, x);
            var after := Paid(x.world, msg, env, used);
            && used <= msg.gasLimit
            && Solvent(after) && Total(after) == Total(w) - Burnt(msg, env, used)
            && (!Get(w, msg.from).hasCode && Nonce(w, msg.from) < MAX_UINT64 ==> Nonce(after, msg.from) == Nonce(w, msg.from) + 1)
            && (forall a :: owned(a) && a != msg.from ==> Nonce(after, a) == Nonce(w, a))
  {
    var used := Used(msg, x);
    TotalFalls(w, msg, env, x.world, used);
    PaidIsSolvent(x.world, msg, env, used);
    NoncesMove(owned, w, msg, x);
  }

  lemma ExecutedBehaves(zvm: Machine, owned: Address -> bool, w: World, msg: Message, env: Env, pool: Uint64)
    requires WellBehaved(zvm, owned) && Solvent(w) && Priced(msg, env)
    requires PreVerdict(w, msg, env, pool).None? && Intrinsic(msg) <= msg.gasLimit
    ensures Behaves(Prepared(w, msg), msg, msg.gasLimit - Intrinsic(msg), Executed(zvm, w, msg), owned)
  {
    TransferIsCovered(w, msg, env, pool);
  }

  lemma NoncesMove(owned: Address -> bool, w: World, msg: Message, x: Execution)
    requires Intrinsic(msg) <= msg.gasLimit
    requires Behaves(Prepared(w, msg), msg, msg.gasLimit - Intrinsic(msg), x, owned)
    ensures !Get(w, msg.from).hasCode && Nonce(w, msg.from) < MAX_UINT64 ==> Nonce(x.world, msg.from) == Nonce(w, msg.from) + 1
    ensures forall a :: owned(a) && a != msg.from ==> Nonce(x.world, a) == Nonce(w, a)
  {
    forall a | owned(a) && a != msg.from ensures Nonce(x.world, a) == Nonce(w, a) {
      assert Nonce(Prepared(w, msg), a) == Nonce(w, a);
    }
  }

  class StateTransition {
    const gp: GasPool
    const state: StateDB
    const msg: Message
    const env: Env
    const zvm: Machine
    var gasRemaining: Uint64
    var initialGas: Uint64

    constructor (zvm: Machine, env: Env, msg: Message, gp: GasPool, state: StateDB)
      ensures this.zvm == zvm && this.env == env && this.msg == msg && this.gp == gp && this.state == state
      ensures gasRemaining == 0 && initialGas == 0
    {
      this.zvm, this.env, this.msg, this.gp, this.state := zvm, env, msg, gp, state;
      gasRemaining, initialGas := 0, 0;
    }

    method BuyGas() returns (err: Option<TxError>)
      requires gasRemaining == 0
      modifies this, gp, state`world
      ensures err == BuyVerdict(old(state.world), msg, old(gp.gas))
      ensures err.Some? ==> state.world == old(state.world) && gp.gas == old(gp.gas)
      ensures err.None? ==>
                && gp.gas == old(gp.gas) - msg.gasLimit && state.world == Charged(old(state.world), msg)
                && gasRemaining == initialGas == msg.gasLimit
    {
      if Balance(state.world, msg.from) < Cost(msg.gasLimit, msg.feeCap) + msg.value {
        return Some(InsufficientFunds);
      }
      var ok := gp.SubGas(msg.gasLimit);
      if !ok {
        return Some(GasLimitReached);
      }
      gasRemaining := gasRemaining + msg.gasLimit;
      initialGas := msg.gasLimit;
      state.world := Credit(state.world, msg.from, -Cost(msg.gasLimit, msg.gasPrice));
      return None;
    }

    /** A refused message leaves the state and the pool alone. */
    method PreCheck() returns (err: Option<TxError>)
      requires gasRemaining == 0
      modifies this, gp, state`world
      ensures err == PreVerdict(old(state.world), msg, env, old(gp.gas))
      ensures err.Some? ==> state.world == old(state.world) && gp.gas == old(gp.gas)
      ensures err.None? ==>
                && gp.gas == old(gp.gas) - msg.gasLimit && state.world == Charged(old(state.world), msg)
                && gasRemaining == initialGas == msg.gasLimit
    {
      if !msg.skipAccountChecks {
        var nonce := Nonce(state.world, msg.from);
        if nonce < msg.nonce {
          return Some(NonceTooHigh);
        } else if nonce > msg.nonce {
          return Some(NonceTooLow);
        } else if (nonce + 1) % TWO_64 < nonce {
          return Some(NonceMax);
        }
        if Get(state.world, msg.from).hasCode {
          return Some(SenderNoEOA);
        }
      }
      if !env.noBaseFee || msg.feeCap > 0 || msg.tipCap > 0 {
        if msg.feeCap >= TWO_256 {
          return Some(FeeCapVeryHigh);
        }
        if msg.tipCap >= TWO_256 {
          return Some(TipVeryHigh);
        }
        if msg.feeCap < msg.tipCap {
          return Some(TipAboveFeeCap);
        }
        if msg.feeCap < env.baseFee {
          return Some(FeeCapTooLow);
        }
      }
      err := BuyGas();
    }

    function GasUsed(): int
      reads this
    {
      initialGas - gasRemaining
    }

    /** Neither the remaining gas nor the pool can overflow here. */
    method RefundGas(refund: Uint64)
      requires gasRemaining <= initialGas == msg.gasLimit && gp.gas + msg.gasLimit <= MAX_UINT64
      modifies this, gp, state`world
      ensures initialGas == old(initialGas)
      ensures gasRemaining == old(gasRemaining) + Min(old(GasUsed()) / REFUND_QUOTIENT, refund) <= initialGas
      ensures gp.gas == old(gp.gas) + gasRemaining
      ensures state.world == Credit(old(state.world), msg.from, Cost(gasRemaining, msg.gasPrice))
    {
      var share := GasUsed() / REFUND_QUOTIENT;
      if share > refund {
        share := refund;
      }
      gasRemaining := gasRemaining + share;
      state.world := Credit(state.world, msg.from, Cost(gasRemaining, msg.gasPrice));
      gp.AddGas(gasRemaining);
    }

    /** The refund, then the tip. */
    method Settle(x: Execution) returns (r: ExecutionResult)
      requires x.gasLeft <= initialGas == msg.gasLimit && gp.gas + msg.gasLimit <= MAX_UINT64
      modifies this, gp, state
      ensures r == ExecutionResult(Used(msg, x), x.failed)
      ensures state.world == Paid(x.world, msg, env, r.usedGas)
      ensures gp.gas == old(gp.gas) + msg.gasLimit - r.usedGas && state.tips == old(state.tips) + Fee(msg, env, r.usedGas)
    {
      state.world, gasRemaining := x.world, x.gasLeft;
      RefundGas(x.refund);
      assert gasRemaining == msg.gasLimit - Used(msg, x);
      ghost var before := Balance(state.world, env.coinbase);
      if !(env.noBaseFee && msg.feeCap == 0 && msg.tipCap == 0) {
        state.world := Credit(state.world, env.coinbase, Cost(GasUsed(), Tip(msg.tipCap, msg.feeCap, env.baseFee)));
      }
      state.tips := state.tips + Balance(state.world, env.coinbase) - before;
      return ExecutionResult(GasUsed(), x.failed);
    }

    /** Runs the machine on the prepared world. */
    method Execute(ghost w: World, ghost pool: Uint64, ghost owned: Address -> bool) returns (r: ExecutionResult)
      requires WellBehaved(zvm, owned) && Intrinsic(msg) <= msg.gasLimit <= pool
      requires state.world == Charged(w, msg) && gp.gas == pool - msg.gasLimit
      requires initialGas == msg.gasLimit && gasRemaining == msg.gasLimit - Intrinsic(msg)
      modifies this, gp, state
      ensures Applies(zvm, w, msg, env, state.world, r) && gp.gas == pool - r.usedGas
      ensures state.tips == old(state.tips) + Fee(msg, env, r.usedGas)
    {
      if msg.to.Some? {
        state.world := SetNonce(state.world, msg.from, (Nonce(state.world, msg.from) + 1) % TWO_64);
      }
      assert state.world == Prepared(w, msg);
      var x := zvm(state.world, msg, gasRemaining);
      r := Settle(x);
    }

    /**
      Succeeds exactly when the verdict is favourable.  After a failed check past `PreCheck` the gas
      stays bought.
     */
    method TransitionDb(ghost owned: Address -> bool) returns (r: Result<ExecutionResult, TxError>)
      requires gasRemaining == 0 && |msg.data| <= MAX_UINT64 && WellBehaved(zvm, owned)
      modifies this, gp, state
      ensures r.Ok? <==> Acceptable(old(state.world), msg, env, old(gp.gas))
      ensures r.Err? ==> FirstComplaint(old(state.world), msg, env, old(gp.gas), r.error)
      ensures r.Ok? <==> Verdict(old(state.world), msg, env, old(gp.gas)).None?
      ensures r.Err? ==> Verdict(old(state.world), msg, env, old(gp.gas)) == Some(r.error)
      ensures PreVerdict(old(state.world), msg, env, old(gp.gas)).Some? ==>
                state.world == old(state.world) && gp.gas == old(gp.gas)
      ensures r.Ok? ==>
                && Applies(zvm, old(state.world), msg, env, state.world, r.value)
                && gp.gas == old(gp.gas) - r.value.usedGas
      ensures state.tips == old(state.tips) + if r.Ok? then Fee(msg, env, r.value.usedGas) else 0
    {
      VerdictIsExact(state.world, msg, env, gp.gas);
      var pre := PreCheck();
      if pre.Some? {
        return Err(pre.value);
      }
      var intrinsic := IntrinsicGas(msg.data, msg.accessList, msg.to.None?);
      if intrinsic.None? {
        return Err(GasUintOverflow);
      }
      if gasRemaining < intrinsic.value {
        return Err(IntrinsicGasTooLow);
      }
      gasRemaining := gasRemaining - intrinsic.value;
      if msg.value > 0 && Balance(state.world, msg.from) < msg.value {
        return Err(InsufficientFundsForTransfer);
      }
      if msg.to.None? && |msg.data| > MAX_INIT_CODE_SIZE {
        return Err(MaxInitCodeSizeExceeded);
      }
      var result := Execute(old(state.world), old(gp.gas), owned);
      return Ok(result);
    }
  }

  /** Applies a message; `AppliedSafely` says what the source promises about the new state. */
  method ApplyMessage(zvm: Machine, env: Env, msg: Message, gp: GasPool, state: StateDB, ghost owned: Address -> bool)
    returns (r: Result<ExecutionResult, TxError>)
    requires |msg.data| <= MAX_UINT64 && WellBehaved(zvm, owned)
    modifies gp, state
    ensures r.Ok? <==> Acceptable(old(state.world), msg, env, old(gp.gas))
    ensures forall e :: r == Err(e) <==> FirstComplaint(old(state.world), msg, env, old(gp.gas), e)
    ensures r.Ok? <==> Verdict(old(state.world), msg, env, old(gp.gas)).None?
    ensures r.Err? ==> Verdict(old(state.world), msg, env, old(gp.gas)) == Some(r.error)
    ensures r.Ok? ==>
              && Applies(zvm, old(state.world), msg, env, state.world, r.value)
              && r.value.usedGas <= msg.gasLimit && gp.gas == old(gp.gas) - r.value.usedGas
    ensures r.Ok? && Priced(msg, env) && Solvent(old(state.world)) ==>
              && Solvent(state.world)
              && Total(state.world) == Total(old(state.world)) - Burnt(msg, env, r.value.usedGas)
    ensures state.tips == old(state.tips) + if r.Ok? then Fee(msg, env, r.value.usedGas) else 0
  {
    VerdictIsExact(state.world, msg, env, gp.gas);
    var st := new StateTransition(zvm, env, msg, gp, state);
    r := st.TransitionDb(owned);
    if r.Ok? && Priced(msg, env) && Solvent(old(state.world)) {
      ExecutedBehaves(zvm, owned, old(state.world), msg, env, old(gp.gas));
      AppliedSafely(owned, old(state.world), msg, env, old(gp.gas), Executed(zvm, old(state.world), msg));
    }
  }
}
