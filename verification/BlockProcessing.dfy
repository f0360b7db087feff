/**
  Processing a block: its transactions are applied in order against one gas pool, and
  a receipt records the gas of each and the running sum.
 */
module BlockProcessing {
  import opened Wrappers
  import opened Gas
  import opened WorldState
  import opened StateTransition

  datatype Receipt = Receipt(failed: bool, cumulativeGasUsed: Uint64, gasUsed: Uint64)

  /** A gas counter shared by reference. */
  class GasCounter {
    var used: Uint64

    constructor ()
      ensures used == 0
    {
      used := 0;
    }
  }

  /** The gas used by the first n transactions. */
  ghost function GasSum(receipts: seq<Receipt>, n: nat): nat
    requires n <= |receipts|
  {
    if n == 0 then 0 else GasSum(receipts, n - 1) + receipts[n - 1].gasUsed
  }

  lemma {:induction false} GasSumPrefix(receipts: seq<Receipt>, more: seq<Receipt>, n: nat)
    requires n <= |receipts|
    ensures GasSum(receipts + more, n) == GasSum(receipts, n)
  {
    if n > 0 {
      GasSumPrefix(receipts, more, n - 1);
    }
  }

  /** Each receipt's cumulative gas is the prefix sum. */
  ghost predicate Cumulative(receipts: seq<Receipt>) {
    forall i: nat {:trigger SummedAt(receipts, i)} :: i < |receipts| ==> SummedAt(receipts, i)
  }

  ghost predicate SummedAt(receipts: seq<Receipt>, i: nat)
    requires i < |receipts|
  {
    receipts[i].cumulativeGasUsed == GasSum(receipts, i + 1)
  }

  lemma CumulativeAppend(receipts: seq<Receipt>, r: Receipt)
    requires Cumulative(receipts) && r.cumulativeGasUsed == GasSum(receipts, |receipts|) + r.gasUsed
    ensures Cumulative(receipts + [r])
    ensures GasSum(receipts + [r], |receipts| + 1) == r.cumulativeGasUsed
  {
    GasSumPrefix(receipts, [r], |receipts|);
    forall i: nat {:trigger SummedAt(receipts + [r], i)} | i <= |receipts| ensures SummedAt(receipts + [r], i) {
      if i < |receipts| {
        assert SummedAt(receipts, i);
        GasSumPrefix(receipts, [r], i + 1);
      }
    }
  }

  /** How many of the transactions are the account's. */
  ghost function Count(txs: seq<Transaction>, a: Address): nat {
    if txs == [] then 0
    else Count(txs[..|txs| - 1], a) + if txs[|txs| - 1].sender == Some(a) then 1 else 0
  }

  lemma CountAppend(txs: seq<Transaction>, tx: Transaction, a: Address)
    ensures Count(txs + [tx], a) == Count(txs, a) + if tx.sender == Some(a) then 1 else 0
  {
    assert (txs + [tx])[..|txs|] == txs;
  }

  /** The base fees burnt by the transactions. */
  ghost function BurntSum(txs: seq<Transaction>, receipts: seq<Receipt>, env: Env): nat
    requires |txs| == |receipts|
    decreases |txs|
  {
    if txs == [] then 0
    else
      var n := |txs| - 1;
      BurntSum(txs[..n], receipts[..n], env)
      + if txs[n].sender.Some? then Burnt(ToMessage(txs[n], env.baseFee).value, env, receipts[n].gasUsed) else 0
  }

  lemma BurntAppend(txs: seq<Transaction>, receipts: seq<Receipt>, env: Env, tx: Transaction, r: Receipt)
    requires |txs| == |receipts| && tx.sender.Some?
    ensures BurntSum(txs + [tx], receipts + [r], env)
            == BurntSum(txs, receipts, env) + Burnt(ToMessage(tx, env.baseFee).value, env, r.gasUsed)
  {
    assert (txs + [tx])[..|txs|] == txs && (receipts + [r])[..|txs|] == receipts;
  }

  /** The tips of the transactions. */
  ghost function TipSum(txs: seq<Transaction>, receipts: seq<Receipt>, env: Env): int
    requires |txs| == |receipts|
    decreases |txs|
  {
    if txs == [] then 0
    else
      var n := |txs| - 1;
      TipSum(txs[..n], receipts[..n], env)
      + if txs[n].sender.Some? then Fee(ToMessage(txs[n], env.baseFee).value, env, receipts[n].gasUsed) else 0
  }

  /** What the senders paid for the gas of the transactions. */
  ghost function PaidSum(txs: seq<Transaction>, receipts: seq<Receipt>, env: Env): int
    requires |txs| == |receipts|
    decreases |txs|
  {
    if txs == [] then 0
    else
      var n := |txs| - 1;
      PaidSum(txs[..n], receipts[..n], env)
      + if txs[n].sender.Some? then Cost(receipts[n].gasUsed, ToMessage(txs[n], env.baseFee).value.gasPrice) else 0
  }

  lemma TipAppend(txs: seq<Transaction>, receipts: seq<Receipt>, env: Env, tx: Transaction, r: Receipt)
    requires |txs| == |receipts| && tx.sender.Some?
    requires PaidSum(txs, receipts, env) == BurntSum(txs, receipts, env) + TipSum(txs, receipts, env)
    requires Priced(ToMessage(tx, env.baseFee).value, env)
    requires Free(ToMessage(tx, env.baseFee).value, env) || env.baseFee <= tx.feeCap
    ensures TipSum(txs + [tx], receipts + [r], env) == TipSum(txs, receipts, env) + Fee(ToMessage(tx, env.baseFee).value, env, r.gasUsed)
    ensures PaidSum(txs + [tx], receipts + [r], env) == BurntSum(txs + [tx], receipts + [r], env) + TipSum(txs + [tx], receipts + [r], env)
  {
    assert (txs + [tx])[..|txs|] == txs && (receipts + [r])[..|txs|] == receipts;
    BurntAppend(txs, receipts, env, tx, r);
    PriceIsAccountedFor(ToMessage(tx, env.baseFee).value, env, r.gasUsed);
  }

  /** A transaction that a key signed and whose data fits in memory. */
  predicate Proper(tx: Transaction, owned: Address -> bool) {
    |tx.data| <= MAX_UINT64 && (tx.sender.Some? ==> owned(tx.sender.value))
  }

  /** Every transaction's nonce continues its sender's nonce in the parent state. */
  ghost predicate InSequence(parent: World, txs: seq<Transaction>) {
    forall i: nat {:trigger InTurn(parent, txs, i)} :: i < |txs| ==> InTurn(parent, txs, i)
  }

  ghost predicate InTurn(parent: World, txs: seq<Transaction>, i: nat)
    requires i < |txs|
  {
    txs[i].sender.Some? && txs[i].nonce == Nonce(parent, txs[i].sender.value) + Count(txs[..i], txs[i].sender.value)
  }

  lemma InSequenceAppend(parent: World, txs: seq<Transaction>, tx: Transaction)
    requires InSequence(parent, txs) && tx.sender.Some?
    requires tx.nonce == Nonce(parent, tx.sender.value) + Count(txs, tx.sender.value)
    ensures InSequence(parent, txs + [tx])
  {
    forall i: nat {:trigger InTurn(parent, txs + [tx], i)} | i <= |txs| ensures InTurn(parent, txs + [tx], i) {
      assert (txs + [tx])[..i] == txs[..i];
      if i < |txs| {
        assert InTurn(parent, txs, i);
      } else {
        assert txs[..i] == txs;
      }
    }
  }

  /** The ledger of a run: money, tips, nonces and gas as the transactions so far account for them. */
  ghost predicate Ledger(parent: World, limit: Uint64, owned: Address -> bool, env: Env,
    txs: seq<Transaction>, receipts: seq<Receipt>, w: World, used: Uint64, pool: Uint64, tips: int)
  {
    && |txs| == |receipts|
    && tips == TipSum(txs, receipts, env) == PaidSum(txs, receipts, env) - BurntSum(txs, receipts, env)
    && pool + used == limit && InSequence(parent, txs)
    && Cumulative(receipts) && used == GasSum(receipts, |receipts|)
    && Solvent(w) && Total(w) == Total(parent) - BurntSum(txs, receipts, env)
    && (forall a {:trigger Nonce(w, a)} :: owned(a) ==> Nonce(w, a) == Nonce(parent, a) + Count(txs, a))
  }

  lemma EmptyLedger(parent: World, limit: Uint64, owned: Address -> bool, env: Env)
    requires Solvent(parent)
    ensures Ledger(parent, limit, owned, env, [], [], parent, 0, limit, 0)
  {
    var txs: seq<Transaction> := [];
    forall a ensures Count(txs, a) == 0 {
    }
  }

  lemma LedgerStep(zvm: Machine, parent: World, limit: Uint64, owned: Address -> bool, env: Env,
    txs: seq<Transaction>, receipts: seq<Receipt>, w: World, used: Uint64, pool: Uint64, tips: int,
    tx: Transaction, w': World, r: Receipt)
    requires WellBehaved(zvm, owned) && Ledger(parent, limit, owned, env, txs, receipts, w, used, pool, tips)
    requires Proper(tx, owned) && tx.sender.Some?
    requires Verdict(w, ToMessage(tx, env.baseFee).value, env, pool).None?
    requires Applies(zvm, w, ToMessage(tx, env.baseFee).value, env, w', ExecutionResult(r.gasUsed, r.failed))
    requires r.gasUsed <= pool && r.cumulativeGasUsed == used + r.gasUsed
    ensures Ledger(parent, limit, owned, env, txs + [tx], receipts + [r], w', used + r.gasUsed, pool - r.gasUsed,
                   tips + Fee(ToMessage(tx, env.baseFee).value, env, r.gasUsed))
  {
    var msg := ToMessage(tx, env.baseFee).value;
    ExecutedBehaves(zvm, owned, w, msg, env, pool);
    AppliedSafely(owned, w, msg, env, pool, Executed(zvm, w, msg));
    CumulativeAppend(receipts, r);
    BurntAppend(txs, receipts, env, tx, r);
    TipAppend(txs, receipts, env, tx, r);
    assert Nonce(w, msg.from) == Nonce(parent, msg.from) + Count(txs, msg.from);
    InSequenceAppend(parent, txs, tx);
    forall a {:trigger Nonce(w', a)} | owned(a) ensures Nonce(w', a) == Nonce(parent, a) + Count(txs + [tx], a) {
      CountAppend(txs, tx, a);
      assert Nonce(w, a) == Nonce(parent, a) + Count(txs, a);
    }
  }

  /** Why a transaction is refused in a world with some gas left in the pool, if it is. */
  function Refused(w: World, tx: Transaction, env: Env, pool: Uint64): Option<TxError> {
    if tx.sender.None? then Some(BadSignature) else Verdict(w, ToMessage(tx, env.baseFee).value, env, pool)
  }

  /**
    Applies one transaction and makes its receipt.  `limit` is the gas limit shared by the pool
    and the counter, which rules out overflow of the counter.
   */
  method ApplyTransaction(zvm: Machine, env: Env, tx: Transaction, gp: GasPool, state: StateDB, usedGas: GasCounter,
    ghost limit: Uint64, ghost owned: Address -> bool)
    returns (r: Result<Receipt, TxError>)
    requires WellBehaved(zvm, owned) && Proper(tx, owned) && gp.gas + usedGas.used == limit
    modifies gp, state, usedGas
    ensures r.Err? ==> usedGas.used == old(usedGas.used)
    ensures r.Err? ==> Refused(old(state.world), tx, env, old(gp.gas)) == Some(r.error)
    ensures r.Ok? ==>
              && Refused(old(state.world), tx, env, old(gp.gas)).None?
              && Applies(zvm, old(state.world), ToMessage(tx, env.baseFee).value, env, state.world,
                         ExecutionResult(r.value.gasUsed, r.value.failed))
              && r.value.gasUsed <= old(gp.gas) && gp.gas == old(gp.gas) - r.value.gasUsed
              && usedGas.used == r.value.cumulativeGasUsed == old(usedGas.used) + r.value.gasUsed
              && state.tips == old(state.tips) + Fee(ToMessage(tx, env.baseFee).value, env, r.value.gasUsed)
    ensures r.Err? ==> state.tips == old(state.tips)
  {
    var msg := ToMessage(tx, env.baseFee);
    if msg.Err? {
      return Err(msg.error);
    }
    var result := ApplyMessage(zvm, env, msg.value, gp, state, owned);
    if result.Err? {
      return Err(result.error);
    }
    usedGas.used := usedGas.used + result.value.usedGas;
    return Ok(Receipt(result.value.failed, usedGas.used, result.value.usedGas));
  }

  /** Applies the next transaction of a block whose ledger is right so far. */
  method ApplyNext(zvm: Machine, env: Env, tx: Transaction, gp: GasPool, state: StateDB, usedGas: GasCounter,
    ghost limit: Uint64, ghost owned: Address -> bool, ghost parent: World, ghost txs: seq<Transaction>, ghost receipts: seq<Receipt>,
    ghost base: int)
    returns (r: Result<Receipt, TxError>)
    requires WellBehaved(zvm, owned) && Proper(tx, owned)
    requires Ledger(parent, limit, owned, env, txs, receipts, state.world, usedGas.used, gp.gas, state.tips - base)
    modifies gp, state, usedGas
    ensures r.Ok? ==> Ledger(parent, limit, owned, env, txs + [tx], receipts + [r.value], state.world, usedGas.used, gp.gas, state.tips - base)
    ensures r.Err? ==> Refused(old(state.world), tx, env, old(gp.gas)) == Some(r.error) && usedGas.used == old(usedGas.used)
    ensures r.Err? ==> state.tips == old(state.tips)
    ensures r.Ok? ==>
              && Refused(old(state.world), tx, env, old(gp.gas)).None?
              && Applies(zvm, old(state.world), ToMessage(tx, env.baseFee).value, env, state.world,
                         ExecutionResult(r.value.gasUsed, r.value.failed))
              && gp.gas == old(gp.gas) - r.value.gasUsed
  {
    r := ApplyTransaction(zvm, env, tx, gp, state, usedGas, limit, owned);
    if r.Ok? {
      LedgerStep(zvm, parent, limit, owned, env, txs, receipts, old(state.world), old(usedGas.used), old(gp.gas), old(state.tips) - base,
                 tx, state.world, r.value);
    }
  }

  /**
    Applies all the transactions, or stops at the first that is refused.  The ledger holds for
    those that were applied.
   */
  method Process(zvm: Machine, env: Env, gasLimit: Uint64, txs: seq<Transaction>, state: StateDB, ghost owned: Address -> bool)
    returns (r: Result<(seq<Receipt>, Uint64), TxError>, ghost applied: seq<Receipt>, ghost before: World, ghost used: Uint64)
    requires Solvent(state.world) && WellBehaved(zvm, owned)
    requires forall i :: 0 <= i < |txs| ==> Proper(txs[i], owned)
    modifies state
    ensures |applied| <= |txs| && (r.Ok? <==> |applied| == |txs|) && used <= gasLimit
    ensures Ledger(old(state.world), gasLimit, owned, env, txs[..|applied|], applied, before, used, gasLimit - used, state.tips - old(state.tips))
    ensures r.Ok? ==> r.value == (applied, used) && state.world == before
    ensures r.Err? ==> Refused(before, txs[|applied|], env, gasLimit - used) == Some(r.error)
  {
    var receipts: seq<Receipt> := [];
    var usedGas := new GasCounter();
    var gp := new GasPool();
    gp.AddGas(gasLimit);
    applied, before, used := [], state.world, 0;
    for i := 0 to |txs|
      invariant fresh(usedGas) && fresh(gp)
      invariant |receipts| == i && applied == receipts && before == state.world && used == usedGas.used && gp.gas == gasLimit - used
      invariant Ledger(old(state.world), gasLimit, owned, env, txs[..i], receipts, before, used, gasLimit - used, state.tips - old(state.tips))
    {
      assert txs[..i + 1] == txs[..i] + [txs[i]];
      var receipt := ApplyNext(zvm, env, txs[i], gp, state, usedGas, gasLimit, owned, old(state.world), txs[..i], receipts, old(state.tips));
      if receipt.Err? {
        return Err(receipt.error), applied, before, used;
      }
      receipts := receipts + [receipt.value];
      applied, before, used := receipts, state.world, usedGas.used;
    }
    assert txs[..|txs|] == txs;
    return Ok((receipts, usedGas.used)), applied, before, used;
  }
}
