/**
  Building a block: the best pending transactions are tried one after the other, a
  failure leaves no trace, and the fees are added up at the end.
 */
module BlockBuilding {
  import opened Wrappers
  import opened Gas
  import opened WorldState
  import opened StateTransition
  import opened BlockProcessing
  import opened TxOrdering

  /** Why building was interrupted. */
  datatype Interruption = NewHeadArrived | Resubmit | Timeout

  /** The tip a transaction offers at a base fee. */
  function EffectiveGasTip(tx: Transaction, baseFee: nat): int {
    if tx.feeCap - baseFee < tx.tipCap then tx.feeCap - baseFee else tx.tipCap
  }

  /** The loop adds up the tips the receipts imply. */
  method TotalFees(txs: seq<Transaction>, receipts: seq<Receipt>, env: Env) returns (fees: int)
    requires |txs| == |receipts| && !env.noBaseFee
    requires forall i :: 0 <= i < |txs| ==> txs[i].sender.Some?
    ensures fees == TipSum(txs, receipts, env)
  {
    fees := 0;
    for i := 0 to |txs|
      invariant fees == TipSum(txs[..i], receipts[..i], env)
    {
      assert txs[..i + 1][..i] == txs[..i] && receipts[..i + 1][..i] == receipts[..i];
      fees := fees + Cost(receipts[i].gasUsed, EffectiveGasTip(txs[i], env.baseFee));
    }
    assert txs[..|txs|] == txs && receipts[..|txs|] == receipts;
  }

  /** Every transaction in the lists that still resolves was signed by a key. */
  ghost predicate Signed(lists: TxLists, owned: Address -> bool) {
    forall a, i :: a in lists && 0 <= i < |lists[a]| && lists[a][i].tx.Some? ==> Proper(lists[a][i].tx.value, owned)
  }

  lemma HeadIsSigned(heads: seq<Head>, txs: TxLists, input: TxLists, emitted: TxLists, baseFee: Option<nat>, owned: Address -> bool)
    requires Ready(heads, txs, input, emitted, baseFee) && heads != [] && Signed(input, owned)
    ensures heads[0].tx.tx.Some? ==> Proper(heads[0].tx.tx.value, owned)
  {
    var x := heads[0];
    assert x in multiset(heads);
    assert Placed(x, txs, input, emitted, baseFee);
    assert input[x.from][|emitted[x.from]|] == x.tx;
  }

  /** A place in a pending list. */
  datatype Pick = Pick(account: Address, pos: nat)

  /** The transaction is the one found at that place. */
  ghost predicate PickedFrom(lists: TxLists, tx: Transaction, pick: Pick) {
    pick.account in lists && pick.pos < |lists[pick.account]| && lists[pick.account][pick.pos].tx == Some(tx)
  }

  /** The transactions come from the lists, those of one account in the order of its list and none twice. */
  ghost predicate Drawn(lists: TxLists, added: seq<Transaction>, picks: seq<Pick>) {
    && |picks| == |added|
    && (forall i :: 0 <= i < |picks| ==> PickedFrom(lists, added[i], picks[i]))
    && (forall i, j :: 0 <= i < j < |picks| && picks[i].account == picks[j].account ==> picks[i].pos < picks[j].pos)
  }

  /** Every pick was emitted. */
  ghost predicate Behind(picks: seq<Pick>, emitted: TxLists) {
    forall i :: 0 <= i < |picks| ==> picks[i].account in emitted && picks[i].pos < |emitted[picks[i].account]|
  }

  /** The best head is the transaction its account's list has reached. */
  lemma HeadIsNext(heads: seq<Head>, txs: TxLists, input: TxLists, emitted: TxLists, dropped: set<Address>, baseFee: Option<nat>)
    requires Ready(heads, txs, input, emitted, baseFee) && heads != [] && Accounted(heads, input, emitted, dropped, baseFee)
    ensures var x := heads[0];
            && x.from in input && x.from in emitted && x.from !in dropped
            && |emitted[x.from]| < |input[x.from]| && input[x.from][|emitted[x.from]|] == x.tx
  {
    var x := heads[0];
    assert x in multiset(heads);
    assert Placed(x, txs, input, emitted, baseFee);
  }

  /** One more transaction, from the place the set has reached. */
  lemma DrawMore(lists: TxLists, added: seq<Transaction>, picks: seq<Pick>, emitted: TxLists, x: Head, tx: Transaction)
    requires Drawn(lists, added, picks) && Behind(picks, emitted) && x.from in emitted
    requires PickedFrom(lists, tx, Pick(x.from, |emitted[x.from]|))
    ensures Drawn(lists, added + [tx], picks + [Pick(x.from, |emitted[x.from]|)])
    ensures Behind(picks + [Pick(x.from, |emitted[x.from]|)], Emit(emitted, x))
  {
  }

  lemma BehindGrows(picks: seq<Pick>, emitted: TxLists, x: Head)
    requires Behind(picks, emitted)
    ensures Behind(picks, Emit(emitted, x))
  {
  }

  /** Two draws from disjoint parts of the lists make one. */
  lemma DrawnTwice(lists: TxLists, a: TxLists, b: TxLists, added: seq<Transaction>, more: seq<Transaction>, picks: seq<Pick>, others: seq<Pick>)
    requires Drawn(a, added, picks) && Drawn(b, more, others) && a.Keys !! b.Keys
    requires (forall k :: k in a ==> k in lists && lists[k] == a[k]) && (forall k :: k in b ==> k in lists && lists[k] == b[k])
    ensures Drawn(lists, added + more, picks + others)
  {
    forall i | 0 <= i < |picks + others| ensures PickedFrom(lists, (added + more)[i], (picks + others)[i]) {
      if i < |picks| {
        assert PickedFrom(a, added[i], picks[i]);
      } else {
        assert PickedFrom(b, more[i - |picks|], others[i - |picks|]);
      }
    }
    assert forall i :: 0 <= i < |picks| ==> picks[i].account in a;
    assert forall j :: 0 <= j < |others| ==> others[j].account in b;
  }

  /** The state and the gas left in the pool when a transaction has its turn. */
  datatype Turn = Turn(world: World, pool: Uint64)

  /** The k-th transaction was accepted in its turn and led to the next one. */
  ghost predicate Ran(zvm: Machine, env: Env, txs: seq<Transaction>, receipts: seq<Receipt>, turns: seq<Turn>, k: nat)
    requires k < |txs| == |receipts| && |turns| == |txs| + 1
  {
    && Refused(turns[k].world, txs[k], env, turns[k].pool).None?
    && Applies(zvm, turns[k].world, ToMessage(txs[k], env.baseFee).value, env, turns[k + 1].world,
               ExecutionResult(receipts[k].gasUsed, receipts[k].failed))
    && turns[k + 1].pool == turns[k].pool - receipts[k].gasUsed
  }

  /** From the parent state and a full pool, each transaction ran where the one before it ended. */
  ghost predicate History(zvm: Machine, env: Env, parent: World, limit: Uint64, txs: seq<Transaction>, receipts: seq<Receipt>, turns: seq<Turn>)
  {
    && |txs| == |receipts| && |turns| == |txs| + 1 && turns[0] == Turn(parent, limit)
    && (forall k: nat {:trigger Ran(zvm, env, txs, receipts, turns, k)} :: k < |txs| ==> Ran(zvm, env, txs, receipts, turns, k))
  }

  lemma HistoryGrows(zvm: Machine, env: Env, parent: World, limit: Uint64, txs: seq<Transaction>, receipts: seq<Receipt>, turns: seq<Turn>,
    tx: Transaction, r: Receipt, next: Turn)
    requires History(zvm, env, parent, limit, txs, receipts, turns)
    requires Refused(turns[|txs|].world, tx, env, turns[|txs|].pool).None?
    requires Applies(zvm, turns[|txs|].world, ToMessage(tx, env.baseFee).value, env, next.world, ExecutionResult(r.gasUsed, r.failed))
    requires next.pool == turns[|txs|].pool - r.gasUsed
    ensures History(zvm, env, parent, limit, txs + [tx], receipts + [r], turns + [next])
  {
    forall k: nat {:trigger Ran(zvm, env, txs + [tx], receipts + [r], turns + [next], k)} | k <= |txs|
      ensures Ran(zvm, env, txs + [tx], receipts + [r], turns + [next], k)
    {
      if k < |txs| {
        assert Ran(zvm, env, txs, receipts, turns, k);
      }
    }
  }

  /** What came of trying a transaction: it was added, it asked for more gas than was left, it was gone from the
      pool, or it was rejected. */
  datatype Outcome = Added | TooBig | Gone | Rejected(error: TxError)

  /** A transaction's turn, by the number of transactions in the block before it, and what came of it. */
  datatype Fate = Fate(at: nat, outcome: Outcome)

  /** After these the rest of the account's list is not tried. */
  predicate Drops(o: Outcome) { o == TooBig || o == Gone || (o.Rejected? && o.error != NonceTooLow) }

  /** The outcome is what the state and the pool of the turn call for. */
  ghost predicate Befell(ltx: LazyTransaction, fate: Fate, txs: seq<Transaction>, turns: seq<Turn>, env: Env) {
    && fate.at < |turns|
    && var turn := turns[fate.at];
    match fate.outcome
    case TooBig => turn.pool < ltx.gas
    case Gone => turn.pool >= ltx.gas && ltx.tx.None?
    case Added => turn.pool >= ltx.gas && fate.at < |txs| && ltx.tx == Some(txs[fate.at]) && Refused(turn.world, txs[fate.at], env, turn.pool).None?
    case Rejected(e) => turn.pool >= ltx.gas && ltx.tx.Some? && Refused(turn.world, ltx.tx.value, env, turn.pool) == Some(e)
  }

  /** What is known of a place in the lists: it was tried exactly if the set has emitted it, and it made its
      account be dropped exactly if it was the last tried of a dropped account. */
  ghost predicate TriedAt(input: TxLists, emitted: TxLists, dropped: set<Address>, fates: map<Pick, Fate>,
    txs: seq<Transaction>, turns: seq<Turn>, env: Env, k: Pick)
  {
    && (k in fates <==> k.account in emitted && k.pos < |emitted[k.account]|)
    && (k in fates ==>
          && k.account in input && k.pos < |input[k.account]|
          && Befell(input[k.account][k.pos], fates[k], txs, turns, env)
          && (Drops(fates[k].outcome) <==> k.account in dropped && k.pos + 1 == |emitted[k.account]|))
  }

  ghost predicate Tried(input: TxLists, emitted: TxLists, dropped: set<Address>, fates: map<Pick, Fate>,
    txs: seq<Transaction>, turns: seq<Turn>, env: Env)
  {
    && (forall k {:trigger TriedAt(input, emitted, dropped, fates, txs, turns, env, k)} ::
          TriedAt(input, emitted, dropped, fates, txs, turns, env, k))
    && (forall a :: a in dropped ==> a in emitted && emitted[a] != [])
  }

  lemma NoneTried(input: TxLists, txs: seq<Transaction>, turns: seq<Turn>, env: Env)
    ensures Tried(input, Unemitted(input), {}, map[], txs, turns, env)
  {
  }

  /** One more is tried, and its account dropped or not. */
  lemma TryOne(x: Head, input: TxLists, emitted: TxLists, dropped: set<Address>, dropped': set<Address>, fates: map<Pick, Fate>,
    fate: Fate, txs: seq<Transaction>, turns: seq<Turn>, txs': seq<Transaction>, turns': seq<Turn>, env: Env)
    requires Tried(input, emitted, dropped, fates, txs, turns, env) && txs <= txs' && turns <= turns'
    requires x.from in input && x.from in emitted && x.from !in dropped
    requires |emitted[x.from]| < |input[x.from]| && input[x.from][|emitted[x.from]|] == x.tx
    requires Befell(x.tx, fate, txs', turns', env)
    requires dropped' == dropped + if Drops(fate.outcome) then {x.from} else {}
    ensures Tried(input, Emit(emitted, x), dropped', fates[Pick(x.from, |emitted[x.from]|) := fate], txs', turns', env)
  {
    var done, more := Emit(emitted, x), fates[Pick(x.from, |emitted[x.from]|) := fate];
    forall k {:trigger TriedAt(input, done, dropped', more, txs', turns', env, k)}
      ensures TriedAt(input, done, dropped', more, txs', turns', env, k)
    {
      assert TriedAt(input, emitted, dropped, fates, txs, turns, env, k);
    }
  }

  /** A fate as the outside sees it: what befell the transaction, and that all before it on its account's list
      were tried and did not make the account be dropped. */
  ghost predicate ToldAt(lists: TxLists, fates: map<Pick, Fate>, txs: seq<Transaction>, turns: seq<Turn>, env: Env, k: Pick) {
    k in fates ==>
      && k.account in lists && k.pos < |lists[k.account]|
      && Befell(lists[k.account][k.pos], fates[k], txs, turns, env)
      && (forall q :: 0 <= q < k.pos ==> Pick(k.account, q) in fates && !Drops(fates[Pick(k.account, q)].outcome))
  }

  ghost predicate Told(lists: TxLists, fates: map<Pick, Fate>, txs: seq<Transaction>, turns: seq<Turn>, env: Env) {
    forall k {:trigger ToldAt(lists, fates, txs, turns, env, k)} :: ToldAt(lists, fates, txs, turns, env, k)
  }

  lemma TriedIsTold(input: TxLists, emitted: TxLists, dropped: set<Address>, fates: map<Pick, Fate>,
    txs: seq<Transaction>, turns: seq<Turn>, env: Env)
    requires Tried(input, emitted, dropped, fates, txs, turns, env)
    ensures Told(input, fates, txs, turns, env)
  {
    forall k {:trigger ToldAt(input, fates, txs, turns, env, k)} ensures ToldAt(input, fates, txs, turns, env, k) {
      assert TriedAt(input, emitted, dropped, fates, txs, turns, env, k);
      forall q | 0 <= q < k.pos && k in fates ensures Pick(k.account, q) in fates && !Drops(fates[Pick(k.account, q)].outcome) {
        assert TriedAt(input, emitted, dropped, fates, txs, turns, env, Pick(k.account, q));
      }
    }
  }

  /** Why a transaction of the lists is or is not in the block: it was tried, there is no gas left for any
      transaction, it or one before it cannot pay the base fee, or one before it made its account be dropped. */
  ghost predicate Explained(lists: TxLists, baseFee: Option<nat>, fates: map<Pick, Fate>, room: Uint64, k: Pick) {
    k.account in lists && k.pos < |lists[k.account]| ==>
      || k in fates
      || room < 21000
      || (baseFee.Some? && exists q :: 0 <= q <= k.pos && lists[k.account][q].feeCap < baseFee.value)
      || (exists q :: 0 <= q < k.pos && Pick(k.account, q) in fates && Drops(fates[Pick(k.account, q)].outcome))
  }

  ghost predicate AllExplained(lists: TxLists, baseFee: Option<nat>, fates: map<Pick, Fate>, room: Uint64) {
    forall k {:trigger Explained(lists, baseFee, fates, room, k)} :: Explained(lists, baseFee, fates, room, k)
  }

  /** When no head is left, or no gas, nothing in the lists was passed over. */
  lemma NothingPassedOver(heads: seq<Head>, input: TxLists, emitted: TxLists, dropped: set<Address>, baseFee: Option<nat>,
    fates: map<Pick, Fate>, txs: seq<Transaction>, turns: seq<Turn>, env: Env, room: Uint64)
    requires Accounted(heads, input, emitted, dropped, baseFee) && Tried(input, emitted, dropped, fates, txs, turns, env)
    requires heads == [] || room < 21000
    ensures AllExplained(input, baseFee, fates, room)
  {
    forall k {:trigger Explained(input, baseFee, fates, room, k)} ensures Explained(input, baseFee, fates, room, k) {
      if k.account in input && k.pos < |input[k.account]| && k !in fates && room >= 21000 {
        assert Standing(heads, input, emitted, dropped, baseFee, k.account);
        assert TriedAt(input, emitted, dropped, fates, txs, turns, env, k);
        if k.account in dropped {
          var last := |emitted[k.account]| - 1;
          assert TriedAt(input, emitted, dropped, fates, txs, turns, env, Pick(k.account, last));
          assert 0 <= last < k.pos;
        }
      }
    }
  }

  lemma BefellStays(ltx: LazyTransaction, fate: Fate, txs: seq<Transaction>, turns: seq<Turn>, txs': seq<Transaction>, turns': seq<Turn>, env: Env)
    requires Befell(ltx, fate, txs, turns, env) && txs <= txs' && turns <= turns'
    ensures Befell(ltx, fate, txs', turns', env)
  {
  }

  /** The fates of two disjoint parts of the lists, one tried after the other, make one. */
  lemma ToldTwice(lists: TxLists, a: TxLists, b: TxLists, fates: map<Pick, Fate>, others: map<Pick, Fate>,
    txs: seq<Transaction>, turns: seq<Turn>, txs': seq<Transaction>, turns': seq<Turn>, env: Env)
    requires Told(a, fates, txs, turns, env) && Told(b, others, txs', turns', env) && txs <= txs' && turns <= turns' && a.Keys !! b.Keys
    requires (forall k :: k in a ==> k in lists && lists[k] == a[k]) && (forall k :: k in b ==> k in lists && lists[k] == b[k])
    ensures Told(lists, fates + others, txs', turns', env)
    ensures forall k :: k in fates ==> k in fates + others && (fates + others)[k] == fates[k]
  {
    forall k | k in fates ensures k !in others {
      assert ToldAt(a, fates, txs, turns, env, k) && ToldAt(b, others, txs', turns', env, k);
    }
    forall k {:trigger ToldAt(lists, fates + others, txs', turns', env, k)} ensures ToldAt(lists, fates + others, txs', turns', env, k) {
      if k in others {
        assert ToldAt(b, others, txs', turns', env, k);
      } else if k in fates {
        assert ToldAt(a, fates, txs, turns, env, k);
        BefellStays(a[k.account][k.pos], fates[k], txs, turns, txs', turns', env);
      }
    }
  }

  lemma ExplainedTwice(lists: TxLists, a: TxLists, b: TxLists, baseFee: Option<nat>, fates: map<Pick, Fate>, others: map<Pick, Fate>,
    room: Uint64, room': Uint64)
    requires AllExplained(a, baseFee, fates, room) && AllExplained(b, baseFee, others, room') && room' <= room
    requires lists.Keys == a.Keys + b.Keys
    requires (forall k :: k in a ==> lists[k] == a[k]) && (forall k :: k in b ==> lists[k] == b[k])
    requires forall k :: k in fates ==> k in fates + others && (fates + others)[k] == fates[k]
    ensures AllExplained(lists, baseFee, fates + others, room')
  {
    forall k {:trigger Explained(lists, baseFee, fates + others, room', k)} ensures Explained(lists, baseFee, fates + others, room', k) {
      if k.account in a {
        assert Explained(a, baseFee, fates, room, k);
      } else if k.account in b {
        assert Explained(b, baseFee, others, room', k);
      }
    }
  }

  /** What two fillings leave, together. */
  lemma FilledTwice(lists: TxLists, a: TxLists, b: TxLists, first: nat, picks: seq<Pick>, others: seq<Pick>, fates: map<Pick, Fate>,
    fates': map<Pick, Fate>, txs: seq<Transaction>, turns: seq<Turn>, room: Uint64, txs': seq<Transaction>, turns': seq<Turn>, room': Uint64,
    env: Env, complete: bool)
    requires a.Keys !! b.Keys && lists.Keys == a.Keys + b.Keys
    requires (forall k :: k in a ==> lists[k] == a[k]) && (forall k :: k in b ==> lists[k] == b[k])
    requires first <= |txs| && txs <= txs' && turns <= turns' && room' <= room
    requires Drawn(a, txs[first..], picks) && Drawn(b, txs'[|txs|..], others)
    requires Told(a, fates, txs, turns, env) && Told(b, fates', txs', turns', env)
    requires complete ==> AllExplained(a, Some(env.baseFee), fates, room) && AllExplained(b, Some(env.baseFee), fates', room')
    ensures Drawn(lists, txs'[first..], picks + others) && Told(lists, fates + fates', txs', turns', env)
    ensures complete ==> AllExplained(lists, Some(env.baseFee), fates + fates', room')
  {
    DrawnTwice(lists, a, b, txs[first..], txs'[|txs|..], picks, others);
    assert txs'[first..] == txs[first..] + txs'[|txs|..];
    ToldTwice(lists, a, b, fates, fates', txs, turns, txs', turns', env);
    if complete {
      ExplainedTwice(lists, a, b, Some(env.baseFee), fates, fates', room, room');
    }
  }

  /** Each account's list goes, whole, to the local or the remote side. */
  method Split(pending: TxLists, locals: seq<Address>) returns (local: TxLists, remote: TxLists)
    requires NonEmpty(pending)
    ensures remote == map a | a in pending && a !in locals :: pending[a]
    ensures local == map a | a in pending && a in locals :: pending[a]
  {
    local, remote := map[], pending;
    for i := 0 to |locals|
      invariant remote == map a | a in pending && a !in locals[..i] :: pending[a]
      invariant local == map a | a in pending && a in locals[..i] :: pending[a]
    {
      var account := locals[i];
      assert locals[..i + 1] == locals[..i] + [account];
      if account in remote && |remote[account]| > 0 {
        local := local[account := remote[account]];
        remote := remote - {account};
      }
    }
    assert locals[..|locals|] == locals;
  }

  /** Either the account's next transaction has its turn, or the account is dropped. */
  method MoveOn(candidates: TransactionsByPriceAndNonce, next: bool)
    requires candidates.Valid() && candidates.heads != []
    modifies candidates
    ensures candidates.Valid() && candidates.emitted == Emit(old(candidates.emitted), old(candidates.heads[0]))
    ensures candidates.dropped == old(candidates.dropped) + if next then {} else {old(candidates.heads[0]).from}
    ensures Left(candidates.txs) < Left(old(candidates.txs)) ||
            (Left(candidates.txs) == Left(old(candidates.txs)) && |candidates.heads| < |old(candidates.heads)|)
  {
    if next {
      candidates.Shift();
    } else {
      candidates.Pop();
    }
  }

  /** One more transaction, added or not, from the place the set has reached. */
  lemma DrawOrNot(lists: TxLists, before: seq<Transaction>, txs: seq<Transaction>, first: nat, picks: seq<Pick>, emitted: TxLists, x: Head)
    returns (more: seq<Pick>)
    requires first <= |before| && Drawn(lists, before[first..], picks) && Behind(picks, emitted)
    requires x.from in lists && x.from in emitted && |emitted[x.from]| < |lists[x.from]| && lists[x.from][|emitted[x.from]|] == x.tx
    requires txs == before || (x.tx.tx.Some? && txs == before + [x.tx.tx.value])
    ensures first <= |txs| && Drawn(lists, txs[first..], more) && Behind(more, Emit(emitted, x))
  {
    more := picks;
    if txs == before {
      BehindGrows(picks, emitted, x);
    } else {
      DrawMore(lists, before[first..], picks, emitted, x, x.tx.tx.value);
      assert txs[first..] == before[first..] + [x.tx.tx.value];
      more := picks + [Pick(x.from, |emitted[x.from]|)];
    }
  }

  class Environment {
    const zvm: Machine
    const env: Env
    const gasLimit: Uint64
    const state: StateDB
    const gasUsed: GasCounter
    var gasPool: GasPool?
    var txs: seq<Transaction>
    var receipts: seq<Receipt>
    var tcount: nat
    ghost const parent: World
    ghost const owned: Address -> bool
    ghost var turns: seq<Turn>

    ghost predicate Valid()
      reads this, state, gasUsed, gasPool
    {
      && !env.noBaseFee && WellBehaved(zvm, owned) && tcount == |txs|
      && Ledger(parent, gasLimit, owned, env, txs, receipts, state.world, gasUsed.used, Room(), state.tips)
      && History(zvm, env, parent, gasLimit, txs, receipts, turns) && turns[|txs|] == Turn(state.world, Room())
    }

    /** The gas left for further transactions. */
    ghost function Room(): Uint64
      reads this`gasPool, gasPool
    {
      if gasPool == null then gasLimit else gasPool.gas
    }

    /** An empty block on top of the parent state. */
    constructor (zvm: Machine, coinbase: Address, baseFee: nat, gasLimit: Uint64, parent: World, ghost owned: Address -> bool)
      requires WellBehaved(zvm, owned) && Solvent(parent)
      ensures Valid() && this.parent == parent && this.owned == owned && this.gasLimit == gasLimit
      ensures env == Env(coinbase, baseFee, false) && txs == [] && fresh(state) && fresh(gasUsed) && gasPool == null
    {
      EmptyLedger(parent, gasLimit, owned, Env(coinbase, baseFee, false));
      this.zvm, this.env, this.gasLimit := zvm, Env(coinbase, baseFee, false), gasLimit;
      var db := new StateDB(parent);
      var counter := new GasCounter();
      state, gasUsed, gasPool := db, counter, null;
      txs, receipts, tcount := [], [], 0;
      this.parent, this.owned, turns := parent, owned, [Turn(parent, gasLimit)];
    }

    /** Runs a transaction; on failure the state and the pool are put back. */
    method ApplyTransaction(tx: Transaction) returns (r: Result<Receipt, TxError>)
      requires Valid() && gasPool != null && Proper(tx, owned)
      modifies state, gasUsed, gasPool
      ensures r.Ok? ==>
                && Ledger(parent, gasLimit, owned, env, txs + [tx], receipts + [r.value], state.world, gasUsed.used, gasPool.gas, state.tips)
                && History(zvm, env, parent, gasLimit, txs + [tx], receipts + [r.value], turns + [Turn(state.world, gasPool.gas)])
                && Refused(old(state.world), tx, env, old(gasPool.gas)).None? && gasPool.gas <= old(gasPool.gas)
      ensures r.Err? ==>
                && Refused(old(state.world), tx, env, old(gasPool.gas)) == Some(r.error)
                && state.world == old(state.world) && gasPool.gas == old(gasPool.gas) && gasUsed.used == old(gasUsed.used)
                && state.tips == old(state.tips)
    {
      var snapshot, gas := state.world, gasPool.gas;
      r := ApplyNext(zvm, env, tx, gasPool, state, gasUsed, gasLimit, owned, parent, txs, receipts, 0);
      if r.Err? {
        state.world := snapshot;
        gasPool.SetGas(gas);
      } else {
        HistoryGrows(zvm, env, parent, gasLimit, txs, receipts, turns, tx, r.value, Turn(state.world, gasPool.gas));
      }
    }

    /** Adds a transaction to the block, or refuses it and changes nothing. */
    method CommitTransaction(tx: Transaction) returns (err: Option<TxError>)
      requires Valid() && gasPool != null && Proper(tx, owned)
      modifies this`txs, this`receipts, this`tcount, this`turns, state, gasUsed, gasPool
      ensures Valid() && err == Refused(old(state.world), tx, env, old(gasPool.gas))
      ensures err.None? ==>
                && txs == old(txs) + [tx] && old(receipts) <= receipts && |receipts| == |old(receipts)| + 1
                && turns == old(turns) + [Turn(state.world, gasPool.gas)] && gasPool.gas <= old(gasPool.gas)
      ensures err.Some? ==>
                && txs == old(txs) && receipts == old(receipts) && turns == old(turns)
                && state.world == old(state.world) && gasPool.gas == old(gasPool.gas) && gasUsed.used == old(gasUsed.used)
                && state.tips == old(state.tips)
    {
      var receipt := ApplyTransaction(tx);
      if receipt.Err? {
        return Some(receipt.error);
      }
      txs, receipts, tcount := txs + [tx], receipts + [receipt.value], tcount + 1;
      turns := turns + [Turn(state.world, gasPool.gas)];
      return None;
    }

    /** Tries a transaction: it is added to the block exactly if it fits into the pool, is still there and is not
        refused.  The account's next one has its turn if it was added or its nonce was used up. */
    method Attempt(ltx: LazyTransaction) returns (next: bool, ghost fate: Fate)
      requires Valid() && gasPool != null && (ltx.tx.Some? ==> Proper(ltx.tx.value, owned))
      modifies this`txs, this`receipts, this`tcount, this`turns, state, gasUsed, gasPool
      ensures Valid() && old(txs) <= txs && old(turns) <= turns && gasPool.gas <= old(gasPool.gas)
      ensures fate.at == |old(txs)| && Befell(ltx, fate, txs, turns, env) && next == !Drops(fate.outcome)
      ensures if ltx.gas <= old(gasPool.gas) && ltx.tx.Some? && Refused(old(state.world), ltx.tx.value, env, old(gasPool.gas)).None?
              then txs == old(txs) + [ltx.tx.value]
              else txs == old(txs) && state.world == old(state.world) && gasPool.gas == old(gasPool.gas)
    {
      if gasPool.gas < ltx.gas {
        return false, Fate(|txs|, TooBig);
      }
      if ltx.tx.None? {
        return false, Fate(|txs|, Gone);
      }
      var err := CommitTransaction(ltx.tx.value);
      return err == Some(NonceTooLow) || err == None, Fate(|old(txs)|, if err.None? then Added else Rejected(err.value));
    }

    /**
      Tries the best transaction of the set and moves the set on.  It is added to the block exactly if it fits into
      the pool, is still there and is not refused; if it was added or its nonce was used up, the set moves on to
      the account's next transaction, and otherwise the account is dropped.
     */
    method TryBest(candidates: TransactionsByPriceAndNonce) returns (ghost fate: Fate)
      requires Valid() && gasPool != null && candidates.Valid() && candidates.heads != [] && Signed(candidates.input, owned)
      modifies this`txs, this`receipts, this`tcount, this`turns, state, gasUsed, gasPool, candidates
      ensures Valid() && candidates.Valid() && old(txs) <= txs && old(turns) <= turns && gasPool.gas <= old(gasPool.gas)
      ensures candidates.emitted == Emit(old(candidates.emitted), old(candidates.heads[0]))
      ensures Left(candidates.txs) < Left(old(candidates.txs)) ||
              (Left(candidates.txs) == Left(old(candidates.txs)) && |candidates.heads| < |old(candidates.heads)|)
      ensures fate.at == |old(txs)| && Befell(old(candidates.heads[0]).tx, fate, txs, turns, env)
      ensures candidates.dropped == old(candidates.dropped) + if Drops(fate.outcome) then {old(candidates.heads[0]).from} else {}
      ensures var ltx := old(candidates.heads[0]).tx;
              if ltx.gas <= old(gasPool.gas) && ltx.tx.Some? && Refused(old(state.world), ltx.tx.value, env, old(gasPool.gas)).None?
              then txs == old(txs) + [ltx.tx.value]
              else txs == old(txs) && state.world == old(state.world) && gasPool.gas == old(gasPool.gas)
    {
      HeadIsSigned(candidates.heads, candidates.txs, candidates.input, candidates.emitted, candidates.baseFee, owned);
      var next;
      next, fate := Attempt(candidates.heads[0].tx);
      MoveOn(candidates, next);
    }

    /** What is kept track of while a set is being used up: where the added transactions come from, and if the
        set is used from its beginning, the fate of every transaction tried. */
    ghost predicate Tracks(candidates: TransactionsByPriceAndNonce, first: nat, picks: seq<Pick>, fates: map<Pick, Fate>, whole: bool)
      reads this`txs, this`turns, candidates
    {
      && first <= |txs| && Drawn(candidates.input, txs[first..], picks) && Behind(picks, candidates.emitted)
      && (whole ==> Tried(candidates.input, candidates.emitted, candidates.dropped, fates, txs, turns, env))
    }

    /** The same, keeping track. */
    method TryNext(candidates: TransactionsByPriceAndNonce, ghost first: nat, ghost picks: seq<Pick>, ghost fates: map<Pick, Fate>, ghost whole: bool)
      returns (ghost more: seq<Pick>, ghost fates': map<Pick, Fate>)
      requires Valid() && gasPool != null && candidates.Valid() && candidates.heads != [] && Signed(candidates.input, owned)
      requires Tracks(candidates, first, picks, fates, whole)
      modifies this`txs, this`receipts, this`tcount, this`turns, state, gasUsed, gasPool, candidates
      ensures Valid() && candidates.Valid() && old(txs) <= txs && old(turns) <= turns && gasPool.gas <= old(gasPool.gas)
      ensures Left(candidates.txs) < Left(old(candidates.txs)) ||
              (Left(candidates.txs) == Left(old(candidates.txs)) && |candidates.heads| < |old(candidates.heads)|)
      ensures Tracks(candidates, first, more, fates', whole)
    {
      ghost var x, emitted, dropped, before, turns0 := candidates.heads[0], candidates.emitted, candidates.dropped, txs, turns;
      HeadIsNext(candidates.heads, candidates.txs, candidates.input, emitted, dropped, candidates.baseFee);
      ghost var fate := TryBest(candidates);
      if whole {
        TryOne(x, candidates.input, emitted, dropped, candidates.dropped, fates, fate, before, turns0, txs, turns, env);
      }
      fates' := fates[Pick(x.from, |emitted[x.from]|) := fate];
      more := DrawOrNot(candidates.input, before, txs, first, picks, emitted, x);
    }

    /** The pool is set up on first use. */
    method EnsurePool()
      requires Valid()
      modifies this`gasPool
      ensures Valid() && gasPool != null
      ensures if old(gasPool) == null then fresh(gasPool) && gasPool.gas == gasLimit else gasPool == old(gasPool)
    {
      if gasPool == null {
        var pool := new GasPool();
        pool.AddGas(gasLimit);
        gasPool := pool;
      }
    }

    /** What filling the block from some lists leaves: the fate of every transaction tried, and if nothing
        interrupted it, the reason why any other was not. */
    ghost predicate Filled(lists: TxLists, baseFee: Option<nat>, first: nat, picks: seq<Pick>, fates: map<Pick, Fate>, complete: bool)
      reads this`txs, this`turns, this`gasPool, gasPool
    {
      && first <= |txs| && Drawn(lists, txs[first..], picks) && Told(lists, fates, txs, turns, env)
      && (complete ==> AllExplained(lists, baseFee, fates, Room()))
    }

    /**
      Fills the block from a set until it is interrupted, the pool cannot hold another
      transaction, or the set is used up.
     */
    method CommitLoop(candidates: TransactionsByPriceAndNonce, interruptible: bool)
      returns (err: Option<Interruption>, ghost picks: seq<Pick>, ghost fates: map<Pick, Fate>)
      requires Valid() && gasPool != null && candidates.Valid() && Signed(candidates.input, owned)
      modifies this`txs, this`receipts, this`tcount, this`turns, state, gasUsed, gasPool, candidates
      ensures Valid() && candidates.Valid() && old(txs) <= txs && old(turns) <= turns && gasPool.gas <= old(gasPool.gas)
      ensures err.None? ==> gasPool.gas < TX_GAS || candidates.heads == []
      ensures !interruptible ==> err.None?
      ensures Drawn(candidates.input, txs[|old(txs)|..], picks)
      ensures old(candidates.Unused()) ==> Filled(candidates.input, candidates.baseFee, |old(txs)|, picks, fates, err.None?)
    {
      picks, fates := [], map[];
      ghost var whole := candidates.Unused();
      NoneTried(candidates.input, txs, turns, env);
      while true
        invariant Valid() && candidates.Valid() && old(txs) <= txs && old(turns) <= turns && gasPool.gas <= old(gasPool.gas)
        invariant Tracks(candidates, |old(txs)|, picks, fates, whole)
        decreases Left(candidates.txs), |candidates.heads|
        modifies this`txs, this`receipts, this`tcount, this`turns, state, gasUsed, gasPool, candidates
      {
        var signal: int := *;
        if interruptible && 1 <= signal <= 3 {
          err := Some(if signal == 1 then NewHeadArrived else if signal == 2 then Resubmit else Timeout);
          break;
        }
        if gasPool.gas < TX_GAS {
          err := None;
          break;
        }
        var best := candidates.Peek();
        if best.None? {
          err := None;
          break;
        }
        picks, fates := TryNext(candidates, |old(txs)|, picks, fates, whole);
      }
      if whole {
        Account(candidates, |old(txs)|, picks, fates, err.None?);
      }
    }

    /** What was kept track of, as the outside sees it. */
    lemma Account(candidates: TransactionsByPriceAndNonce, first: nat, picks: seq<Pick>, fates: map<Pick, Fate>, complete: bool)
      requires candidates.Valid() && Tracks(candidates, first, picks, fates, true)
      requires complete ==> candidates.heads == [] || Room() < 21000
      ensures Filled(candidates.input, candidates.baseFee, first, picks, fates, complete)
    {
      TriedIsTold(candidates.input, candidates.emitted, candidates.dropped, fates, txs, turns, env);
      if complete {
        NothingPassedOver(candidates.heads, candidates.input, candidates.emitted, candidates.dropped, candidates.baseFee,
                          fates, txs, turns, env, Room());
      }
    }

    method CommitTransactions(candidates: TransactionsByPriceAndNonce, interruptible: bool)
      returns (err: Option<Interruption>, ghost picks: seq<Pick>, ghost fates: map<Pick, Fate>)
      requires Valid() && candidates.Valid() && Signed(candidates.input, owned)
      modifies this`gasPool, this`txs, this`receipts, this`tcount, this`turns, state, gasUsed, gasPool, candidates
      ensures Valid() && candidates.Valid() && old(txs) <= txs && old(turns) <= turns && gasPool != null && Room() <= old(Room())
      ensures if old(gasPool) == null then fresh(gasPool) else gasPool == old(gasPool)
      ensures err.None? ==> gasPool.gas < TX_GAS || candidates.heads == []
      ensures !interruptible ==> err.None?
      ensures Drawn(candidates.input, txs[|old(txs)|..], picks)
      ensures old(candidates.Unused()) ==> Filled(candidates.input, candidates.baseFee, |old(txs)|, picks, fates, err.None?)
    {
      EnsurePool();
      err, picks, fates := CommitLoop(candidates, interruptible);
    }

    /** Fills the block with the local accounts' transactions, then with the others'. */
    method FillTransactions(pending: TxLists, locals: seq<Address>, interruptible: bool)
      returns (err: Option<Interruption>, ghost picks: seq<Pick>, ghost fates: map<Pick, Fate>)
      requires Valid() && NonEmpty(pending) && Signed(pending, owned)
      modifies this`gasPool, this`txs, this`receipts, this`tcount, this`turns, state, gasUsed, gasPool
      ensures Valid() && old(txs) <= txs
      ensures InSequence(parent, txs) && Solvent(state.world) && Total(state.world) == Total(parent) - BurntSum(txs, receipts, env)
      ensures Cumulative(receipts) && gasUsed.used == GasSum(receipts, |receipts|) <= gasLimit
      ensures !interruptible ==> err.None?
      ensures Filled(pending, Some(env.baseFee), |old(txs)|, picks, fates, err.None?)
    {
      var local, remote := Split(pending, locals);
      err, picks, fates := FillBoth(pending, local, remote, interruptible);
    }

    /** One side after the other, unless the first is interrupted. */
    method FillBoth(ghost pending: TxLists, local: TxLists, remote: TxLists, interruptible: bool)
      returns (err: Option<Interruption>, ghost picks: seq<Pick>, ghost fates: map<Pick, Fate>)
      requires Valid() && NonEmpty(local) && NonEmpty(remote) && Signed(local, owned) && Signed(remote, owned)
      requires local.Keys !! remote.Keys && pending.Keys == local.Keys + remote.Keys
      requires forall k :: k in local ==> pending[k] == local[k]
      requires forall k :: k in remote ==> pending[k] == remote[k]
      modifies this`gasPool, this`txs, this`receipts, this`tcount, this`turns, state, gasUsed, gasPool
      ensures Valid() && old(txs) <= txs
      ensures !interruptible ==> err.None?
      ensures Filled(pending, Some(env.baseFee), |old(txs)|, picks, fates, err.None?)
    {
      err, picks, fates := FillFrom(local, interruptible);
      ghost var between, turns0, room := txs, turns, Room();
      ghost var others, fates' := [], map[];
      if err.None? {
        err, others, fates' := FillFrom(remote, interruptible);
      }
      FilledTwice(pending, local, remote, |old(txs)|, picks, others, fates, fates', between, turns0, room, txs, turns, Room(), env, err.None?);
      picks, fates := picks + others, fates + fates';
    }

    /** Fills the block from one side's lists, if there are any. */
    method FillFrom(lists: TxLists, interruptible: bool)
      returns (err: Option<Interruption>, ghost picks: seq<Pick>, ghost fates: map<Pick, Fate>)
      requires Valid() && NonEmpty(lists) && Signed(lists, owned)
      modifies this`gasPool, this`txs, this`receipts, this`tcount, this`turns, state, gasUsed, gasPool
      ensures Valid() && old(txs) <= txs && old(turns) <= turns && Room() <= old(Room())
      ensures !interruptible ==> err.None?
      ensures if old(gasPool) == null then gasPool == null || fresh(gasPool) else gasPool == old(gasPool)
      ensures Filled(lists, Some(env.baseFee), |old(txs)|, picks, fates, err.None?)
    {
      err, picks, fates := None, [], map[];
      if |lists| > 0 {
        var best := new TransactionsByPriceAndNonce(lists, Some(env.baseFee));
        err, picks, fates := CommitTransactions(best, interruptible);
      }
    }

    /** The fees reported for the block are what the coinbase gained in tips while it was built, and what the
        senders paid for gas less what was burnt. */
    method BlockFees() returns (fees: int)
      requires Valid()
      ensures fees == state.tips == PaidSum(txs, receipts, env) - BurntSum(txs, receipts, env)
    {
      forall i: nat | i < |txs| ensures txs[i].sender.Some? {
        assert InTurn(parent, txs, i);
      }
      fees := TotalFees(txs, receipts, env);
    }

    /** Fills the block and reports its fees, as payload generation does. */
    method Generate(pending: TxLists, locals: seq<Address>, interruptible: bool)
      returns (err: Option<Interruption>, fees: int, ghost picks: seq<Pick>, ghost fates: map<Pick, Fate>)
      requires Valid() && NonEmpty(pending) && Signed(pending, owned)
      modifies this`gasPool, this`txs, this`receipts, this`tcount, this`turns, state, gasUsed, gasPool
      ensures Valid() && fees == state.tips == PaidSum(txs, receipts, env) - BurntSum(txs, receipts, env)
      ensures old(txs) <= txs && Filled(pending, Some(env.baseFee), |old(txs)|, picks, fates, err.None?)
    {
      err, picks, fates := FillTransactions(pending, locals, interruptible);
      fees := BlockFees();
    }
  }
}
