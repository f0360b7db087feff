/**
  The set of pending transactions a block is filled from: a price heap with the next
  transaction of each account, and the rest of each account's list.
 */
module TxOrdering {
  import opened Wrappers
  import opened Gas
  import opened Heaps
  import opened Sums
  import opened WorldState
  import opened StateTransition

  /** A pooled transaction, with what `Resolve` will find of it. */
  datatype LazyTransaction = LazyTransaction(tx: Option<Transaction>, time: int, gas: Uint64, tipCap: nat, feeCap: nat)

  type TxLists = map<Address, seq<LazyTransaction>>

  datatype Head = Head(tx: LazyTransaction, from: Address, fees: int)

  /** A base fee above the fee cap rules the transaction out. */
  predicate Affordable(tx: LazyTransaction, baseFee: Option<nat>) {
    baseFee.Some? ==> baseFee.value <= tx.feeCap
  }

  function MinerFee(tx: LazyTransaction, baseFee: Option<nat>): int {
    if baseFee.None? then tx.tipCap else Tip(tx.tipCap, tx.feeCap, baseFee.value)
  }

  function NewHead(tx: LazyTransaction, from: Address, baseFee: Option<nat>): Option<Head> {
    if Affordable(tx, baseFee) then Some(Head(tx, from, MinerFee(tx, baseFee))) else None
  }

  /** Higher fees first, then the earlier arrival. */
  predicate Better(a: Head, b: Head) {
    if a.fees == b.fees then a.tx.time < b.tx.time else a.fees > b.fees
  }

  predicate RightBetter(a: Head, b: Head) { Better(b, a) }

  lemma FeeOrdering()
    ensures Ordering(Better, RightBetter)
  {
  }

  /** At most one head for each account. */
  ghost predicate Unique(heads: seq<Head>) {
    && (forall x :: x in multiset(heads) ==> multiset(heads)[x] == 1)
    && (forall x, y :: x in multiset(heads) && y in multiset(heads) && x.from == y.from ==> x == y)
  }

  lemma RepeatedIsCounted<T>(s: seq<T>, i: nat, j: nat)
    requires i < j < |s| && s[i] == s[j]
    ensures multiset(s)[s[i]] >= 2
  {
    assert s == s[..j] + s[j..];
    assert s[i] in multiset(s[..j]) by { assert s[..j][i] == s[i]; }
    assert s[j] in multiset(s[j..]) by { assert s[j..][0] == s[j]; }
  }

  /** In terms of positions: no two heads belong to the same account. */
  lemma UniqueAccounts(heads: seq<Head>, i: nat, j: nat)
    requires Unique(heads) && i < j < |heads|
    ensures heads[i].from != heads[j].from
  {
    assert heads[i] in multiset(heads) && heads[j] in multiset(heads);
    if heads[i] == heads[j] {
      RepeatedIsCounted(heads, i, j);
    }
  }

  /** An account's list is what was emitted, then its head, then what is left. */
  ghost predicate Placed(x: Head, txs: TxLists, input: TxLists, emitted: TxLists, baseFee: Option<nat>) {
    && x.from in txs && x.from in input && x.from in emitted
    && input[x.from] == emitted[x.from] + [x.tx] + txs[x.from]
    && NewHead(x.tx, x.from, baseFee) == Some(x)
  }

  /** What was emitted of each account is a prefix of its list. */
  ghost predicate Prefixes(input: TxLists, emitted: TxLists) {
    emitted.Keys == input.Keys && forall a :: a in input ==> emitted[a] <= input[a]
  }

  ghost predicate Ready(heads: seq<Head>, txs: TxLists, input: TxLists, emitted: TxLists, baseFee: Option<nat>) {
    && Heap(Better, heads) && Unique(heads) && Prefixes(input, emitted)
    && (forall x {:trigger Placed(x, txs, input, emitted, baseFee)} :: x in multiset(heads) ==> Placed(x, txs, input, emitted, baseFee))
  }

  ghost function Lengths(txs: TxLists): map<Address, int> { map a | a in txs :: |txs[a]| }

  /** How many transactions wait behind the heads. */
  ghost function Left(txs: TxLists): nat {
    SumIsNatural(Lengths(txs));
    Sum(Lengths(txs))
  }

  lemma LeftUpdate(txs: TxLists, a: Address, list: seq<LazyTransaction>)
    requires a in txs
    ensures Left(txs[a := list]) == Left(txs) - |txs[a]| + |list|
  {
    assert Lengths(txs[a := list]) == Lengths(txs)[a := |list|];
    SumUpdate(Lengths(txs), a, |list|);
  }

  /** The head offers the most, and of those that offer as much it arrived first. */
  lemma FirstIsBest(heads: seq<Head>, i: nat)
    requires Heap(Better, heads) && i < |heads|
    ensures heads[0].fees > heads[i].fees || (heads[0].fees == heads[i].fees && heads[0].tx.time <= heads[i].tx.time)
  {
    FeeOrdering();
    RootIsFirst(Better, RightBetter, heads, i);
  }

  lemma UniqueDrop(heads: seq<Head>, after: seq<Head>, r: Head)
    requires Unique(heads) && multiset(after) + multiset{r} == multiset(heads)
    ensures Unique(after) && r !in multiset(after)
    ensures forall x :: x in multiset(after) ==> x in multiset(heads) && x.from != r.from
  {
    assert r in multiset(heads);
    forall x | x in multiset(after) ensures multiset(after)[x] == 1 && x in multiset(heads) && x != r {
      assert multiset(heads)[x] == multiset(after)[x] + multiset{r}[x];
    }
  }

  lemma UniqueReplace(heads: seq<Head>, after: seq<Head>, r: Head, next: Head)
    requires Unique(heads) && r in multiset(heads) && multiset(after) + multiset{r} == multiset(heads) + multiset{next}
    requires next.from == r.from
    ensures Unique(after)
    ensures forall x :: x in multiset(after) && x != next ==> x in multiset(heads) && x.from != r.from
  {
    forall x | x in multiset(after) ensures multiset(after)[x] == 1 && (x == next || (x in multiset(heads) && x != r)) {
      assert (multiset(after) + multiset{r})[x] == (multiset(heads) + multiset{next})[x];
    }
  }

  ghost function Emit(emitted: TxLists, x: Head): TxLists {
    emitted[x.from := (if x.from in emitted then emitted[x.from] else []) + [x.tx]]
  }

  lemma PrefixesEmit(x: Head, txs: TxLists, input: TxLists, emitted: TxLists, baseFee: Option<nat>)
    requires Prefixes(input, emitted) && Placed(x, txs, input, emitted, baseFee)
    ensures Prefixes(input, Emit(emitted, x))
  {
  }

  /** The first head is consumed and its account dropped. */
  lemma DropReady(heads: seq<Head>, txs: TxLists, input: TxLists, emitted: TxLists, baseFee: Option<nat>, after: seq<Head>)
    requires Ready(heads, txs, input, emitted, baseFee) && heads != [] && after == Pop(Better, RightBetter, heads)
    ensures Ready(after, txs, input, Emit(emitted, heads[0]), baseFee)
  {
    FeeOrdering();
    PopKeepsHeap(Better, RightBetter, heads);
    UniqueDrop(heads, after, heads[0]);
    var done := Emit(emitted, heads[0]);
    assert Placed(heads[0], txs, input, emitted, baseFee);
    PrefixesEmit(heads[0], txs, input, emitted, baseFee);
    forall x {:trigger Placed(x, txs, input, done, baseFee)} | x in multiset(after)
      ensures Placed(x, txs, input, done, baseFee)
    {
      assert Placed(x, txs, input, emitted, baseFee);
    }
  }

  /** The first head is consumed and the account's next transaction takes its place. */
  lemma ReplaceReady(heads: seq<Head>, txs: TxLists, input: TxLists, emitted: TxLists, baseFee: Option<nat>, next: Head, after: seq<Head>)
    requires Ready(heads, txs, input, emitted, baseFee) && heads != []
    requires heads[0].from in txs && txs[heads[0].from] != []
    requires NewHead(txs[heads[0].from][0], heads[0].from, baseFee) == Some(next)
    requires after == ReplaceRoot(Better, RightBetter, heads, next)
    ensures Ready(after, txs[next.from := txs[next.from][1..]], input, Emit(emitted, heads[0]), baseFee)
  {
    FeeOrdering();
    ReplaceRootKeepsHeap(Better, RightBetter, heads, next);
    assert heads[0] in multiset(heads);
    UniqueReplace(heads, after, heads[0], next);
    var done, rest := Emit(emitted, heads[0]), txs[next.from := txs[next.from][1..]];
    assert Placed(heads[0], txs, input, emitted, baseFee);
    PrefixesEmit(heads[0], txs, input, emitted, baseFee);
    forall x {:trigger Placed(x, rest, input, done, baseFee)} | x in multiset(after)
      ensures Placed(x, rest, input, done, baseFee)
    {
      if x != next {
        assert Placed(x, txs, input, emitted, baseFee);
      }
    }
  }

  /** What the list of an account is once the accounts outside `rest` have been looked at. */
  ghost predicate Listed(a: Address, txs: TxLists, input: TxLists, rest: set<Address>, baseFee: Option<nat>)
    requires a in input ==> input[a] != []
  {
    && (a in txs <==> a in input && (a in rest || Affordable(input[a][0], baseFee)))
    && (a in txs ==> txs[a] == if a in rest then input[a] else input[a][1..])
  }

  /** The heads are exactly the affordable first transactions of the accounts looked at. */
  ghost predicate IsHead(x: Head, input: TxLists, rest: set<Address>, baseFee: Option<nat>)
    requires x.from in input ==> input[x.from] != []
  {
    x.from in input && x.from !in rest && NewHead(input[x.from][0], x.from, baseFee) == Some(x)
  }

  ghost predicate NonEmpty(input: TxLists) {
    forall a :: a in input ==> input[a] != []
  }

  ghost predicate Gathered(heads: seq<Head>, txs: TxLists, input: TxLists, rest: set<Address>, baseFee: Option<nat>)
    requires NonEmpty(input)
  {
    && Unique(heads)
    && (forall a {:trigger Listed(a, txs, input, rest, baseFee)} :: Listed(a, txs, input, rest, baseFee))
    && (forall x {:trigger IsHead(x, input, rest, baseFee)} :: x in multiset(heads) <==> IsHead(x, input, rest, baseFee))
  }

  lemma UniqueAppend(heads: seq<Head>, h: Head)
    requires Unique(heads) && forall x :: x in multiset(heads) ==> x.from != h.from
    ensures Unique(heads + [h])
    ensures forall x :: x in multiset(heads + [h]) <==> x in multiset(heads) || x == h
  {
    assert multiset(heads + [h]) == multiset(heads) + multiset{h};
  }

  lemma GatherOne(heads: seq<Head>, txs: TxLists, input: TxLists, rest: set<Address>, baseFee: Option<nat>, from: Address, h: Head)
    requires NonEmpty(input) && Gathered(heads, txs, input, rest, baseFee) && from in rest && from in input
    requires NewHead(input[from][0], from, baseFee) == Some(h)
    ensures Gathered(heads + [h], txs[from := input[from][1..]], input, rest - {from}, baseFee)
  {
    var after, less := txs[from := input[from][1..]], rest - {from};
    forall x | x in multiset(heads) ensures x.from != from {
      assert IsHead(x, input, rest, baseFee);
    }
    UniqueAppend(heads, h);
    forall a {:trigger Listed(a, after, input, less, baseFee)} ensures Listed(a, after, input, less, baseFee) {
      assert Listed(a, txs, input, rest, baseFee);
    }
    forall x {:trigger IsHead(x, input, less, baseFee)}
      ensures x in multiset(heads + [h]) <==> IsHead(x, input, less, baseFee)
    {
      assert x in multiset(heads) <==> IsHead(x, input, rest, baseFee);
    }
  }

  lemma SkipOne(heads: seq<Head>, txs: TxLists, input: TxLists, rest: set<Address>, baseFee: Option<nat>, from: Address)
    requires NonEmpty(input) && Gathered(heads, txs, input, rest, baseFee) && from in rest && from in input
    requires NewHead(input[from][0], from, baseFee).None?
    ensures Gathered(heads, txs - {from}, input, rest - {from}, baseFee)
  {
    var after, less := txs - {from}, rest - {from};
    forall a {:trigger Listed(a, after, input, less, baseFee)} ensures Listed(a, after, input, less, baseFee) {
      assert Listed(a, txs, input, rest, baseFee);
    }
    forall x {:trigger IsHead(x, input, less, baseFee)}
      ensures x in multiset(heads) <==> IsHead(x, input, less, baseFee)
    {
      assert x in multiset(heads) <==> IsHead(x, input, rest, baseFee);
    }
  }

  /** The first transaction of each account that can pay the base fee, and what is left of the lists. */
  method Gather(input: TxLists, baseFee: Option<nat>) returns (heads: seq<Head>, txs: TxLists)
    requires NonEmpty(input)
    ensures Gathered(heads, txs, input, {}, baseFee)
  {
    heads, txs := [], input;
    var rest := input.Keys;
    while rest != {}
      invariant rest <= input.Keys && Gathered(heads, txs, input, rest, baseFee)
      decreases |rest|
    {
      var from :| from in rest;
      assert Listed(from, txs, input, rest, baseFee);
      var wrapped := NewHead(txs[from][0], from, baseFee);
      if wrapped.None? {
        SkipOne(heads, txs, input, rest, baseFee, from);
        txs := txs - {from};
      } else {
        GatherOne(heads, txs, input, rest, baseFee, from, wrapped.value);
        heads := heads + [wrapped.value];
        txs := txs[from := txs[from][1..]];
      }
      rest := rest - {from};
    }
  }

  /** A freshly gathered set, put in heap order, has emitted nothing. */
  lemma GatheredReady(gathered: seq<Head>, heads: seq<Head>, txs: TxLists, input: TxLists, baseFee: Option<nat>)
    requires NonEmpty(input) && Gathered(gathered, txs, input, {}, baseFee)
    requires Heap(Better, heads) && multiset(heads) == multiset(gathered)
    ensures Ready(heads, txs, input, Unemitted(input), baseFee)
  {
    var none := Unemitted(input);
    forall x {:trigger Placed(x, txs, input, none, baseFee)} | x in multiset(heads) ensures Placed(x, txs, input, none, baseFee) {
      assert IsHead(x, input, {}, baseFee) && Listed(x.from, txs, input, {}, baseFee);
    }
  }

  ghost function Unemitted(input: TxLists): TxLists { map a | a in input :: [] }

  /** The head an account would have next. */
  function Next(a: Address, txs: TxLists, baseFee: Option<nat>): Option<Head> {
    if a in txs && txs[a] != [] then NewHead(txs[a][0], a, baseFee) else None
  }

  ghost predicate HasHead(heads: seq<Head>, a: Address) {
    exists x :: x in multiset(heads) && x.from == a
  }

  /** Where an account stands: dropped, through with its list, at a transaction that cannot pay the base fee,
      or with its next transaction among the heads. */
  ghost predicate Standing(heads: seq<Head>, input: TxLists, emitted: TxLists, dropped: set<Address>, baseFee: Option<nat>, a: Address)
    requires a in input
  {
    && a in emitted && |emitted[a]| <= |input[a]|
    && (|| a in dropped
        || |emitted[a]| == |input[a]|
        || (baseFee.Some? && input[a][|emitted[a]|].feeCap < baseFee.value)
        || HasHead(heads, a))
  }

  /** Every account stands somewhere, and a dropped one has no head. */
  ghost predicate Accounted(heads: seq<Head>, input: TxLists, emitted: TxLists, dropped: set<Address>, baseFee: Option<nat>) {
    && (forall a {:trigger Standing(heads, input, emitted, dropped, baseFee, a)} :: a in input ==>
          Standing(heads, input, emitted, dropped, baseFee, a))
    && (forall x :: x in multiset(heads) ==> x.from !in dropped)
  }

  lemma GatheredAccounted(gathered: seq<Head>, heads: seq<Head>, txs: TxLists, input: TxLists, baseFee: Option<nat>)
    requires NonEmpty(input) && Gathered(gathered, txs, input, {}, baseFee) && multiset(heads) == multiset(gathered)
    ensures Accounted(heads, input, Unemitted(input), {}, baseFee)
  {
    var none := Unemitted(input);
    forall a {:trigger Standing(heads, input, none, {}, baseFee, a)} | a in input ensures Standing(heads, input, none, {}, baseFee, a) {
      var first := NewHead(input[a][0], a, baseFee);
      if first.Some? {
        assert IsHead(first.value, input, {}, baseFee);
        assert first.value in multiset(heads);
      }
    }
  }

  /** A head other than the first one stays. */
  lemma KeepsHead(heads: seq<Head>, after: seq<Head>, a: Address)
    requires heads != [] && a != heads[0].from && HasHead(heads, a)
    requires multiset(heads) <= multiset(after) + multiset{heads[0]}
    ensures HasHead(after, a)
  {
    var x :| x in multiset(heads) && x.from == a;
    assert (multiset(after) + multiset{heads[0]})[x] == multiset(after)[x];
    assert x in multiset(after);
  }

  /** The first head is consumed.  Its account is dropped, or there is nothing it could pay for next, or it has
      another head. */
  lemma EmitAccounted(heads: seq<Head>, after: seq<Head>, txs: TxLists, input: TxLists, emitted: TxLists, dropped: set<Address>,
    dropped': set<Address>, baseFee: Option<nat>)
    requires Ready(heads, txs, input, emitted, baseFee) && heads != [] && Accounted(heads, input, emitted, dropped, baseFee)
    requires multiset(heads) <= multiset(after) + multiset{heads[0]}
    requires dropped <= dropped' && forall x :: x in multiset(after) ==> x.from !in dropped'
    requires heads[0].from in dropped' || Next(heads[0].from, txs, baseFee).None? || HasHead(after, heads[0].from)
    ensures Accounted(after, input, Emit(emitted, heads[0]), dropped', baseFee)
  {
    var done := Emit(emitted, heads[0]);
    assert Placed(heads[0], txs, input, emitted, baseFee);
    forall a {:trigger Standing(after, input, done, dropped', baseFee, a)} | a in input ensures Standing(after, input, done, dropped', baseFee, a) {
      assert Standing(heads, input, emitted, dropped, baseFee, a);
      if a != heads[0].from && HasHead(heads, a) {
        KeepsHead(heads, after, a);
      }
    }
  }

  lemma DropAccounted(heads: seq<Head>, txs: TxLists, input: TxLists, emitted: TxLists, dropped: set<Address>, gone: set<Address>,
    baseFee: Option<nat>, after: seq<Head>)
    requires Ready(heads, txs, input, emitted, baseFee) && heads != [] && Accounted(heads, input, emitted, dropped, baseFee)
    requires gone == dropped + {heads[0].from} || (gone == dropped && Next(heads[0].from, txs, baseFee).None?)
    requires after == Pop(Better, RightBetter, heads)
    ensures Ready(after, txs, input, Emit(emitted, heads[0]), baseFee) && Accounted(after, input, Emit(emitted, heads[0]), gone, baseFee)
    ensures multiset(after) + multiset{heads[0]} == multiset(heads) && |after| == |heads| - 1
    ensures forall x :: x in after ==> x.from != heads[0].from
  {
    DropReady(heads, txs, input, emitted, baseFee, after);
    FeeOrdering();
    PopKeepsHeap(Better, RightBetter, heads);
    UniqueDrop(heads, after, heads[0]);
    EmitAccounted(heads, after, txs, input, emitted, dropped, gone, baseFee);
  }

  lemma ReplaceAccounted(heads: seq<Head>, after: seq<Head>, txs: TxLists, input: TxLists, emitted: TxLists, dropped: set<Address>,
    baseFee: Option<nat>, next: Head)
    requires Ready(heads, txs, input, emitted, baseFee) && heads != [] && Accounted(heads, input, emitted, dropped, baseFee)
    requires next.from == heads[0].from && multiset(after) + multiset{heads[0]} == multiset(heads) + multiset{next}
    ensures Accounted(after, input, Emit(emitted, heads[0]), dropped, baseFee)
  {
    assert heads[0] in multiset(heads);
    UniqueReplace(heads, after, heads[0], next);
    assert next in multiset(after) by {
      assert (multiset(after) + multiset{heads[0]})[next] == (multiset(heads) + multiset{next})[next];
    }
    EmitAccounted(heads, after, txs, input, emitted, dropped, dropped, baseFee);
  }

  class TransactionsByPriceAndNonce {
    const baseFee: Option<nat>
    var txs: TxLists
    var heads: seq<Head>
    ghost const input: TxLists
    ghost var emitted: TxLists
    ghost var dropped: set<Address>

    ghost predicate Valid()
      reads this
    {
      Ready(heads, txs, input, emitted, baseFee) && Accounted(heads, input, emitted, dropped, baseFee)
    }

    /** Nothing has been taken out of the set. */
    ghost predicate Unused()
      reads this
    {
      emitted == Unemitted(input) && dropped == {}
    }

    /** The lists of a pending set are never empty. */
    constructor (pending: TxLists, baseFee: Option<nat>)
      requires NonEmpty(pending)
      ensures Valid() && this.baseFee == baseFee && input == pending && emitted == Unemitted(pending) && Unused()
      ensures Gathered(heads, txs, pending, {}, baseFee)
    {
      var gathered, rest := Gather(pending, baseFee);
      FeeOrdering();
      InitMakesHeap(Better, RightBetter, gathered);
      var ordered := Init(Better, RightBetter, gathered);
      GatheredReady(gathered, ordered, rest, pending, baseFee);
      GatheredAccounted(gathered, ordered, rest, pending, baseFee);
      this.baseFee, txs, heads := baseFee, rest, ordered;
      input, emitted, dropped := pending, Unemitted(pending), {};
    }

    /** The best head: it offers the most, and of those that offer as much it arrived first.  What a head offers
        is its tip, as far as its fee cap leaves room for it above the base fee, which it can pay. */
    method Peek() returns (best: Option<Head>)
      requires Valid()
      ensures best.None? <==> heads == []
      ensures best.Some? ==> best.value == heads[0]
      ensures forall x :: best.Some? && x in heads ==>
                best.value.fees > x.fees || (best.value.fees == x.fees && best.value.tx.time <= x.tx.time)
      ensures baseFee.None? ==> forall x :: x in heads ==> x.fees == x.tx.tipCap
      ensures baseFee.Some? ==> forall x :: x in heads ==>
                && x.tx.feeCap >= baseFee.value
                && x.fees == if x.tx.tipCap <= x.tx.feeCap - baseFee.value then x.tx.tipCap else x.tx.feeCap - baseFee.value
    {
      forall x | x in heads ensures NewHead(x.tx, x.from, baseFee) == Some(x) {
        assert Placed(x, txs, input, emitted, baseFee);
      }
      if heads == [] {
        return None;
      }
      best := Some(heads[0]);
      forall i: nat | i < |heads|
        ensures heads[0].fees > heads[i].fees || (heads[0].fees == heads[i].fees && heads[0].tx.time <= heads[i].tx.time)
      {
        FirstIsBest(heads, i);
      }
    }

    /** Moves on to the account's next transaction, or drops the account if there is none it can pay for. */
    method Shift()
      requires Valid() && heads != []
      modifies this
      ensures Valid() && emitted == Emit(old(emitted), old(heads[0])) && dropped == old(dropped)
      ensures var next := Next(old(heads[0]).from, old(txs), baseFee);
              if next.Some? then
                && txs == old(txs)[next.value.from := old(txs)[next.value.from][1..]]
                && multiset(heads) + multiset{old(heads[0])} == multiset(old(heads)) + multiset{next.value}
              else txs == old(txs) && multiset(heads) + multiset{old(heads[0])} == multiset(old(heads))
      ensures Left(txs) < Left(old(txs)) || (Left(txs) == Left(old(txs)) && |heads| < |old(heads)|)
    {
      var acc := heads[0].from;
      if acc in txs && |txs[acc]| > 0 {
        var wrapped := NewHead(txs[acc][0], acc, baseFee);
        if wrapped.Some? {
          Replace(wrapped.value);
          return;
        }
      }
      DropHead(dropped);
    }

    /** Puts the account's next transaction in place of the best head. */
    method Replace(next: Head)
      requires Valid() && heads != [] && Next(heads[0].from, txs, baseFee) == Some(next)
      modifies `txs, `heads, `emitted
      ensures Valid() && emitted == Emit(old(emitted), old(heads[0]))
      ensures txs == old(txs)[next.from := old(txs)[next.from][1..]] && Left(txs) < Left(old(txs))
      ensures multiset(heads) + multiset{old(heads[0])} == multiset(old(heads)) + multiset{next}
    {
      var after := ReplaceRoot(Better, RightBetter, heads, next);
      ReplaceReady(heads, txs, input, emitted, baseFee, next, after);
      FeeOrdering();
      ReplaceRootKeepsHeap(Better, RightBetter, heads, next);
      ReplaceAccounted(heads, after, txs, input, emitted, dropped, baseFee, next);
      LeftUpdate(txs, next.from, txs[next.from][1..]);
      emitted := Emit(emitted, heads[0]);
      heads, txs := after, txs[next.from := txs[next.from][1..]];
    }

    /** Takes the best head off the heap. */
    method DropHead(ghost gone: set<Address>)
      requires Valid() && heads != []
      requires gone == dropped + {heads[0].from} || (gone == dropped && Next(heads[0].from, txs, baseFee).None?)
      modifies `heads, `emitted, `dropped
      ensures Valid() && emitted == Emit(old(emitted), old(heads[0])) && dropped == gone && |heads| == |old(heads)| - 1
      ensures multiset(heads) + multiset{old(heads[0])} == multiset(old(heads))
      ensures forall x :: x in heads ==> x.from != old(heads[0]).from
    {
      var after := Heaps.Pop(Better, RightBetter, heads);
      DropAccounted(heads, txs, input, emitted, dropped, gone, baseFee, after);
      emitted, dropped := Emit(emitted, heads[0]), gone;
      heads := after;
    }

    /** Drops the best head together with the rest of its account. */
    method Pop()
      requires Valid() && heads != []
      modifies this
      ensures Valid() && emitted == Emit(old(emitted), old(heads[0])) && dropped == old(dropped) + {old(heads[0]).from}
      ensures txs == old(txs) && |heads| == |old(heads)| - 1
      ensures multiset(heads) + multiset{old(heads[0])} == multiset(old(heads))
      ensures forall x :: x in heads ==> x.from != old(heads[0]).from
    {
      DropHead(dropped + {heads[0].from});
    }
  }
}
