/**
  Account balances and nonces, as the state database holds them.  An account that is
  not stored is empty, so storing an empty account changes nothing that can be read.
 */
module WorldState {
  import opened Gas
  import opened Sums

  type Address = nat

  datatype Account = Account(nonce: Uint64, balance: int, hasCode: bool)

  type World = map<Address, Account>

  function Get(w: World, a: Address): Account {
    if a in w then w[a] else Account(0, 0, false)
  }

  function Balance(w: World, a: Address): int { Get(w, a).balance }

  function Nonce(w: World, a: Address): Uint64 { Get(w, a).nonce }

  /** Adds to (or, below zero, takes from) one balance. */
  function Credit(w: World, a: Address, amount: int): World {
    w[a := Get(w, a).(balance := Balance(w, a) + amount)]
  }

  function SetNonce(w: World, a: Address, nonce: Uint64): World {
    w[a := Get(w, a).(nonce := nonce)]
  }

  ghost function Balances(w: World): map<Address, int> { map a | a in w :: w[a].balance }

  /** All the money there is. */
  ghost function Total(w: World): int { Sum(Balances(w)) }

  /** Changing one account changes the total by the change of its balance. */
  lemma TotalUpdate(w: World, a: Address, acc: Account)
    ensures Total(w[a := acc]) == Total(w) - Balance(w, a) + acc.balance
  {
    assert Balances(w[a := acc]) == Balances(w)[a := acc.balance];
    SumUpdate(Balances(w), a, acc.balance);
  }

  lemma TotalCredit(w: World, a: Address, amount: int)
    ensures Total(Credit(w, a, amount)) == Total(w) + amount
  {
    TotalUpdate(w, a, Get(w, a).(balance := Balance(w, a) + amount));
  }

  lemma TotalNonce(w: World, a: Address, nonce: Uint64)
    ensures Total(SetNonce(w, a, nonce)) == Total(w)
  {
    TotalUpdate(w, a, Get(w, a).(nonce := nonce));
  }

  /** No account is overdrawn. */
  ghost predicate Solvent(w: World) {
    forall a :: Balance(w, a) >= 0
  }
}
