/**
  Gas arithmetic in 64-bit words: the block's gas pool and the intrinsic gas of a
  transaction.  Every place where the source could overflow is explicit: a checked
  sum, a panic that must be excluded, or a wrap-around.
 */
module Gas {
  import opened Wrappers

  const MAX_UINT64: int := 0xFFFF_FFFF_FFFF_FFFF
  const TWO_64: int := 0x1_0000_0000_0000_0000

  type Uint64 = x: int | 0 <= x <= MAX_UINT64

  const TX_GAS: Uint64 := 21000
  const TX_GAS_CONTRACT_CREATION: Uint64 := 53000
  const TX_DATA_ZERO_GAS: Uint64 := 4
  const TX_DATA_NON_ZERO_GAS: Uint64 := 16
  const INIT_CODE_WORD_GAS: Uint64 := 2
  const ACCESS_LIST_ADDRESS_GAS: Uint64 := 2400
  const ACCESS_LIST_STORAGE_KEY_GAS: Uint64 := 1900

  class GasPool {
    var gas: Uint64

    /** A pool with zero gas. */
    constructor ()
      ensures gas == 0
    {
      gas := 0;
    }

    /** The source panics on overflow; callers must rule that out. */
    method AddGas(amount: Uint64)
      requires gas + amount <= MAX_UINT64
      modifies this
      ensures gas == old(gas) + amount
    {
      gas := gas + amount;
    }

    /** Refuses, leaving the pool alone, when there is too little. */
    method SubGas(amount: Uint64) returns (ok: bool)
      modifies this
      ensures ok <==> amount <= old(gas)
      ensures gas == if ok then old(gas) - amount else old(gas)
    {
      if gas < amount {
        return false;
      }
      gas := gas - amount;
      return true;
    }

    method SetGas(amount: Uint64)
      modifies this
      ensures gas == amount
    {
      gas := amount;
    }
  }

  /** The number of 32-byte words that hold `size` bytes, near the top of the range too. */
  function ToWordSize(size: Uint64): (words: Uint64)
    ensures size <= 32 * words < size + 32
  {
    if size > MAX_UINT64 - 31 then MAX_UINT64 / 32 + 1 else (size + 31) / 32
  }

  /** An access list entry: an address and the number of its storage keys. */
  datatype AccessTuple = AccessTuple(address: nat, keys: seq<nat>)

  function NonZero(data: seq<bv8>): nat {
    if data == [] then 0 else NonZero(data[..|data| - 1]) + if data[|data| - 1] != 0 then 1 else 0
  }

  function StorageKeys(list: seq<AccessTuple>): nat {
    if list == [] then 0 else StorageKeys(list[..|list| - 1]) + |list[|list| - 1].keys|
  }

  lemma {:induction false} NonZeroBound(data: seq<bv8>)
    ensures NonZero(data) <= |data|
  {
    if data != [] {
      NonZeroBound(data[..|data| - 1]);
    }
  }

  /** As many bytes are counted as there are places with a byte other than zero. */
  lemma {:induction false} NonZeroCounts(data: seq<bv8>)
    ensures NonZero(data) == |set i | 0 <= i < |data| && data[i] != 0|
  {
    if data != [] {
      var n := |data| - 1;
      NonZeroCounts(data[..n]);
      var before, all := (set i | 0 <= i < n && data[..n][i] != 0), (set i | 0 <= i < |data| && data[i] != 0);
      assert all == before + if data[n] != 0 then {n} else {};
    }
  }

  function Words(data: seq<bv8>): nat { (|data| + 31) / 32 }

  /** What the data costs, without any bound: 16 for a nonzero byte, 4 for a zero byte, 2 for a word of init code. */
  function DataCost(data: seq<bv8>, creation: bool): int {
    (if creation then 53000 else 21000)
    + 16 * NonZero(data) + 4 * (|data| - NonZero(data)) + if creation then 2 * Words(data) else 0
  }

  /** What an access list costs, without any bound: 2400 for an address, 1900 for a storage key. */
  function AccessCost(list: seq<AccessTuple>): nat {
    2400 * |list| + 1900 * StorageKeys(list)
  }

  method CountNonZero(data: seq<bv8>) returns (nz: nat)
    ensures nz == NonZero(data)
  {
    nz := 0;
    for i := 0 to |data|
      invariant nz == NonZero(data[..i])
    {
      assert data[..i + 1][..i] == data[..i];
      if data[i] != 0 {
        nz := nz + 1;
      }
    }
    assert data[..|data|] == data;
  }

  method CountStorageKeys(list: seq<AccessTuple>) returns (n: nat)
    ensures n == StorageKeys(list)
  {
    n := 0;
    for i := 0 to |list|
      invariant n == StorageKeys(list[..i])
    {
      assert list[..i + 1][..i] == list[..i];
      n := n + |list[i].keys|;
    }
    assert list[..|list|] == list;
  }

  /** Adding n units at `price` overflows exactly when the guard by division says so. */
  lemma GuardIsExact(gas: Uint64, price: Uint64, n: nat)
    requires price > 0
    ensures (MAX_UINT64 - gas) / price < n <==> gas + n * price > MAX_UINT64
  {
    var room := MAX_UINT64 - gas;
    var q, rest := room / price, room % price;
    assert room == q * price + rest;
    if q < n {
      ProductMonotone(q + 1, n, price);
      assert (q + 1) * price == q * price + price;
    } else {
      ProductMonotone(n, q, price);
    }
  }

  lemma ProductMonotone(a: int, b: int, c: nat)
    requires a <= b
    ensures a * c <= b * c
  {
    assert b * c - a * c == (b - a) * c;
  }

  /**
    The data part is refused exactly when its true cost does not fit; the access list
    part is added without a check, so the result is the true cost modulo 2^64.
   */
  method IntrinsicGas(data: seq<bv8>, accessList: seq<AccessTuple>, creation: bool) returns (gas: Option<Uint64>)
    requires |data| <= MAX_UINT64
    ensures gas.None? <==> DataCost(data, creation) > MAX_UINT64
    ensures gas.Some? ==> gas.value == (DataCost(data, creation) + AccessCost(accessList)) % TWO_64
    ensures gas.Some? ==>
              (gas.value == DataCost(data, creation) + AccessCost(accessList)
               <==> DataCost(data, creation) + AccessCost(accessList) <= MAX_UINT64)
  {
    var sum: Uint64 := if creation then TX_GAS_CONTRACT_CREATION else TX_GAS;
    if |data| > 0 {
      var nz := CountNonZero(data);
      NonZeroBound(data);
      GuardIsExact(sum, TX_DATA_NON_ZERO_GAS, nz);
      if (MAX_UINT64 - sum) / TX_DATA_NON_ZERO_GAS < nz {
        return None;
      }
      sum := sum + nz * TX_DATA_NON_ZERO_GAS;
      var z := |data| - nz;
      GuardIsExact(sum, TX_DATA_ZERO_GAS, z);
      if (MAX_UINT64 - sum) / TX_DATA_ZERO_GAS < z {
        return None;
      }
      sum := sum + z * TX_DATA_ZERO_GAS;
      if creation {
        var words := ToWordSize(|data|);
        GuardIsExact(sum, INIT_CODE_WORD_GAS, words);
        if (MAX_UINT64 - sum) / INIT_CODE_WORD_GAS < words {
          return None;
        }
        sum := sum + words * INIT_CODE_WORD_GAS;
      }
    }
    var keys := CountStorageKeys(accessList);
    return Some((sum + |accessList| * ACCESS_LIST_ADDRESS_GAS + keys * ACCESS_LIST_STORAGE_KEY_GAS) % TWO_64);
  }
}
