/** The gas a message owes before it runs (core/state_transition.go). */
module Intrinsic {
  import opened Collections

  const MAX_UINT64: nat := 0xFFFF_FFFF_FFFF_FFFF
  const TX_GAS: nat := 21000
  const TX_GAS_CONTRACT_CREATION: nat := 53000
  const TX_DATA_ZERO_GAS: nat := 4
  const TX_DATA_NON_ZERO_GAS: nat := 68

  function NonZeroBytes(data: seq<bv8>): (n: nat)
    ensures n <= |data|
  {
    if data == [] then 0
    else NonZeroBytes(data[..|data| - 1]) + if data[|data| - 1] != 0 then 1 else 0
  }

  /** The price of the data and the call, over unbounded numbers. */
  function IntrinsicCost(data: seq<bv8>, create: bool, homestead: bool): nat {
    var nz := NonZeroBytes(data);
    (if create && homestead then TX_GAS_CONTRACT_CREATION else TX_GAS)
    + nz * TX_DATA_NON_ZERO_GAS + (|data| - nz) * TX_DATA_ZERO_GAS
  }

  function CheckedIntrinsicCost(data: seq<bv8>, create: bool, homestead: bool): Option<nat> {
    var cost := IntrinsicCost(data, create, homestead);
    if cost <= MAX_UINT64 then Some(cost) else None
  }

  /** Every zero byte costs 4, every other byte 68, and the rest 21000, or 53000 for a creation from Homestead on. */
  lemma {:induction false} CostByByte(data: seq<bv8>, b: bv8, create: bool, homestead: bool)
    ensures IntrinsicCost([], create, homestead) == if create && homestead then 53000 else 21000
    ensures IntrinsicCost(data + [b], create, homestead) ==
            IntrinsicCost(data, create, homestead) + if b == 0 then 4 else 68
  {
    assert (data + [b])[..|data|] == data;
  }

  /** Computes the price in 64 bits, and reports an overflow exactly when the true price does not fit. */
  method IntrinsicGas(data: seq<bv8>, create: bool, homestead: bool) returns (r: Option<nat>)
    ensures r == CheckedIntrinsicCost(data, create, homestead)
  {
    var gas := if create && homestead then TX_GAS_CONTRACT_CREATION else TX_GAS;
    if |data| > 0 {
      var nz := 0;
      for i := 0 to |data|
        invariant nz == NonZeroBytes(data[..i])
      {
        assert data[..i + 1][..i] == data[..i];
        if data[i] != 0 {
          nz := nz + 1;
        }
      }
      assert data[..|data|] == data;
      if (MAX_UINT64 - gas) / TX_DATA_NON_ZERO_GAS < nz {
        return None;
      }
      gas := gas + nz * TX_DATA_NON_ZERO_GAS;
      var z := |data| - nz;
      if (MAX_UINT64 - gas) / TX_DATA_ZERO_GAS < z {
        return None;
      }
      gas := gas + z * TX_DATA_ZERO_GAS;
    }
    return Some(gas);
  }
}
