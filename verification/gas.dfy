/** Intrinsic gas: what a transaction costs before any of it is executed. */
module IntrinsicGas {
  import opened Transactions
  import opened Uint64

  const TX_GAS: nat := 21000
  const TX_GAS_CONTRACT_CREATION: nat := 53000
  const TX_DATA_ZERO_GAS: nat := 4
  const TX_DATA_NON_ZERO_GAS_FRONTIER: nat := 68
  const TX_DATA_NON_ZERO_GAS_EIP2028: nat := 16

  datatype GasResult = Gas(amount: nat) | GasOverflow

  /** The number of non-zero bytes. */
  function NonZero(data: seq<Byte>): (n: nat)
    ensures n <= |data|
  {
    if data == [] then 0 else NonZero(data[..|data| - 1]) + (if data[|data| - 1] != 0 then 1 else 0)
  }

  /** The price of a transaction by its bytes, in unbounded arithmetic. */
  function ExactIntrinsicGas(data: seq<Byte>, creation: bool, homestead: bool, eip2028: bool): nat {
    (if creation && homestead then TX_GAS_CONTRACT_CREATION else TX_GAS)
    + NonZero(data) * (if eip2028 then TX_DATA_NON_ZERO_GAS_EIP2028 else TX_DATA_NON_ZERO_GAS_FRONTIER)
    + (|data| - NonZero(data)) * TX_DATA_ZERO_GAS
  }

  /** The 64-bit computation either yields the exact price or reports that it does not fit. */
  function Intrinsic(data: seq<Byte>, creation: bool, homestead: bool, eip2028: bool): GasResult {
    var exact := ExactIntrinsicGas(data, creation, homestead, eip2028);
    if exact <= MAX_UINT64 then Gas(exact) else GasOverflow
  }

  /** The source's loop and its guards against wrap-around; it overflows only when the price does. */
  method ComputeIntrinsicGas(data: seq<Byte>, creation: bool, homestead: bool, eip2028: bool) returns (r: GasResult)
    requires |data| <= MAX_UINT64
    ensures r == Intrinsic(data, creation, homestead, eip2028)
  {
    var gas := if creation && homestead then TX_GAS_CONTRACT_CREATION else TX_GAS;
    if |data| > 0 {
      var nz := 0;
      for i := 0 to |data|
        invariant nz == NonZero(data[..i])
      {
        assert data[..i + 1][..i] == data[..i];
        if data[i] != 0 { nz := nz + 1; }
      }
      assert data[..|data|] == data;
      var nonZeroGas := if eip2028 then TX_DATA_NON_ZERO_GAS_EIP2028 else TX_DATA_NON_ZERO_GAS_FRONTIER;
      if (MAX_UINT64 - gas) / nonZeroGas < nz {
        return GasOverflow;
      }
      gas := gas + nz * nonZeroGas;
      var z := |data| - nz;
      if (MAX_UINT64 - gas) / TX_DATA_ZERO_GAS < z {
        return GasOverflow;
      }
      gas := gas + z * TX_DATA_ZERO_GAS;
    }
    return Gas(gas);
  }
}
