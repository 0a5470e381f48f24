/** Gas settings shared by all transactions of a run, and the gas total both creation steps announce. */
module TransactionFees {
  import opened Numerals

  datatype Fees = Fees(gas: string, gasPrice: string, chainId: int)

  predicate NumericFees(fees: Fees)
  {
    IsNumeral(fees.gas, 10) && IsNumeral(fees.gasPrice, 10)
  }

  function GasPerTransaction(fees: Fees): nat
    requires NumericFees(fees)
  {
    Parse(fees.gas, 10) * Parse(fees.gasPrice, 10)
  }

  /** The gas total as a text that reads to count times gas times price. */
  method TotalGas(count: nat, fees: Fees) returns (totalGasPrice: string)
    requires NumericFees(fees)
    ensures IsNumeral(totalGasPrice, 10)
    ensures Parse(totalGasPrice, 10) == count * (Parse(fees.gas, 10) * Parse(fees.gasPrice, 10))
  {
    var total: nat := 1;
    total := total * Parse(fees.gas, 10);
    total := total * Parse(fees.gasPrice, 10);
    total := total * count;
    Commute(Parse(fees.gas, 10) * Parse(fees.gasPrice, 10), count);
    ParsePrinted(total, 10);
    totalGasPrice := ToBase(total, 10);
  }

  lemma Commute(a: nat, b: nat)
    ensures a * b == b * a
  {
  }
}
