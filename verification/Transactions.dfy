/** Transactions as values, their sizes, and the constants of the fee rules. */
module Transactions {
  import opened LittleEndian
  import opened Options

  const TWO_64: nat := 0x1_0000_0000_0000_0000
  const UINT32_MAX: nat := 0xffff_ffff

  type UInt32 = n: nat | n <= UINT32_MAX
  type UInt64 = n: nat | n < TWO_64
  type Hash = n: nat | n < 0x1_00000000_00000000_00000000_00000000_00000000_00000000_00000000_00000000

  const TX_FEE_PER_KB: nat := 1000
  const TX_OUTPUT_SIZE: nat := 34
  const TX_INPUT_SIZE: nat := 148
  const TX_MIN_OUTPUT_AMOUNT: nat := TX_FEE_PER_KB * 3 * (TX_OUTPUT_SIZE + TX_INPUT_SIZE) / 1000
  const TX_MAX_SIZE: nat := 100000
  const TX_UNCONFIRMED: UInt32 := 0x7fff_ffff
  const TX_MAX_LOCK_HEIGHT: nat := 500000000

  // Names one output of one transaction.
  datatype OutPoint = OutPoint(hash: Hash, n: UInt32)

  // An input without a signature is one that is still to be signed.
  datatype Input = Input(txHash: Hash, index: UInt32, amount: UInt64, script: Bytes,
                         signature: Option<Bytes>, sequence: UInt32)
  {
    function Spends(): OutPoint { OutPoint(txHash, index) }
  }

  // The address is empty when the script pays to none that is known.
  datatype Output = Output(address: string, amount: UInt64, script: Bytes)

  datatype Tx = Tx(txHash: Hash, version: UInt32, inputs: seq<Input>, outputs: seq<Output>, lockTime: UInt32,
                   blockHeight: UInt32, timestamp: UInt32)

  predicate AllSigned(inputs: seq<Input>) { forall i :: 0 <= i < |inputs| ==> inputs[i].signature.Some? }

  predicate IsSigned(tx: Tx) { AllSigned(tx.inputs) }

  function VarIntSize(n: nat): nat {
    if n < 0xfd then 1 else if n <= 0xffff then 3 else if n <= UINT32_MAX then 5 else 9
  }

  function InputSize(input: Input): nat {
    match input.signature
    case Some(sig) => 32 + 4 + VarIntSize(|sig|) + |sig| + 4
    case None => TX_INPUT_SIZE
  }

  function InputSizes(inputs: seq<Input>): nat {
    if inputs == [] then 0 else InputSizes(inputs[..|inputs| - 1]) + InputSize(inputs[|inputs| - 1])
  }

  function OutputSize(output: Output): nat {
    8 + VarIntSize(|output.script|) + |output.script|
  }

  function OutputSizes(outputs: seq<Output>): nat {
    if outputs == [] then 0 else OutputSizes(outputs[..|outputs| - 1]) + OutputSize(outputs[|outputs| - 1])
  }

  // The length once signed, where the sizes of missing signatures are the usual ones.
  function TxSize(tx: Tx): nat {
    8 + VarIntSize(|tx.inputs|) + VarIntSize(|tx.outputs|) + InputSizes(tx.inputs) + OutputSizes(tx.outputs)
  }

  method TransactionSize(tx: Tx) returns (size: nat)
    ensures size == TxSize(tx)
  {
    size := 8 + VarIntSize(|tx.inputs|) + VarIntSize(|tx.outputs|);
    ghost var base := size;
    for i := 0 to |tx.inputs|
      invariant size == base + InputSizes(tx.inputs[..i])
    {
      assert tx.inputs[..i + 1][..i] == tx.inputs[..i];
      var input := tx.inputs[i];
      if input.signature.Some? {
        size := size + 32 + 4 + VarIntSize(|input.signature.value|) + |input.signature.value| + 4;
      } else {
        size := size + TX_INPUT_SIZE;
      }
    }
    assert tx.inputs[..|tx.inputs|] == tx.inputs;
    for i := 0 to |tx.outputs|
      invariant size == base + InputSizes(tx.inputs) + OutputSizes(tx.outputs[..i])
    {
      assert tx.outputs[..i + 1][..i] == tx.outputs[..i];
      size := size + 8 + VarIntSize(|tx.outputs[i].script|) + |tx.outputs[i].script|;
    }
    assert tx.outputs[..|tx.outputs|] == tx.outputs;
  }
}
