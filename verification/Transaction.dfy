/** Transactions as the wallet holds them (BRTransaction.h). */
module Transaction {
  import opened Bytes
  import opened Wrappers

  /** A transaction hash; 256-bit in the program. */
  type Hash = nat

  /** The empty string is the address of an output that pays to no recognised script. */
  type Address = string

  datatype Outpoint = Outpoint(hash: Hash, n: nat)

  datatype TxInput = TxInput(
    prev: Outpoint, amount: nat, script: Option<seq<Byte>>, signature: Option<seq<Byte>>, sequence: nat)

  datatype TxOutput = TxOutput(address: Address, amount: nat, script: seq<Byte>)

  datatype Tx = Tx(
    hash: Hash, version: nat, inputs: seq<TxInput>, outputs: seq<TxOutput>, lockTime: nat,
    blockHeight: nat, timestamp: nat)

  const TX_FEE_PER_KB: nat := 1000
  const TX_OUTPUT_SIZE: nat := 34
  const TX_INPUT_SIZE: nat := 148
  const TX_MIN_OUTPUT_AMOUNT: nat := TX_FEE_PER_KB * 3 * (TX_OUTPUT_SIZE + TX_INPUT_SIZE) / 1000
  const TX_MAX_SIZE: nat := 100000
  const TX_UNCONFIRMED: nat := 0x7fff_ffff
  const TX_MAX_LOCK_HEIGHT: nat := 500000000
  const UINT32_MAX: nat := 0xffff_ffff

  /** Some input spends an output of the transaction `h`. */
  predicate DependsOn(tx: Tx, h: Hash) {
    exists i: nat :: i < |tx.inputs| && tx.inputs[i].prev.hash == h
  }

  predicate IsSigned(tx: Tx) {
    forall i :: 0 <= i < |tx.inputs| ==> tx.inputs[i].signature.Some?
  }

  function VarIntSize(i: nat): nat {
    if i < 0xfd then 1 else if i <= 0xffff then 3 else if i <= UINT32_MAX then 5 else 9
  }

  function InputSize(input: TxInput): nat {
    match input.signature
    case Some(sig) => 32 + 4 + VarIntSize(|sig|) + |sig| + 4
    case None => TX_INPUT_SIZE
  }

  function InputsSize(inputs: seq<TxInput>): nat {
    if inputs == [] then 0 else InputsSize(inputs[..|inputs| - 1]) + InputSize(inputs[|inputs| - 1])
  }

  function OutputSize(output: TxOutput): nat {
    8 + VarIntSize(|output.script|) + |output.script|
  }

  function OutputsSize(outputs: seq<TxOutput>): nat {
    if outputs == [] then 0 else OutputsSize(outputs[..|outputs| - 1]) + OutputSize(outputs[|outputs| - 1])
  }

  /** The size in bytes if signed, or an estimate assuming compact public key signatures. */
  function Size(inputs: seq<TxInput>, outputs: seq<TxOutput>): nat {
    8 + VarIntSize(|inputs|) + VarIntSize(|outputs|) + InputsSize(inputs) + OutputsSize(outputs)
  }
}
