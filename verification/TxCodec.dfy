/** The serialized form of transactions (BRTransaction.c), and variable-length integers (BRAddress.c). */
module TxCodec {
  import opened Bytes
  import opened Radix
  import opened Scripts
  import opened Sequences
  import opened Transaction
  import opened Wrappers

  // ---------- Serialized form ----------

  function VarInt(i: nat): (bytes: seq<Byte>)
    ensures |bytes| == VarIntSize(i)
  {
    if i < 0xfd then [i]
    else if i <= 0xffff then [0xfd] + ToLittleEndian(i, 2)
    else if i <= UINT32_MAX then [0xfe] + ToLittleEndian(i, 4)
    else [0xff] + ToLittleEndian(i, 8)
  }

  /** An input without a signature is written with its script in the place of one. */
  function Script(input: TxInput): seq<Byte> {
    match input.signature
    case Some(s) => s
    case None => if input.script.Some? then input.script.value else []
  }

  /** And with its amount, unless that is zero. */
  function Amount(input: TxInput): seq<Byte> {
    if input.signature.None? && input.amount != 0 then ToLittleEndian(input.amount, 8) else []
  }

  function EncodeInput(input: TxInput): seq<Byte> {
    ToLittleEndian(input.prev.hash, 32) + (ToLittleEndian(input.prev.n, 4) + (VarInt(|Script(input)|) + (Script(input) +
    (Amount(input) + ToLittleEndian(input.sequence, 4)))))
  }

  function EncodeInputs(inputs: seq<TxInput>): seq<Byte> {
    if inputs == [] then [] else EncodeInput(inputs[0]) + EncodeInputs(inputs[1..])
  }

  function EncodeOutput(output: TxOutput): seq<Byte> {
    ToLittleEndian(output.amount, 8) + (VarInt(|output.script|) + output.script)
  }

  function EncodeOutputs(outputs: seq<TxOutput>): seq<Byte> {
    if outputs == [] then [] else EncodeOutput(outputs[0]) + EncodeOutputs(outputs[1..])
  }

  function Encode(tx: Tx): seq<Byte> {
    ToLittleEndian(tx.version, 4) + (VarInt(|tx.inputs|) + (EncodeInputs(tx.inputs) + (VarInt(|tx.outputs|) +
    (EncodeOutputs(tx.outputs) + ToLittleEndian(tx.lockTime, 4)))))
  }

  // ---------- Reading ----------

  /** A number of `size` bytes, zero if they are not all there. */
  function Number(buf: seq<Byte>, off: nat, size: nat): nat {
    if off + size <= |buf| then LittleEndian(buf[off..off + size]) else 0
  }

  function VarIntHeader(buf: seq<Byte>, off: nat): nat {
    if off + 1 <= |buf| then buf[off] else 0
  }

  function VarIntLength(buf: seq<Byte>, off: nat): nat {
    var h := VarIntHeader(buf, off);
    if h == 0xfd then 3 else if h == 0xfe then 5 else if h == 0xff then 9 else 1
  }

  function VarIntValue(buf: seq<Byte>, off: nat): nat {
    var h := VarIntHeader(buf, off);
    if h == 0xfd then Number(buf, off + 1, 2) else if h == 0xfe then Number(buf, off + 1, 4)
    else if h == 0xff then Number(buf, off + 1, 8) else h
  }

  function ScriptAt(buf: seq<Byte>, start: nat, len: nat): Option<seq<Byte>> {
    if start + len <= |buf| then Some(buf[start..start + len]) else None
  }

  /** A script that pays to an address stands in the place of a signature, and an amount follows. */
  predicate IsUnsignedAt(buf: seq<Byte>, start: nat, len: nat) {
    ScriptAt(buf, start, len).Some? && Recognised(ScriptAt(buf, start, len).value).Some?
  }

  function InputScript(buf: seq<Byte>, off: nat): nat {
    off + 36 + VarIntLength(buf, off + 36)
  }

  function AfterInput(buf: seq<Byte>, off: nat): nat {
    var start, len := InputScript(buf, off), VarIntValue(buf, off + 36);
    start + len + (if IsUnsignedAt(buf, start, len) then 8 else 0) + 4
  }

  function ReadInput(buf: seq<Byte>, off: nat): TxInput {
    var start, len := InputScript(buf, off), VarIntValue(buf, off + 36);
    var prev, script := Outpoint(Number(buf, off, 32), Number(buf, off + 32, 4)), ScriptAt(buf, start, len);
    if IsUnsignedAt(buf, start, len) then
      TxInput(prev, Number(buf, start + len, 8), script, None, Number(buf, start + len + 8, 4))
    else TxInput(prev, 0, None, script, Number(buf, start + len, 4))
  }

  function AfterInputs(buf: seq<Byte>, off: nat, n: nat): nat
    decreases n
  {
    if n == 0 || off > |buf| then off else AfterInputs(buf, AfterInput(buf, off), n - 1)
  }

  function ReadInputs(buf: seq<Byte>, off: nat, n: nat): seq<TxInput>
    decreases n
  {
    if n == 0 || off > |buf| then [] else [ReadInput(buf, off)] + ReadInputs(buf, AfterInput(buf, off), n - 1)
  }

  function OutputScript(buf: seq<Byte>, off: nat): nat {
    off + 8 + VarIntLength(buf, off + 8)
  }

  function AfterOutput(buf: seq<Byte>, off: nat): nat {
    OutputScript(buf, off) + VarIntValue(buf, off + 8)
  }

  /** `addressOf` gives the address a script pays to. */
  function ReadOutput(buf: seq<Byte>, off: nat, addressOf: seq<Byte> -> Address): TxOutput {
    var script := ScriptAt(buf, OutputScript(buf, off), VarIntValue(buf, off + 8));
    if script.Some? then TxOutput(addressOf(script.value), Number(buf, off, 8), script.value)
    else TxOutput("", Number(buf, off, 8), [])
  }

  function AfterOutputs(buf: seq<Byte>, off: nat, n: nat): nat
    decreases n
  {
    if n == 0 || off > |buf| then off else AfterOutputs(buf, AfterOutput(buf, off), n - 1)
  }

  function ReadOutputs(buf: seq<Byte>, off: nat, n: nat, addressOf: seq<Byte> -> Address): seq<TxOutput>
    decreases n
  {
    if n == 0 || off > |buf| then []
    else [ReadOutput(buf, off, addressOf)] + ReadOutputs(buf, AfterOutput(buf, off), n - 1, addressOf)
  }

  /** Where the inputs, the outputs and the lock time begin, and where the transaction ends. */
  function InputsStart(buf: seq<Byte>): nat {
    4 + VarIntLength(buf, 4)
  }

  function InputsEnd(buf: seq<Byte>): nat {
    AfterInputs(buf, InputsStart(buf), VarIntValue(buf, 4))
  }

  function OutputsStart(buf: seq<Byte>): nat {
    InputsEnd(buf) + VarIntLength(buf, InputsEnd(buf))
  }

  function OutputsEnd(buf: seq<Byte>): nat {
    AfterOutputs(buf, OutputsStart(buf), VarIntValue(buf, InputsEnd(buf)))
  }

  /** The bytes a parse takes, present or not. */
  function Consumed(buf: seq<Byte>): nat {
    OutputsEnd(buf) + 4
  }

  datatype Oracles = Oracles(addressOf: seq<Byte> -> Address, hash: seq<Byte> -> Hash)

  /** What is read, if there is at least one input and nothing is missing. */
  function Parsed(buf: seq<Byte>, oracles: Oracles): Option<Tx> {
    if VarIntValue(buf, 4) == 0 || Consumed(buf) > |buf| then None
    else
      var inputs := ReadInputs(buf, InputsStart(buf), VarIntValue(buf, 4));
      var outputs := ReadOutputs(buf, OutputsStart(buf), VarIntValue(buf, InputsEnd(buf)), oracles.addressOf);
      var isSigned := forall i :: 0 <= i < |inputs| ==> inputs[i].signature.Some?;
      Some(Tx(if isSigned then oracles.hash(buf[..Consumed(buf)]) else 0, Number(buf, 0, 4), inputs, outputs,
              Number(buf, OutputsEnd(buf), 4), TX_UNCONFIRMED, 0))
  }

  // ---------- Prefixes ----------

  /** What is read where all bytes are present does not depend on what follows. */
  lemma NumberInPrefix(buf: seq<Byte>, k: nat, off: nat, size: nat)
    requires k <= |buf| && off + size <= k
    ensures Number(buf[..k], off, size) == Number(buf, off, size)
  {
    assert buf[..k][off..off + size] == buf[off..off + size];
  }

  /** A reading of the prefix either runs past its end, or agrees with the reading of the whole. */
  lemma VarIntInPrefix(buf: seq<Byte>, k: nat, off: nat)
    requires k <= |buf|
    ensures var p := buf[..k];
      off + VarIntLength(p, off) > k ||
      (VarIntLength(p, off) == VarIntLength(buf, off) && VarIntValue(p, off) == VarIntValue(buf, off))
  {
    var p := buf[..k];
    if off + VarIntLength(p, off) <= k {
      assert VarIntHeader(p, off) == VarIntHeader(buf, off);
      if VarIntLength(p, off) > 1 {
        NumberInPrefix(buf, k, off + 1, VarIntLength(p, off) - 1);
      }
    }
  }

  lemma InputInPrefix(buf: seq<Byte>, k: nat, off: nat)
    requires k <= |buf|
    ensures AfterInput(buf[..k], off) > k || AfterInput(buf[..k], off) == AfterInput(buf, off)
    ensures AfterInput(buf, off) > off
  {
    hide Recognised, VarIntLength, VarIntValue;
    VarIntInPrefix(buf, k, off + 36);
    var p := buf[..k];
    var start, len := InputScript(p, off), VarIntValue(p, off + 36);
    if start + len <= k {
      assert p[start..start + len] == buf[start..start + len];
    }
  }

  lemma {:induction false} InputsInPrefix(buf: seq<Byte>, k: nat, off: nat, n: nat)
    requires k <= |buf|
    ensures AfterInputs(buf[..k], off, n) > k || AfterInputs(buf[..k], off, n) == AfterInputs(buf, off, n)
    decreases n
  {
    hide AfterInput;
    if n > 0 && off <= k {
      InputInPrefix(buf, k, off);
      if AfterInput(buf[..k], off) > k {
        assert AfterInputs(buf[..k], AfterInput(buf[..k], off), n - 1) == AfterInput(buf[..k], off);
      } else {
        InputsInPrefix(buf, k, AfterInput(buf, off), n - 1);
      }
    }
  }

  lemma OutputInPrefix(buf: seq<Byte>, k: nat, off: nat)
    requires k <= |buf|
    ensures AfterOutput(buf[..k], off) > k || AfterOutput(buf[..k], off) == AfterOutput(buf, off)
  {
    VarIntInPrefix(buf, k, off + 8);
  }

  lemma {:induction false} OutputsInPrefix(buf: seq<Byte>, k: nat, off: nat, n: nat)
    requires k <= |buf|
    ensures AfterOutputs(buf[..k], off, n) > k || AfterOutputs(buf[..k], off, n) == AfterOutputs(buf, off, n)
    decreases n
  {
    hide AfterOutput;
    if n > 0 && off <= k {
      OutputInPrefix(buf, k, off);
      if AfterOutput(buf[..k], off) > k {
        assert AfterOutputs(buf[..k], AfterOutput(buf[..k], off), n - 1) == AfterOutput(buf[..k], off);
      } else {
        OutputsInPrefix(buf, k, AfterOutput(buf, off), n - 1);
      }
    }
  }

  lemma {:induction false} Onward(buf: seq<Byte>, off: nat, n: nat)
    ensures AfterInputs(buf, off, n) >= off && AfterOutputs(buf, off, n) >= off
    decreases n
  {
    if n > 0 && off <= |buf| {
      Onward(buf, AfterInput(buf, off), n - 1);
      Onward(buf, AfterOutput(buf, off), n - 1);
    }
  }

  lemma EndInPrefix(buf: seq<Byte>, k: nat)
    requires k <= |buf|
    ensures Consumed(buf[..k]) > k || Consumed(buf[..k]) == Consumed(buf)
  {
    hide AfterInputs, AfterOutputs, VarIntLength, VarIntValue;
    var p := buf[..k];
    VarIntInPrefix(buf, k, 4);
    Onward(p, InputsStart(p), VarIntValue(p, 4));
    Onward(p, OutputsStart(p), VarIntValue(p, InputsEnd(p)));
    if Consumed(p) <= k {
      InputsInPrefix(buf, k, InputsStart(p), VarIntValue(p, 4));
      VarIntInPrefix(buf, k, InputsEnd(p));
      OutputsInPrefix(buf, k, OutputsStart(p), VarIntValue(p, InputsEnd(p)));
    }
  }

  /** A transaction that ends at a certain byte cannot be read from fewer bytes. */
  lemma PrefixFails(buf: seq<Byte>, k: nat, oracles: Oracles)
    requires k <= |buf| && k < Consumed(buf)
    ensures Parsed(buf[..k], oracles) == None
  {
    hide Consumed;
    EndInPrefix(buf, k);
  }

  // ---------- Round trip ----------

  predicate ValidInput(input: TxInput) {
    && input.prev.hash < Pow(256, 32) && input.prev.n < Pow(256, 4) && input.amount < Pow(256, 8)
    && input.sequence < Pow(256, 4) && |Script(input)| < Pow(256, 8)
  }

  /** A signed input is told from an unsigned one by its signature not being a script that pays to an address. */
  predicate Recognisable(input: TxInput) {
    match input.signature
    case Some(s) => Recognised(s).None?
    case None => input.script.Some? && Recognised(input.script.value).Some? && input.amount != 0
  }

  predicate ValidOutput(output: TxOutput) {
    output.amount < Pow(256, 8) && |output.script| < Pow(256, 8)
  }

  /** The fields fit their places. */
  predicate ValidTx(tx: Tx) {
    && tx.version < Pow(256, 4) && tx.lockTime < Pow(256, 4)
    && |tx.inputs| < Pow(256, 8) && |tx.outputs| < Pow(256, 8)
    && (forall i :: 0 <= i < |tx.inputs| ==> ValidInput(tx.inputs[i]))
    && (forall i :: 0 <= i < |tx.outputs| ==> ValidOutput(tx.outputs[i]))
  }

  /** What of an input is serialized: not the script and amount of a signed one. */
  function Kept(input: TxInput): TxInput {
    if input.signature.Some? then input.(amount := 0, script := None) else input
  }

  lemma NumberAt(buf: seq<Byte>, off: nat, v: nat, size: nat)
    requires At(buf, off, ToLittleEndian(v, size)) && v < Pow(256, size)
    ensures Number(buf, off, size) == v
  {
    LittleEndianBack(v, size);
  }

  lemma VarIntAt(buf: seq<Byte>, off: nat, v: nat)
    requires At(buf, off, VarInt(v)) && v < Pow(256, 8)
    ensures VarIntLength(buf, off) == VarIntSize(v) && VarIntValue(buf, off) == v
  {
    PowsOf256();
    var bytes := VarInt(v);
    assert buf[off] == buf[off..off + |bytes|][0] == bytes[0];
    if v >= 0xfd {
      AtSplit(buf, off, bytes[..1], bytes[1..]);
      assert bytes == bytes[..1] + bytes[1..];
      assert bytes[1..] == ToLittleEndian(v, VarIntSize(v) - 1);
      NumberAt(buf, off + 1, v, VarIntSize(v) - 1);
    }
  }

  lemma InputAt(buf: seq<Byte>, off: nat, input: TxInput)
    requires At(buf, off, EncodeInput(input)) && ValidInput(input) && Recognisable(input)
    ensures ReadInput(buf, off) == Kept(input) && AfterInput(buf, off) == off + |EncodeInput(input)|
  {
    hide At, Number, VarIntLength, VarIntValue, VarInt, Recognised, ToLittleEndian, Pow, VarIntSize;
    var script := Script(input);
    var last := Amount(input) + ToLittleEndian(input.sequence, 4);
    var start := off + 36 + VarIntSize(|script|);
    InputPieces(buf, off, input);
    NumberAt(buf, off, input.prev.hash, 32);
    NumberAt(buf, off + 32, input.prev.n, 4);
    VarIntAt(buf, off + 36, |script|);
    AtIsSlice(buf, start, script);
    if input.signature.None? {
      NumberAt(buf, start + |script|, input.amount, 8);
      NumberAt(buf, start + |script| + 8, input.sequence, 4);
    } else {
      NumberAt(buf, start + |script|, input.sequence, 4);
    }
  }

  lemma AtIsSlice(buf: seq<Byte>, off: nat, bytes: seq<Byte>)
    requires At(buf, off, bytes)
    ensures ScriptAt(buf, off, |bytes|) == Some(bytes)
  {}

  /** The pieces of an input one after the other. */
  lemma InputPieces(buf: seq<Byte>, off: nat, input: TxInput)
    requires At(buf, off, EncodeInput(input))
    ensures var script := Script(input);
      var start := off + 36 + VarIntSize(|script|);
      && At(buf, off, ToLittleEndian(input.prev.hash, 32)) && At(buf, off + 32, ToLittleEndian(input.prev.n, 4))
      && At(buf, off + 36, VarInt(|script|)) && At(buf, start, script) && At(buf, start + |script|, Amount(input))
      && At(buf, start + |script| + |Amount(input)|, ToLittleEndian(input.sequence, 4))
  {
    hide At, VarInt, ToLittleEndian, Script, Amount;
    var script := Script(input);
    var e5 := ToLittleEndian(input.sequence, 4);
    var e4 := Amount(input) + e5;
    var e3 := script + e4;
    var e2 := VarInt(|script|) + e3;
    var e1 := ToLittleEndian(input.prev.n, 4) + e2;
    AtSplit(buf, off, ToLittleEndian(input.prev.hash, 32), e1);
    AtSplit(buf, off + 32, ToLittleEndian(input.prev.n, 4), e2);
    AtSplit(buf, off + 36, VarInt(|script|), e3);
    AtSplit(buf, off + 36 + |VarInt(|script|)|, script, e4);
    AtSplit(buf, off + 36 + |VarInt(|script|)| + |script|, Amount(input), e5);
  }

  function KeptInputs(inputs: seq<TxInput>): seq<TxInput> {
    if inputs == [] then [] else [Kept(inputs[0])] + KeptInputs(inputs[1..])
  }

  lemma {:induction false} InputsAt(buf: seq<Byte>, off: nat, inputs: seq<TxInput>)
    requires At(buf, off, EncodeInputs(inputs))
    requires forall i :: 0 <= i < |inputs| ==> ValidInput(inputs[i]) && Recognisable(inputs[i])
    ensures ReadInputs(buf, off, |inputs|) == KeptInputs(inputs)
    ensures AfterInputs(buf, off, |inputs|) == off + |EncodeInputs(inputs)|
    decreases inputs
  {
    hide At, ReadInput, AfterInput, EncodeInput, ValidInput, Recognisable, Kept;
    Inside(buf, off, EncodeInputs(inputs));
    if inputs != [] {
      AtSplit(buf, off, EncodeInput(inputs[0]), EncodeInputs(inputs[1..]));
      InputAt(buf, off, inputs[0]);
      InputsAt(buf, off + |EncodeInput(inputs[0])|, inputs[1..]);
    }
  }

  lemma Inside(buf: seq<Byte>, off: nat, bytes: seq<Byte>)
    requires At(buf, off, bytes)
    ensures off + |bytes| <= |buf|
  {}

  lemma OutputAt(buf: seq<Byte>, off: nat, output: TxOutput, addressOf: seq<Byte> -> Address)
    requires At(buf, off, EncodeOutput(output)) && ValidOutput(output)
    ensures ReadOutput(buf, off, addressOf) == output.(address := addressOf(output.script))
    ensures AfterOutput(buf, off) == off + |EncodeOutput(output)|
  {
    hide At, Number, VarIntLength, VarIntValue, VarInt, ToLittleEndian, Pow, VarIntSize;
    var len := VarInt(|output.script|);
    AtSplit(buf, off, ToLittleEndian(output.amount, 8), len + output.script);
    AtSplit(buf, off + 8, len, output.script);
    NumberAt(buf, off, output.amount, 8);
    VarIntAt(buf, off + 8, |output.script|);
    AtIsSlice(buf, off + 8 + |len|, output.script);
  }

  function AddressedOutputs(outputs: seq<TxOutput>, addressOf: seq<Byte> -> Address): seq<TxOutput> {
    if outputs == [] then []
    else [outputs[0].(address := addressOf(outputs[0].script))] + AddressedOutputs(outputs[1..], addressOf)
  }

  lemma {:induction false} OutputsAt(buf: seq<Byte>, off: nat, outputs: seq<TxOutput>, addressOf: seq<Byte> -> Address)
    requires At(buf, off, EncodeOutputs(outputs))
    requires forall i :: 0 <= i < |outputs| ==> ValidOutput(outputs[i])
    ensures ReadOutputs(buf, off, |outputs|, addressOf) == AddressedOutputs(outputs, addressOf)
    ensures AfterOutputs(buf, off, |outputs|) == off + |EncodeOutputs(outputs)|
    decreases outputs
  {
    hide At, ReadOutput, AfterOutput, EncodeOutput, ValidOutput;
    Inside(buf, off, EncodeOutputs(outputs));
    if outputs != [] {
      AtSplit(buf, off, EncodeOutput(outputs[0]), EncodeOutputs(outputs[1..]));
      OutputAt(buf, off, outputs[0], addressOf);
      OutputsAt(buf, off + |EncodeOutput(outputs[0])|, outputs[1..], addressOf);
    }
  }

  /** The pieces of a transaction one after the other. */
  lemma Pieces(buf: seq<Byte>, tx: Tx)
    requires At(buf, 0, Encode(tx))
    ensures var o1 := 4 + VarIntSize(|tx.inputs|);
      var o2 := o1 + |EncodeInputs(tx.inputs)|;
      var o3 := o2 + VarIntSize(|tx.outputs|);
      var o4 := o3 + |EncodeOutputs(tx.outputs)|;
      && At(buf, 0, ToLittleEndian(tx.version, 4)) && At(buf, 4, VarInt(|tx.inputs|))
      && At(buf, o1, EncodeInputs(tx.inputs)) && At(buf, o2, VarInt(|tx.outputs|))
      && At(buf, o3, EncodeOutputs(tx.outputs)) && At(buf, o4, ToLittleEndian(tx.lockTime, 4))
      && o4 + 4 == |Encode(tx)|
  {
    hide At, VarInt, ToLittleEndian, EncodeInputs, EncodeOutputs;
    var ins, outs := EncodeInputs(tx.inputs), EncodeOutputs(tx.outputs);
    var e5 := ToLittleEndian(tx.lockTime, 4);
    var e4 := outs + e5;
    var e3 := VarInt(|tx.outputs|) + e4;
    var e2 := ins + e3;
    var e1 := VarInt(|tx.inputs|) + e2;
    AtSplit(buf, 0, ToLittleEndian(tx.version, 4), e1);
    AtSplit(buf, 4, VarInt(|tx.inputs|), e2);
    AtSplit(buf, 4 + |VarInt(|tx.inputs|)|, ins, e3);
    AtSplit(buf, 4 + |VarInt(|tx.inputs|)| + |ins|, VarInt(|tx.outputs|), e4);
    AtSplit(buf, 4 + |VarInt(|tx.inputs|)| + |ins| + |VarInt(|tx.outputs|)|, outs, e5);
  }

  /** The transaction that its serialized form stands for. */
  function Restored(tx: Tx, oracles: Oracles): Tx {
    Tx(if IsSigned(tx) then oracles.hash(Encode(tx)) else 0, tx.version, KeptInputs(tx.inputs),
       AddressedOutputs(tx.outputs, oracles.addressOf), tx.lockTime, TX_UNCONFIRMED, 0)
  }

  lemma {:induction false} KeptSigned(inputs: seq<TxInput>)
    ensures |KeptInputs(inputs)| == |inputs|
    ensures forall i :: 0 <= i < |inputs| ==> KeptInputs(inputs)[i] == Kept(inputs[i])
  {
    if inputs != [] {
      KeptSigned(inputs[1..]);
    }
  }

  lemma EndsAt(buf: seq<Byte>, tx: Tx, oracles: Oracles)
    requires At(buf, 0, Encode(tx)) && ValidTx(tx)
    requires forall i :: 0 <= i < |tx.inputs| ==> Recognisable(tx.inputs[i])
    ensures Consumed(buf) == |Encode(tx)| && VarIntValue(buf, 4) == |tx.inputs|
    ensures ReadInputs(buf, InputsStart(buf), |tx.inputs|) == KeptInputs(tx.inputs)
    ensures VarIntValue(buf, InputsEnd(buf)) == |tx.outputs|
    ensures ReadOutputs(buf, OutputsStart(buf), |tx.outputs|, oracles.addressOf) ==
            AddressedOutputs(tx.outputs, oracles.addressOf)
    ensures Number(buf, 0, 4) == tx.version && Number(buf, OutputsEnd(buf), 4) == tx.lockTime
  {
    hide At, VarInt, ToLittleEndian, EncodeInputs, EncodeOutputs, VarIntLength, VarIntValue, Number, ReadInputs,
         ReadOutputs, AfterInputs, AfterOutputs, Encode, Pow, VarIntSize, Recognisable, ValidInput, ValidOutput,
         KeptInputs, AddressedOutputs;
    Pieces(buf, tx);
    NumberAt(buf, 0, tx.version, 4);
    VarIntAt(buf, 4, |tx.inputs|);
    InputsAt(buf, InputsStart(buf), tx.inputs);
    VarIntAt(buf, InputsEnd(buf), |tx.outputs|);
    OutputsAt(buf, OutputsStart(buf), tx.outputs, oracles.addressOf);
    NumberAt(buf, OutputsEnd(buf), tx.lockTime, 4);
  }

  /** Reading what was written gives the transaction back, whatever follows it. */
  lemma RoundTrip(tx: Tx, rest: seq<Byte>, oracles: Oracles)
    requires ValidTx(tx) && tx.inputs != []
    requires forall i :: 0 <= i < |tx.inputs| ==> Recognisable(tx.inputs[i])
    ensures Parsed(Encode(tx) + rest, oracles) == Some(Restored(tx, oracles))
  {
    hide Encode, ReadInputs, ReadOutputs, VarIntValue, Number, Recognisable, KeptInputs, AddressedOutputs, InputsStart,
         InputsEnd, OutputsStart, OutputsEnd;
    var buf := Encode(tx) + rest;
    assert buf[0..|Encode(tx)|] == Encode(tx) == buf[..|Encode(tx)|];
    EndsAt(buf, tx, oracles);
    KeptSigned(tx.inputs);
    assert forall i :: 0 <= i < |tx.inputs| ==>
      (KeptInputs(tx.inputs)[i].signature.Some? <==> tx.inputs[i].signature.Some?);
  }

  /** And no strict prefix of it can be read. */
  lemma StrictPrefixFails(tx: Tx, k: nat, oracles: Oracles)
    requires ValidTx(tx) && k < |Encode(tx)| && forall i :: 0 <= i < |tx.inputs| ==> Recognisable(tx.inputs[i])
    ensures Parsed(Encode(tx)[..k], oracles) == None
  {
    hide Encode, Recognisable;
    var buf := Encode(tx);
    assert buf[0..|buf|] == buf;
    EndsAt(buf, tx, oracles);
    PrefixFails(buf, k, oracles);
  }

  // ---------- Layout ----------

  /** A variable-length integer is one byte, or a mark for its length and two, four or eight bytes: the shortest that fit. */
  lemma VarIntLayout(v: nat)
    requires v < Pow(256, 8)
    ensures var b := VarInt(v);
      if v <= 252 then b == [v]
      else
        && b[0] == (if v < 65536 then 253 else if v < 4294967296 then 254 else 255)
        && |b| == (if v < 65536 then 3 else if v < 4294967296 then 5 else 9)
        && LittleEndian(b[1..]) == v
  {
    hide Pow, LittleEndian, ToLittleEndian;
    PowsOf256();
    LittleEndianBack(v, VarIntSize(v) - if v <= 252 then 0 else 1);
  }

  /** Where the fields of an input stand. */
  lemma InputLayout(input: TxInput)
    requires ValidInput(input)
    ensures var e, len := EncodeInput(input), |Script(input)|;
      var start := 36 + VarIntSize(len);
      && |e| == start + len + (if input.signature.None? && input.amount != 0 then 12 else 4)
      && Number(e, 0, 32) == input.prev.hash && Number(e, 32, 4) == input.prev.n && VarIntValue(e, 36) == len
      && e[start..start + len] == Script(input) && Number(e, |e| - 4, 4) == input.sequence
      && (input.signature.None? && input.amount != 0 ==> Number(e, start + len, 8) == input.amount)
  {
    hide VarInt, VarIntValue, ToLittleEndian, Pow, VarIntSize, Number, Recognised;
    var e, len := EncodeInput(input), |Script(input)|;
    var start := 36 + VarIntSize(len);
    assert e[0..|e|] == e;
    InputPieces(e, 0, input);
    NumberAt(e, 0, input.prev.hash, 32);
    NumberAt(e, 32, input.prev.n, 4);
    VarIntAt(e, 36, len);
    if input.signature.None? && input.amount != 0 { NumberAt(e, start + len, input.amount, 8); }
    NumberAt(e, |e| - 4, input.sequence, 4);
  }

  /** Where those of an output stand. */
  lemma OutputLayout(output: TxOutput)
    requires ValidOutput(output)
    ensures var e, len := EncodeOutput(output), |output.script|;
      var start := 8 + VarIntSize(len);
      && |e| == start + len && Number(e, 0, 8) == output.amount && VarIntValue(e, 8) == len
      && e[start..] == output.script
  {
    hide VarInt, VarIntValue, ToLittleEndian, Pow, VarIntSize, Number;
    var e, len := EncodeOutput(output), |output.script|;
    var tail := VarInt(len) + output.script;
    assert e[0..|e|] == e;
    AtSplit(e, 0, ToLittleEndian(output.amount, 8), tail);
    AtSplit(e, 8, VarInt(len), output.script);
    NumberAt(e, 0, output.amount, 8);
    VarIntAt(e, 8, len);
  }

  /** And those of a transaction. */
  lemma TxLayout(tx: Tx)
    requires ValidTx(tx)
    ensures var e, ins, outs := Encode(tx), EncodeInputs(tx.inputs), EncodeOutputs(tx.outputs);
      var inputs := 4 + VarIntSize(|tx.inputs|);
      var outputs := inputs + |ins| + VarIntSize(|tx.outputs|);
      && |e| == outputs + |outs| + 4 && Number(e, 0, 4) == tx.version && Number(e, |e| - 4, 4) == tx.lockTime
      && VarIntValue(e, 4) == |tx.inputs| && At(e, inputs, ins)
      && VarIntValue(e, inputs + |ins|) == |tx.outputs| && At(e, outputs, outs)
  {
    hide At, VarInt, VarIntValue, ToLittleEndian, Pow, VarIntSize, Number, EncodeInputs, EncodeOutputs, ValidInput,
         ValidOutput;
    var e, ins, outs := Encode(tx), EncodeInputs(tx.inputs), EncodeOutputs(tx.outputs);
    var inputs := 4 + VarIntSize(|tx.inputs|);
    WholeAt(e);
    Pieces(e, tx);
    NumberAt(e, 0, tx.version, 4);
    NumberAt(e, |e| - 4, tx.lockTime, 4);
    VarIntAt(e, 4, |tx.inputs|);
    VarIntAt(e, inputs + |ins|, |tx.outputs|);
  }

  lemma WholeAt(bytes: seq<Byte>)
    ensures At(bytes, 0, bytes)
  {}

  /** Inputs and outputs stand in their order. */
  lemma {:induction false} InputsInOrder(inputs: seq<TxInput>, i: nat)
    requires i < |inputs|
    ensures At(EncodeInputs(inputs), |EncodeInputs(inputs[..i])|, EncodeInput(inputs[i]))
  {
    hide EncodeInput;
    if i > 0 {
      InputsInOrder(inputs[1..], i - 1);
      assert inputs[1..][..i - 1] == inputs[..i][1..];
    }
  }

  lemma {:induction false} OutputsInOrder(outputs: seq<TxOutput>, i: nat)
    requires i < |outputs|
    ensures At(EncodeOutputs(outputs), |EncodeOutputs(outputs[..i])|, EncodeOutput(outputs[i]))
  {
    hide EncodeOutput;
    if i > 0 {
      OutputsInOrder(outputs[1..], i - 1);
      assert outputs[1..][..i - 1] == outputs[..i][1..];
    }
  }

  // ---------- Size ----------

  lemma {:induction false} InputsSizeFront(inputs: seq<TxInput>)
    requires inputs != []
    ensures InputsSize(inputs) == InputSize(inputs[0]) + InputsSize(inputs[1..])
  {
    hide InputSize;
    if |inputs| > 1 {
      InputsSizeFront(inputs[..|inputs| - 1]);
      assert inputs[1..][..|inputs| - 2] == inputs[..|inputs| - 1][1..];
    } else {
      assert inputs[..0] == [];
    }
  }

  lemma {:induction false} OutputsSizeFront(outputs: seq<TxOutput>)
    requires outputs != []
    ensures OutputsSize(outputs) == OutputSize(outputs[0]) + OutputsSize(outputs[1..])
  {
    hide OutputSize;
    if |outputs| > 1 {
      OutputsSizeFront(outputs[..|outputs| - 1]);
      assert outputs[1..][..|outputs| - 2] == outputs[..|outputs| - 1][1..];
    } else {
      assert outputs[..0] == [];
    }
  }

  lemma {:induction false} SignedInputsSize(inputs: seq<TxInput>)
    requires forall i :: 0 <= i < |inputs| ==> inputs[i].signature.Some?
    ensures |EncodeInputs(inputs)| == InputsSize(inputs)
  {
    hide VarIntSize;
    if inputs != [] {
      SignedInputsSize(inputs[1..]);
      InputsSizeFront(inputs);
    }
  }

  lemma {:induction false} OutputsLength(outputs: seq<TxOutput>)
    ensures |EncodeOutputs(outputs)| == OutputsSize(outputs)
  {
    hide VarIntSize;
    if outputs != [] {
      OutputsLength(outputs[1..]);
      OutputsSizeFront(outputs);
    }
  }

  /** A fully signed transaction is as long as its size says. */
  lemma SignedSize(tx: Tx)
    requires IsSigned(tx)
    ensures |Encode(tx)| == Size(tx.inputs, tx.outputs)
  {
    SignedInputsSize(tx.inputs);
    OutputsLength(tx.outputs);
  }
}
