/** Writing transactions into a buffer and reading them from one (BRTransaction.c, BRAddress.c). */
module TxBuffer {
  import opened Bytes
  import opened Scripts
  import opened Transaction
  import opened TxCodec
  import opened Wrappers

  // ---------- Lengths ----------

  /** Where a part of `n` bytes that is written only if it fits leaves the offset; `room` is None without a buffer. */
  function Advance(room: Option<nat>, off: nat, n: nat): nat {
    if room.None? || off + n <= room.value then off + n else off
  }

  function Left(room: Option<nat>, off: nat): Option<nat> {
    if room.None? then None else Some(if off <= room.value then room.value - off else 0)
  }

  /** The length a writer reports: nothing if it ran out of room. */
  function Reported(room: Option<nat>, off: nat): nat {
    if room.None? || off <= room.value then off else 0
  }

  function InputsOff(inputs: seq<TxInput>, n: nat, off: nat, room: Option<nat>): nat
    requires n <= |inputs|
  {
    if n == 0 then off else
      var o := InputsOff(inputs, n - 1, off, room);
      Advance(room, o, |EncodeInput(inputs[n - 1])|)
  }

  function OutputsOff(outputs: seq<TxOutput>, n: nat, room: Option<nat>): nat
    requires n <= |outputs|
  {
    if n == 0 then 0 else
      var o := OutputsOff(outputs, n - 1, room) + 8;
      Advance(room, o, VarIntSize(|outputs[n - 1].script|)) + |outputs[n - 1].script|
  }

  /** The offset at which the lock time, the last four bytes, is written; parts that did not fit are not counted. */
  function BeforeLockTime(tx: Tx, room: Option<nat>): nat {
    var o1 := Advance(room, 4, VarIntSize(|tx.inputs|));
    var o2 := InputsOff(tx.inputs, |tx.inputs|, o1, room);
    var o3 := Advance(room, o2, VarIntSize(|tx.outputs|));
    o3 + Reported(Left(room, o3), OutputsOff(tx.outputs, |tx.outputs|, Left(room, o3)))
  }

  /** The length `BRTransactionSerialize` reports. */
  function WrittenLength(tx: Tx, room: Option<nat>): nat {
    Reported(room, BeforeLockTime(tx, room) + 4)
  }

  lemma EncodeInputsAppend(inputs: seq<TxInput>, x: TxInput)
    ensures EncodeInputs(inputs + [x]) == EncodeInputs(inputs) + EncodeInput(x)
    decreases inputs
  {
    hide EncodeInput;
    if inputs == [] {
      assert [x][1..] == [] && EncodeInputs([x][1..]) == [];
      assert EncodeInput(x) + [] == EncodeInput(x) && [] + EncodeInput(x) == EncodeInput(x);
      assert [] + [x] == [x];
    } else {
      EncodeInputsAppend(inputs[1..], x);
      assert (inputs + [x])[1..] == inputs[1..] + [x];
      Associative(EncodeInput(inputs[0]), EncodeInputs(inputs[1..]), EncodeInput(x));
    }
  }

  lemma Associative(a: seq<Byte>, b: seq<Byte>, c: seq<Byte>)
    ensures a + (b + c) == (a + b) + c
  {}

  lemma EncodeOutputsAppend(outputs: seq<TxOutput>, x: TxOutput)
    ensures EncodeOutputs(outputs + [x]) == EncodeOutputs(outputs) + EncodeOutput(x)
    decreases outputs
  {
    hide EncodeOutput;
    if outputs == [] {
      assert [x][1..] == [] && EncodeOutputs([x][1..]) == [];
      assert EncodeOutput(x) + [] == EncodeOutput(x) && [] + EncodeOutput(x) == EncodeOutput(x);
      assert [] + [x] == [x];
    } else {
      EncodeOutputsAppend(outputs[1..], x);
      assert (outputs + [x])[1..] == outputs[1..] + [x];
      Associative(EncodeOutput(outputs[0]), EncodeOutputs(outputs[1..]), EncodeOutput(x));
    }
  }

  /** With enough room every part is counted. */
  lemma {:induction false} InputsOffIs(inputs: seq<TxInput>, n: nat, off: nat, room: Option<nat>)
    requires n <= |inputs| && (room.None? || off + |EncodeInputs(inputs[..n])| <= room.value)
    ensures InputsOff(inputs, n, off, room) == off + |EncodeInputs(inputs[..n])|
  {
    hide EncodeInput;
    if n > 0 {
      assert inputs[..n] == inputs[..n - 1] + [inputs[n - 1]];
      EncodeInputsAppend(inputs[..n - 1], inputs[n - 1]);
      InputsOffIs(inputs, n - 1, off, room);
    }
  }

  lemma {:induction false} OutputsOffIs(outputs: seq<TxOutput>, n: nat, room: Option<nat>)
    requires n <= |outputs| && (room.None? || |EncodeOutputs(outputs[..n])| <= room.value)
    ensures OutputsOff(outputs, n, room) == |EncodeOutputs(outputs[..n])|
  {
    if n > 0 {
      assert outputs[..n] == outputs[..n - 1] + [outputs[n - 1]];
      EncodeOutputsAppend(outputs[..n - 1], outputs[n - 1]);
      OutputsOffIs(outputs, n - 1, room);
    }
  }

  /**
   The reported length is the length of the serialized form exactly if there is room for it; without a buffer it
   always is.
  */
  lemma WrittenLengthIs(tx: Tx, room: Option<nat>)
    ensures WrittenLength(tx, room) == |Encode(tx)| <==> room.None? || |Encode(tx)| <= room.value
  {
    hide EncodeInputs, EncodeOutputs, VarInt;
    if room.None? || |Encode(tx)| <= room.value {
      assert tx.inputs[..|tx.inputs|] == tx.inputs && tx.outputs[..|tx.outputs|] == tx.outputs;
      var o1 := 4 + VarIntSize(|tx.inputs|);
      var o3 := o1 + |EncodeInputs(tx.inputs)| + VarIntSize(|tx.outputs|);
      InputsOffIs(tx.inputs, |tx.inputs|, o1, room);
      OutputsOffIs(tx.outputs, |tx.outputs|, Left(room, o3));
    }
  }

  /**
   The reported length is zero or the length of the serialized form exactly if there is room for that form, or none for
   the lock time behind the parts that did fit.
  */
  lemma ZeroOrAll(tx: Tx, room: nat)
    ensures WrittenLength(tx, Some(room)) in {0, |Encode(tx)|} <==>
            |Encode(tx)| <= room || BeforeLockTime(tx, Some(room)) + 4 > room
  {
    WrittenLengthIs(tx, Some(room));
    hide Encode, BeforeLockTime;
  }

  /**
   In every other case parts that do not fit are left out while the lock time, which comes after them, still fits. For
   this transaction, whose serialized form is longer, ten bytes are written and reported.
  */
  lemma ShortBuffer()
    ensures var tx := Tx(0, 1, [TxInput(Outpoint(1, 0), 0, None, Some([]), UINT32_MAX)],
                         [TxOutput("", 1, [])], 0, TX_UNCONFIRMED, 0);
      WrittenLength(tx, Some(10)) == 10 < |Encode(tx)|
  {
    var input, output := TxInput(Outpoint(1, 0), 0, None, Some([]), UINT32_MAX), TxOutput("", 1, []);
    assert |EncodeInput(input)| == 41;
    assert EncodeInputs([input]) == EncodeInput(input) + EncodeInputs([]);
    assert InputsOff([input], 1, 5, Some(10)) == 5 by { assert InputsOff([input], 0, 5, Some(10)) == 5; }
    assert OutputsOff([output], 1, Some(4)) == 8 by { assert OutputsOff([output], 0, Some(4)) == 0; }
  }

  // ---------- Writing ----------

  function Spliced(s: seq<Byte>, off: nat, bytes: seq<Byte>): (r: seq<Byte>)
    requires off + |bytes| <= |s|
    ensures |r| == |s|
  {
    s[..off] + bytes + s[off + |bytes|..]
  }

  lemma SplicedTwice(s: seq<Byte>, off: nat, a: seq<Byte>, b: seq<Byte>)
    requires off + |a| + |b| <= |s|
    ensures Spliced(Spliced(s, off, a), off + |a|, b) == Spliced(s, off, a + b)
  {}

  function Room(data: array?<Byte>): Option<nat> {
    if data == null then None else Some(data.Length)
  }

  /** The bytes of the buffer, if there is one. */
  function Contents(data: array?<Byte>): seq<Byte>
    reads data
  {
    if data == null then [] else data[..]
  }

  /** What a writer starting at `off` did to the buffer, if its bytes fit. */
  predicate Wrote(was: seq<Byte>, off: nat, bytes: seq<Byte>, now: seq<Byte>) {
    |now| == |was| && (off + |bytes| <= |was| ==> now == Spliced(was, off, bytes))
  }

  /** One more part behind those already written. */
  lemma WroteMore(was: seq<Byte>, off: nat, a: seq<Byte>, before: seq<Byte>, b: seq<Byte>, now: seq<Byte>)
    requires Wrote(was, off, a, before) && Wrote(before, off + |a|, b, now)
    ensures Wrote(was, off, a + b, now)
  {
    if off + |a| + |b| <= |was| {
      SplicedTwice(was, off, a, b);
    }
  }

  lemma WroteNothing(was: seq<Byte>, off: nat)
    ensures Wrote(was, off, [], was)
  {}

  /** Copies bytes to an offset if they fit. */
  method Put(data: array?<Byte>, off: nat, bytes: seq<Byte>)
    modifies data
    ensures Wrote(old(Contents(data)), off, bytes, Contents(data))
  {
    if data != null && off + |bytes| <= data.Length {
      forall i | 0 <= i < |bytes| { data[off + i] := bytes[i]; }
      assert data[..] == Spliced(old(data[..]), off, bytes);
    }
  }

  /** `BRVarIntSet` on the buffer from `off` on. */
  method VarIntSet(data: array?<Byte>, off: nat, i: nat) returns (r: nat)
    modifies data
    ensures off + r == Advance(Room(data), off, VarIntSize(i))
    ensures Wrote(old(Contents(data)), off, VarInt(i), Contents(data))
  {
    Put(data, off, VarInt(i));
    r := if data == null || off + VarIntSize(i) <= data.Length then VarIntSize(i) else 0;
  }

  function AmountBytes(amount: nat): seq<Byte> {
    if amount != 0 then ToLittleEndian(amount, 8) else []
  }

  function InputBytes(prev: Outpoint, sig: seq<Byte>, amount: nat, sequence: nat): seq<Byte> {
    ToLittleEndian(prev.hash, 32) + ToLittleEndian(prev.n, 4) + VarInt(|sig|) + sig + AmountBytes(amount)
    + ToLittleEndian(sequence, 4)
  }

  lemma InputBytesAre(input: TxInput)
    ensures EncodeInput(input) ==
      InputBytes(input.prev, Script(input), if input.signature.None? then input.amount else 0, input.sequence)
  {
    hide ToLittleEndian, VarInt;
    var h, n := ToLittleEndian(input.prev.hash, 32), ToLittleEndian(input.prev.n, 4);
    var l, sig := VarInt(|Script(input)|), Script(input);
    var a, q := Amount(input), ToLittleEndian(input.sequence, 4);
    assert h + (n + (l + (sig + (a + q)))) == h + n + l + sig + a + q;
  }

  /** `_BRTxInputData` */
  method InputData(data: array?<Byte>, base: nat, prev: Outpoint, sig: seq<Byte>, amount: nat, sequence: nat)
    returns (r: nat)
    modifies data
    ensures base + r == Advance(Room(data), base, |InputBytes(prev, sig, amount, sequence)|)
    ensures Wrote(old(Contents(data)), base, InputBytes(prev, sig, amount, sequence), Contents(data))
  {
    hide ToLittleEndian, VarInt, Wrote;
    ghost var was := Contents(data);
    var h, n, q := ToLittleEndian(prev.hash, 32), ToLittleEndian(prev.n, 4), ToLittleEndian(sequence, 4);
    var a := AmountBytes(amount);
    var off := 0;
    Put(data, base, h);
    off := off + 32;
    ghost var now := Contents(data);
    Put(data, base + off, n);
    WroteMore(was, base, h, now, n, Contents(data));
    off := off + 4;
    now := Contents(data);
    var v := VarIntSet(data, base + off, |sig|);
    WroteMore(was, base, h + n, now, VarInt(|sig|), Contents(data));
    off := off + v;
    now := Contents(data);
    Put(data, base + off, sig);
    ghost var fits := v == VarIntSize(|sig|);
    if fits { WroteMore(was, base, h + n + VarInt(|sig|), now, sig, Contents(data)); }
    off := off + |sig|;
    now := Contents(data);
    if amount != 0 {
      Put(data, base + off, a);
      off := off + 8;
    } else {
      WroteNothing(now, base + off);
    }
    if fits { WroteMore(was, base, h + n + VarInt(|sig|) + sig, now, a, Contents(data)); }
    now := Contents(data);
    Put(data, base + off, q);
    if fits { WroteMore(was, base, h + n + VarInt(|sig|) + sig + a, now, q, Contents(data)); }
    off := off + 4;
    r := if data == null || base + off <= data.Length then off else 0;
    if !fits { TooShort(was, base, InputBytes(prev, sig, amount, sequence), Contents(data)); }
  }

  lemma TooShort(was: seq<Byte>, off: nat, bytes: seq<Byte>, now: seq<Byte>)
    requires |now| == |was| && off + |bytes| > |was|
    ensures Wrote(was, off, bytes, now)
  {}

  /** The inputs of a whole transaction: an unsigned one is written with its script and amount. */
  method InputsData(data: array?<Byte>, base: nat, inputs: seq<TxInput>) returns (off: nat)
    modifies data
    ensures off == InputsOff(inputs, |inputs|, base, Room(data))
    ensures Wrote(old(Contents(data)), base, EncodeInputs(inputs), Contents(data))
  {
    hide Wrote, EncodeInput, EncodeInputs, InputBytes;
    ghost var was := Contents(data);
    off := base;
    NoInputsYet();
    WroteNothing(was, base);
    for i := 0 to |inputs|
      invariant off == InputsOff(inputs, i, base, Room(data))
      invariant Wrote(was, base, EncodeInputs(inputs[..i]), Contents(data))
    {
      var input := inputs[i];
      var sig, amount := Script(input), if input.signature.None? then input.amount else 0;
      ghost var now := Contents(data);
      InputBytesAre(input);
      assert inputs[..i + 1] == inputs[..i] + [input];
      EncodeInputsAppend(inputs[..i], input);
      var r := InputData(data, off, input.prev, sig, amount, input.sequence);
      if data == null || off == base + |EncodeInputs(inputs[..i])| {
        NextPart(was, base, EncodeInputs(inputs[..i]), now, EncodeInput(input), Contents(data), off);
      } else {
        if base + |EncodeInputs(inputs[..i])| <= data.Length { InputsOffIs(inputs, i, base, Room(data)); }
        TooShort(was, base, EncodeInputs(inputs[..i + 1]), Contents(data));
      }
      off := off + r;
    }
    assert inputs[..|inputs|] == inputs;
  }

  lemma NoInputsYet()
    ensures EncodeInputs([]) == [] && EncodeOutputs([]) == []
  {}

  lemma NextPart(was: seq<Byte>, base: nat, a: seq<Byte>, now: seq<Byte>, b: seq<Byte>, after: seq<Byte>, off: nat)
    requires Wrote(was, base, a, now) && Wrote(now, off, b, after) && (off == base + |a| || was == [])
    ensures Wrote(was, base, a + b, after)
  {
    if off == base + |a| { WroteMore(was, base, a, now, b, after); }
  }

  method OutputData(data: array?<Byte>, base: nat, output: TxOutput) returns (r: nat)
    modifies data
    ensures base + r == Advance(Room(data), base + 8, VarIntSize(|output.script|)) + |output.script|
    ensures Wrote(old(Contents(data)), base, EncodeOutput(output), Contents(data))
  {
    hide ToLittleEndian, VarInt, Wrote;
    ghost var was := Contents(data);
    var a, script := ToLittleEndian(output.amount, 8), output.script;
    var off := 0;
    Put(data, base, a);
    off := off + 8;
    ghost var now := Contents(data);
    var v := VarIntSet(data, base + off, |script|);
    WroteMore(was, base, a, now, VarInt(|script|), Contents(data));
    off := off + v;
    now := Contents(data);
    Put(data, base + off, script);
    assert EncodeOutput(output) == a + VarInt(|script|) + script;
    if v == VarIntSize(|script|) {
      WroteMore(was, base, a + VarInt(|script|), now, script, Contents(data));
    } else {
      TooShort(was, base, EncodeOutput(output), Contents(data));
    }
    r := off + |script|;
  }

  /** `_BRTransactionOutputData` for all outputs. */
  method OutputsData(data: array?<Byte>, base: nat, outputs: seq<TxOutput>) returns (r: nat)
    modifies data
    ensures r == Reported(Left(Room(data), base), OutputsOff(outputs, |outputs|, Left(Room(data), base)))
    ensures Wrote(old(Contents(data)), base, EncodeOutputs(outputs), Contents(data))
  {
    hide Wrote, EncodeOutput, EncodeOutputs;
    ghost var was := Contents(data);
    var off := 0;
    NoInputsYet();
    WroteNothing(was, base);
    for i := 0 to |outputs|
      invariant off == OutputsOff(outputs, i, Left(Room(data), base))
      invariant Wrote(was, base, EncodeOutputs(outputs[..i]), Contents(data))
    {
      var output := outputs[i];
      ghost var now := Contents(data);
      assert outputs[..i + 1] == outputs[..i] + [output];
      EncodeOutputsAppend(outputs[..i], output);
      var d := OutputData(data, base + off, output);
      if data == null || off == |EncodeOutputs(outputs[..i])| {
        NextPart(was, base, EncodeOutputs(outputs[..i]), now, EncodeOutput(output), Contents(data), base + off);
      } else {
        if base + |EncodeOutputs(outputs[..i])| <= data.Length { OutputsOffIs(outputs, i, Left(Room(data), base)); }
        TooShort(was, base, EncodeOutputs(outputs[..i + 1]), Contents(data));
      }
      off := off + d;
    }
    assert outputs[..|outputs|] == outputs;
    r := if data == null || off <= (if base <= data.Length then data.Length - base else 0) then off else 0;
  }

  /**
   `BRTransactionSerialize`: with enough room the serialized form is written and its length reported. Without a buffer
   the length is the same.
  */
  method Serialize(tx: Tx, data: array?<Byte>) returns (length: nat)
    modifies data
    ensures length == WrittenLength(tx, Room(data))
    ensures data == null ==> length == |Encode(tx)|
    ensures data != null ==>
      && (length == |Encode(tx)| <==> |Encode(tx)| <= data.Length)
      && (|Encode(tx)| <= data.Length ==>
           data[..length] == Encode(tx) && data[length..] == old(data[..])[length..])
  {
    hide Wrote, VarInt, ToLittleEndian, EncodeInputs, EncodeOutputs, WrittenLength, OutputsOff, InputsOff;
    ghost var was := Contents(data);
    ghost var ins, outs, room := EncodeInputs(tx.inputs), EncodeOutputs(tx.outputs), Room(data);
    ghost var n, m := VarInt(|tx.inputs|), VarInt(|tx.outputs|);
    ghost var v, l := ToLittleEndian(tx.version, 4), ToLittleEndian(tx.lockTime, 4);
    ghost var fits := data == null || |Encode(tx)| <= data.Length;
    var off := 0;
    Put(data, 0, ToLittleEndian(tx.version, 4));
    off := off + 4;
    ghost var now := Contents(data);
    var r := VarIntSet(data, off, |tx.inputs|);
    WroteMore(was, 0, v, now, n, Contents(data));
    off := off + r;
    ghost var o1 := off;
    now := Contents(data);
    off := InputsData(data, off, tx.inputs);
    ghost var o2 := off;
    if fits {
      WroteMore(was, 0, v + n, now, ins, Contents(data));
      assert tx.inputs[..|tx.inputs|] == tx.inputs && tx.outputs[..|tx.outputs|] == tx.outputs;
      InputsOffIs(tx.inputs, |tx.inputs|, o1, room);
    }
    now := Contents(data);
    r := VarIntSet(data, off, |tx.outputs|);
    if fits { WroteMore(was, 0, v + n + ins, now, m, Contents(data)); }
    off := off + r;
    ghost var o3 := off;
    now := Contents(data);
    r := OutputsData(data, off, tx.outputs);
    if fits {
      WroteMore(was, 0, v + n + ins + m, now, outs, Contents(data));
      OutputsOffIs(tx.outputs, |tx.outputs|, Left(room, o3));
    }
    off := off + r;
    now := Contents(data);
    Put(data, off, ToLittleEndian(tx.lockTime, 4));
    if fits { WroteMore(was, 0, v + n + ins + m + outs, now, l, Contents(data)); }
    off := off + 4;
    length := if data == null || off <= data.Length then off else 0;
    WrittenLengthUnfolded(tx, room, o1, o2, o3);
    WrittenLengthIs(tx, room);
    if fits {
      EncodeLeft(tx);
      WroteWhole(was, Encode(tx), Contents(data));
    }
  }

  lemma WrittenLengthUnfolded(tx: Tx, room: Option<nat>, o1: nat, o2: nat, o3: nat)
    requires o1 == Advance(room, 4, VarIntSize(|tx.inputs|)) && o2 == InputsOff(tx.inputs, |tx.inputs|, o1, room)
    requires o3 == Advance(room, o2, VarIntSize(|tx.outputs|))
    ensures WrittenLength(tx, room) ==
      Reported(room, o3 + Reported(Left(room, o3), OutputsOff(tx.outputs, |tx.outputs|, Left(room, o3))) + 4)
  {}

  lemma EncodeLeft(tx: Tx)
    ensures Encode(tx) == ToLittleEndian(tx.version, 4) + VarInt(|tx.inputs|) + EncodeInputs(tx.inputs)
                          + VarInt(|tx.outputs|) + EncodeOutputs(tx.outputs) + ToLittleEndian(tx.lockTime, 4)
  {
    hide VarInt, ToLittleEndian, EncodeInputs, EncodeOutputs;
  }

  lemma WroteWhole(was: seq<Byte>, bytes: seq<Byte>, now: seq<Byte>)
    requires Wrote(was, 0, bytes, now)
    ensures |bytes| <= |was| ==> |now| == |was| && now[..|bytes|] == bytes && now[|bytes|..] == was[|bytes|..]
  {}

  // ---------- Reading ----------

  /** `BRVarInt` */
  method ReadVarInt(buf: seq<Byte>, off: nat) returns (value: nat, length: nat)
    ensures value == VarIntValue(buf, off) && length == VarIntLength(buf, off)
  {
    var left := if off <= |buf| then |buf| - off else 0;
    var h: Byte := if 1 <= left then buf[off] else 0;
    if h == 0xfd {
      return if 3 <= left then LittleEndian(buf[off + 1..off + 3]) else 0, 3;
    } else if h == 0xfe {
      return if 5 <= left then LittleEndian(buf[off + 1..off + 5]) else 0, 5;
    } else if h == 0xff {
      return if 9 <= left then LittleEndian(buf[off + 1..off + 9]) else 0, 9;
    } else {
      return h, 1;
    }
  }

  method ParseInput(buf: seq<Byte>, off0: nat) returns (input: TxInput, off: nat)
    ensures input == ReadInput(buf, off0) && off == AfterInput(buf, off0)
  {
    hide Recognised, LittleEndian;
    off := off0;
    var hash := Number(buf, off, 32);
    off := off + 32;
    var n := Number(buf, off, 4);
    off := off + 4;
    var sLen, len := ReadVarInt(buf, off);
    off := off + len;
    var script, signature, amount := None, None, 0;
    var payee := None;
    if off + sLen <= |buf| { payee := FromScriptPubKey(buf[off..off + sLen]); }
    if payee.Some? {
      script := Some(buf[off..off + sLen]);
      amount := Number(buf, off + sLen, 8);
      off := off + 8;
    } else if off + sLen <= |buf| {
      signature := Some(buf[off..off + sLen]);
    }
    off := off + sLen;
    var sequence := Number(buf, off, 4);
    off := off + 4;
    input := TxInput(Outpoint(hash, n), amount, script, signature, sequence);
  }

  method ParseOutput(buf: seq<Byte>, off0: nat, addressOf: seq<Byte> -> Address) returns (output: TxOutput, off: nat)
    ensures output == ReadOutput(buf, off0, addressOf) && off == AfterOutput(buf, off0)
  {
    off := off0;
    var amount := Number(buf, off, 8);
    off := off + 8;
    var sLen, len := ReadVarInt(buf, off);
    off := off + len;
    output := TxOutput("", amount, []);
    if off + sLen <= |buf| {
      output := TxOutput(addressOf(buf[off..off + sLen]), amount, buf[off..off + sLen]);
    }
    off := off + sLen;
  }

  /** The inputs, as long as there are bytes, and whether all of them are signed. */
  method ParseInputs(buf: seq<Byte>, off0: nat, inCount: nat) returns (inputs: seq<TxInput>, off: nat, isSigned: bool)
    ensures inputs == ReadInputs(buf, off0, inCount) && off == AfterInputs(buf, off0, inCount)
    ensures off <= |buf| ==> (isSigned <==> forall i :: 0 <= i < |inputs| ==> inputs[i].signature.Some?)
  {
    hide ReadInput, AfterInput;
    inputs, off, isSigned := [], off0, true;
    var i := 0;
    assert [] + ReadInputs(buf, off, inCount) == ReadInputs(buf, off, inCount);
    while off <= |buf| && i < inCount
      invariant i <= inCount && ReadInputs(buf, off0, inCount) == inputs + ReadInputs(buf, off, inCount - i)
      invariant AfterInputs(buf, off0, inCount) == AfterInputs(buf, off, inCount - i)
      invariant off <= |buf| ==> (isSigned <==> forall k :: 0 <= k < |inputs| ==> inputs[k].signature.Some?)
      decreases inCount - i
    {
      ghost var before, start := inputs, off;
      var input;
      input, off := ParseInput(buf, off);
      inputs := inputs + [input];
      if input.script.Some? { isSigned := false; }
      SignedUnlessScript(buf, start);
      assert inputs[|before|] == input && forall k :: 0 <= k < |before| ==> inputs[k] == before[k];
      assert before + ([input] + ReadInputs(buf, off, inCount - i - 1)) ==
             before + [input] + ReadInputs(buf, off, inCount - i - 1);
      i := i + 1;
    }
    assert inputs + [] == inputs;
  }

  /** Within the buffer, an input is either signed or has a script. */
  lemma SignedUnlessScript(buf: seq<Byte>, off: nat)
    ensures AfterInput(buf, off) <= |buf| ==>
      (ReadInput(buf, off).signature.Some? <==> ReadInput(buf, off).script.None?)
  {}

  method ParseOutputs(buf: seq<Byte>, off0: nat, outCount: nat, addressOf: seq<Byte> -> Address)
    returns (outputs: seq<TxOutput>, off: nat)
    ensures outputs == ReadOutputs(buf, off0, outCount, addressOf) && off == AfterOutputs(buf, off0, outCount)
  {
    hide ReadOutput, AfterOutput;
    outputs, off := [], off0;
    var i := 0;
    assert [] + ReadOutputs(buf, off, outCount, addressOf) == ReadOutputs(buf, off, outCount, addressOf);
    while off <= |buf| && i < outCount
      invariant i <= outCount
      invariant ReadOutputs(buf, off0, outCount, addressOf) == outputs + ReadOutputs(buf, off, outCount - i, addressOf)
      invariant AfterOutputs(buf, off0, outCount) == AfterOutputs(buf, off, outCount - i)
      decreases outCount - i
    {
      ghost var before := outputs;
      var output;
      output, off := ParseOutput(buf, off, addressOf);
      outputs := outputs + [output];
      assert before + ([output] + ReadOutputs(buf, off, outCount - i - 1, addressOf)) ==
             before + [output] + ReadOutputs(buf, off, outCount - i - 1, addressOf);
      i := i + 1;
    }
    assert outputs + [] == outputs;
  }

  /** `BRTransactionParse` */
  method Parse(buf: seq<Byte>, oracles: Oracles) returns (tx: Option<Tx>)
    ensures tx == Parsed(buf, oracles)
  {
    hide ReadInputs, ReadOutputs, AfterInputs, AfterOutputs, LittleEndian, VarIntValue, VarIntLength;
    var off := 0;
    var version := Number(buf, off, 4);
    off := off + 4;
    var inCount, len := ReadVarInt(buf, off);
    off := off + len;
    var inputs, isSigned;
    inputs, off, isSigned := ParseInputs(buf, off, inCount);
    var outCount;
    outCount, len := ReadVarInt(buf, off);
    off := off + len;
    var outputs;
    outputs, off := ParseOutputs(buf, off, outCount, oracles.addressOf);
    var lockTime := Number(buf, off, 4);
    off := off + 4;
    if inCount == 0 || off > |buf| { return None; }
    Onward(buf, OutputsStart(buf), outCount);
    var hash := if isSigned then oracles.hash(buf[..off]) else 0;
    tx := Some(Tx(hash, version, inputs, outputs, lockTime, TX_UNCONFIRMED, 0));
  }
}
