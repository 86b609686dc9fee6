/** Script elements, and the scripts that pay to an address (BRAddress.c). */
module Scripts {
  import opened Bytes
  import opened Radix
  import opened Wrappers

  const OP_PUSHDATA1: Byte := 0x4c
  const OP_PUSHDATA2: Byte := 0x4d
  const OP_PUSHDATA4: Byte := 0x4e
  const OP_DUP: Byte := 0x76
  const OP_EQUAL: Byte := 0x87
  const OP_EQUALVERIFY: Byte := 0x88
  const OP_HASH160: Byte := 0xa9
  const OP_CHECKSIG: Byte := 0xac
  const MAX_SCRIPT_LENGTH: nat := 0x100

  /** The number of bytes before the data of an element. */
  function HeaderLength(op: Byte): nat {
    if op == OP_PUSHDATA1 then 2 else if op == OP_PUSHDATA2 then 3 else if op == OP_PUSHDATA4 then 5 else 1
  }

  /** The length of the data of the element at `off`, once its header is complete. */
  function DataLength(script: seq<Byte>, off: nat): nat
    requires off < |script| && off + HeaderLength(script[off]) <= |script|
  {
    var op := script[off];
    if op == OP_PUSHDATA1 then script[off + 1]
    else if op == OP_PUSHDATA2 then LittleEndian(script[off + 1..off + 3])
    else if op == OP_PUSHDATA4 then LittleEndian(script[off + 1..off + 5])
    else if op > OP_PUSHDATA4 then 0 else op
  }

  /** The offsets of the elements from `off` on, if they end where the script ends. */
  function ElementsFrom(script: seq<Byte>, off: nat): Option<seq<nat>>
    decreases if off < |script| then |script| - off else 0
  {
    if off == |script| then Some([])
    else if off > |script| || off + HeaderLength(script[off]) > |script| then None
    else
      After([off], ElementsFrom(script, off + HeaderLength(script[off]) + DataLength(script, off)))
  }

  function After(elems: seq<nat>, rest: Option<seq<nat>>): Option<seq<nat>> {
    if rest.None? then None else Some(elems + rest.value)
  }

  lemma AfterAppend(elems: seq<nat>, off: nat, rest: Option<seq<nat>>)
    ensures After(elems, After([off], rest)) == After(elems + [off], rest) && After([], rest) == rest
  {
    if rest.Some? {
      assert elems + ([off] + rest.value) == elems + [off] + rest.value;
      assert [] + rest.value == rest.value;
    }
  }

  /**
   `BRScriptElements`: no elements if the script does not end with one. A length that is cut off keeps the length of
   the element before it, but then the script has ended anyway.
  */
  method Elements(script: seq<Byte>) returns (elems: seq<nat>)
    ensures elems == match ElementsFrom(script, 0) case Some(e) => e case None => []
  {
    var off: nat, len: nat := 0, 0;
    elems := [];
    AfterAppend([], 0, ElementsFrom(script, 0));
    while off < |script|
      invariant off <= |script| ==> ElementsFrom(script, 0) == After(elems, ElementsFrom(script, off))
      invariant off > |script| ==> ElementsFrom(script, 0) == None
      decreases if off < |script| then |script| - off else 0
    {
      ghost var start := off;
      elems := elems + [off];
      var op := script[off];
      off := off + 1;
      if op == OP_PUSHDATA1 {
        if off + 1 <= |script| { len := script[off]; }
        off := off + 1;
      } else if op == OP_PUSHDATA2 {
        if off + 2 <= |script| { len := LittleEndian(script[off..off + 2]); }
        off := off + 2;
      } else if op == OP_PUSHDATA4 {
        if off + 4 <= |script| { len := LittleEndian(script[off..off + 4]); }
        off := off + 4;
      } else {
        len := if op > OP_PUSHDATA4 then 0 else op;
      }
      assert off == start + HeaderLength(op);
      assert off <= |script| ==> len == DataLength(script, start);
      off := off + len;
      AfterAppend(elems[..|elems| - 1], start, ElementsFrom(script, off));
      assert elems[..|elems| - 1] + [start] == elems;
    }
    AfterAppend(elems, 0, Some([]));
    if off != |script| { elems := []; }
  }

  lemma FirstElement(script: seq<Byte>, off: nat, e: seq<nat>)
    requires ElementsFrom(script, off) == Some(e)
    ensures e == [] <==> off == |script|
    ensures e != [] ==>
      && off < |script| && e[0] == off && off + HeaderLength(script[off]) <= |script|
      && ElementsFrom(script, off + HeaderLength(script[off]) + DataLength(script, off)) == Some(e[1..])
  {}

  lemma {:induction false} OffsetsInside(script: seq<Byte>, off: nat)
    ensures var e := ElementsFrom(script, off);
      e.Some? ==> forall i :: 0 <= i < |e.value| ==> off <= e.value[i] < |script|
    decreases if off < |script| then |script| - off else 0
  {
    if off < |script| && off + HeaderLength(script[off]) <= |script| {
      OffsetsInside(script, off + HeaderLength(script[off]) + DataLength(script, off));
    }
  }

  /** `BRScriptData`: the data an element pushes, if it pushes any. */
  function ScriptData(script: seq<Byte>, off: nat): Option<seq<Byte>>
    requires off < |script| && off + HeaderLength(script[off]) <= |script|
    requires off + HeaderLength(script[off]) + DataLength(script, off) <= |script|
  {
    var start := off + HeaderLength(script[off]);
    var len := DataLength(script, off);
    if len > 0 then Some(script[start..start + len]) else None
  }

  // ---------- Scripts that pay to an address ----------

  datatype Payee = KeyHash(hash: seq<Byte>) | ScriptHash(hash: seq<Byte>) | PublicKey(key: seq<Byte>)

  /** The four forms of script that are recognised, byte for byte. */
  function Recognised(script: seq<Byte>): Option<Payee> {
    if |script| == 25 && script[0] == OP_DUP && script[1] == OP_HASH160 && script[2] == 20 &&
       script[23] == OP_EQUALVERIFY && script[24] == OP_CHECKSIG then Some(KeyHash(script[3..23]))
    else if |script| == 23 && script[0] == OP_HASH160 && script[1] == 20 && script[22] == OP_EQUAL then
      Some(ScriptHash(script[2..22]))
    else if ((|script| == 67 && script[0] == 65) || (|script| == 35 && script[0] == 33)) &&
            script[|script| - 1] == OP_CHECKSIG then Some(PublicKey(script[1..|script| - 1]))
    else None
  }

  /** An operation without data. */
  lemma PlainOp(script: seq<Byte>, off: nat)
    requires off < |script| && script[off] > OP_PUSHDATA4
    ensures ElementsFrom(script, off) == After([off], ElementsFrom(script, off + 1))
    ensures HeaderLength(script[off]) == 1 && DataLength(script, off) == 0
  {}

  /** A direct push. */
  lemma Push(script: seq<Byte>, off: nat)
    requires off < |script| && script[off] < OP_PUSHDATA1
    ensures ElementsFrom(script, off) == After([off], ElementsFrom(script, off + 1 + script[off]))
    ensures HeaderLength(script[off]) == 1 && DataLength(script, off) == script[off]
  {}

  lemma AtEnd(script: seq<Byte>)
    ensures ElementsFrom(script, |script|) == Some([])
  {}

  /** The elements of a recognised script. */
  lemma RecognisedElements(script: seq<Byte>)
    requires Recognised(script).Some?
    ensures ElementsFrom(script, 0) ==
      match Recognised(script).value
      case KeyHash(_) => Some([0, 1, 2, 23, 24])
      case ScriptHash(_) => Some([0, 1, 22])
      case PublicKey(_) => Some([0, |script| - 1])
  {
    hide ElementsFrom;
    AtEnd(script);
    match Recognised(script).value
    case KeyHash(_) =>
      PlainOp(script, 0);
      PlainOp(script, 1);
      Push(script, 2);
      PlainOp(script, 23);
      PlainOp(script, 24);
      assert [0] + ([1] + ([2] + ([23] + ([24] + [])))) == [0, 1, 2, 23, 24];
    case ScriptHash(_) =>
      PlainOp(script, 0);
      Push(script, 1);
      PlainOp(script, 22);
      assert [0] + ([1] + ([22] + [])) == [0, 1, 22];
    case PublicKey(_) =>
      Push(script, 0);
      PlainOp(script, |script| - 1);
      assert [0] + ([|script| - 1] + []) == [0, |script| - 1];
  }

  /** The test the program makes on the elements. */
  predicate LooksLikeKeyHash(script: seq<Byte>, e: seq<nat>)
    requires forall i :: 0 <= i < |e| ==> e[i] < |script|
  {
    |e| == 5 && script[e[0]] == OP_DUP && script[e[1]] == OP_HASH160 && script[e[2]] == 20 &&
    script[e[3]] == OP_EQUALVERIFY && script[e[4]] == OP_CHECKSIG
  }

  predicate LooksLikeScriptHash(script: seq<Byte>, e: seq<nat>)
    requires forall i :: 0 <= i < |e| ==> e[i] < |script|
  {
    |e| == 3 && script[e[0]] == OP_HASH160 && script[e[1]] == 20 && script[e[2]] == OP_EQUAL
  }

  predicate LooksLikePublicKey(script: seq<Byte>, e: seq<nat>)
    requires forall i :: 0 <= i < |e| ==> e[i] < |script|
  {
    |e| == 2 && (script[e[0]] == 65 || script[e[0]] == 33) && script[e[1]] == OP_CHECKSIG
  }

  // Scripts whose elements look like a form have that form.

  lemma IsKeyHash(script: seq<Byte>, e: seq<nat>)
    requires ElementsFrom(script, 0) == Some(e) && (forall i :: 0 <= i < |e| ==> e[i] < |script|)
    requires LooksLikeKeyHash(script, e)
    ensures |script| == 25 && e[2] == 2 && Recognised(script) == Some(KeyHash(script[3..23]))
  {
    hide ElementsFrom;
    FirstElement(script, 0, e);
    PlainOp(script, 0);
    FirstElement(script, 1, e[1..]);
    PlainOp(script, 1);
    FirstElement(script, 2, e[2..]);
    Push(script, 2);
    FirstElement(script, 23, e[3..]);
    PlainOp(script, 23);
    FirstElement(script, 24, e[4..]);
    PlainOp(script, 24);
    FirstElement(script, 25, []);
  }

  lemma IsScriptHash(script: seq<Byte>, e: seq<nat>)
    requires ElementsFrom(script, 0) == Some(e) && (forall i :: 0 <= i < |e| ==> e[i] < |script|)
    requires LooksLikeScriptHash(script, e)
    ensures |script| == 23 && e[1] == 1 && Recognised(script) == Some(ScriptHash(script[2..22]))
  {
    hide ElementsFrom;
    FirstElement(script, 0, e);
    PlainOp(script, 0);
    FirstElement(script, 1, e[1..]);
    Push(script, 1);
    FirstElement(script, 22, e[2..]);
    PlainOp(script, 22);
    FirstElement(script, 23, []);
  }

  lemma IsPublicKey(script: seq<Byte>, e: seq<nat>)
    requires ElementsFrom(script, 0) == Some(e) && (forall i :: 0 <= i < |e| ==> e[i] < |script|)
    requires LooksLikePublicKey(script, e)
    ensures |script| >= 1 && e[0] == 0 && Recognised(script) == Some(PublicKey(script[1..|script| - 1]))
  {
    hide ElementsFrom;
    FirstElement(script, 0, e);
    Push(script, 0);
    FirstElement(script, 1 + script[0], e[1..]);
    PlainOp(script, 1 + script[0]);
    FirstElement(script, 2 + script[0], []);
  }

  /** `BRAddressFromScriptPubKey`, up to the encoding of the address. */
  method FromScriptPubKey(script: seq<Byte>) returns (payee: Option<Payee>)
    ensures payee == Recognised(script)
  {
    hide ElementsFrom;
    if |script| == 0 || |script| > MAX_SCRIPT_LENGTH { return None; }
    var elems := Elements(script);
    OffsetsInside(script, 0);
    if Recognised(script).Some? { RecognisedElements(script); }
    NoElements(script);
    if LooksLikeKeyHash(script, elems) {
      IsKeyHash(script, elems);
      return Some(KeyHash(ScriptData(script, elems[2]).value));
    } else if LooksLikeScriptHash(script, elems) {
      IsScriptHash(script, elems);
      return Some(ScriptHash(ScriptData(script, elems[1]).value));
    } else if LooksLikePublicKey(script, elems) {
      IsPublicKey(script, elems);
      return Some(PublicKey(ScriptData(script, elems[0]).value));
    }
    return None;
  }

  lemma NoElements(script: seq<Byte>)
    ensures |script| > 0 ==> ElementsFrom(script, 0) != Some([])
  {}

  // ---------- Data pushes ----------

  /** `BRScriptPushData` */
  function PushData(data: seq<Byte>): seq<Byte> {
    if |data| < OP_PUSHDATA1 then [|data|] + data
    else if |data| < 0xff then [OP_PUSHDATA1, |data|] + data
    else if |data| < 0xffff then [OP_PUSHDATA2] + ToLittleEndian(|data|, 2) + data
    else [OP_PUSHDATA4] + ToLittleEndian(|data|, 4) + data
  }

  /** A pushed element is one element, and gives its data back. */
  lemma PushDataRoundTrip(data: seq<Byte>)
    requires |data| < 0x1_0000_0000
    ensures var s := PushData(data);
      && ElementsFrom(s, 0) == Some([0]) && HeaderLength(s[0]) + DataLength(s, 0) == |s|
      && ScriptData(s, 0) == if data == [] then None else Some(data)
  {
    var s := PushData(data);
    if |data| >= 0xffff {
      PowsOf256();
      LittleEndianBack(|data|, 4);
      assert s[1..5] == ToLittleEndian(|data|, 4);
    } else if |data| >= 0xff {
      PowsOf256();
      LittleEndianBack(|data|, 2);
      assert s[1..3] == ToLittleEndian(|data|, 2);
    }
    AtEnd(s);
    assert [0] + [] == [0];
    assert s[|s| - |data|..|s|] == data;
  }

  lemma PowsOf256()
    ensures Pow(256, 1) == 0x100 && Pow(256, 2) == 0x1_0000 && Pow(256, 4) == 0x1_0000_0000
    ensures Pow(256, 8) == 0x1_0000_0000_0000_0000
  {
    PowAdd(256, 2, 2);
    PowAdd(256, 4, 4);
  }
}
