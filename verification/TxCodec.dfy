/** Transactions as bytes: the writer that fills a buffer behind a moving offset, and the parser. */
module TxCodec {
  import opened LittleEndian
  import opened Powers
  import opened Slices
  import opened Options
  import opened Transactions

  // What the address functions of a coin make of a script: whether it pays to an address, and to which one.
  datatype Coin = Coin(paysAddress: Bytes -> bool, address: Bytes -> string)

  lemma BytePowers()
    ensures Pow(256, 1) == 256 && Pow(256, 2) == 0x1_0000 && Pow(256, 4) == 0x1_0000_0000
    ensures Pow(256, 8) == TWO_64
    ensures Pow(256, 32) == 0x1_00000000_00000000_00000000_00000000_00000000_00000000_00000000_00000000
  {
    PowAdd(256, 2, 2);
    PowAdd(256, 4, 4);
    PowAdd(256, 8, 8);
    PowAdd(256, 16, 16);
  }

  // ---- the format ----

  function VarInt(n: UInt64): (bytes: Bytes)
    ensures |bytes| == VarIntSize(n)
  {
    if n < 0xfd then [n]
    else if n <= 0xffff then [0xfd] + ToLE(n, 2)
    else if n <= UINT32_MAX then [0xfe] + ToLE(n, 4)
    else [0xff] + ToLE(n, 8)
  }

  // The script that is written for an input: its signature, or the script that it spends if it is unsigned.
  function ScriptOf(input: Input): Bytes {
    match input.signature
    case Some(sig) => sig
    case None => input.script
  }

  // The amount is written for unsigned inputs only, and not when it is zero.
  function WrittenAmount(input: Input): UInt64 { if input.signature.Some? then 0 else input.amount }

  function InputBytes(input: Input): Bytes
    requires |ScriptOf(input)| < TWO_64
  {
    ToLE(input.txHash, 32) + (ToLE(input.index, 4) + (VarInt(|ScriptOf(input)|) + (ScriptOf(input) +
      ((if WrittenAmount(input) != 0 then ToLE(WrittenAmount(input), 8) else []) + ToLE(input.sequence, 4)))))
  }

  function OutputBytes(output: Output): Bytes
    requires |output.script| < TWO_64
  {
    ToLE(output.amount, 8) + (VarInt(|output.script|) + output.script)
  }

  // Lengths are 64-bit words.
  ghost predicate InputsFit(inputs: seq<Input>) { forall i :: 0 <= i < |inputs| ==> |ScriptOf(inputs[i])| < TWO_64 }

  ghost predicate OutputsFit(outputs: seq<Output>) { forall i :: 0 <= i < |outputs| ==> |outputs[i].script| < TWO_64 }

  ghost predicate Fits(tx: Tx) {
    |tx.inputs| < TWO_64 && |tx.outputs| < TWO_64 && InputsFit(tx.inputs) && OutputsFit(tx.outputs)
  }

  function AllInputs(inputs: seq<Input>): Bytes
    requires InputsFit(inputs)
  {
    if inputs == [] then [] else InputBytes(inputs[0]) + AllInputs(inputs[1..])
  }

  function AllOutputs(outputs: seq<Output>): Bytes
    requires OutputsFit(outputs)
  {
    if outputs == [] then [] else OutputBytes(outputs[0]) + AllOutputs(outputs[1..])
  }

  function Serialized(tx: Tx): Bytes
    requires Fits(tx)
  {
    ToLE(tx.version, 4) + (VarInt(|tx.inputs|) + (AllInputs(tx.inputs) +
      (VarInt(|tx.outputs|) + (AllOutputs(tx.outputs) + ToLE(tx.lockTime, 4)))))
  }

  lemma {:induction false} InputsLength(inputs: seq<Input>)
    requires InputsFit(inputs) && forall i :: 0 <= i < |inputs| ==> inputs[i].signature.Some?
    ensures |AllInputs(inputs)| == InputSizes(inputs)
  {
    if inputs != [] {
      InputsLength(inputs[1..]);
      InputSizesFront(inputs);
    }
  }

  lemma {:induction false} InputSizesFront(inputs: seq<Input>)
    requires inputs != []
    ensures InputSizes(inputs) == InputSize(inputs[0]) + InputSizes(inputs[1..])
  {
    if |inputs| > 1 {
      var init := inputs[..|inputs| - 1];
      assert init[1..] == inputs[1..][..|inputs| - 2];
      InputSizesFront(init);
    } else {
      assert inputs[..0] == [] && inputs[1..] == [];
    }
  }

  lemma {:induction false} OutputsLength(outputs: seq<Output>)
    requires OutputsFit(outputs)
    ensures |AllOutputs(outputs)| == OutputSizes(outputs)
  {
    if outputs != [] {
      OutputsLength(outputs[1..]);
      OutputSizesFront(outputs);
    }
  }

  lemma {:induction false} OutputSizesFront(outputs: seq<Output>)
    requires outputs != []
    ensures OutputSizes(outputs) == OutputSize(outputs[0]) + OutputSizes(outputs[1..])
  {
    if |outputs| > 1 {
      var init := outputs[..|outputs| - 1];
      assert init[1..] == outputs[1..][..|outputs| - 2];
      OutputSizesFront(init);
    } else {
      assert outputs[..0] == [] && outputs[1..] == [];
    }
  }

  // The size that fees are computed from is the length of a signed transaction.
  lemma SignedLength(tx: Tx)
    requires Fits(tx) && IsSigned(tx)
    ensures |Serialized(tx)| == TxSize(tx)
  {
    InputsLength(tx.inputs);
    OutputsLength(tx.outputs);
    hide AllInputs, AllOutputs, InputSizes, OutputSizes, VarIntSize;
  }

  // ---- writing ----

  // The buffer, if there is one, holds the text from its start on, and what it held before behind it.
  ghost predicate Wrote(buf: array?<Byte>, before: seq<Byte>, text: Bytes)
    reads buf
  {
    buf != null ==> |before| == buf.Length && |text| <= buf.Length && buf[..] == text + before[|text|..]
  }

  // While there is room for everything, the offset is behind the text.
  ghost predicate Writing(buf: array?<Byte>, before: seq<Byte>, text: Bytes, off: nat, room: bool)
    reads buf
  {
    room ==> off == |text| && Wrote(buf, before, text)
  }

  ghost predicate RoomFor(buf: array?<Byte>, text: Bytes) { buf != null ==> |text| <= buf.Length }

  // The offsets behind what is written to a buffer of n bytes, whatever there is room for: an integer that does not
  // fit and a part that runs out of the buffer do not advance it.
  function IntEnd(n: nat, off: nat, x: UInt64): nat { if off + VarIntSize(x) <= n then off + VarIntSize(x) else off }

  function Within(n: nat, off: nat, end: nat): nat { if end <= n then end else off }

  function InputEnd(n: nat, off: nat, input: Input): nat
    requires |ScriptOf(input)| < TWO_64
  {
    var script := |ScriptOf(input)|;
    Within(n, off, IntEnd(n, off + 36, script) + script + (if WrittenAmount(input) != 0 then 12 else 4))
  }

  function OutputEnd(n: nat, off: nat, output: Output): nat
    requires |output.script| < TWO_64
  {
    IntEnd(n, off + 8, |output.script|) + |output.script|
  }

  function InputsEnd(n: nat, off: nat, inputs: seq<Input>): nat
    requires InputsFit(inputs)
  {
    if inputs == [] then off
    else InputEnd(n, InputsEnd(n, off, inputs[..|inputs| - 1]), inputs[|inputs| - 1])
  }

  function OutputsEnd(n: nat, off: nat, outputs: seq<Output>): nat
    requires OutputsFit(outputs)
  {
    if outputs == [] then off
    else OutputEnd(n, OutputsEnd(n, off, outputs[..|outputs| - 1]), outputs[|outputs| - 1])
  }

  // The result for a buffer of n bytes.
  function WrittenLength(n: nat, tx: Tx): nat
    requires Fits(tx)
  {
    var ins := InputsEnd(n, IntEnd(n, 4, |tx.inputs|), tx.inputs);
    var outs := IntEnd(n, ins, |tx.outputs|);
    Within(n, 0, Within(n, outs, OutputsEnd(n, outs, tx.outputs)) + 4)
  }

  lemma InputsEndNext(n: nat, off: nat, inputs: seq<Input>, i: nat)
    requires InputsFit(inputs) && i < |inputs|
    ensures InputsFit(inputs[..i]) && InputsFit(inputs[..i + 1]) && |ScriptOf(inputs[i])| < TWO_64
    ensures InputsEnd(n, off, inputs[..i + 1]) == InputEnd(n, InputsEnd(n, off, inputs[..i]), inputs[i])
  {
    hide InputEnd;
    assert inputs[..i + 1][..i] == inputs[..i];
  }

  lemma OutputsEndNext(n: nat, off: nat, outputs: seq<Output>, i: nat)
    requires OutputsFit(outputs) && i < |outputs|
    ensures OutputsFit(outputs[..i]) && OutputsFit(outputs[..i + 1]) && |outputs[i].script| < TWO_64
    ensures OutputsEnd(n, off, outputs[..i + 1]) == OutputEnd(n, OutputsEnd(n, off, outputs[..i]), outputs[i])
  {
    hide OutputEnd;
    assert outputs[..i + 1][..i] == outputs[..i];
  }

  lemma InputEndIs(n: nat, off: nat, input: Input)
    requires |ScriptOf(input)| < TWO_64
    ensures var script := |ScriptOf(input)|;
      InputEnd(n, off, input)
        == Within(n, off, IntEnd(n, off + 36, script) + script + (if WrittenAmount(input) != 0 then 12 else 4))
  {
  }

  // Writes bytes at the offset, if they fit.
  method Put(buf: array?<Byte>, off: nat, bytes: Bytes, ghost before: seq<Byte>, ghost text: Bytes, ghost room: bool)
      returns (next: nat)
    requires Writing(buf, before, text, off, room) && (room ==> RoomFor(buf, text + bytes))
    modifies buf
    ensures next == off + |bytes| && Writing(buf, before, text + bytes, next, room)
  {
    next := off + |bytes|;
    if buf != null && off + |bytes| <= buf.Length {
      for i := 0 to |bytes|
        invariant room ==> buf[..] == text + bytes[..i] + before[off + i..]
      {
        buf[off + i] := bytes[i];
        assert bytes[..i + 1] == bytes[..i] + [bytes[i]];
      }
      assert bytes[..|bytes|] == bytes;
    }
  }

  // A variable-length integer that does not fit does not advance the offset.
  method PutVarInt(buf: array?<Byte>, off: nat, n: UInt64, ghost before: seq<Byte>, ghost text: Bytes, ghost room: bool)
      returns (next: nat)
    requires Writing(buf, before, text, off, room) && (room ==> RoomFor(buf, text + VarInt(n)))
    modifies buf
    ensures Writing(buf, before, text + VarInt(n), next, room)
    ensures buf != null ==> next == IntEnd(buf.Length, off, n)
  {
    var bytes := VarInt(n);
    if buf != null && off + |bytes| > buf.Length { return off; }
    next := Put(buf, off, bytes, before, text, room);
  }

  method PutInput(buf: array?<Byte>, off: nat, input: Input, ghost before: seq<Byte>, ghost text: Bytes, ghost room: bool)
      returns (next: nat)
    requires |ScriptOf(input)| < TWO_64
    requires Writing(buf, before, text, off, room) && (room ==> RoomFor(buf, text + InputBytes(input)))
    modifies buf
    ensures Writing(buf, before, text + InputBytes(input), next, room)
    ensures buf != null ==> next == InputEnd(buf.Length, off, input)
  {
    hide *;
    var script, amount := ScriptOf(input), WrittenAmount(input);
    if buf != null { InputEndIs(buf.Length, off, input); }
    ghost var t1 := text + ToLE(input.txHash, 32);
    ghost var t2 := t1 + ToLE(input.index, 4);
    ghost var t3 := t2 + VarInt(|script|);
    ghost var t4 := t3 + script;
    ghost var t5 := if amount != 0 then t4 + ToLE(amount, 8) else t4;
    InputSteps(input, text, t5);
    RoomForPrefix(buf, t5, ToLE(input.sequence, 4));
    if amount != 0 { RoomForPrefix(buf, t4, ToLE(amount, 8)); }
    RoomForPrefix(buf, t3, script);
    RoomForPrefix(buf, t2, VarInt(|script|));
    RoomForPrefix(buf, t1, ToLE(input.index, 4));
    next := Put(buf, off, ToLE(input.txHash, 32), before, text, room);
    next := Put(buf, next, ToLE(input.index, 4), before, t1, room);
    next := PutVarInt(buf, next, |script|, before, t2, room);
    next := Put(buf, next, script, before, t3, room);
    if amount != 0 {
      next := Put(buf, next, ToLE(amount, 8), before, t4, room);
    }
    next := Put(buf, next, ToLE(input.sequence, 4), before, t5, room);
    next := Advanced(buf, off, next, before, text + InputBytes(input), room);
  }

  lemma RoomForPrefix(buf: array?<Byte>, a: Bytes, b: Bytes)
    ensures RoomFor(buf, a + b) ==> RoomFor(buf, a)
  {
  }

  // The text behind which the sequence of an input is written.
  lemma InputSteps(input: Input, text: Bytes, t5: Bytes)
    requires |ScriptOf(input)| < TWO_64
    requires var t4, amount := text + ToLE(input.txHash, 32) + ToLE(input.index, 4) + VarInt(|ScriptOf(input)|)
        + ScriptOf(input), WrittenAmount(input);
      t5 == if amount != 0 then t4 + ToLE(amount, 8) else t4
    ensures text + InputBytes(input) == t5 + ToLE(input.sequence, 4)
  {
    hide ToLE, VarInt, ScriptOf;
  }

  // A nested writer that ran out of the buffer reports no bytes.
  method Advanced(buf: array?<Byte>, off: nat, next: nat, ghost before: seq<Byte>, ghost text: Bytes, ghost room: bool)
      returns (r: nat)
    requires Writing(buf, before, text, next, room) && (room ==> RoomFor(buf, text))
    ensures Writing(buf, before, text, r, room)
    ensures r == if buf == null then next else Within(buf.Length, off, next)
  {
    r := if buf == null || next <= buf.Length then next else off;
  }

  method PutOutput(buf: array?<Byte>, off: nat, output: Output, ghost before: seq<Byte>, ghost text: Bytes, ghost room: bool)
      returns (next: nat)
    requires |output.script| < TWO_64
    requires Writing(buf, before, text, off, room) && (room ==> RoomFor(buf, text + OutputBytes(output)))
    modifies buf
    ensures Writing(buf, before, text + OutputBytes(output), next, room)
    ensures buf != null ==> next == OutputEnd(buf.Length, off, output)
  {
    ghost var t1 := text + ToLE(output.amount, 8);
    ghost var t2 := t1 + VarInt(|output.script|);
    assert text + OutputBytes(output) == t2 + output.script;
    hide Writing, OutputBytes, VarInt, ToLE;
    next := Put(buf, off, ToLE(output.amount, 8), before, text, room);
    next := PutVarInt(buf, next, |output.script|, before, t1, room);
    next := Put(buf, next, output.script, before, t2, room);
  }

  lemma RoomWithin(buf: array?<Byte>, text: Bytes, a: Bytes, b: Bytes, all: Bytes)
    requires a + b <= all
    ensures text + a + b == text + (a + b)
    ensures RoomFor(buf, text + all) ==> RoomFor(buf, text + a + b)
  {
  }

  lemma {:induction false} InputsAppend(inputs: seq<Input>, i: nat)
    requires InputsFit(inputs) && i < |inputs|
    ensures InputsFit(inputs[..i]) && InputsFit(inputs[..i + 1]) && |ScriptOf(inputs[i])| < TWO_64
    ensures AllInputs(inputs[..i + 1]) == AllInputs(inputs[..i]) + InputBytes(inputs[i])
    ensures AllInputs(inputs[..i + 1]) <= AllInputs(inputs)
  {
    hide InputBytes;
    if i == 0 {
      assert inputs[..1][1..] == [] && inputs[..0] == [];
    } else {
      assert inputs[..i][1..] == inputs[1..][..i - 1] && inputs[..i + 1][1..] == inputs[1..][..i];
      InputsAppend(inputs[1..], i - 1);
    }
  }

  lemma {:induction false} OutputsAppend(outputs: seq<Output>, i: nat)
    requires OutputsFit(outputs) && i < |outputs|
    ensures OutputsFit(outputs[..i]) && OutputsFit(outputs[..i + 1]) && |outputs[i].script| < TWO_64
    ensures AllOutputs(outputs[..i + 1]) == AllOutputs(outputs[..i]) + OutputBytes(outputs[i])
    ensures AllOutputs(outputs[..i + 1]) <= AllOutputs(outputs)
  {
    hide OutputBytes;
    if i == 0 {
      assert outputs[..1][1..] == [] && outputs[..0] == [];
    } else {
      assert outputs[..i][1..] == outputs[1..][..i - 1] && outputs[..i + 1][1..] == outputs[1..][..i];
      OutputsAppend(outputs[1..], i - 1);
    }
  }

  method PutInputs(buf: array?<Byte>, off: nat, inputs: seq<Input>, ghost before: seq<Byte>, ghost text: Bytes,
                   ghost room: bool) returns (next: nat)
    requires InputsFit(inputs)
    requires Writing(buf, before, text, off, room) && (room ==> RoomFor(buf, text + AllInputs(inputs)))
    modifies buf
    ensures Writing(buf, before, text + AllInputs(inputs), next, room)
    ensures buf != null ==> next == InputsEnd(buf.Length, off, inputs)
  {
    next := off;
    assert inputs[..0] == [] && AllInputs(inputs[..0]) == [] && text + [] == text;
    for i := 0 to |inputs|
      invariant InputsFit(inputs[..i]) && Writing(buf, before, text + AllInputs(inputs[..i]), next, room)
      invariant buf != null ==> next == InputsEnd(buf.Length, off, inputs[..i])
    {
      hide *;
      InputsAppend(inputs, i);
      if buf != null { InputsEndNext(buf.Length, off, inputs, i); }
      RoomWithin(buf, text, AllInputs(inputs[..i]), InputBytes(inputs[i]), AllInputs(inputs));
      next := PutInput(buf, next, inputs[i], before, text + AllInputs(inputs[..i]), room);
    }
    assert inputs[..|inputs|] == inputs;
  }

  method PutOutputs(buf: array?<Byte>, off: nat, outputs: seq<Output>, ghost before: seq<Byte>, ghost text: Bytes,
                    ghost room: bool) returns (next: nat)
    requires OutputsFit(outputs)
    requires Writing(buf, before, text, off, room) && (room ==> RoomFor(buf, text + AllOutputs(outputs)))
    modifies buf
    ensures Writing(buf, before, text + AllOutputs(outputs), next, room)
    ensures buf != null ==> next == Within(buf.Length, off, OutputsEnd(buf.Length, off, outputs))
  {
    next := off;
    assert outputs[..0] == [] && AllOutputs(outputs[..0]) == [] && text + [] == text;
    for i := 0 to |outputs|
      invariant OutputsFit(outputs[..i]) && Writing(buf, before, text + AllOutputs(outputs[..i]), next, room)
      invariant buf != null ==> next == OutputsEnd(buf.Length, off, outputs[..i])
    {
      hide *;
      OutputsAppend(outputs, i);
      if buf != null { OutputsEndNext(buf.Length, off, outputs, i); }
      RoomWithin(buf, text, AllOutputs(outputs[..i]), OutputBytes(outputs[i]), AllOutputs(outputs));
      next := PutOutput(buf, next, outputs[i], before, text + AllOutputs(outputs[..i]), room);
    }
    assert outputs[..|outputs|] == outputs;
    next := Advanced(buf, off, next, before, text + AllOutputs(outputs), room);
  }

  // Writes the transaction, or returns its length if there is no buffer. The result is the length of the transaction
  // exactly when there was room for it: a shorter buffer is left with parts of it, and the result is no more than its
  // size, but need not be zero.
  method Serialize(tx: Tx, buf: array?<Byte>) returns (len: nat)
    requires Fits(tx)
    modifies buf
    ensures RoomFor(buf, Serialized(tx)) ==> len == |Serialized(tx)|
    ensures RoomFor(buf, Serialized(tx)) && buf != null ==>
      buf[..len] == Serialized(tx) && buf[len..] == old(buf[len..])
    ensures !RoomFor(buf, Serialized(tx)) ==> buf != null && len <= buf.Length < |Serialized(tx)|
    ensures buf != null ==> len == WrittenLength(buf.Length, tx)
  {
    ghost var room := RoomFor(buf, Serialized(tx));
    ghost var before: seq<Byte> := if buf != null then buf[..] else [];
    StartWriting(buf, before, room);
    StepsOf(tx, buf);
    hide *;
    len := Put(buf, 0, ToLE(tx.version, 4), before, [], room);
    len := PutVarInt(buf, len, |tx.inputs|, before, Step(tx, 1), room);
    len := PutInputs(buf, len, tx.inputs, before, Step(tx, 2), room);
    len := PutVarInt(buf, len, |tx.outputs|, before, Step(tx, 3), room);
    len := PutOutputs(buf, len, tx.outputs, before, Step(tx, 4), room);
    len := Put(buf, len, ToLE(tx.lockTime, 4), before, Step(tx, 5), room);
    WroteAll(buf, before, Serialized(tx), len, room);
    if buf != null { WrittenLengthIs(buf.Length, tx); }
    len := if buf == null || len <= buf.Length then len else 0;
  }

  lemma WrittenLengthIs(n: nat, tx: Tx)
    requires Fits(tx)
    ensures |tx.inputs| < TWO_64 && |tx.outputs| < TWO_64 && InputsFit(tx.inputs) && OutputsFit(tx.outputs)
    ensures var ins := InputsEnd(n, IntEnd(n, 4, |tx.inputs|), tx.inputs);
      var outs := IntEnd(n, ins, |tx.outputs|);
      var len := Within(n, outs, OutputsEnd(n, outs, tx.outputs)) + 4;
      WrittenLength(n, tx) == if len <= n then len else 0
  {
    hide InputsEnd, OutputsEnd, IntEnd;
  }

  const LONG := Tx(0, 1, [Input(7, 0, 0, [], Some([]), UINT32_MAX)], [], 0, TX_UNCONFIRMED, 0)

  // A buffer that has room for all but the input is left with the rest, and its length is the result.
  lemma ShortExample()
    ensures Fits(LONG) && |Serialized(LONG)| == 51 && WrittenLength(10, LONG) == 10
  {
    hide ToLE;
    assert LONG.inputs[..0] == [] && LONG.inputs[1..] == [];
    assert AllInputs(LONG.inputs) == InputBytes(LONG.inputs[0]) + AllInputs(LONG.inputs[1..]);
    assert InputsEnd(10, 5, LONG.inputs[..0]) == 5;
    assert InputsEnd(10, 5, LONG.inputs) == InputEnd(10, 5, LONG.inputs[0]) == 5;
  }

  // What is written after each part of the transaction.
  ghost function Step(tx: Tx, n: nat): Bytes
    requires Fits(tx) && n <= 6
  {
    if n == 0 then [] else Step(tx, n - 1) + Part(tx, n - 1)
  }

  ghost function Part(tx: Tx, n: nat): Bytes
    requires Fits(tx) && n < 6
  {
    if n == 0 then ToLE(tx.version, 4) else if n == 1 then VarInt(|tx.inputs|) else if n == 2 then AllInputs(tx.inputs)
    else if n == 3 then VarInt(|tx.outputs|) else if n == 4 then AllOutputs(tx.outputs) else ToLE(tx.lockTime, 4)
  }

  lemma StepsOf(tx: Tx, buf: array?<Byte>)
    requires Fits(tx)
    ensures |tx.inputs| < TWO_64 && |tx.outputs| < TWO_64 && InputsFit(tx.inputs) && OutputsFit(tx.outputs)
    ensures Step(tx, 1) == [] + ToLE(tx.version, 4) && Step(tx, 2) == Step(tx, 1) + VarInt(|tx.inputs|)
    ensures Step(tx, 3) == Step(tx, 2) + AllInputs(tx.inputs) && Step(tx, 4) == Step(tx, 3) + VarInt(|tx.outputs|)
    ensures Step(tx, 5) == Step(tx, 4) + AllOutputs(tx.outputs)
    ensures Serialized(tx) == Step(tx, 5) + ToLE(tx.lockTime, 4)
    ensures RoomFor(buf, Serialized(tx)) ==>
      && RoomFor(buf, Step(tx, 1)) && RoomFor(buf, Step(tx, 2)) && RoomFor(buf, Step(tx, 3))
      && RoomFor(buf, Step(tx, 4)) && RoomFor(buf, Step(tx, 5))
    ensures !RoomFor(buf, Serialized(tx)) ==> buf != null && buf.Length < |Serialized(tx)|
  {
    hide ToLE, VarInt, AllInputs, AllOutputs, InputsFit, OutputsFit;
    assert Step(tx, 0) == [];
    Reassociate(ToLE(tx.version, 4), VarInt(|tx.inputs|), AllInputs(tx.inputs), VarInt(|tx.outputs|),
      AllOutputs(tx.outputs), ToLE(tx.lockTime, 4));
  }

  lemma Reassociate(a: Bytes, b: Bytes, c: Bytes, d: Bytes, e: Bytes, f: Bytes)
    ensures a + (b + (c + (d + (e + f)))) == [] + a + b + c + d + e + f
  {
  }

  lemma StartWriting(buf: array?<Byte>, before: seq<Byte>, room: bool)
    requires buf != null ==> before == buf[..]
    ensures Writing(buf, before, [], 0, room)
  {
  }

  lemma WroteAll(buf: array?<Byte>, before: seq<Byte>, text: Bytes, off: nat, room: bool)
    requires Writing(buf, before, text, off, room)
    ensures room ==> off == |text|
    ensures room && buf != null ==>
      |before| == buf.Length && off <= buf.Length && buf[..off] == text && buf[off..] == before[off..]
  {
  }

  // ---- parsing ----

  // count bytes at the offset as a number, or zero past the end of the buffer.
  function ReadLE(buf: Bytes, off: nat, count: nat): (n: nat)
    ensures n < Pow(256, count)
  {
    PowPositive(256, count);
    if off + count <= |buf| then
      LEBound(buf[off..off + count]);
      LE(buf[off..off + count])
    else 0
  }

  function Read32(buf: Bytes, off: nat): UInt32 {
    BytePowers();
    ReadLE(buf, off, 4)
  }

  function Read64(buf: Bytes, off: nat): UInt64 {
    BytePowers();
    ReadLE(buf, off, 8)
  }

  function ReadHash(buf: Bytes, off: nat): Hash {
    BytePowers();
    ReadLE(buf, off, 32)
  }

  // A variable-length integer, and the offset behind it.
  function ReadVarInt(buf: Bytes, off: nat): (r: (nat, nat))
    ensures off < r.1
  {
    var h := ReadLE(buf, off, 1);
    if h == 0xfd then (ReadLE(buf, off + 1, 2), off + 3)
    else if h == 0xfe then (ReadLE(buf, off + 1, 4), off + 5)
    else if h == 0xff then (ReadLE(buf, off + 1, 8), off + 9)
    else (h, off + 1)
  }

  // An input, the offset behind it, and whether it is signed. A script that pays to an address is taken for the one
  // that an unsigned input spends; the amount behind it is read, but not skipped.
  function ReadInput(coin: Coin, buf: Bytes, off: nat): (r: (Input, nat, bool))
    ensures off < r.1
  {
    var hash, index, v := ReadHash(buf, off), Read32(buf, off + 32), ReadVarInt(buf, off + 36);
    var end := v.1 + v.0;
    var sequence := Read32(buf, end);
    if end <= |buf| && coin.paysAddress(buf[v.1..end]) then
      (Input(hash, index, Read64(buf, end), buf[v.1..end], None, sequence), end + 4, false)
    else if end <= |buf| then (Input(hash, index, 0, [], Some(buf[v.1..end]), sequence), end + 4, true)
    else (Input(hash, index, 0, [], None, sequence), end + 4, true)
  }

  function ReadOutput(coin: Coin, buf: Bytes, off: nat): (r: (Output, nat))
    ensures off < r.1
  {
    var amount, v := Read64(buf, off), ReadVarInt(buf, off + 8);
    var end := v.1 + v.0;
    var script := if end <= |buf| then buf[v.1..end] else [];
    (Output(if end <= |buf| then coin.address(script) else "", amount, script), end)
  }

  function ReadInputs(coin: Coin, buf: Bytes, off: nat, count: nat): (seq<Input>, nat, bool)
    decreases count
  {
    if count == 0 || off > |buf| then ([], off, true)
    else
      var one := ReadInput(coin, buf, off);
      var more := ReadInputs(coin, buf, one.1, count - 1);
      ([one.0] + more.0, more.1, one.2 && more.2)
  }

  function ReadOutputs(coin: Coin, buf: Bytes, off: nat, count: nat): (seq<Output>, nat)
    decreases count
  {
    if count == 0 || off > |buf| then ([], off)
    else
      var one := ReadOutput(coin, buf, off);
      var more := ReadOutputs(coin, buf, one.1, count - 1);
      ([one.0] + more.0, more.1)
  }

  // The transaction at the start of a buffer; the hash of what it takes up names it if it is signed.
  function ParseTx(coin: Coin, sha: Bytes -> Hash, buf: Bytes): Option<Tx> {
    var ins := ReadVarInt(buf, 4);
    var inputs := ReadInputs(coin, buf, ins.1, ins.0);
    var outs := ReadVarInt(buf, inputs.1);
    var outputs := ReadOutputs(coin, buf, outs.1, outs.0);
    var end := outputs.1 + 4;
    if ins.0 == 0 || end > |buf| then None
    else
      Some(Tx(if inputs.2 then sha(buf[..end]) else 0, Read32(buf, 0), inputs.0, outputs.0, Read32(buf, outputs.1),
              TX_UNCONFIRMED, 0))
  }

  // ---- parsing what was written ----

  lemma ReadAt(buf: Bytes, off: nat, n: nat, count: nat)
    requires At(buf, off, ToLE(n, count)) && n < Pow(256, count)
    ensures ReadLE(buf, off, count) == n
  {
    LERoundTrip(n, count);
    hide LE, ToLE, Pow;
  }

  lemma Read32At(buf: Bytes, off: nat, n: UInt32)
    requires At(buf, off, ToLE(n, 4))
    ensures Read32(buf, off) == n
  {
    BytePowers();
    hide ToLE, ReadLE, Pow, At;
    ReadAt(buf, off, n, 4);
  }

  lemma Read64At(buf: Bytes, off: nat, n: UInt64)
    requires At(buf, off, ToLE(n, 8))
    ensures Read64(buf, off) == n
  {
    BytePowers();
    hide ToLE, ReadLE, Pow, At;
    ReadAt(buf, off, n, 8);
  }

  lemma ReadHashAt(buf: Bytes, off: nat, n: Hash)
    requires At(buf, off, ToLE(n, 32))
    ensures ReadHash(buf, off) == n
  {
    BytePowers();
    hide ToLE, ReadLE, Pow, At;
    ReadAt(buf, off, n, 32);
  }

  lemma ReadVarIntAt(buf: Bytes, off: nat, n: UInt64)
    requires At(buf, off, VarInt(n))
    ensures ReadVarInt(buf, off) == (n, off + |VarInt(n)|)
  {
    BytePowers();
    FirstByte(buf, off, n);
    var rest := VarInt(n)[1..];
    assert VarInt(n) == VarInt(n)[..1] + rest;
    AtSplit(buf, off, VarInt(n)[..1], rest);
    hide LE, ToLE, Pow, ReadLE;
    if n < 0xfd {
    } else if n <= 0xffff {
      ReadAt(buf, off + 1, n, 2);
    } else if n <= UINT32_MAX {
      ReadAt(buf, off + 1, n, 4);
    } else {
      ReadAt(buf, off + 1, n, 8);
    }
  }

  lemma FirstByte(buf: Bytes, off: nat, n: UInt64)
    requires At(buf, off, VarInt(n))
    ensures ReadLE(buf, off, 1) == VarInt(n)[0]
  {
    var b := VarInt(n)[0];
    assert buf[off..off + |VarInt(n)|][0] == buf[off];
    assert buf[off..off + 1] == [b];
    assert LE([b]) == b;
  }

  // ---- one input ----

  lemma LowHalfAt(buf: Bytes, off: nat, n: UInt64)
    requires At(buf, off, ToLE(n, 8))
    ensures Read32(buf, off) == n % 0x1_0000_0000
  {
    var low, high := n % 0x1_0000_0000, n / 0x1_0000_0000;
    Halves(n, low, high);
    hide ToLE, Read32;
    AtSplit(buf, off, ToLE(low, 4), ToLE(high, 4));
    Read32At(buf, off, low);
  }

  lemma Halves(n: UInt64, low: nat, high: nat)
    requires low == n % 0x1_0000_0000 && high == n / 0x1_0000_0000
    ensures ToLE(n, 8) == ToLE(low, 4) + ToLE(high, 4)
  {
    BytePowers();
    LERoundTrip(low, 4);
    LERoundTrip(high, 4);
    hide ToLE, LE, Pow;
    LEAppend(ToLE(low, 4), ToLE(high, 4));
    assert LE(ToLE(low, 4) + ToLE(high, 4)) == n;
    ToLERoundTrip(ToLE(low, 4) + ToLE(high, 4));
  }

  // Where the amount or, if none was written, the sequence of a written input starts.
  function ScriptEnd(input: Input): nat
    requires |ScriptOf(input)| < TWO_64
  {
    36 + |VarInt(|ScriptOf(input)|)| + |ScriptOf(input)|
  }

  function AmountBytes(input: Input): Bytes {
    if WrittenAmount(input) != 0 then ToLE(WrittenAmount(input), 8) else []
  }

  lemma WrittenParts(input: Input)
    requires |ScriptOf(input)| < TWO_64
    ensures InputBytes(input) == ToLE(input.txHash, 32) + (ToLE(input.index, 4) + (VarInt(|ScriptOf(input)|)
      + (ScriptOf(input) + (AmountBytes(input) + ToLE(input.sequence, 4)))))
    ensures ScriptEnd(input) == 36 + |VarInt(|ScriptOf(input)|)| + |ScriptOf(input)|
    ensures |InputBytes(input)| == ScriptEnd(input) + |AmountBytes(input)| + 4
    ensures AmountBytes(input) == if WrittenAmount(input) != 0 then ToLE(WrittenAmount(input), 8) else []
  {
    hide ToLE, VarInt;
  }

  // The parts of an input where they were written.
  lemma PartsAt(buf: Bytes, off: nat, input: Input)
    requires |ScriptOf(input)| < TWO_64 && At(buf, off, InputBytes(input))
    ensures At(buf, off, ToLE(input.txHash, 32)) && At(buf, off + 32, ToLE(input.index, 4))
    ensures At(buf, off + 36, VarInt(|ScriptOf(input)|))
    ensures At(buf, off + 36 + |VarInt(|ScriptOf(input)|)|, ScriptOf(input))
    ensures At(buf, off + ScriptEnd(input), AmountBytes(input))
    ensures At(buf, off + ScriptEnd(input) + |AmountBytes(input)|, ToLE(input.sequence, 4))
  {
    hide *;
    WrittenParts(input);
    var a, b, c, d, e, f := ToLE(input.txHash, 32), ToLE(input.index, 4), VarInt(|ScriptOf(input)|), ScriptOf(input),
      AmountBytes(input), ToLE(input.sequence, 4);
    AtSplit(buf, off, a, b + (c + (d + (e + f))));
    AtSplit(buf, off + 32, b, c + (d + (e + f)));
    AtSplit(buf, off + 36, c, d + (e + f));
    AtSplit(buf, off + 36 + |c|, d, e + f);
    AtSplit(buf, off + 36 + |c| + |d|, e, f);
  }

  // What is read behind the script.
  lemma ReadsBehind(buf: Bytes, off: nat, input: Input)
    requires |ScriptOf(input)| < TWO_64 && At(buf, off, InputBytes(input))
    ensures var end, amount := off + ScriptEnd(input), WrittenAmount(input);
      if amount == 0 then end + 4 == off + |InputBytes(input)| && Read32(buf, end) == input.sequence
      else
        && end + 12 == off + |InputBytes(input)|
        && Read64(buf, end) == amount && Read32(buf, end) == amount % 0x1_0000_0000
  {
    hide *;
    PartsAt(buf, off, input);
    WrittenParts(input);
    var end, amount := off + ScriptEnd(input), WrittenAmount(input);
    if amount != 0 {
      Read64At(buf, end, amount);
      LowHalfAt(buf, end, amount);
    } else {
      Read32At(buf, end, input.sequence);
    }
  }

  // What any written input is read as: it is unsigned if its script pays to an address, an amount is read but not
  // skipped, and the sequence is taken from what follows the script.
  lemma WrittenInputAt(coin: Coin, buf: Bytes, off: nat, input: Input)
    requires |ScriptOf(input)| < TWO_64 && At(buf, off, InputBytes(input))
    ensures var end, amount := off + ScriptEnd(input), WrittenAmount(input);
      if amount == 0 then end + 4 == off + |InputBytes(input)| && Read32(buf, end) == input.sequence
      else
        && end + 12 == off + |InputBytes(input)|
        && Read64(buf, end) == amount && Read32(buf, end) == amount % 0x1_0000_0000
    ensures ReadInput(coin, buf, off)
         == AsRead(coin, buf, input.txHash, input.index, ScriptOf(input), off + ScriptEnd(input))
  {
    hide *;
    ReadsBehind(buf, off, input);
    PartsAt(buf, off, input);
    WrittenParts(input);
    var script := ScriptOf(input);
    var start := off + 36 + |VarInt(|script|)|;
    ReadHashAt(buf, off, input.txHash);
    Read32At(buf, off + 32, input.index);
    ReadVarIntAt(buf, off + 36, |script|);
    AtIs(buf, start, script);
    InputOf(coin, buf, off, input.txHash, input.index, script, start);
  }

  // An input by its script and by what follows it.
  function AsRead(coin: Coin, buf: Bytes, txHash: Hash, index: UInt32, script: Bytes, end: nat): (Input, nat, bool) {
    if coin.paysAddress(script) then
      (Input(txHash, index, Read64(buf, end), script, None, Read32(buf, end)), end + 4, false)
    else (Input(txHash, index, 0, [], Some(script), Read32(buf, end)), end + 4, true)
  }

  lemma InputOf(coin: Coin, buf: Bytes, off: nat, txHash: Hash, index: UInt32, script: Bytes, start: nat)
    requires ReadHash(buf, off) == txHash && Read32(buf, off + 32) == index
    requires ReadVarInt(buf, off + 36) == (|script|, start)
    requires start + |script| <= |buf| && buf[start..start + |script|] == script
    ensures ReadInput(coin, buf, off) == AsRead(coin, buf, txHash, index, script, start + |script|)
  {
    hide ReadHash, Read32, Read64, ReadVarInt;
  }

  // What a signed input is read back as: amounts and spent scripts are not part of a signed transaction.
  function Stripped(input: Input): Input { input.(amount := 0, script := []) }

  // What an input should be read back as.
  function Expected(input: Input): Input { if input.signature.Some? then Stripped(input) else input }

  // The script of a written input tells whether it is signed, no amount was written, and none is read: not the sequence of
  // an unsigned input and what follows it either.
  ghost predicate ReadsBack(coin: Coin, buf: Bytes, off: nat, input: Input)
    requires |ScriptOf(input)| < TWO_64
  {
    && (coin.paysAddress(ScriptOf(input)) <==> input.signature.None?) && WrittenAmount(input) == 0
    && (input.signature.None? ==> Read64(buf, off + ScriptEnd(input)) == 0)
  }

  // Exactly then a written input is read back, with its length and as signed or not.
  lemma InputIff(coin: Coin, buf: Bytes, off: nat, input: Input)
    requires |ScriptOf(input)| < TWO_64 && At(buf, off, InputBytes(input))
    ensures ReadInput(coin, buf, off) == (Expected(input), off + |InputBytes(input)|, input.signature.Some?)
      <==> ReadsBack(coin, buf, off, input)
  {
    hide InputBytes, ReadInput, Read64, Read32, ScriptEnd, At, VarInt;
    WrittenInputAt(coin, buf, off, input);
  }

  // An unsigned input with an amount is never followed up rightly: its amount is read without being skipped, so that
  // the sequence is taken from its low half and reading goes on eight bytes too early.
  lemma UnsignedInputAt(coin: Coin, buf: Bytes, off: nat, input: Input)
    requires input.signature.None? && input.amount != 0 && |input.script| < TWO_64 && coin.paysAddress(input.script)
    requires At(buf, off, InputBytes(input))
    ensures ReadInput(coin, buf, off) ==
      (input.(sequence := input.amount % 0x1_0000_0000), off + |InputBytes(input)| - 8, false)
  {
    hide InputBytes, ReadInput, Read64, Read32, ScriptEnd, At, VarInt;
    WrittenInputAt(coin, buf, off, input);
  }

  // The address of an output is that of its script.
  function WithAddress(coin: Coin, output: Output): Output { output.(address := coin.address(output.script)) }

  lemma ReadInputAt(coin: Coin, buf: Bytes, off: nat, input: Input)
    requires input.signature.Some? && |input.signature.value| < TWO_64 && !coin.paysAddress(input.signature.value)
    requires At(buf, off, InputBytes(input))
    ensures ReadInput(coin, buf, off) == (Stripped(input), off + |InputBytes(input)|, true)
  {
    hide InputBytes, ReadInput, Read64, Read32, ScriptEnd, At, VarInt;
    WrittenInputAt(coin, buf, off, input);
  }

  lemma AtIs(buf: Bytes, off: nat, part: Bytes)
    requires At(buf, off, part)
    ensures off + |part| <= |buf| && buf[off..off + |part|] == part
  {
  }

  lemma ReadOutputAt(coin: Coin, buf: Bytes, off: nat, output: Output)
    requires |output.script| < TWO_64 && At(buf, off, OutputBytes(output))
    ensures ReadOutput(coin, buf, off)
         == (WithAddress(coin, output), off + |OutputBytes(output)|)
  {
    hide *;
    var a, b, c := ToLE(output.amount, 8), VarInt(|output.script|), output.script;
    OutputParts(output);
    AtSplit(buf, off, a, b + c);
    AtSplit(buf, off + 8, b, c);
    Read64At(buf, off, output.amount);
    ReadVarIntAt(buf, off + 8, |c|);
    AtIs(buf, off + 8 + |b|, c);
    OutputOf(coin, buf, off, output, off + 8 + |b|);
  }

  lemma OutputParts(output: Output)
    requires |output.script| < TWO_64
    ensures OutputBytes(output) == ToLE(output.amount, 8) + (VarInt(|output.script|) + output.script)
  {
  }

  lemma OutputOf(coin: Coin, buf: Bytes, off: nat, output: Output, start: nat)
    requires Read64(buf, off) == output.amount && ReadVarInt(buf, off + 8) == (|output.script|, start)
    requires start + |output.script| <= |buf| && buf[start..start + |output.script|] == output.script
    ensures ReadOutput(coin, buf, off) == (WithAddress(coin, output), start + |output.script|)
  {
    hide Read64, ReadVarInt;
  }

  function StrippedAll(inputs: seq<Input>): (r: seq<Input>)
    ensures |r| == |inputs|
  {
    if inputs == [] then [] else [Stripped(inputs[0])] + StrippedAll(inputs[1..])
  }

  function Addressed(coin: Coin, outputs: seq<Output>): (r: seq<Output>)
    ensures |r| == |outputs|
  {
    if outputs == [] then []
    else [WithAddress(coin, outputs[0])] + Addressed(coin, outputs[1..])
  }

  // No signature could be taken for a script that pays to an address.
  ghost predicate Readable(coin: Coin, inputs: seq<Input>) {
    forall i :: 0 <= i < |inputs| ==> inputs[i].signature.Some? && !coin.paysAddress(inputs[i].signature.value)
  }

  lemma NoInputs(coin: Coin, buf: Bytes, off: nat)
    ensures AllInputs([]) == [] && ReadInputs(coin, buf, off, 0) == ([], off, true)
    ensures ExpectedAll([]) == [] && AllSigned([])
  {
  }

  lemma MoreInputs(coin: Coin, buf: Bytes, off: nat, count: nat, one: (Input, nat, bool), more: (seq<Input>, nat, bool))
    requires count > 0 && off <= |buf| && ReadInput(coin, buf, off) == one
    requires ReadInputs(coin, buf, one.1, count - 1) == more
    ensures ReadInputs(coin, buf, off, count) == ([one.0] + more.0, more.1, one.2 && more.2)
  {
    hide ReadInput;
  }

  // Every input reads back where it was written.
  ghost predicate AllReadBack(coin: Coin, buf: Bytes, off: nat, inputs: seq<Input>)
    requires InputsFit(inputs)
    decreases |inputs|
  {
    inputs == [] || (
      FrontInput(inputs);
      && ReadsBack(coin, buf, off, inputs[0])
      && AllReadBack(coin, buf, off + |InputBytes(inputs[0])|, inputs[1..]))
  }

  function ExpectedAll(inputs: seq<Input>): (r: seq<Input>)
    ensures |r| == |inputs|
  {
    if inputs == [] then [] else [Expected(inputs[0])] + ExpectedAll(inputs[1..])
  }

  lemma FrontInput(inputs: seq<Input>)
    requires InputsFit(inputs) && inputs != []
    ensures |ScriptOf(inputs[0])| < TWO_64 && InputsFit(inputs[1..])
    ensures AllInputs(inputs) == InputBytes(inputs[0]) + AllInputs(inputs[1..])
  {
    hide InputBytes;
    assert |ScriptOf(inputs[0])| < TWO_64;
  }

  lemma FirstReadBack(coin: Coin, buf: Bytes, off: nat, inputs: seq<Input>)
    requires InputsFit(inputs) && inputs != [] && AllReadBack(coin, buf, off, inputs)
    ensures |ScriptOf(inputs[0])| < TWO_64 && InputsFit(inputs[1..]) && ReadsBack(coin, buf, off, inputs[0])
    ensures AllReadBack(coin, buf, off + |InputBytes(inputs[0])|, inputs[1..])
    ensures ExpectedAll(inputs) == [Expected(inputs[0])] + ExpectedAll(inputs[1..])
    ensures AllSigned(inputs) <==> inputs[0].signature.Some? && AllSigned(inputs[1..])
  {
    hide InputBytes, ReadsBack, Expected;
    FrontInput(inputs);
    assert forall i :: 1 <= i < |inputs| ==> inputs[i] == inputs[1..][i - 1];
  }

  lemma {:induction false} ReadInputsAt(coin: Coin, buf: Bytes, off: nat, inputs: seq<Input>)
    requires InputsFit(inputs) && At(buf, off, AllInputs(inputs)) && AllReadBack(coin, buf, off, inputs)
    ensures ReadInputs(coin, buf, off, |inputs|) == (ExpectedAll(inputs), off + |AllInputs(inputs)|, AllSigned(inputs))
    decreases |inputs|
  {
    hide *;
    NoInputs(coin, buf, off);
    if inputs != [] {
      var rest := inputs[1..];
      FrontInput(inputs);
      FirstReadBack(coin, buf, off, inputs);
      var first, more := InputBytes(inputs[0]), AllInputs(rest);
      AtSplit(buf, off, first, more);
      AtIs(buf, off, first);
      InputIff(coin, buf, off, inputs[0]);
      ReadInputsAt(coin, buf, off + |first|, rest);
      MoreInputs(coin, buf, off, |inputs|, (Expected(inputs[0]), off + |first|, inputs[0].signature.Some?),
        (ExpectedAll(rest), off + |first| + |more|, AllSigned(rest)));
    }
  }

  // A signed input reads back wherever it is.
  lemma {:induction false} SignedReadBack(coin: Coin, buf: Bytes, off: nat, inputs: seq<Input>)
    requires InputsFit(inputs) && Readable(coin, inputs)
    ensures AllReadBack(coin, buf, off, inputs) && AllSigned(inputs) && ExpectedAll(inputs) == StrippedAll(inputs)
    decreases |inputs|
  {
    if inputs != [] {
      hide InputBytes, Read64, ScriptEnd;
      FrontInput(inputs);
      assert inputs[0].signature.Some? && !coin.paysAddress(inputs[0].signature.value);
      SignedReadBack(coin, buf, off + |InputBytes(inputs[0])|, inputs[1..]);
    }
  }

  lemma NoOutputs(coin: Coin, buf: Bytes, off: nat)
    ensures AllOutputs([]) == [] && ReadOutputs(coin, buf, off, 0) == (Addressed(coin, []), off)
  {
  }

  lemma MoreOutputs(coin: Coin, buf: Bytes, off: nat, count: nat, one: (Output, nat), more: (seq<Output>, nat))
    requires count > 0 && off <= |buf| && ReadOutput(coin, buf, off) == one
    requires ReadOutputs(coin, buf, one.1, count - 1) == more
    ensures ReadOutputs(coin, buf, off, count) == ([one.0] + more.0, more.1)
  {
    hide ReadOutput;
  }

  lemma {:induction false} ReadOutputsAt(coin: Coin, buf: Bytes, off: nat, outputs: seq<Output>)
    requires OutputsFit(outputs) && At(buf, off, AllOutputs(outputs))
    ensures ReadOutputs(coin, buf, off, |outputs|) == (Addressed(coin, outputs), off + |AllOutputs(outputs)|)
    decreases |outputs|
  {
    NoOutputs(coin, buf, off);
    hide *;
    if outputs != [] {
      var rest := outputs[1..];
      FirstOutput(coin, outputs);
      var first, more := OutputBytes(outputs[0]), AllOutputs(rest);
      AtSplit(buf, off, first, more);
      AtIs(buf, off, first);
      ReadOutputAt(coin, buf, off, outputs[0]);
      ReadOutputsAt(coin, buf, off + |first|, rest);
      MoreOutputs(coin, buf, off, |outputs|, (WithAddress(coin, outputs[0]), off + |first|),
        (Addressed(coin, rest), off + |first| + |more|));
    }
  }

  lemma FirstOutput(coin: Coin, outputs: seq<Output>)
    requires OutputsFit(outputs) && outputs != []
    ensures |outputs[0].script| < TWO_64 && OutputsFit(outputs[1..])
    ensures AllOutputs(outputs) == OutputBytes(outputs[0]) + AllOutputs(outputs[1..])
    ensures Addressed(coin, outputs) == [WithAddress(coin, outputs[0])] + Addressed(coin, outputs[1..])
  {
    hide OutputBytes, WithAddress;
  }

  // Part n follows the parts before it.
  lemma PartAt(tx: Tx, more: Bytes, n: nat)
    requires Fits(tx) && n < 6
    ensures At(Serialized(tx) + more, |Step(tx, n)|, Part(tx, n))
    ensures |Step(tx, n + 1)| == |Step(tx, n)| + |Part(tx, n)|
  {
    StepsOf(tx, null);
    StepPrefix(tx, n + 1, 6);
    assert Step(tx, 6) == Serialized(tx);
    assert Step(tx, n + 1) == Step(tx, n) + Part(tx, n);
    hide Serialized, Part, Step, Fits;
    PrefixAt(Serialized(tx) + more, Step(tx, n), Part(tx, n));
  }

  lemma PrefixAt(buf: Bytes, a: Bytes, b: Bytes)
    requires a + b <= buf
    ensures At(buf, |a|, b)
  {
    assert At(buf, 0, a + b);
    AtSplit(buf, 0, a, b);
  }

  lemma {:induction false} StepPrefix(tx: Tx, n: nat, m: nat)
    requires Fits(tx) && n <= m <= 6
    ensures Step(tx, n) <= Step(tx, m)
  {
    hide Part, Fits;
    if n < m { StepPrefix(tx, n, m - 1); }
  }

  lemma FitsParts(tx: Tx)
    requires Fits(tx)
    ensures |tx.inputs| < TWO_64 && |tx.outputs| < TWO_64 && InputsFit(tx.inputs) && OutputsFit(tx.outputs)
  {
  }

  // The buffer starts with the parts of the transaction, each behind the ones before it.
  ghost predicate LaidOut(tx: Tx, buf: Bytes)
    requires Fits(tx)
  {
    && At(buf, 0, ToLE(tx.version, 4)) && At(buf, 4, VarInt(|tx.inputs|))
    && At(buf, |Step(tx, 2)|, AllInputs(tx.inputs)) && At(buf, |Step(tx, 3)|, VarInt(|tx.outputs|))
    && At(buf, |Step(tx, 4)|, AllOutputs(tx.outputs)) && At(buf, |Step(tx, 5)|, ToLE(tx.lockTime, 4))
    && |Step(tx, 2)| == 4 + |VarInt(|tx.inputs|)| && |Step(tx, 3)| == |Step(tx, 2)| + |AllInputs(tx.inputs)|
    && |Step(tx, 4)| == |Step(tx, 3)| + |VarInt(|tx.outputs|)|
    && |Step(tx, 5)| == |Step(tx, 4)| + |AllOutputs(tx.outputs)|
    && |Step(tx, 5)| + 4 <= |buf| && buf[..|Step(tx, 5)| + 4] == Serialized(tx)
  }

  lemma AllPartsAt(tx: Tx, more: Bytes)
    requires Fits(tx)
    ensures LaidOut(tx, Serialized(tx) + more)
  {
    StepsOf(tx, null);
    assert |Step(tx, 0)| == 0 && |Step(tx, 1)| == 4;
    hide Serialized, Step, Fits, At, AllInputs, AllOutputs, VarInt, ToLE;
    PartAt(tx, more, 0);
    PartAt(tx, more, 1);
    PartAt(tx, more, 2);
    PartAt(tx, more, 3);
    PartAt(tx, more, 4);
    PartAt(tx, more, 5);
  }

  // Every input of a transaction reads back from a buffer that starts with the transaction.
  ghost predicate ReadsBackAll(coin: Coin, buf: Bytes, tx: Tx)
    requires Fits(tx)
  {
    FitsParts(tx);
    AllReadBack(coin, buf, |Step(tx, 2)|, tx.inputs)
  }

  lemma ReadsBackIs(coin: Coin, buf: Bytes, tx: Tx)
    requires Fits(tx)
    ensures InputsFit(tx.inputs)
    ensures ReadsBackAll(coin, buf, tx) <==> AllReadBack(coin, buf, |Step(tx, 2)|, tx.inputs)
  {
    hide Fits, AllReadBack, Step;
    FitsParts(tx);
  }

  lemma ReadsInputs(coin: Coin, tx: Tx, buf: Bytes)
    requires Fits(tx) && LaidOut(tx, buf) && ReadsBackAll(coin, buf, tx)
    ensures Read32(buf, 0) == tx.version && ReadVarInt(buf, 4) == (|tx.inputs|, |Step(tx, 2)|)
    ensures ReadInputs(coin, buf, |Step(tx, 2)|, |tx.inputs|)
      == (ExpectedAll(tx.inputs), |Step(tx, 3)|, AllSigned(tx.inputs))
  {
    hide *;
    FitsParts(tx);
    ReadsBackIs(coin, buf, tx);
    LaidOutInputs(tx, buf);
    Read32At(buf, 0, tx.version);
    ReadVarIntAt(buf, 4, |tx.inputs|);
    ReadInputsAt(coin, buf, |Step(tx, 2)|, tx.inputs);
  }

  lemma ReadsOutputs(coin: Coin, tx: Tx, buf: Bytes)
    requires Fits(tx) && LaidOut(tx, buf)
    ensures ReadVarInt(buf, |Step(tx, 3)|) == (|tx.outputs|, |Step(tx, 4)|)
    ensures ReadOutputs(coin, buf, |Step(tx, 4)|, |tx.outputs|) == (Addressed(coin, tx.outputs), |Step(tx, 5)|)
    ensures Read32(buf, |Step(tx, 5)|) == tx.lockTime
  {
    hide *;
    FitsParts(tx);
    LaidOutOutputs(tx, buf);
    OutputsFrom(coin, buf, |Step(tx, 3)|, |Step(tx, 4)|, |Step(tx, 5)|, tx.outputs, tx.lockTime);
  }

  lemma LaidOutOutputs(tx: Tx, buf: Bytes)
    requires Fits(tx) && LaidOut(tx, buf)
    ensures |Step(tx, 4)| == |Step(tx, 3)| + |VarInt(|tx.outputs|)|
    ensures |Step(tx, 5)| == |Step(tx, 4)| + |AllOutputs(tx.outputs)|
    ensures At(buf, |Step(tx, 3)|, VarInt(|tx.outputs|)) && At(buf, |Step(tx, 4)|, AllOutputs(tx.outputs))
    ensures At(buf, |Step(tx, 5)|, ToLE(tx.lockTime, 4))
  {
    hide Fits, At, ToLE, VarInt, AllInputs, AllOutputs, Step;
  }

  lemma OutputsFrom(coin: Coin, buf: Bytes, n3: nat, n4: nat, n5: nat, outputs: seq<Output>,
                    lockTime: UInt32)
    requires |outputs| < TWO_64 && OutputsFit(outputs)
    requires n4 == n3 + |VarInt(|outputs|)| && n5 == n4 + |AllOutputs(outputs)|
    requires At(buf, n3, VarInt(|outputs|)) && At(buf, n4, AllOutputs(outputs)) && At(buf, n5, ToLE(lockTime, 4))
    ensures ReadVarInt(buf, n3) == (|outputs|, n4) && Read32(buf, n5) == lockTime
    ensures ReadOutputs(coin, buf, n4, |outputs|) == (Addressed(coin, outputs), n5)
  {
    hide *;
    ReadVarIntAt(buf, n3, |outputs|);
    ReadOutputsAt(coin, buf, n4, outputs);
    Read32At(buf, n5, lockTime);
  }

  lemma ParsesLaidOut(coin: Coin, sha: Bytes -> Hash, tx: Tx, buf: Bytes)
    requires Fits(tx) && LaidOut(tx, buf) && tx.inputs != [] && ReadsBackAll(coin, buf, tx)
    ensures ParseTx(coin, sha, buf) == Some(Tx(if AllSigned(tx.inputs) then sha(Serialized(tx)) else 0, tx.version,
      ExpectedAll(tx.inputs), Addressed(coin, tx.outputs), tx.lockTime, TX_UNCONFIRMED, 0))
  {
    hide *;
    LaidOutEnd(tx, buf);
    ReadsInputs(coin, tx, buf);
    ReadsOutputs(coin, tx, buf);
    ParseParts(coin, sha, buf, tx.version, |tx.inputs|, |Step(tx, 2)|, ExpectedAll(tx.inputs), |Step(tx, 3)|,
      AllSigned(tx.inputs), |tx.outputs|, |Step(tx, 4)|, Addressed(coin, tx.outputs), |Step(tx, 5)|, tx.lockTime,
      Serialized(tx));
  }

  lemma LaidOutEnd(tx: Tx, buf: Bytes)
    requires Fits(tx) && LaidOut(tx, buf)
    ensures |Step(tx, 5)| + 4 <= |buf| && buf[..|Step(tx, 5)| + 4] == Serialized(tx)
  {
    hide Fits, At, ToLE, VarInt, AllInputs, AllOutputs, Step, Serialized;
  }

  // A transaction whose inputs all read back is recovered from its bytes, whatever follows them. It has the hash of these
  // bytes if it is signed, and otherwise none.
  lemma RoundTripAll(coin: Coin, sha: Bytes -> Hash, tx: Tx, more: Bytes)
    requires Fits(tx) && tx.inputs != [] && ReadsBackAll(coin, Serialized(tx) + more, tx)
    ensures ParseTx(coin, sha, Serialized(tx) + more) == Some(Tx(if IsSigned(tx) then sha(Serialized(tx)) else 0,
      tx.version, ExpectedAll(tx.inputs), Addressed(coin, tx.outputs), tx.lockTime, TX_UNCONFIRMED, 0))
  {
    SignedIs(tx);
    hide *;
    AllPartsAt(tx, more);
    ParsesLaidOut(coin, sha, tx, Serialized(tx) + more);
  }

  lemma SignedIs(tx: Tx)
    ensures IsSigned(tx) <==> AllSigned(tx.inputs)
  {
  }

  // A signed transaction with inputs is recovered from its bytes, whatever follows them, with the hash of these bytes.
  lemma RoundTrip(coin: Coin, sha: Bytes -> Hash, tx: Tx, more: Bytes)
    requires Fits(tx) && tx.inputs != [] && Readable(coin, tx.inputs)
    ensures ParseTx(coin, sha, Serialized(tx) + more) == Some(Tx(sha(Serialized(tx)), tx.version,
      StrippedAll(tx.inputs), Addressed(coin, tx.outputs), tx.lockTime, TX_UNCONFIRMED, 0))
  {
    hide *;
    var buf := Serialized(tx) + more;
    ReadsBackIs(coin, buf, tx);
    SignedReadBack(coin, buf, |Step(tx, 2)|, tx.inputs);
    SignedIs(tx);
    RoundTripAll(coin, sha, tx, more);
  }

  lemma ParseParts(coin: Coin, sha: Bytes -> Hash, buf: Bytes, version: UInt32, inCount: nat, n2: nat,
                   inputs: seq<Input>, n3: nat, isSigned: bool, outCount: nat, n4: nat, outputs: seq<Output>, n5: nat,
                   lockTime: UInt32, text: Bytes)
    requires Read32(buf, 0) == version && ReadVarInt(buf, 4) == (inCount, n2) && inCount > 0
    requires ReadInputs(coin, buf, n2, inCount) == (inputs, n3, isSigned) && ReadVarInt(buf, n3) == (outCount, n4)
    requires ReadOutputs(coin, buf, n4, outCount) == (outputs, n5) && Read32(buf, n5) == lockTime
    requires n5 + 4 <= |buf| && buf[..n5 + 4] == text
    ensures ParseTx(coin, sha, buf)
      == Some(Tx(if isSigned then sha(text) else 0, version, inputs, outputs, lockTime, TX_UNCONFIRMED, 0))
  {
    hide ReadVarInt, ReadInputs, ReadOutputs, Read32;
  }

  // Any other signed transaction is not: an input whose signature could be taken for a script comes back unsigned.
  lemma RoundTripIff(coin: Coin, sha: Bytes -> Hash, tx: Tx, more: Bytes)
    requires Fits(tx) && tx.inputs != [] && IsSigned(tx)
    ensures ParseTx(coin, sha, Serialized(tx) + more) == Some(Tx(sha(Serialized(tx)), tx.version,
        StrippedAll(tx.inputs), Addressed(coin, tx.outputs), tx.lockTime, TX_UNCONFIRMED, 0))
      <==> Readable(coin, tx.inputs)
  {
    var buf := Serialized(tx) + more;
    if Readable(coin, tx.inputs) {
      RoundTrip(coin, sha, tx, more);
    } else {
      AllPartsAt(tx, more);
      hide *;
      ParsedInputs(coin, sha, tx, buf);
      SignedInputsAt(coin, buf, |Step(tx, 2)|, tx.inputs);
      Misread(coin, tx.inputs, ReadInputs(coin, buf, |Step(tx, 2)|, |tx.inputs|).0);
    }
  }

  // The inputs of a transaction are read where they were written.
  lemma ParsedInputs(coin: Coin, sha: Bytes -> Hash, tx: Tx, buf: Bytes)
    requires Fits(tx) && LaidOut(tx, buf) && tx.inputs != []
    ensures InputsFit(tx.inputs) && At(buf, |Step(tx, 2)|, AllInputs(tx.inputs))
    ensures var r := ParseTx(coin, sha, buf);
      r.Some? ==> r.value.inputs == ReadInputs(coin, buf, |Step(tx, 2)|, |tx.inputs|).0
  {
    hide *;
    FitsParts(tx);
    LaidOutInputs(tx, buf);
    ReadVarIntAt(buf, 4, |tx.inputs|);
    ParsedAs(coin, sha, buf);
  }

  lemma ParsedAs(coin: Coin, sha: Bytes -> Hash, buf: Bytes)
    ensures var r, ins := ParseTx(coin, sha, buf), ReadVarInt(buf, 4);
      r.Some? ==> r.value.inputs == ReadInputs(coin, buf, ins.1, ins.0).0
  {
    hide ReadVarInt, ReadInputs, ReadOutputs, Read32;
  }

  lemma LaidOutInputs(tx: Tx, buf: Bytes)
    requires Fits(tx) && LaidOut(tx, buf)
    ensures At(buf, 0, ToLE(tx.version, 4)) && At(buf, 4, VarInt(|tx.inputs|))
    ensures |Step(tx, 2)| == 4 + |VarInt(|tx.inputs|)| && |Step(tx, 3)| == |Step(tx, 2)| + |AllInputs(tx.inputs)|
    ensures At(buf, |Step(tx, 2)|, AllInputs(tx.inputs))
  {
    hide Fits, At, ToLE, VarInt, AllInputs, AllOutputs, Step;
  }

  // What is read of written inputs that are signed tells which of them seem to be.
  ghost predicate SeemSigned(coin: Coin, inputs: seq<Input>, read: seq<Input>) {
    && |read| == |inputs|
    && forall i :: 0 <= i < |inputs| ==>
         inputs[i].signature.Some? && (read[i].signature.Some? <==> !coin.paysAddress(inputs[i].signature.value))
  }

  lemma Misread(coin: Coin, inputs: seq<Input>, read: seq<Input>)
    requires SeemSigned(coin, inputs, read) && !Readable(coin, inputs)
    ensures read != StrippedAll(inputs)
  {
    var i :| 0 <= i < |inputs| && coin.paysAddress(inputs[i].signature.value);
    StrippedAt(inputs, i);
  }

  lemma {:induction false} StrippedAt(inputs: seq<Input>, i: nat)
    requires i < |inputs|
    ensures StrippedAll(inputs)[i] == Stripped(inputs[i])
  {
    if i > 0 {
      StrippedAt(inputs[1..], i - 1);
    }
  }

  // Reading stays aligned with what was written.
  lemma {:induction false} SignedInputsAt(coin: Coin, buf: Bytes, off: nat, inputs: seq<Input>)
    requires InputsFit(inputs) && At(buf, off, AllInputs(inputs))
    requires forall i :: 0 <= i < |inputs| ==> inputs[i].signature.Some?
    ensures SeemSigned(coin, inputs, ReadInputs(coin, buf, off, |inputs|).0)
    decreases |inputs|
  {
    hide *;
    NoInputs(coin, buf, off);
    SeemNone(coin);
    if inputs != [] {
      var input, rest := inputs[0], inputs[1..];
      FrontInput(inputs);
      var first := InputBytes(input);
      var one := ReadInput(coin, buf, off);
      AtSplit(buf, off, first, AllInputs(rest));
      AtIs(buf, off, first);
      SignedAligned(coin, buf, off, input);
      SignedInputsAt(coin, buf, one.1, rest);
      var more := ReadInputs(coin, buf, one.1, |rest|);
      MoreInputs(coin, buf, off, |inputs|, one, more);
      SeemMore(coin, inputs, one.0, more.0);
    }
  }

  lemma SeemNone(coin: Coin)
    ensures SeemSigned(coin, [], [])
  {
  }

  lemma SeemMore(coin: Coin, inputs: seq<Input>, one: Input, more: seq<Input>)
    requires inputs != [] && SeemSigned(coin, inputs[1..], more) && inputs[0].signature.Some?
    requires one.signature.Some? <==> !coin.paysAddress(inputs[0].signature.value)
    ensures SeemSigned(coin, inputs, [one] + more)
  {
  }

  lemma SignedAligned(coin: Coin, buf: Bytes, off: nat, input: Input)
    requires input.signature.Some? && |ScriptOf(input)| < TWO_64 && At(buf, off, InputBytes(input))
    ensures var one := ReadInput(coin, buf, off);
      one.1 == off + |InputBytes(input)| && (one.0.signature.Some? <==> !coin.paysAddress(input.signature.value))
  {
    hide InputBytes, ReadInput, Read64, Read32, ScriptEnd, At, VarInt;
    WrittenInputAt(coin, buf, off, input);
  }

  // The first input of a transaction, when it is such a one, is recovered exactly when its sequence happens to be the
  // low half of its amount.
  lemma UnsignedFirst(coin: Coin, sha: Bytes -> Hash, tx: Tx, more: Bytes)
    requires Fits(tx) && tx.inputs != [] && tx.inputs[0].signature.None? && tx.inputs[0].amount != 0
    requires coin.paysAddress(tx.inputs[0].script)
    ensures var r, input := ParseTx(coin, sha, Serialized(tx) + more), tx.inputs[0];
      r.Some? ==>
        (r.value.inputs != [] && (r.value.inputs[0] == input <==> input.sequence == input.amount % 0x1_0000_0000))
  {
    var buf, input, rest := Serialized(tx) + more, tx.inputs[0], tx.inputs[1..];
    AllPartsAt(tx, more);
    ParsedInputs(coin, sha, tx, buf);
    FrontInput(tx.inputs);
    assert |ScriptOf(input)| == |input.script|;
    var off := |Step(tx, 2)|;
    var first := InputBytes(input);
    hide *;
    AtSplit(buf, off, first, AllInputs(rest));
    AtIs(buf, off, first);
    UnsignedInputAt(coin, buf, off, input);
    FirstRead(coin, buf, off, |tx.inputs|);
  }

  lemma FirstRead(coin: Coin, buf: Bytes, off: nat, count: nat)
    requires count > 0 && off <= |buf|
    ensures ReadInputs(coin, buf, off, count).0 != []
    ensures ReadInputs(coin, buf, off, count).0[0] == ReadInput(coin, buf, off).0
  {
    hide ReadInput;
  }

  // Duplicate, hash, push of twenty bytes, compare, check the signature: a script that pays to the hash of a public key.
  const PAY_TO_HASH: Bytes := [0x76, 0xa9, 20, 1, 2, 3, 4, 5, 6, 7, 8, 9, 10, 11, 12, 13, 14, 15, 16, 17, 18, 19, 20,
                               0x88, 0xac]
  const UNSIGNED := Tx(0, 1, [Input(7, 0, 600000, PAY_TO_HASH, None, UINT32_MAX)], [Output("", 500000, PAY_TO_HASH)], 0,
                       TX_UNCONFIRMED, 0)

  // A transaction as the wallet creates it is not recovered.
  lemma UnsignedExample(coin: Coin, sha: Bytes -> Hash)
    requires coin.paysAddress(PAY_TO_HASH)
    ensures Fits(UNSIGNED)
    ensures var r := ParseTx(coin, sha, Serialized(UNSIGNED)); r.Some? ==> r.value.inputs != UNSIGNED.inputs
  {
    hide ParseTx, Serialized, Fits;
    UnsignedFits(UNSIGNED);
    UnsignedLost(coin, sha, UNSIGNED);
  }

  lemma UnsignedFits(tx: Tx)
    requires |tx.inputs| == 1 && |ScriptOf(tx.inputs[0])| < TWO_64
    requires |tx.outputs| == 1 && |tx.outputs[0].script| < TWO_64
    ensures Fits(tx)
  {
  }

  lemma UnsignedLost(coin: Coin, sha: Bytes -> Hash, tx: Tx)
    requires Fits(tx) && tx.inputs != [] && tx.inputs[0].signature.None? && tx.inputs[0].amount != 0
    requires coin.paysAddress(tx.inputs[0].script) && tx.inputs[0].sequence != tx.inputs[0].amount % 0x1_0000_0000
    ensures var r := ParseTx(coin, sha, Serialized(tx)); r.Some? ==> r.value.inputs != tx.inputs
  {
    hide *;
    assert Serialized(tx) + [] == Serialized(tx);
    UnsignedFirst(coin, sha, tx, []);
  }

  // ---- the parser ----

  // The parser stops at the end of the buffer, and fails when it has passed it.
  method Parse(coin: Coin, sha: Bytes -> Hash, buf: Bytes) returns (r: Option<Tx>)
    ensures r == ParseTx(coin, sha, buf)
  {
    hide ReadInputs, ReadOutputs, ReadVarInt, Read32;
    var version := Read32(buf, 0);
    var ins := ReadVarInt(buf, 4);
    var inputs, off, isSigned := ParseInputs(coin, buf, ins.1, ins.0);
    var outs := ReadVarInt(buf, off);
    var outputs;
    outputs, off := ParseOutputs(coin, buf, outs.1, outs.0);
    var lockTime := Read32(buf, off);
    off := off + 4;
    if ins.0 == 0 || off > |buf| { return None; }
    return Some(Tx(if isSigned then sha(buf[..off]) else 0, version, inputs, outputs, lockTime, TX_UNCONFIRMED, 0));
  }

  method ParseInputs(coin: Coin, buf: Bytes, start: nat, count: nat) returns (inputs: seq<Input>, off: nat, isSigned: bool)
    ensures (inputs, off, isSigned) == ReadInputs(coin, buf, start, count)
  {
    inputs, off, isSigned := [], start, true;
    var i := 0;
    hide ReadInput, ReadInputs;
    StartInputs(coin, buf, start, count);
    while off <= |buf| && i < count
      invariant i <= count
      invariant ReadInputs(coin, buf, start, count) == Joined(inputs, isSigned, ReadInputs(coin, buf, off, count - i))
    {
      var one := ReadInput(coin, buf, off);
      NextInput(coin, buf, off, count - i, inputs, isSigned);
      inputs := inputs + [one.0];
      isSigned := isSigned && one.2;
      off := one.1;
      i := i + 1;
    }
    LastInputs(coin, buf, off, count - i, inputs, isSigned);
  }

  // What was read, followed by the rest.
  function Joined(inputs: seq<Input>, isSigned: bool, rest: (seq<Input>, nat, bool)): (seq<Input>, nat, bool) {
    (inputs + rest.0, rest.1, isSigned && rest.2)
  }

  lemma StartInputs(coin: Coin, buf: Bytes, off: nat, count: nat)
    ensures ReadInputs(coin, buf, off, count) == Joined([], true, ReadInputs(coin, buf, off, count))
  {
    hide ReadInputs;
    assert [] + ReadInputs(coin, buf, off, count).0 == ReadInputs(coin, buf, off, count).0;
  }

  lemma NextInput(coin: Coin, buf: Bytes, off: nat, count: nat, inputs: seq<Input>, isSigned: bool)
    requires count > 0 && off <= |buf|
    ensures var one := ReadInput(coin, buf, off);
      Joined(inputs, isSigned, ReadInputs(coin, buf, off, count))
        == Joined(inputs + [one.0], isSigned && one.2, ReadInputs(coin, buf, one.1, count - 1))
  {
    hide ReadInput;
    var one := ReadInput(coin, buf, off);
    var rest := ReadInputs(coin, buf, one.1, count - 1).0;
    assert inputs + ([one.0] + rest) == inputs + [one.0] + rest;
  }

  lemma LastInputs(coin: Coin, buf: Bytes, off: nat, count: nat, inputs: seq<Input>, isSigned: bool)
    requires count == 0 || off > |buf|
    ensures Joined(inputs, isSigned, ReadInputs(coin, buf, off, count)) == (inputs, off, isSigned)
  {
    assert inputs + [] == inputs;
  }

  method ParseOutputs(coin: Coin, buf: Bytes, start: nat, count: nat) returns (outputs: seq<Output>, off: nat)
    ensures (outputs, off) == ReadOutputs(coin, buf, start, count)
  {
    outputs, off := [], start;
    var i := 0;
    hide ReadOutput, ReadOutputs;
    assert [] + ReadOutputs(coin, buf, start, count).0 == ReadOutputs(coin, buf, start, count).0;
    while off <= |buf| && i < count
      invariant i <= count
      invariant ReadOutputs(coin, buf, start, count)
             == (outputs + ReadOutputs(coin, buf, off, count - i).0, ReadOutputs(coin, buf, off, count - i).1)
    {
      var one := ReadOutput(coin, buf, off);
      NextOutput(coin, buf, off, count - i, outputs);
      outputs := outputs + [one.0];
      off := one.1;
      i := i + 1;
    }
    LastOutputs(coin, buf, off, count - i, outputs);
  }

  lemma NextOutput(coin: Coin, buf: Bytes, off: nat, count: nat, outputs: seq<Output>)
    requires count > 0 && off <= |buf|
    ensures var one := ReadOutput(coin, buf, off);
      && outputs + ReadOutputs(coin, buf, off, count).0
           == outputs + [one.0] + ReadOutputs(coin, buf, one.1, count - 1).0
      && ReadOutputs(coin, buf, off, count).1 == ReadOutputs(coin, buf, one.1, count - 1).1
  {
    hide ReadOutput;
    var one := ReadOutput(coin, buf, off);
    var rest := ReadOutputs(coin, buf, one.1, count - 1).0;
    assert outputs + ([one.0] + rest) == outputs + [one.0] + rest;
  }

  lemma LastOutputs(coin: Coin, buf: Bytes, off: nat, count: nat, outputs: seq<Output>)
    requires count == 0 || off > |buf|
    ensures (outputs + ReadOutputs(coin, buf, off, count).0, ReadOutputs(coin, buf, off, count).1) == (outputs, off)
  {
    assert outputs + [] == outputs;
  }
}
