/** The layout of a serialized transaction, byte by byte. */
module TxLayout {
  import opened LittleEndian
  import opened Options
  import opened Transactions
  import opened TxCodec

  lemma Four(a: Byte, b: Byte, c: Byte, d: Byte)
    ensures ToLE(a + 256 * b + 65536 * c + 16777216 * d, 4) == [a, b, c, d]
  {
    ToLENext(a, b + 256 * c + 65536 * d, 4);
    ToLENext(b, c + 256 * d, 3);
    ToLENext(c, d, 2);
    ToLENext(d, 0, 1);
    assert ToLE(0, 0) == [];
    hide ToLE;
  }

  lemma Eight(low: nat, high: nat, a: Bytes, b: Bytes)
    requires ToLE(low, 4) == a && ToLE(high, 4) == b && low < 0x1_0000_0000 && high < 0x1_0000_0000
    ensures ToLE(low + 0x1_0000_0000 * high, 8) == a + b
  {
    hide ToLE;
    Split4(low);
    Split4(high);
    var l0, l1, l2, l3 := low % 256, low / 256 % 256, low / 65536 % 256, low / 16777216;
    Four(l0, l1, l2, l3);
    ToLENext(l0, low / 256 + 0x100_0000 * high, 8);
    ToLENext(l1, low / 65536 + 0x1_0000 * high, 7);
    ToLENext(l2, low / 16777216 + 0x100 * high, 6);
    ToLENext(l3, high, 5);
  }

  lemma Split4(n: nat)
    requires n < 0x1_0000_0000
    ensures n / 16777216 < 256 && n / 65536 == n / 65536 % 256 + 256 * (n / 16777216)
    ensures n / 256 == n / 256 % 256 + 256 * (n / 65536) && n == n % 256 + 256 * (n / 256)
  {
  }

  // Counts and lengths take one, three, five or nine bytes.
  lemma KnownCounts()
    ensures VarInt(0xfc) == [0xfc] && VarInt(0xfd) == [0xfd, 0xfd, 0x00] && VarInt(0x1234) == [0xfd, 0x34, 0x12]
    ensures VarInt(0x1_0000) == [0xfe, 0x00, 0x00, 0x01, 0x00] && VarInt(0x1234_5678) == [0xfe, 0x78, 0x56, 0x34, 0x12]
    ensures VarInt(0x1_0000_0002) == [0xff, 0x02, 0x00, 0x00, 0x00, 0x01, 0x00, 0x00, 0x00]
  {
    hide *;
    Forms();
    Two(0xfd, 0x00);
    Two(0x34, 0x12);
    Four(0x00, 0x00, 0x01, 0x00);
    Four(0x78, 0x56, 0x34, 0x12);
    Four(0x02, 0x00, 0x00, 0x00);
    Four(0x01, 0x00, 0x00, 0x00);
    Eight(0x02, 0x01, [0x02, 0x00, 0x00, 0x00], [0x01, 0x00, 0x00, 0x00]);
  }

  lemma Forms()
    ensures VarInt(0xfc) == [0xfc] && VarInt(0xfd) == [0xfd] + ToLE(0xfd, 2) && VarInt(0x1234) == [0xfd] + ToLE(0x1234, 2)
    ensures VarInt(0x1_0000) == [0xfe] + ToLE(0x1_0000, 4) && VarInt(0x1234_5678) == [0xfe] + ToLE(0x1234_5678, 4)
    ensures VarInt(0x1_0000_0002) == [0xff] + ToLE(0x1_0000_0002, 8)
  {
    hide ToLE;
  }

  lemma Two(a: Byte, b: Byte)
    ensures ToLE(a + 256 * b, 2) == [a, b]
  {
    ToLENext(a, b, 2);
    ToLENext(b, 0, 1);
    assert ToLE(0, 0) == [];
    hide ToLE;
  }

  // A transaction with one signed input and one output, byte by byte; a hash is the number that its bytes spell.
  function Known(hash: Bytes): Tx
    requires LE(hash) < 0x1_00000000_00000000_00000000_00000000_00000000_00000000_00000000_00000000
  {
    Tx(0, 0x01020304, [Input(LE(hash), 0x05060708, 0, [], Some([0x51, 0x52]), 0xfffffffe)],
       [Output("", 0x11223344_55667788, [0xac])], 0x0a0b0c0d, TX_UNCONFIRMED, 0)
  }

  const VERSION: Bytes := [0x04, 0x03, 0x02, 0x01]
  const INDEX_AND_SCRIPT: Bytes := [0x08, 0x07, 0x06, 0x05, 0x02, 0x51, 0x52]
  const SEQUENCE: Bytes := [0xfe, 0xff, 0xff, 0xff]
  const OUTPUT: Bytes := [0x88, 0x77, 0x66, 0x55, 0x44, 0x33, 0x22, 0x11, 0x01, 0xac]
  const LOCK_TIME: Bytes := [0x0d, 0x0c, 0x0b, 0x0a]

  lemma KnownBytes(hash: Bytes)
    requires |hash| == 32 && LE(hash) < 0x1_00000000_00000000_00000000_00000000_00000000_00000000_00000000_00000000
    ensures Fits(Known(hash))
    ensures Serialized(Known(hash)) ==
      VERSION + [0x01] + hash + INDEX_AND_SCRIPT + SEQUENCE + [0x01] + OUTPUT + LOCK_TIME
  {
    hide *;
    KnownFields(hash);
    var tx := Known(hash);
    var input, output := tx.inputs[0], tx.outputs[0];
    KnownInput(hash, input);
    KnownOutput(output);
    KnownParts(tx, input, output);
    assert VERSION + ([0x01] + ((hash + INDEX_AND_SCRIPT + SEQUENCE) + ([0x01] + (OUTPUT + LOCK_TIME))))
      == VERSION + [0x01] + hash + INDEX_AND_SCRIPT + SEQUENCE + [0x01] + OUTPUT + LOCK_TIME;
  }

  lemma KnownFields(hash: Bytes)
    requires LE(hash) < 0x1_00000000_00000000_00000000_00000000_00000000_00000000_00000000_00000000
    ensures var tx := Known(hash);
      && ToLE(tx.version, 4) == VERSION && ToLE(tx.lockTime, 4) == LOCK_TIME
      && |tx.inputs| == |tx.outputs| == 1
      && tx.inputs[0] == Input(LE(hash), 0x05060708, 0, [], Some([0x51, 0x52]), 0xfffffffe)
      && tx.outputs[0] == Output("", 0x11223344_55667788, [0xac])
  {
    Four(0x04, 0x03, 0x02, 0x01);
    Four(0x0d, 0x0c, 0x0b, 0x0a);
    hide ToLE, LE;
  }

  lemma KnownParts(tx: Tx, input: Input, output: Output)
    requires |ScriptOf(input)| < TWO_64 && |output.script| < TWO_64
    requires |tx.inputs| == |tx.outputs| == 1
    requires tx.inputs[0] == input && tx.outputs[0] == output
    ensures Fits(tx)
    ensures Serialized(tx) == ToLE(tx.version, 4) + ([0x01] + (InputBytes(input) + ([0x01] + (OutputBytes(output)
      + ToLE(tx.lockTime, 4)))))
  {
    OneInput(input);
    OneOutput(output);
    assert tx.inputs == [input] && tx.outputs == [output];
    hide InputBytes, OutputBytes, AllInputs, AllOutputs, ToLE;
  }

  lemma OneInput(input: Input)
    requires |ScriptOf(input)| < TWO_64
    ensures AllInputs([input]) == InputBytes(input)
  {
    assert [input][..0] == [] && AllInputs([]) == [];
    hide InputBytes;
  }

  lemma OneOutput(output: Output)
    requires |output.script| < TWO_64
    ensures AllOutputs([output]) == OutputBytes(output)
  {
    assert [output][..0] == [] && AllOutputs([]) == [];
    hide OutputBytes;
  }

  lemma KnownInput(hash: Bytes, input: Input)
    requires |hash| == 32 && LE(hash) == input.txHash && input.index == 0x05060708
    requires input.signature == Some([0x51, 0x52]) && input.sequence == 0xfffffffe
    ensures |ScriptOf(input)| < TWO_64
    ensures InputBytes(input) == hash + INDEX_AND_SCRIPT + SEQUENCE
  {
    ToLERoundTrip(hash);
    Four(0x08, 0x07, 0x06, 0x05);
    Four(0xfe, 0xff, 0xff, 0xff);
    hide ToLE, LE;
  }

  lemma KnownOutput(output: Output)
    requires output.amount == 0x11223344_55667788 && output.script == [0xac]
    ensures |output.script| < TWO_64
    ensures OutputBytes(output) == OUTPUT
  {
    hide *;
    OutputIs(output);
    Four(0x88, 0x77, 0x66, 0x55);
    Four(0x44, 0x33, 0x22, 0x11);
    Eight(0x55667788, 0x11223344, [0x88, 0x77, 0x66, 0x55], [0x44, 0x33, 0x22, 0x11]);
  }

  lemma OutputIs(output: Output)
    requires |output.script| == 1
    ensures OutputBytes(output) == ToLE(output.amount, 8) + ([0x01] + output.script)
    ensures [0x88, 0x77, 0x66, 0x55] + [0x44, 0x33, 0x22, 0x11] + ([0x01] + [0xac]) == OUTPUT && |output.script| < TWO_64
  {
    hide ToLE;
  }
}
