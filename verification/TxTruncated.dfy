/** Transactions that are cut off: a buffer that ends before the transaction does is refused. */
module TxTruncated {
  import opened LittleEndian
  import opened Options
  import opened Transactions
  import opened TxCodec

  // What a reader of the first k bytes does instead of ending at end: the same, or going on behind them.
  predicate CutAt(k: nat, end: nat, end': nat) { if end <= k then end' == end else end' > k }

  lemma ReadLECut(buf: Bytes, k: nat, off: nat, count: nat)
    requires off + count <= k <= |buf|
    ensures ReadLE(buf[..k], off, count) == ReadLE(buf, off, count)
  {
    assert buf[..k][off..off + count] == buf[off..off + count];
  }

  lemma ReadVarIntCut(buf: Bytes, k: nat, off: nat)
    requires k <= |buf|
    ensures var v, v' := ReadVarInt(buf, off), ReadVarInt(buf[..k], off);
      CutAt(k, v.1, v'.1) && (v.1 <= k ==> v' == v)
  {
    hide ReadLE;
    if off < k {
      ReadLECut(buf, k, off, 1);
      var h := ReadLE(buf, off, 1);
      var count := if h == 0xfd then 2 else if h == 0xfe then 4 else if h == 0xff then 8 else 0;
      if off + 1 + count <= k { ReadLECut(buf, k, off + 1, count); }
    }
  }

  lemma ReadInputCut(coin: Coin, buf: Bytes, k: nat, off: nat)
    requires k <= |buf|
    ensures CutAt(k, ReadInput(coin, buf, off).1, ReadInput(coin, buf[..k], off).1)
  {
    ReadVarIntCut(buf, k, off + 36);
    hide ReadVarInt, Read32, Read64, ReadHash;
  }

  lemma ReadOutputCut(coin: Coin, buf: Bytes, k: nat, off: nat)
    requires k <= |buf|
    ensures CutAt(k, ReadOutput(coin, buf, off).1, ReadOutput(coin, buf[..k], off).1)
  {
    ReadVarIntCut(buf, k, off + 8);
    hide ReadVarInt, Read64;
  }

  lemma {:induction false} ReadInputsCut(coin: Coin, buf: Bytes, k: nat, off: nat, count: nat)
    requires k <= |buf|
    ensures off <= ReadInputs(coin, buf, off, count).1 && off <= ReadInputs(coin, buf[..k], off, count).1
    ensures CutAt(k, ReadInputs(coin, buf, off, count).1, ReadInputs(coin, buf[..k], off, count).1)
    decreases count
  {
    hide ReadInput;
    if count > 0 {
      var e, e' := ReadInput(coin, buf, off).1, ReadInput(coin, buf[..k], off).1;
      ReadInputCut(coin, buf, k, off);
      ReadInputsCut(coin, buf, k, e, count - 1);
      ReadInputsCut(coin, buf, k, e', count - 1);
    }
  }

  lemma {:induction false} ReadOutputsCut(coin: Coin, buf: Bytes, k: nat, off: nat, count: nat)
    requires k <= |buf|
    ensures off <= ReadOutputs(coin, buf, off, count).1 && off <= ReadOutputs(coin, buf[..k], off, count).1
    ensures CutAt(k, ReadOutputs(coin, buf, off, count).1, ReadOutputs(coin, buf[..k], off, count).1)
    decreases count
  {
    hide ReadOutput;
    if count > 0 {
      var e, e' := ReadOutput(coin, buf, off).1, ReadOutput(coin, buf[..k], off).1;
      ReadOutputCut(coin, buf, k, off);
      ReadOutputsCut(coin, buf, k, e, count - 1);
      ReadOutputsCut(coin, buf, k, e', count - 1);
    }
  }

  // Where parsing stops.
  function ParsedEnd(coin: Coin, buf: Bytes): nat {
    var ins := ReadVarInt(buf, 4);
    var outs := ReadVarInt(buf, ReadInputs(coin, buf, ins.1, ins.0).1);
    ReadOutputs(coin, buf, outs.1, outs.0).1 + 4
  }

  lemma ParsedEndCut(coin: Coin, buf: Bytes, k: nat)
    requires k <= |buf|
    ensures CutAt(k, ParsedEnd(coin, buf), ParsedEnd(coin, buf[..k]))
  {
    hide ReadVarInt, ReadInputs, ReadOutputs;
    var ins, ins' := ReadVarInt(buf, 4), ReadVarInt(buf[..k], 4);
    ReadVarIntCut(buf, k, 4);
    ReadInputsCut(coin, buf, k, ins.1, ins.0);
    ReadInputsCut(coin, buf, k, ins'.1, ins'.0);
    var n, n' := ReadInputs(coin, buf, ins.1, ins.0).1, ReadInputs(coin, buf[..k], ins'.1, ins'.0).1;
    ReadVarIntCut(buf, k, n);
    ReadVarIntCut(buf, k, n');
    var outs, outs' := ReadVarInt(buf, n), ReadVarInt(buf[..k], n');
    ReadOutputsCut(coin, buf, k, outs.1, outs.0);
    ReadOutputsCut(coin, buf, k, outs'.1, outs'.0);
  }

  lemma ParsedFits(coin: Coin, sha: Bytes -> Hash, buf: Bytes)
    ensures ParseTx(coin, sha, buf).Some? ==> ParsedEnd(coin, buf) <= |buf|
  {
    hide ReadVarInt, ReadInputs, ReadOutputs;
  }

  // A buffer is parsed only if it holds the transaction in full: cut anywhere before its end, nothing is returned.
  lemma CutOff(coin: Coin, sha: Bytes -> Hash, buf: Bytes, k: nat)
    requires k < ParsedEnd(coin, buf) && k <= |buf|
    ensures ParseTx(coin, sha, buf[..k]) == None
  {
    hide ParseTx, ParsedEnd;
    ParsedEndCut(coin, buf, k);
    ParsedFits(coin, sha, buf[..k]);
  }

  // So is every proper beginning of the bytes of a transaction whose inputs read back.
  lemma SerializedCutOff(coin: Coin, sha: Bytes -> Hash, tx: Tx, k: nat)
    requires Fits(tx) && ReadsBackAll(coin, Serialized(tx), tx) && k < |Serialized(tx)|
    ensures ParsedEnd(coin, Serialized(tx)) == |Serialized(tx)|
    ensures ParseTx(coin, sha, Serialized(tx)[..k]) == None
  {
    hide *;
    var buf := Serialized(tx);
    AllPartsAt(tx, []);
    assert buf + [] == buf;
    LaidOutEnd(tx, buf);
    ReadsInputs(coin, tx, buf);
    ReadsOutputs(coin, tx, buf);
    EndIs(coin, buf, |tx.inputs|, |Step(tx, 2)|, |Step(tx, 3)|, |tx.outputs|, |Step(tx, 4)|, |Step(tx, 5)|);
    CutOff(coin, sha, buf, k);
  }

  lemma EndIs(coin: Coin, buf: Bytes, inCount: nat, n2: nat, n3: nat, outCount: nat, n4: nat, n5: nat)
    requires ReadVarInt(buf, 4) == (inCount, n2) && ReadInputs(coin, buf, n2, inCount).1 == n3
    requires ReadVarInt(buf, n3) == (outCount, n4) && ReadOutputs(coin, buf, n4, outCount).1 == n5
    ensures ParsedEnd(coin, buf) == n5 + 4
  {
    hide ReadVarInt, ReadInputs, ReadOutputs;
  }
}
