/** The arithmetic of fees and coin selection. */
module CoinSelection {
  import opened LittleEndian
  import opened Options
  import opened Transactions
  import opened Ledger
  import opened Powers

  const MIN_FEE_PER_KB: nat := (TX_FEE_PER_KB * 1000 + 190) / 191
  const MAX_FEE_PER_KB: nat := (1000100 * 1000 + 190) / 191
  const MAX_MONEY: nat := 21000000 * 100000000

  // Bounds that keep sizes and fees inside 64 bits.
  const SIZE_LIMIT: nat := 0x100_0000_0000
  const FEE_LIMIT: nat := 0x20_0000_0000_0000

  // The fee for a size: by the rate and rounded up to 100 satoshi, but at least the standard fee per kilobyte.
  function TxFee(feePerKb: nat, size: nat): (fee: nat)
  {
    var standardFee := StandardFee(size);
    var fee := RateFee(size * feePerKb);
    if fee > standardFee then fee else standardFee
  }

  function StandardFee(size: nat): nat { (size + 999) / 1000 * TX_FEE_PER_KB }

  function RateFee(product: nat): nat { (product / 1000 + 99) / 100 * 100 }

  lemma RoundingMonotonic(a: nat, b: nat)
    requires a <= b
    ensures RateFee(a) <= RateFee(b) && StandardFee(a) <= StandardFee(b)
  {
  }

  lemma TxFeeMonotonic(feePerKb: nat, size: nat, size': nat)
    requires size <= size'
    ensures TxFee(feePerKb, size) <= TxFee(feePerKb, size')
  {
    MulMonotonic(size, size', feePerKb, feePerKb);
    RoundingMonotonic(size, size');
    RoundingMonotonic(size * feePerKb, size' * feePerKb);
    hide RateFee, StandardFee;
  }

  // It is the larger of two: the least multiple of 1000 that is not below the size, and the least multiple of 100 that
  // is not below what the rate makes of it.
  lemma TxFeeMeaning(feePerKb: nat, size: nat)
    ensures var fee := TxFee(feePerKb, size);
      && fee >= size && fee >= size * feePerKb / 1000
      && ((fee % 1000 == 0 && fee < size + 1000) || (fee % 100 == 0 && fee < size * feePerKb / 1000 + 100))
  {
    StandardFeeMeaning(size);
    RateFeeMeaning(size * feePerKb);
    hide StandardFee, RateFee;
  }

  lemma StandardFeeMeaning(size: nat)
    ensures size <= StandardFee(size) < size + 1000 && StandardFee(size) % 1000 == 0
  {
  }

  lemma RateFeeMeaning(product: nat)
    ensures product / 1000 <= RateFee(product) < product / 1000 + 100 && RateFee(product) % 100 == 0
  {
  }

  // No fee leaves 64 bits on the way, far beyond the maximum size.
  lemma TxFeeFits(feePerKb: nat, size: nat)
    requires feePerKb <= MAX_FEE_PER_KB && size <= SIZE_LIMIT
    ensures size * feePerKb < TWO_64 && TxFee(feePerKb, size) <= FEE_LIMIT
  {
    MulMonotonic(size, SIZE_LIMIT, feePerKb, MAX_FEE_PER_KB);
  }

  // What a change output must be worth: the fee for the input that would spend it, and never less than the dust limit.
  function MinAmount(feePerKb: nat): nat {
    var amount := (TX_MIN_OUTPUT_AMOUNT * feePerKb + MIN_FEE_PER_KB - 1) / MIN_FEE_PER_KB;
    if amount > TX_MIN_OUTPUT_AMOUNT then amount else TX_MIN_OUTPUT_AMOUNT
  }

  // It is the least amount of at least 546 that is to 546 at least what the rate is to 5236.
  lemma MinAmountMeaning(feePerKb: nat)
    ensures var amount := MinAmount(feePerKb);
      && amount >= 546 && amount * 5236 >= 546 * feePerKb
      && (amount == 546 || (amount - 1) * 5236 < 546 * feePerKb)
  {
    assert MIN_FEE_PER_KB == 5236 && TX_MIN_OUTPUT_AMOUNT == 546;
  }

  lemma MinAmountFits(feePerKb: nat)
    requires feePerKb <= MAX_FEE_PER_KB
    ensures MIN_FEE_PER_KB > 0 && TX_MIN_OUTPUT_AMOUNT * feePerKb + MIN_FEE_PER_KB - 1 < TWO_64
    ensures MinAmount(feePerKb) <= MAX_MONEY
  {
    assert MIN_FEE_PER_KB == 5236 && TX_MIN_OUTPUT_AMOUNT == 546;
  }

  // The base fee, raised to round the remaining wallet balance to 100 satoshi.
  function RoundedFee(walletBalance: nat, amount: nat, fee: nat): nat {
    if walletBalance > amount + fee then fee + (walletBalance - (amount + fee)) % 100 else fee
  }

  lemma RoundedFeeMeaning(walletBalance: nat, amount: nat, fee: nat)
    ensures fee <= RoundedFee(walletBalance, amount, fee) < fee + 100
    ensures walletBalance >= amount + fee ==>
      var rounded := RoundedFee(walletBalance, amount, fee);
      amount + rounded <= walletBalance && (walletBalance - (amount + rounded)) % 100 == 0
  {
  }

  // ---- amounts and sizes ----

  function OutputSum(outputs: seq<Output>): nat {
    if outputs == [] then 0 else OutputSum(outputs[..|outputs| - 1]) + outputs[|outputs| - 1].amount
  }

  lemma {:induction false} OutputSumNext(outputs: seq<Output>, i: nat)
    requires i < |outputs|
    ensures outputs[..i + 1] == outputs[..i] + [outputs[i]]
    ensures OutputSum(outputs[..i]) + outputs[i].amount == OutputSum(outputs[..i + 1]) <= OutputSum(outputs)
  {
    assert outputs[..i + 1][..i] == outputs[..i];
    if i + 1 < |outputs| {
      assert outputs[..|outputs| - 1][..i + 1] == outputs[..i + 1] && outputs[..|outputs| - 1][..i] == outputs[..i];
      OutputSumNext(outputs[..|outputs| - 1], i);
    } else {
      assert outputs[..i + 1] == outputs;
    }
  }

  function InputSum(inputs: seq<Input>): nat {
    if inputs == [] then 0 else InputSum(inputs[..|inputs| - 1]) + inputs[|inputs| - 1].amount
  }

  // The unsigned inputs that spend the outputs of a list that can be looked up.
  function InputsFor(ctx: Context, ops: seq<OutPoint>): seq<Input> {
    if ops == [] then []
    else
      var op := ops[|ops| - 1];
      InputsFor(ctx, ops[..|ops| - 1]) + (if Known(ctx, op) then [InputFor(ctx, op)] else [])
  }

  function InputFor(ctx: Context, op: OutPoint): Input
    requires Known(ctx, op)
  {
    var t := ctx.allTx[op.hash];
    Input(t.txHash, op.n, t.outputs[op.n].amount, t.outputs[op.n].script, None, UINT32_MAX)
  }

  lemma {:induction false} InputsForMeaning(ctx: Context, ops: seq<OutPoint>)
    ensures var inputs := InputsFor(ctx, ops);
      && InputSum(inputs) == Total(ctx, ops) && |inputs| <= |ops|
      && InputSizes(inputs) == TX_INPUT_SIZE * |inputs|
  {
    if ops != [] {
      var init := InputsFor(ctx, ops[..|ops| - 1]);
      var op := ops[|ops| - 1];
      InputsForMeaning(ctx, ops[..|ops| - 1]);
      if Known(ctx, op) {
        assert (init + [InputFor(ctx, op)])[..|init|] == init;
      } else {
        assert init + [] == init;
      }
    }
  }

  lemma {:induction false} InputsForGrow(ctx: Context, ops: seq<OutPoint>, k: nat)
    requires k <= |ops|
    ensures |InputsFor(ctx, ops[..k])| <= |InputsFor(ctx, ops)| && Total(ctx, ops[..k]) <= Total(ctx, ops)
  {
    if k < |ops| {
      assert ops[..|ops| - 1][..k] == ops[..k];
      InputsForGrow(ctx, ops[..|ops| - 1], k);
    } else {
      assert ops[..k] == ops;
    }
  }

  // The outputs of a list that exist.
  function Existing(ctx: Context, ops: seq<OutPoint>): seq<OutPoint> {
    if ops == [] then []
    else
      var op := ops[|ops| - 1];
      Existing(ctx, ops[..|ops| - 1])
      + if op.hash in ctx.allTx && op.n < |ctx.allTx[op.hash].outputs| then [op] else []
  }

  // Unsigned inputs that spend exactly these, in order, with the amount and the script of each.
  ghost predicate SpendAll(ctx: Context, ops: seq<OutPoint>, inputs: seq<Input>) {
    var known := Existing(ctx, ops);
    |inputs| == |known| && forall j :: 0 <= j < |inputs| ==> SpendsIt(ctx, known[j], inputs[j])
  }

  ghost predicate SpendsIt(ctx: Context, op: OutPoint, input: Input) {
    && op.hash in ctx.allTx && op.n < |ctx.allTx[op.hash].outputs|
    && input.txHash == ctx.allTx[op.hash].txHash && input.index == op.n
    && input.amount == ctx.allTx[op.hash].outputs[op.n].amount && input.script == ctx.allTx[op.hash].outputs[op.n].script
    && input.signature.None? && input.sequence == 0xffff_ffff
  }

  // They spend the first outputs of the list.
  ghost predicate SpendFirst(ctx: Context, ops: seq<OutPoint>, inputs: seq<Input>) {
    exists k :: 0 <= k <= |ops| && SpendAll(ctx, ops[..k], inputs)
  }

  lemma FirstInputs(ctx: Context, ops: seq<OutPoint>, k: nat)
    requires k <= |ops|
    ensures SpendFirst(ctx, ops, InputsFor(ctx, ops[..k]))
  {
    InputsForSpend(ctx, ops[..k]);
    hide SpendAll, InputsFor;
  }

  lemma {:induction false} InputsForSpend(ctx: Context, ops: seq<OutPoint>)
    ensures SpendAll(ctx, ops, InputsFor(ctx, ops))
  {
    if ops != [] {
      InputsForSpend(ctx, ops[..|ops| - 1]);
      hide SpendsIt;
      if Known(ctx, ops[|ops| - 1]) { InputForSpends(ctx, ops[|ops| - 1]); }
    }
  }

  lemma InputForSpends(ctx: Context, op: OutPoint)
    requires Known(ctx, op)
    ensures SpendsIt(ctx, op, InputFor(ctx, op))
  {
  }

  function SpendsOf(inputs: seq<Input>): seq<OutPoint> {
    seq(|inputs|, j requires 0 <= j < |inputs| => inputs[j].Spends())
  }

  // Where transactions are known by their own hashes, such inputs spend outputs on the list, and none twice if the list
  // holds none twice.
  lemma SpendsListed(ctx: Context, ops: seq<OutPoint>, inputs: seq<Input>)
    requires SpendFirst(ctx, ops, inputs) && forall h :: h in ctx.allTx ==> ctx.allTx[h].txHash == h
    ensures exists k :: 0 <= k <= |ops| && SpendsOf(inputs) == Existing(ctx, ops[..k])
    ensures forall op :: op in SpendsOf(inputs) ==> op in ops
    ensures NoRepeats(ops) ==> NoRepeats(SpendsOf(inputs))
  {
    hide Existing;
    var k :| 0 <= k <= |ops| && SpendAll(ctx, ops[..k], inputs);
    ExistingListed(ctx, ops[..k]);
    forall j | 0 <= j < |inputs| ensures inputs[j].Spends() == Existing(ctx, ops[..k])[j] {
      assert SpendsIt(ctx, Existing(ctx, ops[..k])[j], inputs[j]);
    }
    assert SpendsOf(inputs) == Existing(ctx, ops[..k]);
  }

  lemma {:induction false} ExistingListed(ctx: Context, ops: seq<OutPoint>)
    ensures forall op :: op in Existing(ctx, ops) <==>
      op in ops && op.hash in ctx.allTx && op.n < |ctx.allTx[op.hash].outputs|
    ensures NoRepeats(ops) ==> NoRepeats(Existing(ctx, ops))
  {
    if ops != [] {
      var n := |ops| - 1;
      ExistingListed(ctx, ops[..n]);
      assert ops == ops[..n] + [ops[n]];
      var known := Existing(ctx, ops[..n]);
      if NoRepeats(ops) && ops[n].hash in ctx.allTx && ops[n].n < |ctx.allTx[ops[n].hash].outputs| {
        assert ops[n] !in ops[..n];
        LastOnce(known, ops[n]);
      }
      assert known + [] == known;
    }
  }

  lemma LastOnce(ops: seq<OutPoint>, op: OutPoint)
    requires NoRepeats(ops) && op !in ops
    ensures NoRepeats(ops + [op])
  {
  }

  // One more output of the list is spent, or skipped.
  lemma InputsForNext(ctx: Context, ops: seq<OutPoint>, i: nat)
    requires i < |ops|
    ensures var inputs, next := InputsFor(ctx, ops[..i]), InputsFor(ctx, ops[..i + 1]);
      && next == inputs + (if Known(ctx, ops[i]) then [InputFor(ctx, ops[i])] else [])
      && InputSum(next) == InputSum(inputs) + Amount(ctx, ops[i]) <= Total(ctx, ops)
      && |inputs| <= |next| <= |InputsFor(ctx, ops)|
      && InputSizes(next) == TX_INPUT_SIZE * |next|
  {
    assert ops[..i + 1][..i] == ops[..i];
    InputsForMeaning(ctx, ops[..i]);
    InputsForMeaning(ctx, ops[..i + 1]);
    InputsForGrow(ctx, ops, i + 1);
  }

  // The size of an unsigned transaction with inCount inputs and the given outputs.
  function UnsignedSize(inCount: nat, outputs: seq<Output>): nat {
    8 + VarIntSize(inCount) + VarIntSize(|outputs|) + TX_INPUT_SIZE * inCount + OutputSizes(outputs)
  }

  lemma UnsignedSizeMonotonic(inCount: nat, more: nat, outputs: seq<Output>)
    requires inCount <= more
    ensures UnsignedSize(inCount, outputs) <= UnsignedSize(more, outputs)
  {
  }

  lemma OutputSizesAppend(outputs: seq<Output>, output: Output)
    ensures OutputSizes(outputs + [output]) == OutputSizes(outputs) + OutputSize(output)
    ensures OutputSum(outputs + [output]) == OutputSum(outputs) + output.amount
  {
    assert (outputs + [output])[..|outputs|] == outputs;
  }

  // ---- permutations of the outputs ----

  lemma SwapSums(outputs: seq<Output>, i: nat, j: nat)
    requires i < j < |outputs|
    ensures var s := outputs[i := outputs[j]][j := outputs[i]];
      && OutputSum(s) == OutputSum(outputs) && OutputSizes(s) == OutputSizes(outputs)
      && multiset(s) == multiset(outputs)
  {
    UpdateSums(outputs, i, outputs[j]);
    UpdateSums(outputs[i := outputs[j]], j, outputs[i]);
  }

  lemma {:induction false} UpdateSums(outputs: seq<Output>, i: nat, o: Output)
    requires i < |outputs|
    ensures OutputSum(outputs[i := o]) + outputs[i].amount == OutputSum(outputs) + o.amount
    ensures OutputSizes(outputs[i := o]) + OutputSize(outputs[i]) == OutputSizes(outputs) + OutputSize(o)
  {
    var n := |outputs| - 1;
    if i < n {
      assert outputs[i := o][..n] == outputs[..n][i := o];
      UpdateSums(outputs[..n], i, o);
    } else {
      assert outputs[i := o][..n] == outputs[..n];
    }
  }

  // Shuffles the outputs: every draw may return any number below its bound.
  method Shuffle(outputs: seq<Output>) returns (shuffled: seq<Output>)
    ensures |shuffled| == |outputs| && multiset(shuffled) == multiset(outputs)
    ensures OutputSum(shuffled) == OutputSum(outputs) && OutputSizes(shuffled) == OutputSizes(outputs)
  {
    shuffled := outputs;
    var i := 0;
    while i + 1 < |outputs|
      invariant 0 <= i && |shuffled| == |outputs| && multiset(shuffled) == multiset(outputs)
      invariant OutputSum(shuffled) == OutputSum(outputs) && OutputSizes(shuffled) == OutputSizes(outputs)
    {
      var draw: nat :| draw < |outputs| - i;
      var j := i + draw;
      if j != i {
        SwapSums(shuffled, i, j);
        shuffled := shuffled[i := shuffled[j]][j := shuffled[i]];
      }
      i := i + 1;
    }
  }

  // ---- what a created transaction promises ----

  // The fee aimed at with inCount inputs: enough for a further change output, and rounded.
  function TargetFee(walletBalance: nat, feePerKb: nat, outputs: seq<Output>, inCount: nat): nat {
    RoundedFee(walletBalance, OutputSum(outputs), TxFee(feePerKb, UnsignedSize(inCount, outputs) + TX_OUTPUT_SIZE))
  }

  // Without a change output: the requested outputs in order, overpaying by less than an economical output.
  ghost predicate WithoutChange(feePerKb: nat, outputs: seq<Output>, tx: Tx, target: nat) {
    && tx.outputs == outputs
    && 0 <= InputSum(tx.inputs) - OutputSum(tx.outputs) - target < MinAmount(feePerKb)
  }

  // With one: the requested outputs and an economical one in any order, and exactly the fee aimed at.
  ghost predicate WithChange(feePerKb: nat, outputs: seq<Output>, changeScript: Bytes, tx: Tx, target: nat) {
    && InputSum(tx.inputs) - OutputSum(tx.outputs) == target
    && exists change: Output :: change.script == changeScript && change.amount >= MinAmount(feePerKb)
         && multiset(tx.outputs) == multiset(outputs + [change])
  }

  ghost predicate Satisfies(ctx: Context, utxos: seq<OutPoint>, walletBalance: nat, feePerKb: nat,
                            outputs: seq<Output>, changeScript: Bytes, tx: Tx)
  {
    var target := TargetFee(walletBalance, feePerKb, outputs, |tx.inputs|);
    && SpendFirst(ctx, utxos, tx.inputs)
    && (WithoutChange(feePerKb, outputs, tx, target) || WithChange(feePerKb, outputs, changeScript, tx, target))
    && (|outputs| < 252 ==> TxFee(feePerKb, TxSize(tx)) <= target)
    && (WithChange(feePerKb, outputs, changeScript, tx, target) ==>
          OutputSum(outputs) + target <= walletBalance && (walletBalance - (OutputSum(outputs) + target)) % 100 == 0)
  }

  // ---- when selection reaches the size cap ----

  // The output that is added as number k makes the transaction too large.
  ghost predicate TooLarge(ctx: Context, utxos: seq<OutPoint>, outputs: seq<Output>, k: nat) {
    && 0 < k <= |utxos| && Known(ctx, utxos[k - 1])
    && UnsignedSize(|InputsFor(ctx, utxos[..k])|, outputs) + TX_OUTPUT_SIZE > TX_MAX_SIZE
  }

  // Once it is added, the inputs pay for everything, either exactly or with an economical rest.
  ghost predicate Suffices(ctx: Context, utxos: seq<OutPoint>, walletBalance: nat, feePerKb: nat,
                           outputs: seq<Output>, k: nat)
  {
    && 0 < k <= |utxos| && Known(ctx, utxos[k - 1])
    && (var inputs := InputsFor(ctx, utxos[..k]);
        var due := OutputSum(outputs) + TargetFee(walletBalance, feePerKb, outputs, |inputs|);
        InputSum(inputs) == due || InputSum(inputs) >= due + MinAmount(feePerKb))
  }

  // An output makes the transaction too large before any suffices.
  ghost predicate HitsCap(ctx: Context, utxos: seq<OutPoint>, walletBalance: nat, feePerKb: nat, outputs: seq<Output>) {
    exists k: nat :: TooLarge(ctx, utxos, outputs, k)
      && forall j :: 0 < j < k ==> !Suffices(ctx, utxos, walletBalance, feePerKb, outputs, j)
  }

  // In numbers: with the k-th output of the list the transaction exceeds 100000 bytes, when every input takes 148 bytes and
  // a change output 34; or the inputs are worth exactly what is due, or more by at least the minimum amount.
  lemma TooLargeIff(ctx: Context, utxos: seq<OutPoint>, outputs: seq<Output>, k: nat)
    requires 0 < k <= |utxos|
    ensures var n := |Existing(ctx, utxos[..k])|;
      TooLarge(ctx, utxos, outputs, k) <==>
        && n > |Existing(ctx, utxos[..k - 1])|
        && 8 + VarIntSize(n) + VarIntSize(|outputs|) + 148 * n + OutputSizes(outputs) + 34 > 100000
  {
    ExistingNext(ctx, utxos, k);
    hide InputsFor, Existing, OutputSizes, VarIntSize;
  }

  lemma SufficesIff(ctx: Context, utxos: seq<OutPoint>, walletBalance: nat, feePerKb: nat, outputs: seq<Output>, k: nat)
    requires 0 < k <= |utxos|
    ensures var n, sum := |Existing(ctx, utxos[..k])|, OutputSum(outputs);
      var fee := TxFee(feePerKb, 8 + VarIntSize(n) + VarIntSize(|outputs|) + 148 * n + OutputSizes(outputs) + 34);
      var due := sum + fee + if walletBalance > sum + fee then (walletBalance - sum - fee) % 100 else 0;
      Suffices(ctx, utxos, walletBalance, feePerKb, outputs, k) <==>
        && n > |Existing(ctx, utxos[..k - 1])|
        && (Total(ctx, utxos[..k]) == due || Total(ctx, utxos[..k]) >= due + MinAmount(feePerKb))
  {
    ExistingNext(ctx, utxos, k);
    InputsForMeaning(ctx, utxos[..k]);
    hide InputsFor, Existing, OutputSizes, VarIntSize, OutputSum, MinAmount, TxFee, Total, InputSum;
  }

  lemma ExistingNext(ctx: Context, utxos: seq<OutPoint>, k: nat)
    requires 0 < k <= |utxos|
    ensures |Existing(ctx, utxos[..k])| == |InputsFor(ctx, utxos[..k])|
    ensures |Existing(ctx, utxos[..k])| > |Existing(ctx, utxos[..k - 1])| <==> Known(ctx, utxos[k - 1])
  {
    InputsForSpend(ctx, utxos[..k]);
    assert utxos[..k][..k - 1] == utxos[..k - 1];
    hide InputsFor, SpendsIt;
  }

  // None of the first i outputs makes it too large, or suffices.
  ghost predicate Undecided(ctx: Context, utxos: seq<OutPoint>, walletBalance: nat, feePerKb: nat,
                            outputs: seq<Output>, i: nat)
  {
    && (forall k :: 0 < k <= i ==> !TooLarge(ctx, utxos, outputs, k))
    && (forall k :: 0 < k <= i ==> !Suffices(ctx, utxos, walletBalance, feePerKb, outputs, k))
  }

  lemma Undecided0(ctx: Context, utxos: seq<OutPoint>, walletBalance: nat, feePerKb: nat, outputs: seq<Output>)
    ensures Undecided(ctx, utxos, walletBalance, feePerKb, outputs, 0)
  {
  }

  // The next output decides it, or leaves it open.
  lemma Decided(ctx: Context, utxos: seq<OutPoint>, walletBalance: nat, feePerKb: nat, outputs: seq<Output>, i: nat)
    requires i < |utxos| && Undecided(ctx, utxos, walletBalance, feePerKb, outputs, i)
    ensures TooLarge(ctx, utxos, outputs, i + 1) ==> HitsCap(ctx, utxos, walletBalance, feePerKb, outputs)
    ensures !TooLarge(ctx, utxos, outputs, i + 1) && Suffices(ctx, utxos, walletBalance, feePerKb, outputs, i + 1) ==>
      !HitsCap(ctx, utxos, walletBalance, feePerKb, outputs)
    ensures !TooLarge(ctx, utxos, outputs, i + 1) && !Suffices(ctx, utxos, walletBalance, feePerKb, outputs, i + 1) ==>
      Undecided(ctx, utxos, walletBalance, feePerKb, outputs, i + 1)
  {
    hide Suffices, UnsignedSize, InputsFor, Known;
    assert forall k: nat :: TooLarge(ctx, utxos, outputs, k) ==> k > i;
  }

  lemma UndecidedEnd(ctx: Context, utxos: seq<OutPoint>, walletBalance: nat, feePerKb: nat, outputs: seq<Output>)
    requires Undecided(ctx, utxos, walletBalance, feePerKb, outputs, |utxos|)
    ensures !HitsCap(ctx, utxos, walletBalance, feePerKb, outputs)
  {
    hide Suffices;
  }

  // The cap is not hit when a transaction that spends everything is not too large.
  lemma AllFit(ctx: Context, utxos: seq<OutPoint>, walletBalance: nat, feePerKb: nat, outputs: seq<Output>)
    requires UnsignedSize(|InputsFor(ctx, utxos)|, outputs) + TX_OUTPUT_SIZE <= TX_MAX_SIZE
    ensures !HitsCap(ctx, utxos, walletBalance, feePerKb, outputs)
  {
    hide Suffices, InputsFor, UnsignedSize, Known;
    forall k: nat | 0 < k <= |utxos| ensures !TooLarge(ctx, utxos, outputs, k) {
      InputsForGrow(ctx, utxos, k);
      UnsignedSizeMonotonic(|InputsFor(ctx, utxos[..k])|, |InputsFor(ctx, utxos)|, outputs);
    }
  }

  // A change output of the usual size is paid for, unless it lengthens the count of outputs.
  lemma TargetCovers(walletBalance: nat, feePerKb: nat, outputs: seq<Output>, tx: Tx, change: Output)
    requires |outputs| < 252 && |change.script| <= 25
    requires InputSizes(tx.inputs) == TX_INPUT_SIZE * |tx.inputs|
    requires |tx.outputs| <= |outputs| + 1
    requires OutputSizes(tx.outputs) <= OutputSizes(outputs) + OutputSize(change)
    ensures TxFee(feePerKb, TxSize(tx)) <= TargetFee(walletBalance, feePerKb, outputs, |tx.inputs|)
  {
    var size := UnsignedSize(|tx.inputs|, outputs) + TX_OUTPUT_SIZE;
    TxFeeMonotonic(feePerKb, TxSize(tx), size);
    RoundedFeeMeaning(walletBalance, OutputSum(outputs), TxFee(feePerKb, size));
  }

  // ---- the largest amount ----

  function MaxAmount(feePerKb: nat, total: nat, inCount: nat): nat {
    var fee := TxFee(feePerKb,
      8 + VarIntSize(inCount) + TX_INPUT_SIZE * inCount + VarIntSize(2) + TX_OUTPUT_SIZE * 2);
    if total > fee then total - fee else 0
  }

  // With the fee for all inputs and two outputs of the usual size it makes up the total, if that exceeds the fee.
  lemma MaxAmountExact(feePerKb: nat, total: nat, inCount: nat, outputs: seq<Output>)
    requires |outputs| == 2 && |outputs[0].script| == |outputs[1].script| == 25
    ensures var fee := TxFee(feePerKb, UnsignedSize(inCount, outputs));
      if total <= fee then MaxAmount(feePerKb, total, inCount) == 0
      else MaxAmount(feePerKb, total, inCount) + fee == total
  {
    assert outputs[..1][..0] == [] && outputs == outputs[..1] + [outputs[1]];
    assert OutputSizes([]) == 0 && OutputSizes(outputs[..1]) == 34 && OutputSizes(outputs) == 68;
    hide TxFee;
  }

  // Sending the largest amount leaves enough for the fee of spending everything.
  lemma MaxAmountAffordable(feePerKb: nat, total: nat, inCount: nat, output: Output)
    requires |output.script| <= 25 && output.amount == MaxAmount(feePerKb, total, inCount) > 0
    ensures OutputSum([output]) + TxFee(feePerKb, UnsignedSize(inCount, [output]) + TX_OUTPUT_SIZE) <= total
  {
    assert [output][..0] == [] && OutputSum([]) == 0 && OutputSizes([]) == 0;
    TxFeeMonotonic(feePerKb, UnsignedSize(inCount, [output]) + TX_OUTPUT_SIZE,
      8 + VarIntSize(inCount) + TX_INPUT_SIZE * inCount + VarIntSize(2) + TX_OUTPUT_SIZE * 2);
  }
}
