/**
 What creating a transaction tries next when one more input would make it too large: the same request with a smaller
 last output, or without it; what it ends with, and when it does.
 */
module Retries {
  import opened CoinSelection
  import opened Ledger
  import opened LittleEndian
  import opened Options
  import opened Transactions

  // What there is to spend, and the fee rate.
  datatype Funds = Funds(ctx: Context, utxos: seq<OutPoint>, balance: nat, feePerKb: nat)

  // The inputs from the first k unspent outputs, what they are worth, and the fee for them with one output more than
  // requested, before and after rounding.
  function Inputs(f: Funds, k: nat): seq<Input>
    requires k <= |f.utxos|
  {
    InputsFor(f.ctx, f.utxos[..k])
  }

  function Worth(f: Funds, k: nat): nat
    requires k <= |f.utxos|
  {
    InputSum(Inputs(f, k))
  }

  function BaseFee(f: Funds, outputs: seq<Output>, k: nat): nat
    requires k <= |f.utxos|
  {
    TxFee(f.feePerKb, UnsignedSize(|Inputs(f, k)|, outputs) + TX_OUTPUT_SIZE)
  }

  function Fee(f: Funds, outputs: seq<Output>, k: nat): nat
    requires k <= |f.utxos|
  {
    RoundedFee(f.balance, OutputSum(outputs), BaseFee(f, outputs, k))
  }

  ghost predicate IsLarge(f: Funds, outputs: seq<Output>, k: nat) { TooLarge(f.ctx, f.utxos, outputs, k) }

  ghost predicate IsEnough(f: Funds, outputs: seq<Output>, k: nat) {
    Suffices(f.ctx, f.utxos, f.balance, f.feePerKb, outputs, k)
  }

  ghost predicate IsCapped(f: Funds, outputs: seq<Output>) {
    HitsCap(f.ctx, f.utxos, f.balance, f.feePerKb, outputs)
  }

  // ---- the next request ----

  // Selection stops behind the first end unspent outputs, because one more makes the transaction too large.
  ghost predicate IsCapAt(f: Funds, outputs: seq<Output>, end: nat) {
    IsLarge(f, outputs, end + 1) && Undecided(f.ctx, f.utxos, f.balance, f.feePerKb, outputs, end)
  }

  lemma CapFound(f: Funds, outputs: seq<Output>)
    ensures IsCapped(f, outputs) <==> exists end: nat :: IsCapAt(f, outputs, end)
  {
    hide Undecided, TooLarge, Suffices, HitsCap;
    Undecided0(f.ctx, f.utxos, f.balance, f.feePerKb, outputs);
    if IsCapped(f, outputs) {
      CapBehind(f, outputs, 0);
    }
    forall end: nat | IsCapAt(f, outputs, end) ensures IsCapped(f, outputs) {
      CapHits(f, outputs, end);
    }
  }

  lemma CapHits(f: Funds, outputs: seq<Output>, end: nat)
    requires IsCapAt(f, outputs, end)
    ensures IsCapped(f, outputs) && end < |f.utxos|
  {
    hide Undecided, Suffices, HitsCap;
    Decided(f.ctx, f.utxos, f.balance, f.feePerKb, outputs, end);
  }

  lemma {:induction false} CapBehind(f: Funds, outputs: seq<Output>, i: nat)
    requires IsCapped(f, outputs) && i <= |f.utxos|
    requires Undecided(f.ctx, f.utxos, f.balance, f.feePerKb, outputs, i)
    ensures exists end: nat :: IsCapAt(f, outputs, end)
    decreases |f.utxos| - i
  {
    hide Undecided, TooLarge, Suffices, HitsCap;
    if i == |f.utxos| {
      UndecidedEnd(f.ctx, f.utxos, f.balance, f.feePerKb, outputs);
    } else {
      Decided(f.ctx, f.utxos, f.balance, f.feePerKb, outputs, i);
      if IsLarge(f, outputs, i + 1) {
        assert IsCapAt(f, outputs, i);
      } else {
        CapBehind(f, outputs, i + 1);
      }
    }
  }

  lemma CapUnique(f: Funds, outputs: seq<Output>, end: nat, end': nat)
    requires IsCapAt(f, outputs, end) && IsCapAt(f, outputs, end')
    ensures end == end'
  {
    hide TooLarge, Suffices;
  }

  // The fee aimed at when selection stops; before any input it is not rounded.
  function FeeAt(f: Funds, outputs: seq<Output>, end: nat): nat
    requires end <= |f.utxos|
  {
    if Inputs(f, end) == [] then BaseFee(f, outputs, end) else Fee(f, outputs, end)
  }

  // What follows a request that hits the cap.
  ghost function Follow(f: Funds, outputs: seq<Output>): Option<seq<Output>>
    requires IsCapped(f, outputs) && outputs != []
  {
    CapFound(f, outputs);
    var end: nat :| IsCapAt(f, outputs, end);
    CapHits(f, outputs, end);
    Retried(f, outputs, Worth(f, end), FeeAt(f, outputs, end))
  }

  lemma FollowIs(f: Funds, outputs: seq<Output>, end: nat)
    requires IsCapAt(f, outputs, end) && outputs != []
    ensures IsCapped(f, outputs) && end < |f.utxos|
    ensures Follow(f, outputs) == Retried(f, outputs, Worth(f, end), FeeAt(f, outputs, end))
  {
    hide IsCapAt, Worth, FeeAt, Retried, IsCapped;
    CapHits(f, outputs, end);
    CapFound(f, outputs);
    forall end': nat | IsCapAt(f, outputs, end') ensures end' == end {
      CapUnique(f, outputs, end, end');
    }
  }

  // At most depth requests follow.
  ghost predicate Ends(f: Funds, outputs: seq<Output>, depth: nat)
    decreases depth
  {
    hide IsCapped, Follow;
    IsCapped(f, outputs) ==>
      && outputs != []
      && var next := Follow(f, outputs); next.Some? ==> depth > 0 && Ends(f, next.value, depth - 1)
  }

  // The last request, unless the balance is too small for one.
  ghost function Final(f: Funds, outputs: seq<Output>, depth: nat): Option<seq<Output>>
    requires Ends(f, outputs, depth)
    decreases depth
  {
    hide IsCapped, Follow;
    if !IsCapped(f, outputs) then Some(outputs)
    else
      var next := Follow(f, outputs);
      if next.None? then None else Final(f, next.value, depth - 1)
  }

  // The last output is reduced by what the inputs lack, or left out if too little would be left of it. Nothing is tried
  // if the balance is too small. The differences are 64-bit words.
  function Retried(f: Funds, outputs: seq<Output>, selected: nat, fee: nat): Option<seq<Output>>
    requires outputs != []
  {
    var n, amount := |outputs| - 1, OutputSum(outputs);
    if f.balance < amount + FeeForMore(f, |outputs|) then None
    else if outputs[n].amount > Sub64(amount + fee + MinAmount(f.feePerKb), selected) then
      Some(Reduced(outputs, amount + fee - selected))
    else Some(outputs[..n])
  }

  // Nothing is tried exactly when the balance does not cover the request and the fee for every unspent output, by
  // estimated sizes; otherwise the last output stays exactly when more than an economical rest is left of it.
  lemma RetriedIff(f: Funds, outputs: seq<Output>, selected: nat, fee: nat)
    requires outputs != [] && selected < OutputSum(outputs) + fee + MinAmount(f.feePerKb) < TWO_64
    ensures var n, next := |outputs| - 1, Retried(f, outputs, selected, fee);
      && (next == None <==>
            f.balance < OutputSum(outputs) + TxFee(f.feePerKb, 10 + 148 * |f.utxos| + 34 * (|outputs| + 1)))
      && (next.Some? ==>
            if outputs[n].amount + selected > OutputSum(outputs) + fee + MinAmount(f.feePerKb)
            then |next.value| == |outputs| && next.value[..n] == outputs[..n]
                 && next.value[n].amount == outputs[n].amount - (OutputSum(outputs) + fee - selected)
                 && next.value[n].script == outputs[n].script
            else next.value == outputs[..n])
  {
    hide *;
    var n, less := |outputs| - 1, OutputSum(outputs) + fee - selected;
    RetriedNone(f, outputs, selected, fee);
    MoreIs(f, |outputs|);
    RetriedCases(f, outputs, selected, fee);
    if outputs[n].amount > less + MinAmount(f.feePerKb) {
      LastWithin(outputs);
      ReducedLast(outputs, less);
    }
  }

  lemma MoreIs(f: Funds, count: nat)
    ensures FeeForMore(f, count) == TxFee(f.feePerKb, 10 + 148 * |f.utxos| + 34 * (count + 1))
  {
    hide TxFee;
  }

  lemma RetriedNone(f: Funds, outputs: seq<Output>, selected: nat, fee: nat)
    requires outputs != []
    ensures Retried(f, outputs, selected, fee) == None <==> f.balance < OutputSum(outputs) + FeeForMore(f, |outputs|)
  {
    hide OutputSum, FeeForMore, MinAmount, Reduced, Sub64;
  }

  lemma ReducedLast(outputs: seq<Output>, less: int)
    requires outputs != [] && 0 <= outputs[|outputs| - 1].amount - less < TWO_64
    ensures var n, o := |outputs| - 1, Reduced(outputs, less);
      && |o| == |outputs| && o[..n] == outputs[..n]
      && o[n].amount == outputs[n].amount - less && o[n].script == outputs[n].script
  {
  }

  // The fee for spending every unspent output, by estimated sizes.
  function FeeForMore(f: Funds, count: nat): nat {
    TxFee(f.feePerKb, 10 + |f.utxos| * TX_INPUT_SIZE + (count + 1) * TX_OUTPUT_SIZE)
  }

  function Reduced(outputs: seq<Output>, less: int): seq<Output>
    requires outputs != []
  {
    var n := |outputs| - 1;
    outputs[n := outputs[n].(amount := Sub64(outputs[n].amount, less))]
  }

  lemma ReducedSums(outputs: seq<Output>, less: int)
    requires outputs != [] && 0 <= outputs[|outputs| - 1].amount - less < TWO_64
    ensures var n, o := |outputs| - 1, Reduced(outputs, less);
      && |o| == |outputs| && o[..n] == outputs[..n] && o[n].amount == outputs[n].amount - less
      && OutputSum(o) == OutputSum(outputs) - less && OutputSizes(o) == OutputSizes(outputs)
  {
    var n := |outputs| - 1;
    UpdateSums(outputs, n, outputs[n].(amount := outputs[n].amount - less));
    hide OutputSum, OutputSizes;
  }

  // ---- when the retries end ----

  // The request with the fee for the inputs is worth what they are, but for less than the fee may be rounded up by.
  ghost predicate InStep(f: Funds, outputs: seq<Output>, end: nat)
    requires end <= |f.utxos|
  {
    Worth(f, end) - 99 <= OutputSum(outputs) + BaseFee(f, outputs, end) <= Worth(f, end)
  }

  // Then the inputs suffice exactly when what they leave of the balance is divisible by 100.
  lemma EnoughIff(f: Funds, outputs: seq<Output>, end: nat)
    requires 0 < end <= |f.utxos| && Known(f.ctx, f.utxos[end - 1]) && InStep(f, outputs, end)
    requires Worth(f, end) <= f.balance
    ensures IsEnough(f, outputs, end) <==> (f.balance - Worth(f, end)) % 100 == 0
    ensures Fee(f, outputs, end) < BaseFee(f, outputs, end) + 100
    ensures OutputSum(outputs) + Fee(f, outputs, end) == Worth(f, end) <==> IsEnough(f, outputs, end)
  {
    hide InputsFor, InputSum, OutputSum, TxFee, UnsignedSize, Known;
    var sum, base, selected := OutputSum(outputs), BaseFee(f, outputs, end), Worth(f, end);
    Rounding(f.balance, sum, base, selected);
    MinAmountAbove(f.feePerKb);
  }

  lemma Rounding(balance: nat, sum: nat, base: nat, selected: nat)
    requires selected - 99 <= sum + base <= selected <= balance
    ensures base <= RoundedFee(balance, sum, base) < base + 100
    ensures sum + RoundedFee(balance, sum, base) == selected <==> (balance - selected) % 100 == 0
  {
    var over := selected - sum - base;
    assert RoundedFee(balance, sum, base) == base + (balance - selected + over) % 100;
  }

  lemma MinAmountAbove(feePerKb: nat)
    ensures MinAmount(feePerKb) >= 546
  {
  }

  // The first input too many is the one behind the first end ones.
  ghost predicate AtCap(f: Funds, outputs: seq<Output>, end: nat) {
    && 0 < end < |f.utxos| && IsLarge(f, outputs, end + 1)
    && forall k :: 0 < k <= end ==> !IsLarge(f, outputs, k)
  }

  // Every input but the last is worth at least 100 more than it adds to the fee.
  ghost predicate Late(f: Funds, outputs: seq<Output>, end: nat)
    requires end <= |f.utxos|
  {
    forall j :: 0 < j < end ==> Worth(f, j) + BaseFee(f, outputs, end) + 100 <= Worth(f, end) + BaseFee(f, outputs, j)
  }

  // The balance covers the inputs and the fee for everything, and what the inputs leave for the last output is not too
  // little.
  ghost predicate Ample(f: Funds, outputs: seq<Output>, end: nat)
    requires end <= |f.utxos| && outputs != []
  {
    && Worth(f, end) <= f.balance <= MAX_MONEY && f.feePerKb <= MAX_FEE_PER_KB
    && Worth(f, end) + FeeForMore(f, |outputs|) <= f.balance + BaseFee(f, outputs, end)
    && OutputSum(outputs[..|outputs| - 1]) + BaseFee(f, outputs, end) + MinAmount(f.feePerKb) + 299 <= Worth(f, end)
  }

  // None of this depends on the amount of the last output.
  ghost predicate IsReady(f: Funds, outputs: seq<Output>, end: nat) {
    outputs != [] && AllKnown(f.ctx, f.utxos) && AtCap(f, outputs, end) && Late(f, outputs, end) && Ample(f, outputs, end)
  }

  lemma SameReady(f: Funds, outputs: seq<Output>, outputs': seq<Output>, end: nat)
    requires IsReady(f, outputs, end) && |outputs'| == |outputs| && OutputSizes(outputs') == OutputSizes(outputs)
    requires outputs'[..|outputs| - 1] == outputs[..|outputs| - 1]
    ensures IsReady(f, outputs', end) && BaseFee(f, outputs', end) == BaseFee(f, outputs, end)
  {
    hide InputsFor, InputSum, OutputSum, OutputSizes, TxFee, VarIntSize, Known, AllKnown, MinAmount, FeeForMore;
    forall k: nat ensures IsLarge(f, outputs', k) <==> IsLarge(f, outputs, k) {
    }
    forall k: nat | k <= |f.utxos| ensures BaseFee(f, outputs', k) == BaseFee(f, outputs, k) {
    }
  }

  // A retry hits the cap again exactly when the inputs do not suffice.
  lemma CappedIff(f: Funds, outputs: seq<Output>, end: nat)
    requires IsReady(f, outputs, end) && InStep(f, outputs, end)
    ensures IsCapped(f, outputs) <==> (f.balance - Worth(f, end)) % 100 != 0
    ensures IsCapped(f, outputs) ==> IsCapAt(f, outputs, end)
  {
    hide *;
    EnoughAt(f, outputs, end);
    if IsEnough(f, outputs, end) {
      NotCapped(f, outputs, end);
    } else {
      CapsAt(f, outputs, end);
      CapHits(f, outputs, end);
    }
  }

  lemma CapsAt(f: Funds, outputs: seq<Output>, end: nat)
    requires IsLarge(f, outputs, end + 1) && forall k: nat :: IsLarge(f, outputs, k) ==> k > end
    requires forall j: nat :: 0 < j <= end ==> !IsEnough(f, outputs, j)
    ensures IsCapAt(f, outputs, end)
  {
    hide TooLarge, Suffices;
    assert forall k: nat :: TooLarge(f.ctx, f.utxos, outputs, k) ==> IsLarge(f, outputs, k);
    assert forall k: nat :: Suffices(f.ctx, f.utxos, f.balance, f.feePerKb, outputs, k) ==> IsEnough(f, outputs, k);
  }

  lemma NotCapped(f: Funds, outputs: seq<Output>, end: nat)
    requires 0 < end && IsEnough(f, outputs, end) && forall k: nat :: IsLarge(f, outputs, k) ==> k > end
    ensures !IsCapped(f, outputs)
  {
    hide TooLarge, Suffices;
    assert forall k: nat :: TooLarge(f.ctx, f.utxos, outputs, k) ==> IsLarge(f, outputs, k);
  }

  lemma EnoughAt(f: Funds, outputs: seq<Output>, end: nat)
    requires IsReady(f, outputs, end) && InStep(f, outputs, end)
    ensures 0 < end < |f.utxos| && Worth(f, end) <= f.balance && Known(f.ctx, f.utxos[end - 1])
    ensures IsEnough(f, outputs, end) <==> (f.balance - Worth(f, end)) % 100 == 0
    ensures forall j: nat :: 0 < j < end ==> !IsEnough(f, outputs, j)
    ensures IsLarge(f, outputs, end + 1) && forall k: nat :: IsLarge(f, outputs, k) ==> k > end
  {
    hide InputsFor, InputSum, OutputSum, TxFee, UnsignedSize, Known, MinAmount, FeeForMore;
    EnoughIff(f, outputs, end);
    forall j: nat | 0 < j < end ensures !IsEnough(f, outputs, j) {
      NotEnough(f, outputs, end, j);
    }
  }

  lemma NotEnough(f: Funds, outputs: seq<Output>, end: nat, j: nat)
    requires end <= |f.utxos| && Late(f, outputs, end) && InStep(f, outputs, end) && 0 < j < end
    ensures !IsEnough(f, outputs, j)
  {
    hide InputsFor, InputSum, OutputSum, TxFee, UnsignedSize, Known, MinAmount;
    assert Worth(f, j) + BaseFee(f, outputs, end) + 100 <= Worth(f, end) + BaseFee(f, outputs, j);
    RoundedFeeMeaning(f.balance, OutputSum(outputs), BaseFee(f, outputs, j));
  }

  // The request that follows.
  function Next(f: Funds, outputs: seq<Output>, end: nat): (o: seq<Output>)
    requires outputs != [] && end <= |f.utxos|
    ensures o != []
  {
    Reduced(outputs, OutputSum(outputs) + Fee(f, outputs, end) - Worth(f, end))
  }

  // Reducing the last output brings the request in step, and keeps it so.
  lemma RetriedNext(f: Funds, outputs: seq<Output>, end: nat)
    requires IsReady(f, outputs, end) && OutputSum(outputs) <= MAX_MONEY
    requires f.balance >= OutputSum(outputs) + FeeForMore(f, |outputs|)
    requires Worth(f, end) < OutputSum(outputs) + Fee(f, outputs, end) + MinAmount(f.feePerKb)
    requires outputs[|outputs| - 1].amount
      > OutputSum(outputs) + Fee(f, outputs, end) + MinAmount(f.feePerKb) - Worth(f, end)
    ensures Retried(f, outputs, Worth(f, end), Fee(f, outputs, end)) == Some(Next(f, outputs, end))
    ensures OutputSum(Next(f, outputs, end)) + Fee(f, outputs, end) == Worth(f, end)
    ensures IsReady(f, Next(f, outputs, end), end) && InStep(f, Next(f, outputs, end), end)
  {
    hide *;
    ReadyEnd(f, outputs, end);
    ReadyRate(f, outputs, end);
    var n, fee := |outputs| - 1, Fee(f, outputs, end);
    var less := OutputSum(outputs) + fee - Worth(f, end);
    MinAmountAbove(f.feePerKb);
    OutputSumNext(outputs, n);
    assert outputs[..n + 1] == outputs;
    Bounds();
    ReducedSums(outputs, less);
    SameReady(f, outputs, Reduced(outputs, less), end);
    FeeIs(f, outputs, end);
    NextIs(f, outputs, end);
    RetriedIs(f, outputs, Worth(f, end), fee);
    StepIs(f, Next(f, outputs, end), end);
  }

  lemma ReadyRate(f: Funds, outputs: seq<Output>, end: nat)
    requires IsReady(f, outputs, end)
    ensures MinAmount(f.feePerKb) <= MAX_MONEY
  {
    MinAmountFits(f.feePerKb);
    hide AtCap, Late, AllKnown, MinAmount;
  }

  lemma Bounds()
    ensures 3 * MAX_MONEY < 0x1_0000_0000_0000_0000 == TWO_64
  {
  }

  lemma FeeIs(f: Funds, outputs: seq<Output>, end: nat)
    requires end <= |f.utxos|
    ensures BaseFee(f, outputs, end) <= Fee(f, outputs, end) < BaseFee(f, outputs, end) + 100
  {
    RoundedFeeMeaning(f.balance, OutputSum(outputs), BaseFee(f, outputs, end));
    hide BaseFee, OutputSum;
  }

  lemma NextIs(f: Funds, outputs: seq<Output>, end: nat)
    requires outputs != [] && end <= |f.utxos|
    ensures Next(f, outputs, end) == Reduced(outputs, OutputSum(outputs) + Fee(f, outputs, end) - Worth(f, end))
  {
  }

  lemma StepIs(f: Funds, outputs: seq<Output>, end: nat)
    requires end <= |f.utxos|
    ensures InStep(f, outputs, end) <==>
      Worth(f, end) - 99 <= OutputSum(outputs) + BaseFee(f, outputs, end) <= Worth(f, end)
  {
  }

  lemma RetriedIs(f: Funds, outputs: seq<Output>, selected: nat, fee: nat)
    requires outputs != [] && f.balance >= OutputSum(outputs) + FeeForMore(f, |outputs|)
    requires selected < OutputSum(outputs) + fee + MinAmount(f.feePerKb) < selected + outputs[|outputs| - 1].amount
    ensures Retried(f, outputs, selected, fee) == Some(Reduced(outputs, OutputSum(outputs) + fee - selected))
  {
    hide OutputSum, FeeForMore, MinAmount, Reduced;
  }

  lemma InStepNext(f: Funds, outputs: seq<Output>, end: nat)
    requires IsReady(f, outputs, end) && InStep(f, outputs, end)
    ensures Retried(f, outputs, Worth(f, end), Fee(f, outputs, end)) == Some(Next(f, outputs, end))
    ensures IsReady(f, Next(f, outputs, end), end) && InStep(f, Next(f, outputs, end), end)
  {
    hide *;
    ReadyEnd(f, outputs, end);
    ReadyFunds(f, outputs, end);
    var n := |outputs| - 1;
    OutputSumNext(outputs, n);
    assert outputs[..n + 1] == outputs;
    FeeIs(f, outputs, end);
    StepIs(f, outputs, end);
    MinAmountAbove(f.feePerKb);
    RetriedNext(f, outputs, end);
  }

  lemma ReadyFunds(f: Funds, outputs: seq<Output>, end: nat)
    requires IsReady(f, outputs, end)
    ensures outputs != [] && end <= |f.utxos|
    ensures Worth(f, end) <= f.balance <= MAX_MONEY
    ensures Worth(f, end) + FeeForMore(f, |outputs|) <= f.balance + BaseFee(f, outputs, end)
    ensures OutputSum(outputs[..|outputs| - 1]) + BaseFee(f, outputs, end) + MinAmount(f.feePerKb) + 299 <= Worth(f, end)
  {
    ReadyEnd(f, outputs, end);
    hide AtCap, Late, AllKnown, Worth, BaseFee, FeeForMore, MinAmount, OutputSum;
  }

  lemma ReadyEnd(f: Funds, outputs: seq<Output>, end: nat)
    requires IsReady(f, outputs, end)
    ensures outputs != [] && end < |f.utxos|
  {
    hide Late, Ample, AllKnown;
  }

  // The inputs are all of the first end unspent outputs.
  lemma ReadyInputs(f: Funds, outputs: seq<Output>, end: nat)
    requires IsReady(f, outputs, end)
    ensures outputs != [] && end < |f.utxos| && FeeAt(f, outputs, end) == Fee(f, outputs, end)
  {
    hide AtCap, Late, Ample, Fee, BaseFee;
    ReadyEnd(f, outputs, end);
    ReadyStart(f, outputs, end);
    InputsForNext(f.ctx, f.utxos, end - 1);
  }

  lemma ReadyStart(f: Funds, outputs: seq<Output>, end: nat)
    requires IsReady(f, outputs, end)
    ensures end > 0
  {
    hide Late, Ample, AllKnown;
  }

  // A retry that hits the cap is followed by one that does.
  lemma {:induction false} NeverEnds(f: Funds, outputs: seq<Output>, end: nat, depth: nat)
    requires IsReady(f, outputs, end) && InStep(f, outputs, end)
    requires (f.balance - Worth(f, end)) % 100 != 0
    ensures !Ends(f, outputs, depth)
    decreases depth
  {
    hide *;
    ReadyInputs(f, outputs, end);
    CappedIff(f, outputs, end);
    FollowIs(f, outputs, end);
    InStepNext(f, outputs, end);
    if depth > 0 { NeverEnds(f, Next(f, outputs, end), end, depth - 1); }
    EndsIs(f, outputs, depth);
  }

  lemma EndsIs(f: Funds, outputs: seq<Output>, depth: nat)
    requires IsCapped(f, outputs) && outputs != []
    ensures Ends(f, outputs, depth) <==>
      var next := Follow(f, outputs); next.Some? ==> depth > 0 && Ends(f, next.value, depth - 1)
  {
    hide IsCapped, Follow;
  }

  lemma EndsAtOnce(f: Funds, outputs: seq<Output>, depth: nat)
    requires !IsCapped(f, outputs)
    ensures Ends(f, outputs, depth)
  {
    hide IsCapped;
  }

  // A request that is tried again with a smaller last output comes to an end exactly when the inputs leave a multiple of
  // 100 of the balance; otherwise every retry is too large again and followed by the next.
  lemma EndsIff(f: Funds, outputs: seq<Output>, end: nat)
    requires IsReady(f, outputs, end) && IsCapAt(f, outputs, end) && end < |f.utxos| && OutputSum(outputs) <= MAX_MONEY
    requires f.balance >= OutputSum(outputs) + FeeForMore(f, |outputs|)
    requires outputs[|outputs| - 1].amount
      > OutputSum(outputs) + Fee(f, outputs, end) + MinAmount(f.feePerKb) - Worth(f, end)
    ensures (exists depth: nat :: Ends(f, outputs, depth)) <==> (f.balance - Worth(f, end)) % 100 == 0
  {
    hide *;
    ReadyInputs(f, outputs, end);
    CapAtShort(f, outputs, end);
    FollowIs(f, outputs, end);
    RetriedNext(f, outputs, end);
    var next := Next(f, outputs, end);
    CappedIff(f, next, end);
    if (f.balance - Worth(f, end)) % 100 == 0 {
      EndsAtOnce(f, next, 0);
      EndsIs(f, outputs, 1);
      assert Ends(f, outputs, 1);
    } else {
      forall depth: nat ensures !Ends(f, outputs, depth) {
        EndsIs(f, outputs, depth);
        if depth > 0 { NeverEnds(f, next, end, depth - 1); }
      }
    }
  }

  // ---- what the last request is ----

  // When selection stops, the inputs are worth less than the request, the fee and an economical rest.
  lemma {:induction false} CapShort(f: Funds, outputs: seq<Output>, end: nat)
    requires end <= |f.utxos| && Undecided(f.ctx, f.utxos, f.balance, f.feePerKb, outputs, end)
    ensures Worth(f, end) < OutputSum(outputs) + FeeAt(f, outputs, end) + MinAmount(f.feePerKb)
  {
    hide *;
    if end == 0 {
      NoInputs(f);
      MinAmountAbove(f.feePerKb);
    } else if Known(f.ctx, f.utxos[end - 1]) {
      NotSufficing(f, outputs, end);
    } else {
      FewerUndecided(f, outputs, end);
      CapShort(f, outputs, end - 1);
      SkipsOne(f, outputs, end);
    }
  }

  lemma NotSufficing(f: Funds, outputs: seq<Output>, end: nat)
    requires 0 < end <= |f.utxos| && Known(f.ctx, f.utxos[end - 1])
    requires Undecided(f.ctx, f.utxos, f.balance, f.feePerKb, outputs, end)
    ensures Worth(f, end) < OutputSum(outputs) + FeeAt(f, outputs, end) + MinAmount(f.feePerKb)
  {
    hide InputSum, OutputSum, TxFee, UnsignedSize, MinAmount, Known, InputsFor;
    HasInput(f, end);
    assert !Suffices(f.ctx, f.utxos, f.balance, f.feePerKb, outputs, end);
  }

  lemma HasInput(f: Funds, end: nat)
    requires 0 < end <= |f.utxos| && Known(f.ctx, f.utxos[end - 1])
    ensures Inputs(f, end) != []
  {
    hide *;
    InputsForNext(f.ctx, f.utxos, end - 1);
    InputsIs(f, end);
  }

  lemma InputsIs(f: Funds, k: nat)
    requires k <= |f.utxos|
    ensures Inputs(f, k) == InputsFor(f.ctx, f.utxos[..k])
  {
  }

  lemma FewerUndecided(f: Funds, outputs: seq<Output>, end: nat)
    requires end > 0 && Undecided(f.ctx, f.utxos, f.balance, f.feePerKb, outputs, end)
    ensures Undecided(f.ctx, f.utxos, f.balance, f.feePerKb, outputs, end - 1)
  {
    hide TooLarge, Suffices;
  }

  lemma SkipsOne(f: Funds, outputs: seq<Output>, end: nat)
    requires 0 < end <= |f.utxos| && !Known(f.ctx, f.utxos[end - 1])
    ensures Worth(f, end) == Worth(f, end - 1) && FeeAt(f, outputs, end) == FeeAt(f, outputs, end - 1)
  {
    hide *;
    InputsForNext(f.ctx, f.utxos, end - 1);
    InputsIs(f, end);
    InputsIs(f, end - 1);
    SameInputs(f, outputs, end, end - 1);
  }

  lemma SameInputs(f: Funds, outputs: seq<Output>, k: nat, k': nat)
    requires k <= |f.utxos| && k' <= |f.utxos| && Inputs(f, k) == Inputs(f, k')
    ensures Worth(f, k) == Worth(f, k') && FeeAt(f, outputs, k) == FeeAt(f, outputs, k')
  {
    hide Inputs, InputSum, OutputSum, TxFee, UnsignedSize, RoundedFee;
  }

  lemma CapAtShort(f: Funds, outputs: seq<Output>, end: nat)
    requires IsCapAt(f, outputs, end)
    ensures end < |f.utxos| && Worth(f, end) < OutputSum(outputs) + FeeAt(f, outputs, end) + MinAmount(f.feePerKb)
  {
    CapHits(f, outputs, end);
    CapShort(f, outputs, end);
    hide Worth, FeeAt, MinAmount, OutputSum, TooLarge, Undecided;
  }

  // The first outputs of the request, with the amount of the last one changed.
  ghost predicate Shortened(outputs: seq<Output>, o: seq<Output>) {
    && |o| <= |outputs|
    && (o != [] ==> var n := |o| - 1; o[..n] == outputs[..n] && o[n] == outputs[n].(amount := o[n].amount))
  }

  lemma ShortenedTwice(a: seq<Output>, b: seq<Output>, c: seq<Output>)
    requires Shortened(a, b) && Shortened(b, c)
    ensures Shortened(a, c)
  {
    if c != [] {
      var n := |c| - 1;
      assert b[..|b| - 1] == a[..|b| - 1];
      if |c| < |b| {
        assert b[..n] == b[..|b| - 1][..n] == a[..n];
        assert b[n] == b[..|b| - 1][n] == a[n];
      }
    }
  }

  // Funds and a request in the range of the currency.
  ghost predicate InRange(f: Funds, outputs: seq<Output>) {
    && f.balance == Total(f.ctx, f.utxos) <= MAX_MONEY && OutputSum(outputs) <= MAX_MONEY
    && OutputSizes(outputs) <= UINT32_MAX && f.feePerKb <= MAX_FEE_PER_KB && |f.utxos| <= UINT32_MAX
  }

  // The next request is in range again, and leaves out the last output or is worth the inputs less the fee.
  lemma FollowKeeps(f: Funds, outputs: seq<Output>, end: nat)
    requires InRange(f, outputs) && IsCapAt(f, outputs, end) && outputs != [] && IsCapped(f, outputs)
    ensures end < |f.utxos|
    ensures var next, n := Follow(f, outputs), |outputs| - 1;
      next.Some? ==>
        && InRange(f, next.value) && Shortened(outputs, next.value)
        && (next.value == outputs[..n]
            || (|next.value| == |outputs| && OutputSum(next.value) + FeeAt(f, outputs, end) == Worth(f, end)))
  {
    hide *;
    CapAtShort(f, outputs, end);
    FollowIs(f, outputs, end);
    if Follow(f, outputs).Some? {
      RetriedKeeps(f, outputs, end);
    }
  }

  lemma RetriedKeeps(f: Funds, outputs: seq<Output>, end: nat)
    requires InRange(f, outputs) && outputs != [] && end < |f.utxos|
    requires Worth(f, end) < OutputSum(outputs) + FeeAt(f, outputs, end) + MinAmount(f.feePerKb)
    ensures var next, n := Retried(f, outputs, Worth(f, end), FeeAt(f, outputs, end)), |outputs| - 1;
      next.Some? ==>
        && InRange(f, next.value) && Shortened(outputs, next.value)
        && (next.value == outputs[..n]
            || (|next.value| == |outputs| && OutputSum(next.value) + FeeAt(f, outputs, end) == Worth(f, end)))
  {
    hide *;
    var next, n := Retried(f, outputs, Worth(f, end), FeeAt(f, outputs, end)), |outputs| - 1;
    RangeIs(f, outputs);
    SelectedFits(f, outputs, end);
    RetriedCases(f, outputs, Worth(f, end), FeeAt(f, outputs, end));
    FrontKeeps(f, outputs);
    if next.Some? && next.value != outputs[..n] {
      var less := OutputSum(outputs) + FeeAt(f, outputs, end) - Worth(f, end);
      LastWithin(outputs);
      ReducedSums(outputs, less);
      ShortenedReduced(outputs, less);
      RangeIs(f, next.value);
    }
  }

  lemma FrontKeeps(f: Funds, outputs: seq<Output>)
    requires InRange(f, outputs) && outputs != []
    ensures InRange(f, outputs[..|outputs| - 1]) && Shortened(outputs, outputs[..|outputs| - 1])
  {
    hide *;
    RangeIs(f, outputs);
    RangeIs(f, outputs[..|outputs| - 1]);
    LastWithin(outputs);
    SizesNext(outputs);
    ShortenedFront(outputs);
  }

  lemma LastWithin(outputs: seq<Output>)
    requires outputs != []
    ensures var n := |outputs| - 1; OutputSum(outputs[..n]) + outputs[n].amount == OutputSum(outputs)
  {
  }

  // The last output grows exactly when the inputs are worth more than the request and the fee.
  lemma RaisedIff(f: Funds, outputs: seq<Output>, end: nat)
    requires InRange(f, outputs) && IsCapAt(f, outputs, end) && outputs != [] && IsCapped(f, outputs)
    ensures end < |f.utxos|
    ensures var next, n := Follow(f, outputs), |outputs| - 1;
      next.Some? && |next.value| == |outputs| ==>
        (next.value[n].amount > outputs[n].amount <==> Worth(f, end) > OutputSum(outputs) + FeeAt(f, outputs, end))
  {
    hide *;
    FollowKeeps(f, outputs, end);
    var next, n := Follow(f, outputs), |outputs| - 1;
    if next.Some? && |next.value| == |outputs| {
      SameFront(outputs, next.value);
      OutputSumNext(outputs, n);
      OutputSumNext(next.value, n);
      assert outputs[..n + 1] == outputs && next.value[..n + 1] == next.value;
    }
  }

  lemma SameFront(outputs: seq<Output>, o: seq<Output>)
    requires Shortened(outputs, o) && |o| == |outputs| && o != []
    ensures o[..|o| - 1] == outputs[..|o| - 1]
  {
  }

  lemma RangeIs(f: Funds, outputs: seq<Output>)
    ensures InRange(f, outputs) <==>
      && f.balance == Total(f.ctx, f.utxos) <= MAX_MONEY && OutputSum(outputs) <= MAX_MONEY
      && OutputSizes(outputs) <= UINT32_MAX && f.feePerKb <= MAX_FEE_PER_KB && |f.utxos| <= UINT32_MAX
  {
    hide Total, OutputSum, OutputSizes;
  }

  lemma SizesNext(outputs: seq<Output>)
    requires outputs != []
    ensures OutputSizes(outputs[..|outputs| - 1]) <= OutputSizes(outputs)
  {
  }

  lemma ShortenedFront(outputs: seq<Output>)
    requires outputs != []
    ensures Shortened(outputs, outputs[..|outputs| - 1])
  {
  }

  lemma ShortenedReduced(outputs: seq<Output>, less: int)
    requires outputs != []
    ensures |Reduced(outputs, less)| == |outputs| && Shortened(outputs, Reduced(outputs, less))
  {
  }

  // The inputs are worth no more than the balance, and the fee is in range.
  lemma SelectedFits(f: Funds, outputs: seq<Output>, end: nat)
    requires InRange(f, outputs) && end <= |f.utxos|
    ensures Worth(f, end) <= f.balance && FeeAt(f, outputs, end) <= FEE_LIMIT + 100
    ensures MinAmount(f.feePerKb) <= MAX_MONEY && 3 * MAX_MONEY + FEE_LIMIT + 100 < TWO_64
  {
    hide InputsFor, InputSum, OutputSum, OutputSizes, Total, TxFee;
    InputsForMeaning(f.ctx, f.utxos[..end]);
    InputsForGrow(f.ctx, f.utxos, end);
    MinAmountFits(f.feePerKb);
    TxFeeFits(f.feePerKb, UnsignedSize(|Inputs(f, end)|, outputs) + TX_OUTPUT_SIZE);
    RoundedFeeMeaning(f.balance, OutputSum(outputs), BaseFee(f, outputs, end));
  }

  lemma RetriedCases(f: Funds, outputs: seq<Output>, selected: nat, fee: nat)
    requires outputs != [] && selected < OutputSum(outputs) + fee + MinAmount(f.feePerKb) < TWO_64
    ensures var n, less, next := |outputs| - 1, OutputSum(outputs) + fee - selected, Retried(f, outputs, selected, fee);
      next.Some? ==>
        if outputs[n].amount > less + MinAmount(f.feePerKb) then next.value == Reduced(outputs, less)
        else next.value == outputs[..n]
  {
    hide OutputSum, FeeForMore, MinAmount, Reduced;
  }

  // The last request does not hit the cap. It asks for the first of the outputs, of the last of them for another amount.
  lemma {:induction false} FinalIs(f: Funds, outputs: seq<Output>, depth: nat)
    requires InRange(f, outputs) && Ends(f, outputs, depth)
    ensures var o := Final(f, outputs, depth);
      o.Some? ==> InRange(f, o.value) && !IsCapped(f, o.value) && Shortened(outputs, o.value)
    decreases depth
  {
    hide *;
    FinalStep(f, outputs, depth);
    if IsCapped(f, outputs) {
      CapFound(f, outputs);
      var end: nat :| IsCapAt(f, outputs, end);
      FollowKeeps(f, outputs, end);
      var next := Follow(f, outputs);
      if next.Some? {
        FinalIs(f, next.value, depth - 1);
        if Final(f, outputs, depth).Some? { ShortenedTwice(outputs, next.value, Final(f, outputs, depth).value); }
      }
    } else {
      ShortenedSame(outputs);
    }
  }

  lemma ShortenedSame(outputs: seq<Output>)
    ensures Shortened(outputs, outputs)
  {
  }

  lemma FinalStep(f: Funds, outputs: seq<Output>, depth: nat)
    requires Ends(f, outputs, depth)
    ensures !IsCapped(f, outputs) ==> Final(f, outputs, depth) == Some(outputs)
    ensures IsCapped(f, outputs) ==>
      && outputs != []
      && (Follow(f, outputs).None? ==> Final(f, outputs, depth) == None)
      && (Follow(f, outputs).Some? ==>
            && depth > 0 && Ends(f, Follow(f, outputs).value, depth - 1)
            && Final(f, outputs, depth) == Final(f, Follow(f, outputs).value, depth - 1))
  {
    hide IsCapped, Follow;
  }

  // The last request does not depend on the number of requests allowed for.
  lemma {:induction false} FinalSame(f: Funds, outputs: seq<Output>, depth: nat, depth': nat)
    requires Ends(f, outputs, depth) && depth <= depth'
    ensures Ends(f, outputs, depth') && Final(f, outputs, depth') == Final(f, outputs, depth)
    decreases depth
  {
    hide *;
    FinalStep(f, outputs, depth);
    if IsCapped(f, outputs) {
      if Follow(f, outputs).Some? { FinalSame(f, Follow(f, outputs).value, depth - 1, depth' - 1); }
      EndsIs(f, outputs, depth');
    } else {
      EndsAtOnce(f, outputs, depth');
    }
    FinalStep(f, outputs, depth');
  }

  // ---- examples ----

  // A wallet with 700 unspent outputs of the same value, at the default fee rate.
  function Many(value: UInt64): Funds {
    var output := Output("a", value, []);
    var tx := Tx(1, 1, [], seq(700, i => output), 0, 100, 0);
    Funds(Context(map[1 := tx], {"a"}, 100, 0), seq(700, i requires 0 <= i < 700 => OutPoint(1, i)), 700 * value, 50000)
  }

  lemma ManyIs(value: UInt64)
    ensures var f := Many(value);
      && |f.utxos| == 700 && f.balance == 700 * value && f.feePerKb == 50000
      && forall i :: 0 <= i < 700 ==> Known(f.ctx, f.utxos[i]) && Amount(f.ctx, f.utxos[i]) == value
  {
  }

  lemma {:induction false} ManyInputs(value: UInt64, k: nat)
    requires k <= 700
    ensures var f := Many(value);
      |f.utxos| == 700 && |Inputs(f, k)| == k && Worth(f, k) == k * value && AllKnown(f.ctx, f.utxos)
  {
    var f := Many(value);
    ManyIs(value);
    hide Many, InputsFor, InputSum, Known, Amount, Total, InputSizes;
    if k > 0 {
      InputsForNext(f.ctx, f.utxos, k - 1);
      ManyInputs(value, k - 1);
    } else {
      NoInputs(f);
    }
  }

  lemma NoInputs(f: Funds)
    ensures Inputs(f, 0) == [] && Worth(f, 0) == 0
  {
    assert f.utxos[..0] == [];
  }

  lemma SizeOfOne(k: nat, o: Output)
    requires |o.script| == 25 && k <= 700
    ensures UnsignedSize(k, [o]) == 43 + VarIntSize(k) + 148 * k
    ensures 78 + 148 * k <= UnsignedSize(k, [o]) + TX_OUTPUT_SIZE <= 80 + 148 * k
    ensures k >= 253 ==> UnsignedSize(k, [o]) + TX_OUTPUT_SIZE == 80 + 148 * k
    ensures OutputSum([o]) == o.amount && OutputSum([o][..0]) == 0
  {
    assert [o][..0] == [] && OutputSizes([]) == 0;
  }

  // The fee at the default rate.
  lemma DefaultFee(size: nat)
    requires 20 <= size
    ensures 50 * size <= TxFee(50000, size) < 50 * size + 100
  {
  }

  lemma ManyFee(value: UInt64, o: Output, k: nat)
    requires |o.script| == 25 && k <= 700
    ensures |Many(value).utxos| == 700
    ensures 3900 + 7400 * k <= BaseFee(Many(value), [o], k) < 4100 + 7400 * k
    ensures k >= 253 ==> BaseFee(Many(value), [o], k) == 4000 + 7400 * k
    ensures IsLarge(Many(value), [o], k) <==> k > 675
    ensures FeeForMore(Many(value), 1) == 5183900
  {
    var f := Many(value);
    ManyIs(value);
    ManyInputs(value, k);
    SizeOfOne(k, o);
    DefaultFee(UnsignedSize(k, [o]) + TX_OUTPUT_SIZE);
    hide Many, InputsFor, InputSum, Known, Amount, UnsignedSize, OutputSizes;
  }

  lemma ManyReady(value: UInt64, o: Output)
    requires |o.script| == 25 && 100000 <= value <= 100001
    ensures IsReady(Many(value), [o], 675)
  {
    hide *;
    var f := Many(value);
    ManyIs(value);
    ManyInputs(value, 675);
    ManyFee(value, o, 675);
    ManyLate(value, o);
    MinAmountOfDefault();
    NoOutputs(o);
    RateIs();
    forall k: nat ensures IsLarge(f, [o], k) ==> k > 675 {
      if k <= 675 { ManyFee(value, o, k); }
    }
    ManyFee(value, o, 676);
    ReadyFrom(f, [o], 675);
  }

  lemma RateIs()
    ensures 50000 <= MAX_FEE_PER_KB && 700 * 100001 <= MAX_MONEY
  {
  }

  lemma ReadyFrom(f: Funds, outputs: seq<Output>, end: nat)
    requires outputs != [] && 0 < end < |f.utxos| && AllKnown(f.ctx, f.utxos) && Late(f, outputs, end)
    requires IsLarge(f, outputs, end + 1) && forall k: nat :: IsLarge(f, outputs, k) ==> k > end
    requires Worth(f, end) <= f.balance <= MAX_MONEY && f.feePerKb <= MAX_FEE_PER_KB
    requires Worth(f, end) + FeeForMore(f, |outputs|) <= f.balance + BaseFee(f, outputs, end)
    requires OutputSum(outputs[..|outputs| - 1]) + BaseFee(f, outputs, end) + MinAmount(f.feePerKb) + 299 <= Worth(f, end)
    ensures IsReady(f, outputs, end)
  {
    hide AllKnown, Late, IsLarge, Worth, FeeForMore, BaseFee, MinAmount, OutputSum;
  }

  lemma ManyLate(value: UInt64, o: Output)
    requires |o.script| == 25 && 100000 <= value <= 100001
    ensures |Many(value).utxos| == 700 && Late(Many(value), [o], 675)
  {
    var f := Many(value);
    ManyIs(value);
    ManyInputs(value, 675);
    ManyFee(value, o, 675);
    hide Many, Inputs, Worth, BaseFee, IsLarge, FeeForMore, Known, Amount;
    forall j: nat | 0 < j < 675
      ensures Worth(f, j) + BaseFee(f, [o], 675) + 100 <= Worth(f, 675) + BaseFee(f, [o], j)
    {
      ManyFee(value, o, j);
      ManyInputs(value, j);
    }
  }

  lemma NoOutputs(o: Output)
    ensures [o][..0] == [] && OutputSum([]) == 0 && OutputSum([o]) == o.amount
  {
  }

  lemma MinAmountOfDefault()
    ensures MinAmount(50000) == 5214
  {
    assert MIN_FEE_PER_KB == 5236 && TX_MIN_OUTPUT_AMOUNT == 546;
    assert 546 * 50000 + 5236 - 1 == 5236 * 5214 + 4731;
  }

  lemma EnoughNeeds(f: Funds, outputs: seq<Output>, k: nat)
    requires k <= |f.utxos| && IsEnough(f, outputs, k)
    ensures Worth(f, k) == OutputSum(outputs) + Fee(f, outputs, k)
      || Worth(f, k) >= OutputSum(outputs) + Fee(f, outputs, k) + MinAmount(f.feePerKb)
  {
    hide InputsFor, InputSum, OutputSum, TxFee, UnsignedSize, MinAmount, Known;
  }

  lemma FeeFrom(f: Funds, outputs: seq<Output>, k: nat)
    requires k <= |f.utxos|
    ensures Fee(f, outputs, k) == RoundedFee(f.balance, OutputSum(outputs), BaseFee(f, outputs, k))
  {
  }

  // Selection stops behind 675 inputs, unless that many suffice.
  lemma ManyCapAt(value: UInt64, o: Output)
    requires |o.script| == 25 && 100000 <= value <= 100001 && o.amount >= 62496000
    requires !IsEnough(Many(value), [o], 675)
    ensures IsCapAt(Many(value), [o], 675)
  {
    hide *;
    var f := Many(value);
    ManyIs(value);
    NoOutputs(o);
    forall k: nat | IsLarge(f, [o], k) ensures k > 675 {
      if k <= 700 { ManyFee(value, o, k); }
    }
    ManyFee(value, o, 676);
    forall k: nat | 0 < k <= 675 ensures !IsEnough(f, [o], k) {
      if k < 675 && IsEnough(f, [o], k) {
        ManyInputs(value, k);
        ManyFee(value, o, k);
        FeeIs(f, [o], k);
        EnoughNeeds(f, [o], k);
      }
    }
    CapsAt(f, [o], 675);
  }

  // Asking for 64000000 of 70000700 satoshi never comes to an end.
  lemma EndlessExample(o: Output)
    requires |o.script| == 25 && o.amount == 64000000
    ensures forall depth: nat :: !Ends(Many(100001), [o], depth)
  {
    hide *;
    var f := Many(100001);
    ManyIs(100001);
    ManyInputs(100001, 675);
    ManyFee(100001, o, 675);
    NoOutputs(o);
    MinAmountOfDefault();
    FeeIs(f, [o], 675);
    MoneyIs();
    if IsEnough(f, [o], 675) { EnoughNeeds(f, [o], 675); }
    ManyCapAt(100001, o);
    ManyReady(100001, o);
    EndsIff(f, [o], 675);
  }

  lemma MoneyIs()
    ensures MAX_MONEY == 2100000000000000
  {
  }

  // Asking for 62496000 of 70000000 satoshi ends with a request for 5000 more.
  lemma RaisedExample(o: Output)
    requires |o.script| == 25 && o.amount == 62496000
    ensures Ends(Many(100000), [o], 1)
    ensures var last := Final(Many(100000), [o], 1);
      last.Some? && |last.value| == 1 && last.value[0].script == o.script && last.value[0].amount == 62501000
  {
    hide *;
    var f := Many(100000);
    ManyIs(100000);
    ManyInputs(100000, 675);
    ManyFee(100000, o, 675);
    NoOutputs(o);
    MinAmountOfDefault();
    FeeFrom(f, [o], 675);
    NoRounding();
    MoneyIs();
    if IsEnough(f, [o], 675) { EnoughNeeds(f, [o], 675); }
    ManyCapAt(100000, o);
    ManyReady(100000, o);
    FollowIs(f, [o], 675);
    ReadyInputs(f, [o], 675);
    RetriedNext(f, [o], 675);
    CappedIff(f, Next(f, [o], 675), 675);
    NextIs(f, [o], 675);
    var o' := Raised(o);
    EndsAtOnce(f, [o'], 0);
    EndsIs(f, [o], 1);
    FinalStep(f, [o], 1);
    FinalStep(f, [o'], 0);
  }

  lemma NoRounding()
    ensures RoundedFee(70000000, 62496000, 4999000) == 4999000
  {
  }

  lemma Raised(o: Output) returns (o': Output)
    requires o.amount == 62496000
    ensures 62501000 < TWO_64 && o' == o.(amount := 62501000) && Reduced([o], -5000) == [o']
  {
    assert Sub64(62496000, -5000) == 62501000;
    o' := o.(amount := 62501000);
  }
}
