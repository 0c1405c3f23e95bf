/**
 Heights and times that are reported for transactions: what they leave of the order of the list, and when the ledger
 need not be recomputed.
 */
module Updates {
  import opened Options
  import opened Transactions
  import opened Ledger
  import I = Insertion
  import R = Removal

  function Reported(t: Tx, height: UInt32, timestamp: UInt32): Tx {
    t.(blockHeight := height, timestamp := timestamp)
  }

  function AsSet(hashes: seq<Hash>): set<Hash> { set h | h in hashes }

  // The list with a height and a time reported for some of its transactions.
  ghost predicate ReportedIn(txs: seq<Tx>, before: seq<Tx>, hs: set<Hash>, height: UInt32, timestamp: UInt32) {
    && |txs| == |before|
    && forall k :: 0 <= k < |txs| ==>
         txs[k] == if before[k].txHash in hs then before[k].(blockHeight := height, timestamp := timestamp) else before[k]
  }

  // ---- the order of the list ----

  // The list is not sorted again: it stays sorted exactly when every other transaction before a reported one is not
  // above the height, and every one behind is not below it.
  lemma ReportedSorted(txs: seq<Tx>, before: seq<Tx>, hs: set<Hash>, height: UInt32, timestamp: UInt32)
    requires ReportedIn(txs, before, hs, height, timestamp) && R.HeightSorted(before)
    ensures R.HeightSorted(txs) <==> forall i, j :: 0 <= i < j < |before| ==>
      && (before[i].txHash in hs && before[j].txHash !in hs ==> height <= before[j].blockHeight)
      && (before[i].txHash !in hs && before[j].txHash in hs ==> before[i].blockHeight <= height)
  {
    if R.HeightSorted(txs) {
      forall i, j | 0 <= i < j < |before|
        ensures before[i].txHash in hs && before[j].txHash !in hs ==> height <= before[j].blockHeight
        ensures before[i].txHash !in hs && before[j].txHash in hs ==> before[i].blockHeight <= height
      {
        assert txs[i].blockHeight <= txs[j].blockHeight;
      }
    }
  }

  // ---- whose transactions they are ----

  // Whether an output pays to the wallet, or an input spends one that does.
  predicate IsOurs(allTx: map<Hash, Tx>, addrs: set<string>, tx: Tx) {
    || (exists i :: 0 <= i < |tx.outputs| && tx.outputs[i].address in addrs)
    || (exists i :: 0 <= i < |tx.inputs| && SpendsOurs(allTx, addrs, tx.inputs[i]))
  }

  ghost predicate AllOurs(allTx: map<Hash, Tx>, addrs: set<string>, txs: seq<Tx>) {
    forall k :: 0 <= k < |txs| ==> IsOurs(allTx, addrs, txs[k])
  }

  predicate SpendsOurs(allTx: map<Hash, Tx>, addrs: set<string>, input: Input) {
    && input.txHash in allTx && input.index < |allTx[input.txHash].outputs|
    && allTx[input.txHash].outputs[input.index].address in addrs
  }

  // A transaction is the wallet's if it pays to it, or spends an output that the ledger lists.
  lemma OursListed(ctx: Context, txs: seq<Tx>, tx: Tx, j: nat)
    requires Numbered(txs) && Registered(ctx, txs) && (forall h :: h in ctx.allTx ==> ctx.allTx[h].txHash == h)
    requires j < |tx.inputs| && OutPoint(tx.inputs[j].txHash, tx.inputs[j].index) in Run(ctx, txs).utxos
    ensures IsOurs(ctx.allTx, ctx.allAddrs, tx)
  {
    var op := OutPoint(tx.inputs[j].txHash, tx.inputs[j].index);
    UtxosIff(ctx, txs, op);
    hide Run, Verdicts;
    var i: nat :| i < |txs| && txs[i].txHash == op.hash && PaysAt(ctx, txs, Verdicts(ctx, txs), i, op.n);
    assert IsRegistered(ctx, txs[i]);
    assert SpendsOurs(ctx.allTx, ctx.allAddrs, tx.inputs[j]);
  }

  // Exactly then: an output has one of the addresses, or an input spends an output of a known transaction that does.
  lemma OursIff(allTx: map<Hash, Tx>, addrs: set<string>, tx: Tx)
    ensures IsOurs(allTx, addrs, tx) <==>
      || (exists o :: o in tx.outputs && o.address in addrs)
      || (exists input, o :: input in tx.inputs && IsSpent(allTx, input, o) && o.address in addrs)
  {
    forall i | 0 <= i < |tx.inputs| && SpendsOurs(allTx, addrs, tx.inputs[i])
      ensures exists input, o :: input in tx.inputs && IsSpent(allTx, input, o) && o.address in addrs
    {
      assert IsSpent(allTx, tx.inputs[i], allTx[tx.inputs[i].txHash].outputs[tx.inputs[i].index]);
    }
  }

  ghost predicate IsSpent(allTx: map<Hash, Tx>, input: Input, o: Output) {
    && input.txHash in allTx && input.index < |allTx[input.txHash].outputs|
    && allTx[input.txHash].outputs[input.index] == o
  }

  // The known transactions, of which some that are foreign may be gone.
  ghost predicate Fewer(allTx: map<Hash, Tx>, known: map<Hash, Tx>, addrs: set<string>) {
    && (forall h :: h in allTx ==> h in known && allTx[h].outputs == known[h].outputs && allTx[h].inputs == known[h].inputs)
    && (forall h :: h in known && h !in allTx ==> !IsOurs(known, addrs, known[h]))
  }

  lemma OursKept(allTx: map<Hash, Tx>, known: map<Hash, Tx>, addrs: set<string>, tx: Tx, tx': Tx)
    requires Fewer(allTx, known, addrs) && tx.inputs == tx'.inputs && tx.outputs == tx'.outputs
    ensures IsOurs(allTx, addrs, tx') == IsOurs(known, addrs, tx)
  {
    forall i | 0 <= i < |tx.inputs| ensures SpendsOurs(allTx, addrs, tx.inputs[i]) == SpendsOurs(known, addrs, tx.inputs[i]) {
      var input := tx.inputs[i];
      if SpendsOurs(known, addrs, input) {
        assert known[input.txHash].outputs[input.index].address in addrs;
        assert IsOurs(known, addrs, known[input.txHash]);
      }
    }
  }

  lemma OursMore(known: map<Hash, Tx>, addrs: set<string>, tx: Tx, more: Tx)
    requires more.txHash !in known && IsOurs(known, addrs, tx)
    ensures IsOurs(known[more.txHash := more], addrs, tx)
  {
    if i :| 0 <= i < |tx.inputs| && SpendsOurs(known, addrs, tx.inputs[i]) {
      assert SpendsOurs(known[more.txHash := more], addrs, tx.inputs[i]);
    }
  }

  lemma OursRest(known: map<Hash, Tx>, addrs: set<string>, tx: Tx, gone: set<Hash>)
    requires !R.SpendsAny(tx, gone) && IsOurs(known, addrs, tx)
    ensures IsOurs(known - gone, addrs, tx)
  {
    if i :| 0 <= i < |tx.inputs| && SpendsOurs(known, addrs, tx.inputs[i]) {
      assert SpendsOurs(known - gone, addrs, tx.inputs[i]);
    }
  }

  lemma RememberedOurs(known: map<Hash, Tx>, addrs: set<string>, txs: seq<Tx>, tx: Tx)
    requires tx.txHash !in known && AllOurs(known, addrs, txs)
    ensures AllOurs(known[tx.txHash := tx], addrs, txs)
  {
    forall k | 0 <= k < |txs| ensures IsOurs(known[tx.txHash := tx], addrs, txs[k]) {
      OursMore(known, addrs, txs[k], tx);
    }
  }

  lemma InsertedOurs(known: map<Hash, Tx>, addrs: set<string>, before: seq<Tx>, at: nat, tx: Tx, txs: seq<Tx>)
    requires tx.txHash !in known && AllOurs(known, addrs, before) && IsOurs(known, addrs, tx)
    requires at <= |before| && txs == I.Inserted(before, at, tx)
    ensures AllOurs(known[tx.txHash := tx], addrs, txs)
  {
    RememberedOurs(known, addrs, before, tx);
    OursMore(known, addrs, tx, tx);
    hide IsOurs;
    assert forall k :: 0 <= k < |txs| ==> txs[k] == if k < at then before[k] else if k == at then tx else before[k - 1];
  }

  lemma UnconfirmedOurs(known: map<Hash, Tx>, allTx: map<Hash, Tx>, addrs: set<string>, before: seq<Tx>, txs: seq<Tx>,
                        first: nat)
    requires first <= |before| && I.UnconfirmedFrom(txs, before, first) && I.SameBut(allTx, known, before, first)
    requires AllOurs(known, addrs, before)
    ensures AllOurs(allTx, addrs, txs)
  {
    hide IsOurs;
    assert Fewer(allTx, known, addrs);
    hide Fewer, I.SameBut;
    forall k | 0 <= k < |txs| ensures IsOurs(allTx, addrs, txs[k]) {
      OursKept(allTx, known, addrs, before[k], txs[k]);
    }
  }

  // A height and a time that are not the ones a transaction has.
  predicate Changes(t: Tx, height: UInt32, timestamp: UInt32) {
    t.blockHeight != height || t.timestamp != timestamp
  }

  // A foreign transaction is only remembered while it is unconfirmed.
  predicate IsDropped(known: map<Hash, Tx>, addrs: set<string>, t: Tx, height: UInt32, timestamp: UInt32) {
    && (t.blockHeight != height || t.timestamp != timestamp)
    && !IsOurs(known, addrs, t) && height != 0x7fff_ffff
  }

  // The known transactions after some were reported.
  ghost predicate KnownAfter(allTx: map<Hash, Tx>, known: map<Hash, Tx>, addrs: set<string>, hs: set<Hash>,
                             height: UInt32, timestamp: UInt32)
  {
    && (forall h :: h in allTx <==> h in known && !(h in hs && IsDropped(known, addrs, known[h], height, timestamp)))
    && (forall h :: h in allTx ==>
          allTx[h] == if h in hs then known[h].(blockHeight := height, timestamp := timestamp) else known[h])
  }

  // The transactions whose report makes the wallet recompute the ledger: its own that were not accepted.
  predicate Matters(known: map<Hash, Tx>, addrs: set<string>, pending: set<Hash>, invalid: set<Hash>, h: Hash,
                    height: UInt32, timestamp: UInt32)
  {
    && h in known && (known[h].blockHeight != height || known[h].timestamp != timestamp)
    && IsOurs(known, addrs, known[h]) && (h in pending || h in invalid)
  }

  // One of the transactions matters.
  ghost predicate AnyMatters(known: map<Hash, Tx>, addrs: set<string>, pending: set<Hash>, invalid: set<Hash>,
                             hs: set<Hash>, height: UInt32, timestamp: UInt32)
  {
    exists h :: h in hs && Matters(known, addrs, pending, invalid, h, height, timestamp)
  }

  // ---- reporting one transaction ----

  // The list is registered, without repetitions, and holds transactions of the wallet.
  ghost predicate Lists(allTx: map<Hash, Tx>, addrs: set<string>, txs: seq<Tx>) {
    && (forall h :: h in allTx ==> allTx[h].txHash == h)
    && R.DistinctHashes(txs)
    && forall k :: 0 <= k < |txs| ==> IsListed(allTx, addrs, txs[k])
  }

  ghost predicate IsListed(allTx: map<Hash, Tx>, addrs: set<string>, tx: Tx) {
    && tx.txHash in allTx && allTx[tx.txHash] == tx && |tx.outputs| <= UINT32_MAX && IsOurs(allTx, addrs, tx)
  }

  // The list is without repetitions, and shares what it holds with the known transactions.
  ghost predicate Shared(allTx: map<Hash, Tx>, txs: seq<Tx>) {
    && (forall h :: h in allTx ==> allTx[h].txHash == h)
    && R.DistinctHashes(txs)
    && forall k :: 0 <= k < |txs| ==> IsShared(allTx, txs[k])
  }

  ghost predicate IsShared(allTx: map<Hash, Tx>, tx: Tx) {
    |tx.outputs| <= UINT32_MAX && (tx.txHash in allTx ==> allTx[tx.txHash] == tx)
  }

  // Every listed transaction is known.
  ghost predicate InSet(allTx: map<Hash, Tx>, txs: seq<Tx>) { forall k :: 0 <= k < |txs| ==> txs[k].txHash in allTx }

  // A listed transaction that is foreign is reported as confirmed, and forgotten.
  ghost predicate Frees(known: map<Hash, Tx>, addrs: set<string>, txs: seq<Tx>, hs: set<Hash>, height: UInt32,
                        timestamp: UInt32)
  {
    exists k :: 0 <= k < |txs| && txs[k].txHash in hs && IsDropped(known, addrs, txs[k], height, timestamp)
  }

  // The list with the transaction of its hash replaced.
  ghost predicate SetIn(txs': seq<Tx>, txs: seq<Tx>, tx: Tx) {
    && |txs'| == |txs|
    && forall k :: 0 <= k < |txs| ==> txs'[k] == if txs[k].txHash == tx.txHash then tx else txs[k]
  }

  lemma KnownFewer(allTx: map<Hash, Tx>, known: map<Hash, Tx>, addrs: set<string>, hs: set<Hash>,
                   height: UInt32, timestamp: UInt32)
    requires KnownAfter(allTx, known, addrs, hs, height, timestamp)
    ensures Fewer(allTx, known, addrs)
  {
    hide IsOurs;
  }

  // An unknown transaction, or one that has the height and the time already.
  lemma SkipKeeps(allTx: map<Hash, Tx>, known: map<Hash, Tx>, txs: seq<Tx>, before: seq<Tx>,
                  addrs: set<string>, hs: set<Hash>, h: Hash, height: UInt32, timestamp: UInt32)
    requires KnownAfter(allTx, known, addrs, hs, height, timestamp) && ReportedIn(txs, before, hs, height, timestamp)
    requires Shared(allTx, txs) && InSet(known, before) && (h !in allTx || !Changes(allTx[h], height, timestamp))
    ensures KnownAfter(allTx, known, addrs, hs + {h}, height, timestamp)
    ensures ReportedIn(txs, before, hs + {h}, height, timestamp)
    ensures h in hs || h !in known || !Changes(known[h], height, timestamp)
  {
    hide IsOurs, R.DistinctHashes;
    forall k | 0 <= k < |txs| && before[k].txHash == h && h !in hs
      ensures txs[k] == Reported(before[k], height, timestamp)
    {
      assert IsShared(allTx, txs[k]);
    }
  }

  // The reported transaction is still one of the wallet, or still foreign.
  lemma ReportOurs(allTx: map<Hash, Tx>, known: map<Hash, Tx>, addrs: set<string>, hs: set<Hash>,
                   h: Hash, height: UInt32, timestamp: UInt32)
    requires KnownAfter(allTx, known, addrs, hs, height, timestamp) && h in allTx
    ensures h in known && (Changes(allTx[h], height, timestamp) ==> h !in hs && allTx[h] == known[h])
    ensures var t := Reported(allTx[h], height, timestamp);
      && Fewer(allTx[h := t], known, addrs)
      && IsOurs(allTx[h := t], addrs, t) == IsOurs(known, addrs, known[h])
  {
    var t := Reported(allTx[h], height, timestamp);
    KnownFewer(allTx, known, addrs, hs, height, timestamp);
    hide IsOurs;
    assert Fewer(allTx[h := t], known, addrs);
    OursKept(allTx[h := t], known, addrs, known[h], t);
  }

  lemma ReportKnown(allTx: map<Hash, Tx>, known: map<Hash, Tx>, addrs: set<string>, hs: set<Hash>,
                    h: Hash, height: UInt32, timestamp: UInt32)
    requires KnownAfter(allTx, known, addrs, hs, height, timestamp) && h in allTx && Changes(allTx[h], height, timestamp)
    ensures var all := allTx[h := Reported(allTx[h], height, timestamp)];
      if IsDropped(known, addrs, known[h], height, timestamp)
      then KnownAfter(all - {h}, known, addrs, hs + {h}, height, timestamp)
      else KnownAfter(all, known, addrs, hs + {h}, height, timestamp)
  {
    hide IsOurs;
  }

  // The list changes with the known transactions, also where it holds a foreign one.
  lemma ReportListed(allTx: map<Hash, Tx>, known: map<Hash, Tx>, txs: seq<Tx>, txs': seq<Tx>,
      before: seq<Tx>, addrs: set<string>, hs: set<Hash>, h: Hash, height: UInt32, timestamp: UInt32)
    requires KnownAfter(allTx, known, addrs, hs, height, timestamp) && ReportedIn(txs, before, hs, height, timestamp)
    requires Shared(allTx, txs) && h in allTx && Changes(allTx[h], height, timestamp)
    requires SetIn(txs', txs, Reported(allTx[h], height, timestamp))
    ensures ReportedIn(txs', before, hs + {h}, height, timestamp)
    ensures var all := allTx[h := Reported(allTx[h], height, timestamp)];
      Shared(if IsDropped(known, addrs, known[h], height, timestamp) then all - {h} else all, txs')
  {
    var t := Reported(allTx[h], height, timestamp);
    var all, dropped := allTx[h := t], IsDropped(known, addrs, known[h], height, timestamp);
    var rest := if dropped then all - {h} else all;
    ReportOurs(allTx, known, addrs, hs, h, height, timestamp);
    hide IsOurs, KnownAfter, Fewer;
    forall k | 0 <= k < |txs|
      ensures IsShared(rest, txs'[k])
      ensures before[k].txHash == h ==> txs'[k] == Reported(before[k], height, timestamp)
    {
      assert IsShared(allTx, txs[k]);
    }
    assert R.DistinctHashes(txs') by {
      assert forall k :: 0 <= k < |txs| ==> txs'[k].txHash == txs[k].txHash;
    }
  }

  // After a report the list is registered exactly when no listed foreign transaction was reported as confirmed.
  lemma FreesIff(allTx: map<Hash, Tx>, known: map<Hash, Tx>, txs: seq<Tx>, before: seq<Tx>, addrs: set<string>,
                 hs: set<Hash>, height: UInt32, timestamp: UInt32)
    requires KnownAfter(allTx, known, addrs, hs, height, timestamp) && ReportedIn(txs, before, hs, height, timestamp)
    requires Shared(known, before) && InSet(known, before)
    ensures InSet(allTx, txs) <==> !Frees(known, addrs, before, hs, height, timestamp)
  {
    hide IsDropped, R.DistinctHashes;
    forall k | 0 <= k < |txs|
      ensures txs[k].txHash in allTx <==>
        !(before[k].txHash in hs && IsDropped(known, addrs, before[k], height, timestamp))
    {
      assert IsShared(known, before[k]);
    }
  }

  // It then holds transactions of the wallet if it did.
  lemma ReportedLists(allTx: map<Hash, Tx>, known: map<Hash, Tx>, txs: seq<Tx>, before: seq<Tx>, addrs: set<string>,
                      hs: set<Hash>, height: UInt32, timestamp: UInt32)
    requires KnownAfter(allTx, known, addrs, hs, height, timestamp) && ReportedIn(txs, before, hs, height, timestamp)
    requires Shared(allTx, txs) && Lists(known, addrs, before)
    ensures Lists(allTx, addrs, txs) && !Frees(known, addrs, before, hs, height, timestamp)
  {
    KnownFewer(allTx, known, addrs, hs, height, timestamp);
    hide IsOurs, Fewer, R.DistinctHashes;
    forall k | 0 <= k < |txs|
      ensures IsListed(allTx, addrs, txs[k]) && !IsDropped(known, addrs, before[k], height, timestamp)
    {
      assert IsListed(known, addrs, before[k]) && IsShared(allTx, txs[k]);
      OursKept(allTx, known, addrs, before[k], txs[k]);
    }
  }

  lemma SharedKeys(allTx: map<Hash, Tx>, txs: seq<Tx>, h: Hash)
    requires Shared(allTx, txs) && h in allTx
    ensures allTx[h].txHash == h
  {
  }

  lemma ListsRegistered(ctx: Context, txs: seq<Tx>)
    requires Lists(ctx.allTx, ctx.allAddrs, txs)
    ensures Registered(ctx, txs) && Numbered(txs)
  {
    forall k | 0 <= k < |txs| ensures IsRegistered(ctx, txs[k]) {
      assert IsListed(ctx.allTx, ctx.allAddrs, txs[k]);
    }
  }

  lemma NoneReported(allTx: map<Hash, Tx>, addrs: set<string>, txs: seq<Tx>, pending: set<Hash>, invalid: set<Hash>,
                     height: UInt32, timestamp: UInt32)
    ensures ReportedIn(txs, txs, AsSet([]), height, timestamp)
    ensures KnownAfter(allTx, allTx, addrs, AsSet([]), height, timestamp)
    ensures !AnyMatters(allTx, addrs, pending, invalid, AsSet([]), height, timestamp)
  {
  }

  lemma OneMore(hashes: seq<Hash>, i: nat, known: map<Hash, Tx>, addrs: set<string>, pending: set<Hash>,
                invalid: set<Hash>, height: UInt32, timestamp: UInt32)
    requires i < |hashes|
    ensures AsSet(hashes[..i + 1]) == AsSet(hashes[..i]) + {hashes[i]}
    ensures AnyMatters(known, addrs, pending, invalid, AsSet(hashes[..i + 1]), height, timestamp) <==>
      || AnyMatters(known, addrs, pending, invalid, AsSet(hashes[..i]), height, timestamp)
      || (hashes[i] !in AsSet(hashes[..i]) && Matters(known, addrs, pending, invalid, hashes[i], height, timestamp))
  {
    hide Matters;
    assert hashes[..i + 1] == hashes[..i] + [hashes[i]];
    assert AsSet(hashes[..i + 1]) == AsSet(hashes[..i]) + {hashes[i]};
  }

  lemma ReportedSound(allTx: map<Hash, Tx>, known: map<Hash, Tx>, txs: seq<Tx>, before: seq<Tx>, addrs: set<string>,
                      hs: set<Hash>, height: UInt32, timestamp: UInt32, rank: Hash -> nat, top: nat)
    requires KnownAfter(allTx, known, addrs, hs, height, timestamp) && ReportedIn(txs, before, hs, height, timestamp)
    requires I.KnownRanked(known, rank) && R.Ranked(before, rank, top)
    ensures I.KnownRanked(allTx, rank) && R.Ranked(txs, rank, top)
  {
    hide IsOurs, IsDropped;
    forall k | 0 <= k < |txs| ensures R.RanksAbove(txs[k], rank, top) {
      assert R.RanksAbove(before[k], rank, top);
    }
    forall h | h in allTx ensures allTx[h].txHash == h && I.RanksInputs(allTx[h], rank) {
      assert I.RanksInputs(known[h], rank);
    }
  }

  // ---- the ledger ----

  // Both contexts know the listed transactions, with the same outputs.
  ghost predicate Agree(ctx: Context, ctx': Context) {
    && ctx.allAddrs == ctx'.allAddrs
    && forall h :: h in ctx.allTx && h in ctx'.allTx ==> ctx.allTx[h].outputs == ctx'.allTx[h].outputs
  }

  // The same transaction, but for its height and its time.
  ghost predicate Alike(tx: Tx, tx': Tx) { tx' == Reported(tx, tx'.blockHeight, tx'.timestamp) }

  lemma {:induction false} WalletOutputsAlike(ctx: Context, ctx': Context, tx: Tx, tx': Tx, k: nat)
    requires Agree(ctx, ctx') && Alike(tx, tx') && k <= |tx.outputs| <= UINT32_MAX
    ensures WalletOutputs(ctx, tx, k) == WalletOutputs(ctx', tx', k)
  {
    if k > 0 {
      WalletOutputsAlike(ctx, ctx', tx, tx', k - 1);
    }
  }

  lemma {:induction false} TotalAlike(ctx: Context, ctx': Context, ops: seq<OutPoint>)
    requires Agree(ctx, ctx') && AllKnown(ctx, ops) && AllKnown(ctx', ops)
    ensures Total(ctx, ops) == Total(ctx', ops)
  {
    if ops != [] {
      var n := |ops| - 1;
      TotalAlike(ctx, ctx', ops[..n]);
      assert Known(ctx, ops[n]) && Known(ctx', ops[n]);
    }
  }

  lemma {:induction false} SpentKnown(ctx: Context, ops: seq<OutPoint>, spent: set<OutPoint>)
    requires AllKnown(ctx, ops)
    ensures AllKnown(ctx, Spent(ops, spent))
  {
    if ops != [] {
      SpentKnown(ctx, ops[..|ops| - 1], spent);
    }
  }

  lemma RebalancedAlike(ctx: Context, ctx': Context, balance: UInt64, utxos: seq<OutPoint>,
                        spent: set<OutPoint>, tx: Tx, tx': Tx)
    requires Agree(ctx, ctx') && Alike(tx, tx') && IsRegistered(ctx, tx) && IsRegistered(ctx', tx')
    requires AllKnown(ctx, utxos) && AllKnown(ctx', utxos)
    ensures Rebalanced(ctx, balance, utxos, spent, tx) == Rebalanced(ctx', balance, utxos, spent, tx')
  {
    var n := |tx.outputs|;
    var paid, gone := WalletOutputs(ctx, tx, n), spent + InputsOf(tx);
    WalletOutputsAlike(ctx, ctx', tx, tx', n);
    WalletOutputsKnown(ctx, tx, n);
    WalletOutputsKnown(ctx', tx', n);
    hide WalletOutputs, Spent, Total, Known, Sub64;
    assert InputsOf(tx) == InputsOf(tx');
    TotalAlike(ctx, ctx', paid);
    SpentKnown(ctx, utxos + paid, gone);
    SpentKnown(ctx', utxos + paid, gone);
    TotalAlike(ctx, ctx', Spent(utxos + paid, gone));
  }

  // With the same verdict, a step leads to the same state.
  lemma StepAlike(ctx: Context, ctx': Context, s: State, tx: Tx, tx': Tx)
    requires Agree(ctx, ctx') && Alike(tx, tx') && IsRegistered(ctx, tx) && IsRegistered(ctx', tx')
    requires AllKnown(ctx, s.utxos) && AllKnown(ctx', s.utxos)
    requires Judge(ctx, tx, s.spent, s.invalid, s.pending) == Judge(ctx', tx', s.spent, s.invalid, s.pending)
    ensures Step(ctx, s, tx) == Step(ctx', s, tx')
  {
    var n := |tx.outputs|;
    WalletOutputsAlike(ctx, ctx', tx, tx', n);
    RebalancedAlike(ctx, ctx', s.balance, s.utxos, s.spent, tx, tx');
    assert InputsOf(tx) == InputsOf(tx') && Addresses(tx, n) == Addresses(tx', n);
    hide WalletOutputs, Judge, Rebalanced, InputsOf, Addresses, Unspent, AllKnown, Add64;
  }

  ghost predicate AllAlike(txs: seq<Tx>, txs': seq<Tx>) {
    |txs| == |txs'| && forall i :: 0 <= i < |txs| ==> Alike(txs[i], txs'[i])
  }

  lemma {:induction false} RunAlike(ctx: Context, ctx': Context, txs: seq<Tx>, txs': seq<Tx>)
    requires Agree(ctx, ctx') && AllAlike(txs, txs') && Numbered(txs) && Numbered(txs')
    requires Registered(ctx, txs) && Registered(ctx', txs')
    requires Verdicts(ctx, txs) == Verdicts(ctx', txs')
    ensures Run(ctx, txs) == Run(ctx', txs')
    decreases |txs|
  {
    hide *;
    FirstAlike(ctx, ctx', txs, txs');
    if txs != [] {
      var n := |txs| - 1;
      var init, init' := txs[..n], txs'[..n];
      RunLast(ctx, txs);
      RunLast(ctx', txs');
      RunMeaning(ctx, init);
      RunMeaning(ctx', init');
      var s := Run(ctx, init);
      VerdictsLast(ctx, txs, s);
      VerdictsLast(ctx', txs', Run(ctx', init'));
      assert Verdicts(ctx, txs)[..n] == Verdicts(ctx, init) && Verdicts(ctx', txs')[..n] == Verdicts(ctx', init');
      RunAlike(ctx, ctx', init, init');
      assert Verdicts(ctx, txs)[n] == Verdicts(ctx', txs')[n];
      RunKnown(ctx, init);
      RunKnown(ctx', init');
      StepAlike(ctx, ctx', s, txs[n], txs'[n]);
    } else {
      RunNone(ctx);
      RunNone(ctx');
      assert txs' == [];
    }
  }

  lemma FirstAlike(ctx: Context, ctx': Context, txs: seq<Tx>, txs': seq<Tx>)
    requires AllAlike(txs, txs') && Numbered(txs) && Numbered(txs') && Registered(ctx, txs) && Registered(ctx', txs')
    ensures |txs| == |txs'|
    ensures txs != [] ==> (
      var n := |txs| - 1;
      && AllAlike(txs[..n], txs'[..n]) && Numbered(txs[..n]) && Numbered(txs'[..n])
      && Registered(ctx, txs[..n]) && Registered(ctx', txs'[..n])
      && IsRegistered(ctx, txs[n]) && IsRegistered(ctx', txs'[n]) && Alike(txs[n], txs'[n]))
  {
    hide IsRegistered, Alike;
  }

  lemma OwnHash(txs: seq<Tx>, vs: seq<Verdict>, v: Verdict, i: nat)
    requires |txs| == |vs| && i < |txs| && R.DistinctHashes(txs)
    ensures txs[i].txHash in Hashes(txs, vs, v) <==> vs[i] == v
  {
    HashesIff(txs, vs, v, txs[i].txHash);
    hide Hashes;
  }

  lemma {:induction false} SetsAlike(txs: seq<Tx>, txs': seq<Tx>, vs: seq<Verdict>, v: Verdict)
    requires AllAlike(txs, txs') && |txs| == |vs|
    ensures SpentBy(txs, vs) == SpentBy(txs', vs) && Hashes(txs, vs, v) == Hashes(txs', vs, v)
    decreases |txs|
  {
    if txs != [] {
      var n := |txs| - 1;
      SetsAlike(txs[..n], txs'[..n], vs[..n], v);
      assert Alike(txs[n], txs'[n]);
      assert InputsOf(txs[n]) == InputsOf(txs'[n]);
    }
  }

  // Other contexts and heights give a transaction the verdict it has, judged by the verdicts before it as they are.
  ghost predicate Stays(ctx: Context, ctx': Context, txs: seq<Tx>, txs': seq<Tx>, i: nat)
    requires i < |txs| == |txs'|
  {
    JudgeAfter(ctx', txs'[i], txs, Verdicts(ctx, txs), i) == Verdicts(ctx, txs)[i]
  }

  lemma JudgeAlike(ctx: Context, tx: Tx, txs: seq<Tx>, txs': seq<Tx>, vs: seq<Verdict>, i: nat)
    requires AllAlike(txs, txs') && i <= |txs| == |vs|
    ensures JudgeAfter(ctx, tx, txs, vs, i) == JudgeAfter(ctx, tx, txs', vs, i)
  {
    assert AllAlike(txs[..i], txs'[..i]);
    SetsAlike(txs[..i], txs'[..i], vs[..i], Invalid);
    SetsAlike(txs[..i], txs'[..i], vs[..i], Pending);
    hide Judge;
  }

  lemma VerdictStep(ctx: Context, ctx': Context, txs: seq<Tx>, txs': seq<Tx>, i: nat)
    requires AllAlike(txs, txs') && i < |txs| && Verdicts(ctx, txs)[..i] == Verdicts(ctx', txs')[..i]
    ensures Stays(ctx, ctx', txs, txs', i) <==> Verdicts(ctx, txs)[i] == Verdicts(ctx', txs')[i]
  {
    VerdictAt(ctx', txs', i);
    JudgeAlike(ctx', txs'[i], txs, txs', Verdicts(ctx, txs), i);
    hide Verdicts, Judge, SpentBy, Hashes, AllAlike;
  }

  // The first verdict to change is one that the old verdicts before it already change.
  lemma {:induction false} VerdictsKept(ctx: Context, ctx': Context, txs: seq<Tx>, txs': seq<Tx>, n: nat)
    requires AllAlike(txs, txs') && n <= |txs| && forall i :: 0 <= i < n ==> Stays(ctx, ctx', txs, txs', i)
    ensures Verdicts(ctx, txs)[..n] == Verdicts(ctx', txs')[..n]
    decreases n
  {
    hide Verdicts, Stays, Alike;
    if n > 0 {
      var i, vs, vs' := n - 1, Verdicts(ctx, txs), Verdicts(ctx', txs');
      VerdictsKept(ctx, ctx', txs, txs', i);
      VerdictStep(ctx, ctx', txs, txs', i);
      assert |vs| == |vs'| && vs[..n] == vs[..i] + [vs[i]] && vs'[..n] == vs'[..i] + [vs'[i]];
    }
  }

  // No verdict changes exactly when none would change by itself.
  lemma VerdictsKeptIff(ctx: Context, ctx': Context, txs: seq<Tx>, txs': seq<Tx>)
    requires AllAlike(txs, txs')
    ensures Verdicts(ctx, txs) == Verdicts(ctx', txs') <==> forall i :: 0 <= i < |txs| ==> Stays(ctx, ctx', txs, txs', i)
  {
    var n, vs, vs' := |txs|, Verdicts(ctx, txs), Verdicts(ctx', txs');
    if vs == vs' {
      forall i | 0 <= i < n ensures Stays(ctx, ctx', txs, txs', i) {
        VerdictStep(ctx, ctx', txs, txs', i);
      }
    }
    if forall i :: 0 <= i < n ==> Stays(ctx, ctx', txs, txs', i) {
      VerdictsKept(ctx, ctx', txs, txs', n);
      assert vs[..n] == vs && vs'[..n] == vs';
    }
  }

  lemma SameVerdicts(ctx: Context, ctx': Context, txs: seq<Tx>, txs': seq<Tx>)
    requires AllAlike(txs, txs') && Numbered(txs) && Numbered(txs') && R.DistinctHashes(txs)
    requires Run(ctx, txs).invalid == Run(ctx', txs').invalid && Run(ctx, txs).pending == Run(ctx', txs').pending
    ensures Verdicts(ctx, txs) == Verdicts(ctx', txs')
  {
    hide *;
    AlikeHashes(txs, txs');
    RunHashes(ctx, txs);
    RunHashes(ctx', txs');
    var vs, vs' := Verdicts(ctx, txs), Verdicts(ctx', txs');
    forall i | 0 <= i < |txs| ensures vs[i] == vs'[i] {
      OwnHash(txs, vs, Invalid, i);
      OwnHash(txs', vs', Invalid, i);
      OwnHash(txs, vs, Pending, i);
      OwnHash(txs', vs', Pending, i);
    }
  }

  lemma AlikeHashes(txs: seq<Tx>, txs': seq<Tx>)
    requires AllAlike(txs, txs') && R.DistinctHashes(txs)
    ensures |txs| == |txs'| && (forall i :: 0 <= i < |txs| ==> txs[i].txHash == txs'[i].txHash)
    ensures R.DistinctHashes(txs')
  {
    assert forall i :: 0 <= i < |txs| ==> Alike(txs[i], txs'[i]);
  }

  lemma RunHashes(ctx: Context, txs: seq<Tx>)
    requires Numbered(txs)
    ensures |Verdicts(ctx, txs)| == |txs|
    ensures Run(ctx, txs).invalid == Hashes(txs, Verdicts(ctx, txs), Invalid)
    ensures Run(ctx, txs).pending == Hashes(txs, Verdicts(ctx, txs), Pending)
  {
    hide Run, Verdicts, Hashes, SpentBy, Listed;
    RunMeaning(ctx, txs);
  }

  // Recomputing the ledger after a report changes nothing exactly when each transaction, judged anew by the old verdicts
  // before it, keeps its own.
  lemma LedgerKeptIff(ctx: Context, ctx': Context, txs: seq<Tx>, txs': seq<Tx>)
    requires Agree(ctx, ctx') && AllAlike(txs, txs') && Numbered(txs) && Numbered(txs') && R.DistinctHashes(txs)
    requires Registered(ctx, txs) && Registered(ctx', txs')
    ensures Run(ctx, txs) == Run(ctx', txs') <==> forall i :: 0 <= i < |txs| ==> Stays(ctx, ctx', txs, txs', i)
    ensures Run(ctx, txs).invalid == Run(ctx', txs').invalid && Run(ctx, txs).pending == Run(ctx', txs').pending ==>
      Run(ctx, txs) == Run(ctx', txs')
  {
    VerdictsKeptIff(ctx, ctx', txs, txs');
    if Run(ctx, txs).invalid == Run(ctx', txs').invalid && Run(ctx, txs).pending == Run(ctx', txs').pending {
      SameVerdicts(ctx, ctx', txs, txs');
      RunAlike(ctx, ctx', txs, txs');
    } else if Verdicts(ctx, txs) == Verdicts(ctx', txs') {
      RunAlike(ctx, ctx', txs, txs');
    }
  }

  // Confirmed transactions are accepted, whatever the height and the time.
  lemma ConfirmedRun(ctx: Context, ctx': Context, txs: seq<Tx>)
    requires Agree(ctx, ctx') && Numbered(txs) && Registered(ctx, txs) && Registered(ctx', txs)
    requires forall i :: 0 <= i < |txs| ==> txs[i].blockHeight != TX_UNCONFIRMED
    ensures Run(ctx, txs) == Run(ctx', txs)
  {
    assert AllAlike(txs, txs);
    forall i | 0 <= i < |txs| ensures Verdicts(ctx, txs)[i] == Verdicts(ctx', txs)[i] {
      VerdictAt(ctx, txs, i);
      VerdictAt(ctx', txs, i);
      hide Verdicts, SpentBy, Hashes;
    }
    assert Verdicts(ctx, txs) == Verdicts(ctx', txs);
    hide Run, Verdicts;
    RunAlike(ctx, ctx', txs, txs);
  }

  // ---- when leaving the ledger alone is right ----

  // The wallet sees neither its height nor the time go back, and the height is not the last one there is.
  predicate Later(ctx: Context, ctx': Context) {
    ctx.blockHeight <= ctx'.blockHeight < UINT32_MAX && ctx.now <= ctx'.now
  }

  // What a report that does not make the wallet recompute its ledger must not do: release the locks of a pending
  // transaction, or, as unconfirmed, make an accepted one invalid or pending.
  ghost predicate Harmless(ctx: Context, ctx': Context, txs: seq<Tx>, hs: set<Hash>, height: UInt32, timestamp: UInt32, i: nat)
    requires i < |txs|
  {
    var tx, vs := txs[i], Verdicts(ctx, txs);
    var spent, invalid, pending := SpentBy(txs[..i], vs[..i]), Hashes(txs[..i], vs[..i], Invalid), Hashes(txs[..i], vs[..i], Pending);
    && (vs[i] == Pending ==> IsHeld(ctx', tx, pending))
    && (tx.txHash in hs && Changes(tx, height, timestamp) && height == TX_UNCONFIRMED ==>
          !IsHeld(ctx', tx, pending) && forall j :: 0 <= j < |tx.inputs| ==> !BadInput(tx.inputs[j], spent, invalid))
  }

  ghost predicate AllHarmless(ctx: Context, ctx': Context, txs: seq<Tx>, hs: set<Hash>, height: UInt32, timestamp: UInt32) {
    forall i :: 0 <= i < |txs| ==> Harmless(ctx, ctx', txs, hs, height, timestamp, i)
  }

  // An unconfirmed transaction that would be pending: too large, with a dust output, or with an input that can be
  // replaced, is locked or spends a pending transaction.
  predicate IsHeld(ctx: Context, tx: Tx, pending: set<Hash>) {
    || TxSize(tx) > TX_MAX_SIZE
    || (exists j :: 0 <= j < |tx.outputs| && IsDust(tx.outputs[j]))
    || (exists j :: 0 <= j < |tx.inputs| && IsOpen(ctx, tx.lockTime, tx.inputs[j], pending))
  }

  lemma HeldLater(ctx: Context, ctx': Context, tx: Tx, pending: set<Hash>)
    requires Later(ctx, ctx') && IsHeld(ctx', tx, pending)
    ensures IsHeld(ctx, tx, pending)
  {
    if j :| 0 <= j < |tx.inputs| && IsOpen(ctx', tx.lockTime, tx.inputs[j], pending) {
      assert IsOpen(ctx, tx.lockTime, tx.inputs[j], pending);
    }
  }

  // One transaction keeps its verdict exactly when the report is harmless for it; all that the report changes were
  // accepted.
  lemma HarmlessIff(ctx: Context, ctx': Context, txs: seq<Tx>, txs': seq<Tx>, hs: set<Hash>, height: UInt32,
                    timestamp: UInt32, i: nat)
    requires ReportedIn(txs', txs, hs, height, timestamp) && Later(ctx, ctx') && i < |txs|
    requires txs[i].txHash in hs && Changes(txs[i], height, timestamp) ==> Verdicts(ctx, txs)[i] == Accepted
    ensures Stays(ctx, ctx', txs, txs', i) <==> Harmless(ctx, ctx', txs, hs, height, timestamp, i)
  {
    var tx, tx', vs := txs[i], txs'[i], Verdicts(ctx, txs);
    var spent, invalid, pending := SpentBy(txs[..i], vs[..i]), Hashes(txs[..i], vs[..i], Invalid), Hashes(txs[..i], vs[..i], Pending);
    VerdictAt(ctx, txs, i);
    hide Verdicts, SpentBy, Hashes;
    assert vs[i] == Judge(ctx, tx, spent, invalid, pending);
    JudgeIs(ctx, tx, spent, invalid, pending);
    JudgeIs(ctx', tx', spent, invalid, pending);
    SameHeld(ctx', tx, tx', pending);
    hide Judge, IsHeld, BadInput;
    if IsHeld(ctx', tx, pending) {
      HeldLater(ctx, ctx', tx, pending);
    }
  }

  lemma SameHeld(ctx: Context, tx: Tx, tx': Tx, pending: set<Hash>)
    requires tx.inputs == tx'.inputs && tx.outputs == tx'.outputs && tx.lockTime == tx'.lockTime
    ensures IsHeld(ctx, tx, pending) == IsHeld(ctx, tx', pending)
  {
  }

  lemma JudgeIs(ctx: Context, tx: Tx, spent: set<OutPoint>, invalid: set<Hash>, pending: set<Hash>)
    ensures var bad := exists j :: 0 <= j < |tx.inputs| && BadInput(tx.inputs[j], spent, invalid);
      Judge(ctx, tx, spent, invalid, pending) ==
        if tx.blockHeight != TX_UNCONFIRMED then Accepted else if bad then Invalid
        else if IsHeld(ctx, tx, pending) then Pending else Accepted
  {
  }

  // The ledger that the wallet leaves alone after a report is the recomputed one exactly when the report is harmless.
  lemma SkippedIff(ctx: Context, ctx': Context, txs: seq<Tx>, txs': seq<Tx>, hs: set<Hash>,
                   height: UInt32, timestamp: UInt32)
    requires Lists(ctx.allTx, ctx.allAddrs, txs) && Lists(ctx'.allTx, ctx'.allAddrs, txs') && Agree(ctx, ctx')
    requires ReportedIn(txs', txs, hs, height, timestamp) && Later(ctx, ctx') && Numbered(txs) && Numbered(txs')
    requires var s := Run(ctx, txs); !AnyMatters(ctx.allTx, ctx.allAddrs, s.pending, s.invalid, hs, height, timestamp)
    ensures Run(ctx, txs) == Run(ctx', txs') <==> AllHarmless(ctx, ctx', txs, hs, height, timestamp)
    ensures Run(ctx, txs).invalid == Run(ctx', txs').invalid && Run(ctx, txs).pending == Run(ctx', txs').pending ==>
      Run(ctx, txs) == Run(ctx', txs')
  {
    ListsRegistered(ctx, txs);
    ListsRegistered(ctx', txs');
    ReportedAlike(txs', txs, hs, height, timestamp);
    LedgerKeptIff(ctx, ctx', txs, txs');
    forall i | 0 <= i < |txs|
      ensures Stays(ctx, ctx', txs, txs', i) <==> Harmless(ctx, ctx', txs, hs, height, timestamp, i)
    {
      AcceptedUnlessMatters(ctx, txs, hs, height, timestamp, i);
      HarmlessIff(ctx, ctx', txs, txs', hs, height, timestamp, i);
    }
  }

  lemma KnownAgree(ctx: Context, ctx': Context, hs: set<Hash>, height: UInt32, timestamp: UInt32)
    requires KnownAfter(ctx'.allTx, ctx.allTx, ctx.allAddrs, hs, height, timestamp) && ctx.allAddrs == ctx'.allAddrs
    ensures Agree(ctx, ctx')
  {
    hide IsDropped;
  }

  lemma ReportedAlike(txs': seq<Tx>, txs: seq<Tx>, hs: set<Hash>, height: UInt32, timestamp: UInt32)
    requires ReportedIn(txs', txs, hs, height, timestamp)
    ensures AllAlike(txs, txs')
  {
  }

  lemma AcceptedUnlessMatters(ctx: Context, txs: seq<Tx>, hs: set<Hash>, height: UInt32,
                              timestamp: UInt32, i: nat)
    requires Lists(ctx.allTx, ctx.allAddrs, txs) && Numbered(txs) && i < |txs|
    requires var s := Run(ctx, txs); !AnyMatters(ctx.allTx, ctx.allAddrs, s.pending, s.invalid, hs, height, timestamp)
    ensures txs[i].txHash in hs && Changes(txs[i], height, timestamp) ==> Verdicts(ctx, txs)[i] == Accepted
  {
    var s, vs, h := Run(ctx, txs), Verdicts(ctx, txs), txs[i].txHash;
    RunMeaning(ctx, txs);
    assert R.DistinctHashes(txs);
    OwnHash(txs, vs, Invalid, i);
    OwnHash(txs, vs, Pending, i);
    assert IsListed(ctx.allTx, ctx.allAddrs, txs[i]);
    hide Run, Verdicts, Hashes, IsOurs, Lists, SpentBy, Listed;
    assert Matters(ctx.allTx, ctx.allAddrs, s.pending, s.invalid, h, height, timestamp) <==>
      Changes(txs[i], height, timestamp) && vs[i] != Accepted;
  }

  // A confirmation that does not make the wallet recompute its ledger is harmless exactly when every pending transaction
  // stays pending.
  lemma {:induction false} ConfirmedKeeps(ctx: Context, ctx': Context, txs: seq<Tx>, txs': seq<Tx>, hs: set<Hash>,
                                          height: UInt32, timestamp: UInt32)
    requires Lists(ctx.allTx, ctx.allAddrs, txs) && Lists(ctx'.allTx, ctx'.allAddrs, txs') && Agree(ctx, ctx')
    requires ReportedIn(txs', txs, hs, height, timestamp) && Later(ctx, ctx') && Numbered(txs) && Numbered(txs')
    requires var s := Run(ctx, txs); !AnyMatters(ctx.allTx, ctx.allAddrs, s.pending, s.invalid, hs, height, timestamp)
    requires height != TX_UNCONFIRMED
    ensures Run(ctx, txs) == Run(ctx', txs') <==>
      forall i :: 0 <= i < |txs| && Verdicts(ctx, txs)[i] == Pending ==>
        IsHeld(ctx', txs[i], Hashes(txs[..i], Verdicts(ctx, txs)[..i], Pending))
  {
    SkippedIff(ctx, ctx', txs, txs', hs, height, timestamp);
    hide Run, Verdicts, Hashes, SpentBy, IsHeld, Lists, AnyMatters, Agree;
    assert forall i :: 0 <= i < |txs| ==>
      (Harmless(ctx, ctx', txs, hs, height, timestamp, i) <==> (Verdicts(ctx, txs)[i] == Pending ==>
        IsHeld(ctx', txs[i], Hashes(txs[..i], Verdicts(ctx, txs)[..i], Pending))));
  }

  // ---- examples ----

  const REPLACEABLE := Tx(1, 1, [Input(9, 0, 0, [], Some([]), 0)], [Output("a", 600000, [])], 0, 100, 0)
  const HELD := Reported(REPLACEABLE, TX_UNCONFIRMED, 0)

  // Reporting an accepted transaction as unconfirmed can make it pending. It does not make the wallet recompute its
  // ledger, which keeps the output on the list.
  lemma UnconfirmedChanges()
    ensures var known, ctx := map[1 := REPLACEABLE], Context(map[1 := REPLACEABLE], {"a"}, 100, 0);
      var ctx', s := Context(map[1 := HELD], {"a"}, TX_UNCONFIRMED, 0), Run(ctx, [REPLACEABLE]);
      && Lists(known, {"a"}, [REPLACEABLE]) && Lists(ctx'.allTx, {"a"}, [HELD]) && Agree(ctx, ctx') && Later(ctx, ctx')
      && ReportedIn([HELD], [REPLACEABLE], {1}, TX_UNCONFIRMED, 0)
      && KnownAfter(ctx'.allTx, known, {"a"}, {1}, TX_UNCONFIRMED, 0)
      && !AnyMatters(known, {"a"}, s.pending, s.invalid, {1}, TX_UNCONFIRMED, 0)
      && Verdicts(ctx, [REPLACEABLE]) == [Accepted] && Verdicts(ctx', [HELD]) == [Pending]
      && s.utxos == [OutPoint(1, 0)] && Run(ctx', [HELD]).utxos == []
  {
    var known, ctx := map[1 := REPLACEABLE], Context(map[1 := REPLACEABLE], {"a"}, 100, 0);
    var ctx' := Context(map[1 := HELD], {"a"}, TX_UNCONFIRMED, 0);
    ReceiveOne(ctx, REPLACEABLE);
    HeldRun(ctx', HELD);
    hide Run, Verdicts;
    assert REPLACEABLE.outputs[0].address in {"a"} && HELD.outputs[0].address in {"a"};
    assert IsOurs(known, {"a"}, REPLACEABLE) && IsOurs(ctx'.allTx, {"a"}, HELD);
    hide IsOurs;
    assert IsListed(known, {"a"}, REPLACEABLE) && IsListed(ctx'.allTx, {"a"}, HELD);
    hide IsListed;
  }

  // An unconfirmed transaction that can be replaced is pending.
  lemma HeldRun(ctx: Context, tx: Tx)
    requires tx.blockHeight == TX_UNCONFIRMED && |tx.outputs| <= UINT32_MAX
    requires tx.inputs != [] && tx.inputs[0].sequence < UINT32_MAX - 1
    ensures Verdicts(ctx, [tx]) == [Pending] && Run(ctx, [tx]).utxos == []
  {
    assert [tx][..0] == [];
    assert IsOpen(ctx, tx.lockTime, tx.inputs[0], {});
    assert Judge(ctx, tx, {}, {}, {}) == Pending;
    assert Verdicts(ctx, [tx]) == [] + [Pending];
  }

  const PARENT := Tx(1, 1, [Input(8, 0, 0, [], Some([]), UINT32_MAX)], [Output("a", 600000, [])], 0, TX_UNCONFIRMED, 0)
  const CHILD := Tx(2, 1, [Input(1, 0, 0, [], Some([]), UINT32_MAX)], [Output("b", 590000, [])], 0, TX_UNCONFIRMED, 0)
  const OTHER := Tx(3, 1, [Input(9, 0, 0, [], Some([]), UINT32_MAX)], [Output("a", 600000, [])], 0, TX_UNCONFIRMED, 0)

  // Three transactions of a wallet, of which the second spends the first. Confirming the third one hides the second from
  // the search for what spends the first: removing the first, which then takes nothing along, leaves its child behind,
  // and on the list although it no longer belongs to the wallet.
  lemma HiddenChild()
    ensures var known, addrs, before := map[1 := PARENT, 2 := CHILD, 3 := OTHER], {"a"}, [PARENT, CHILD, OTHER];
      var all, txs := known[3 := Reported(OTHER, 100, 0)], [PARENT, CHILD, Reported(OTHER, 100, 0)];
      && Lists(known, addrs, before) && R.HeightSorted(before) && R.ChildrenAbove(before, known)
      && ReportedIn(txs, before, {3}, 100, 0) && KnownAfter(all, known, addrs, {3}, 100, 0)
      && Lists(all, addrs, txs) && !R.HeightSorted(txs)
      && R.SearchEnd(before, TX_UNCONFIRMED) == 0 && R.SearchEnd(txs, TX_UNCONFIRMED) == 3
      && R.Without(txs, {1}) == [CHILD, Reported(OTHER, 100, 0)] && R.SpendsTx(CHILD, 1)
      && !Lists(all - {1}, addrs, R.Without(txs, {1}))
  {
    var known, addrs, before := map[1 := PARENT, 2 := CHILD, 3 := OTHER], {"a"}, [PARENT, CHILD, OTHER];
    var other := Reported(OTHER, 100, 0);
    var all, txs := known[3 := other], [PARENT, CHILD, other];
    R.SearchEndMeaning(before, TX_UNCONFIRMED);
    assert CHILD.inputs[0].txHash == 1 && txs[1].blockHeight > txs[2].blockHeight;
    ThreeListed(known, addrs, PARENT, CHILD, OTHER);
    ThreeListed(all, addrs, PARENT, CHILD, other);
    WithoutFirst(PARENT, CHILD, other);
    assert !IsListed(all - {1}, addrs, CHILD);
    assert R.Without(txs, {1})[0] == CHILD;
  }

  // Reporting the child that was left behind as confirmed forgets it, while it is still listed.
  lemma FreedChild()
    ensures var known, other := map[2 := CHILD, 3 := Reported(OTHER, 100, 0)], Reported(OTHER, 100, 0);
      && Shared(known, [CHILD, other]) && InSet(known, [CHILD, other])
      && Frees(known, {"a"}, [CHILD, other], {2}, 101, 0)
  {
    var known, txs := map[2 := CHILD, 3 := Reported(OTHER, 100, 0)], [CHILD, Reported(OTHER, 100, 0)];
    assert !SpendsOurs(known, {"a"}, CHILD.inputs[0]);
    assert txs[0] == CHILD && IsDropped(known, {"a"}, txs[0], 101, 0);
  }

  lemma ThreeListed(known: map<Hash, Tx>, addrs: set<string>, parent: Tx, child: Tx, other: Tx)
    requires known == map[1 := parent, 2 := child, 3 := other] && addrs == {"a"}
    requires parent == PARENT && child == CHILD && other in {OTHER, Reported(OTHER, 100, 0)}
    ensures Lists(known, addrs, [parent, child, other])
  {
    assert parent.outputs[0].address in addrs && other.outputs[0].address in addrs;
    assert SpendsOurs(known, addrs, child.inputs[0]);
    assert IsListed(known, addrs, parent) && IsListed(known, addrs, child) && IsListed(known, addrs, other);
  }

  lemma WithoutFirst(parent: Tx, child: Tx, other: Tx)
    requires parent.txHash == 1 && child.txHash == 2 && other.txHash == 3
    ensures R.Without([parent, child, other], {1}) == [child, other]
  {
    assert [parent, child, other][..2] == [parent, child] && [parent, child][..1] == [parent] && [parent][..0] == [];
    assert R.Without([parent], {1}) == [] + [];
    assert R.Without([parent, child], {1}) == [] + [child];
    assert R.Without([parent, child, other], {1}) == [child] + [other];
  }
}
