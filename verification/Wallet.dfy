/**
 The wallet: its transaction list and the ledger recomputed from it, the removal of transactions, and the
 selection of coins. Its hash sets are sets and maps here; BitWSets shows that they are kept as such.
 */
module Wallets {
  import opened LittleEndian
  import opened Options
  import opened Transactions
  import opened Ledger
  import I = Insertion
  import R = Removal
  import U = Updates
  import opened CoinSelection
  import Q = Retries

  class Wallet {
    var transactions: seq<Tx>
    var allTx: map<Hash, Tx>
    var allAddrs: set<string>
    var internalChain: seq<string>
    var externalChain: seq<string>
    var blockHeight: UInt32
    var feePerKb: UInt64

    var utxos: seq<OutPoint>
    var balanceHist: seq<UInt64>
    var spentOutputs: set<OutPoint>
    var invalidTx: set<Hash>
    var pendingTx: set<Hash>
    var usedAddrs: set<string>
    var balance: UInt64
    var totalSent: UInt64
    var totalReceived: UInt64

    function Ctx(now: int): Context
      reads this
    {
      Context(allTx, allAddrs, blockHeight, now)
    }

    // The ledger is the one that recomputing it from the transaction list gives.
    ghost predicate Shows(s: State)
      reads this`utxos, this`balanceHist, this`spentOutputs, this`invalidTx, this`pendingTx, this`usedAddrs, this`balance,
            this`totalSent, this`totalReceived
    {
      && utxos == s.utxos && balanceHist == s.hist && spentOutputs == s.spent && invalidTx == s.invalid
      && pendingTx == s.pending && usedAddrs == s.used && balance == s.balance
      && totalSent == s.totalSent && totalReceived == s.totalReceived
    }

    // The same, while the recomputation keeps the balance in a local variable.
    ghost predicate Computing(s: State, current: UInt64, previous: UInt64)
      reads this
    {
      && utxos == s.utxos && balanceHist == s.hist && spentOutputs == s.spent && invalidTx == s.invalid
      && pendingTx == s.pending && usedAddrs == s.used && current == s.balance && previous == s.prevBalance
      && totalSent == s.totalSent && totalReceived == s.totalReceived
    }

    // The ledger is the one that recomputing it now gives.
    ghost predicate Current(now: int)
      reads this
    {
      Numbered(transactions) && Shows(Run(Ctx(now), transactions))
    }

    lemma CurrentIs(now: int)
      ensures Current(now) <==> Numbered(transactions) && Shows(Run(Ctx(now), transactions))
      ensures Ctx(now).allTx == allTx && Ctx(now).allAddrs == allAddrs
    {
    }

    // The fields of the ledger.
    ghost function Fields(): State
      reads this`utxos, this`balanceHist, this`spentOutputs, this`invalidTx, this`pendingTx, this`usedAddrs, this`balance,
            this`totalSent, this`totalReceived
    {
      State(utxos, balanceHist, spentOutputs, invalidTx, pendingTx, usedAddrs, balance, 0, totalSent, totalReceived)
    }

    method HasBadInput(tx: Tx) returns (r: bool)
      ensures r <==> exists j :: 0 <= j < |tx.inputs| && BadInput(tx.inputs[j], spentOutputs, invalidTx)
    {
      r := false;
      var j := 0;
      while !r && j < |tx.inputs|
        invariant 0 <= j <= |tx.inputs|
        invariant !r ==> forall i :: 0 <= i < j ==> !BadInput(tx.inputs[i], spentOutputs, invalidTx)
        invariant r ==> exists i :: 0 <= i < j && BadInput(tx.inputs[i], spentOutputs, invalidTx)
      {
        if BadInput(tx.inputs[j], spentOutputs, invalidTx) { r := true; }
        j := j + 1;
      }
    }

    method AddInputs(tx: Tx)
      modifies this`spentOutputs
      ensures spentOutputs == old(spentOutputs) + InputsOf(tx)
    {
      for j := 0 to |tx.inputs|
        invariant spentOutputs == old(spentOutputs) + set i | 0 <= i < j :: tx.inputs[i].Spends()
      {
        spentOutputs := spentOutputs + {tx.inputs[j].Spends()};
      }
    }

    method CheckPending(tx: Tx, now: int) returns (r: bool)
      requires tx.blockHeight == TX_UNCONFIRMED
      ensures r <==> IsPending(Ctx(now), tx, pendingTx)
    {
      var size := TransactionSize(tx);
      r := size > TX_MAX_SIZE;
      var j := 0;
      while !r && j < |tx.outputs|
        invariant 0 <= j <= |tx.outputs|
        invariant !r ==> TxSize(tx) <= TX_MAX_SIZE && forall i :: 0 <= i < j ==> !IsDust(tx.outputs[i])
        invariant r ==> IsPending(Ctx(now), tx, pendingTx)
      {
        if IsDust(tx.outputs[j]) { r := true; }
        j := j + 1;
      }
      j := 0;
      while !r && j < |tx.inputs|
        invariant 0 <= j <= |tx.inputs|
        invariant !r ==> forall i :: 0 <= i < j ==> !IsOpen(Ctx(now), tx.lockTime, tx.inputs[i], pendingTx)
        invariant r ==> IsPending(Ctx(now), tx, pendingTx)
      {
        if IsOpen(Ctx(now), tx.lockTime, tx.inputs[j], pendingTx) { r := true; }
        j := j + 1;
      }
    }

    // Puts the outputs of tx to the wallet on the list.
    method AddOutputs(tx: Tx, current: UInt64, ghost now: int) returns (next: UInt64)
      requires IsRegistered(Ctx(now), tx)
      modifies this`utxos, this`usedAddrs
      ensures utxos == old(utxos) + WalletOutputs(Ctx(now), tx, |tx.outputs|)
      ensures usedAddrs == old(usedAddrs) + Addresses(tx, |tx.outputs|)
      ensures next == Credited(Ctx(now), current, tx, |tx.outputs|)
    {
      next := current;
      ghost var ctx := Ctx(now);
      NoOutputs(ctx, tx, current);
      hide WalletOutputs, Credited, Addresses, Add64;
      for j := 0 to |tx.outputs|
        invariant Ctx(now) == ctx
        invariant utxos == old(utxos) + WalletOutputs(ctx, tx, j)
        invariant usedAddrs == old(usedAddrs) + Addresses(tx, j)
        invariant next == Credited(ctx, current, tx, j)
      {
        var output := tx.outputs[j];
        OneOutput(ctx, tx, j, current);
        OneAddress(tx, j);
        if output.address != "" {
          usedAddrs := usedAddrs + {output.address};
          if output.address in allAddrs {
            utxos := utxos + [OutPoint(tx.txHash, j)];
            next := Add64(next, output.amount);
          }
        }
      }
    }

    lemma NoOutputs(ctx: Context, tx: Tx, current: UInt64)
      requires |tx.outputs| <= UINT32_MAX
      ensures WalletOutputs(ctx, tx, 0) == [] && Addresses(tx, 0) == {}
      ensures Credited(ctx, current, tx, 0) == current
    {
    }

    // The balance once the first k outputs of tx to the wallet are added.
    static function Credited(ctx: Context, current: UInt64, tx: Tx, k: nat): UInt64
      requires k <= |tx.outputs| <= UINT32_MAX
    {
      Mod64(current + Total(ctx, WalletOutputs(ctx, tx, k)))
    }

    lemma OneOutput(ctx: Context, tx: Tx, j: nat, current: UInt64)
      requires IsRegistered(ctx, tx) && j < |tx.outputs|
      ensures WalletOutputs(ctx, tx, j + 1) == WalletOutputs(ctx, tx, j) +
        (if Pays(ctx, tx.outputs[j]) then [OutPoint(tx.txHash, j)] else [])
      ensures Credited(ctx, current, tx, j + 1) ==
        if Pays(ctx, tx.outputs[j]) then Add64(Credited(ctx, current, tx, j), tx.outputs[j].amount)
        else Credited(ctx, current, tx, j)
    {
      var ops, op := WalletOutputs(ctx, tx, j), OutPoint(tx.txHash, j);
      assert WalletOutputs(ctx, tx, j + 1) == ops + (if Pays(ctx, tx.outputs[j]) then [op] else []);
      assert Amount(ctx, op) == tx.outputs[j].amount;
      hide WalletOutputs, Total, Amount, Mod64;
      assert ops + [] == ops;
      TotalOne(ctx, ops, op);
      ModAgain(current + Total(ctx, ops), Amount(ctx, op));
      assert current + Total(ctx, ops) + Amount(ctx, op) == current + Total(ctx, ops + [op]);
    }

    lemma OneAddress(tx: Tx, j: nat)
      requires j < |tx.outputs|
      ensures Addresses(tx, j + 1) == Addresses(tx, j) +
        (if tx.outputs[j].address != "" then {tx.outputs[j].address} else {})
    {
    }

    // Takes spent outputs off the list, from its end.
    method Prune(current: UInt64, ghost now: int) returns (next: UInt64)
      requires AllKnown(Ctx(now), utxos)
      modifies this`utxos
      ensures utxos == Unspent(old(utxos), spentOutputs)
      ensures next == After(Ctx(now), current, old(utxos), spentOutputs)
    {
      next := current;
      var j := |utxos|;
      ghost var ctx, ops := Ctx(now), utxos;
      assert ops[j..] == [] && ops[..j] == ops;
      hide Unspent, After, Amount;
      PruneNone(ctx, current, spentOutputs);
      while j > 0
        invariant 0 <= j <= |ops| && Ctx(now) == ctx && AllKnown(ctx, ops)
        invariant utxos == ops[..j] + Unspent(ops[j..], spentOutputs)
        invariant next == After(ctx, current, ops[j..], spentOutputs)
      {
        var op := utxos[j - 1];
        RemoveAt(ops, j, Unspent(ops[j..], spentOutputs));
        PruneOne(ctx, ops, j, spentOutputs, current);
        if op in spentOutputs {
          assert Known(ctx, ops[j - 1]);
          var amount := AmountOf(op, now);
          next := Sub64(next, amount);
          utxos := utxos[..j - 1] + utxos[j..];
        }
        j := j - 1;
      }
      assert ops[0..] == ops;
    }

    // The amount of an output on the list; looking it up never fails.
    method AmountOf(op: OutPoint, ghost now: int) returns (amount: UInt64)
      requires Known(Ctx(now), op)
      ensures amount == Amount(Ctx(now), op)
    {
      var t := allTx[op.hash];
      amount := t.outputs[op.n].amount;
    }

    lemma RemoveAt(ops: seq<OutPoint>, j: nat, rest: seq<OutPoint>)
      requires 0 < j <= |ops|
      ensures (ops[..j] + rest)[j - 1] == ops[j - 1]
      ensures ops[..j] + rest == ops[..j - 1] + ([ops[j - 1]] + rest)
      ensures (ops[..j] + rest)[..j - 1] + (ops[..j] + rest)[j..] == ops[..j - 1] + rest
    {
    }

    lemma PruneNone(ctx: Context, current: UInt64, spent: set<OutPoint>)
      ensures Unspent([], spent) == [] && After(ctx, current, [], spent) == current
    {
    }

    // The balance once the spent ones among the given outputs are taken off.
    static function After(ctx: Context, current: UInt64, ops: seq<OutPoint>, spent: set<OutPoint>): UInt64 {
      Mod64(current - Total(ctx, Spent(ops, spent)))
    }

    lemma SplitFirst(x: OutPoint, rest: seq<OutPoint>, spent: set<OutPoint>)
      ensures Unspent([x] + rest, spent) == if x in spent then Unspent(rest, spent) else [x] + Unspent(rest, spent)
      ensures Spent([x] + rest, spent) == if x in spent then [x] + Spent(rest, spent) else Spent(rest, spent)
    {
      SplitSingle(x, spent);
      hide Unspent, Spent;
      UnspentAppend([x], rest, spent);
      assert [] + Unspent(rest, spent) == Unspent(rest, spent);
      assert [] + Spent(rest, spent) == Spent(rest, spent);
    }

    lemma SplitSingle(x: OutPoint, spent: set<OutPoint>)
      ensures Unspent([x], spent) == if x in spent then [] else [x]
      ensures Spent([x], spent) == if x in spent then [x] else []
    {
      assert [x][..0] == [];
    }

    lemma PruneOne(ctx: Context, ops: seq<OutPoint>, j: nat, spent: set<OutPoint>, current: UInt64)
      requires 0 < j <= |ops|
      ensures Unspent(ops[j - 1..], spent) ==
        if ops[j - 1] in spent then Unspent(ops[j..], spent) else [ops[j - 1]] + Unspent(ops[j..], spent)
      ensures After(ctx, current, ops[j - 1..], spent) ==
        if ops[j - 1] in spent then Sub64(After(ctx, current, ops[j..], spent), Amount(ctx, ops[j - 1]))
        else After(ctx, current, ops[j..], spent)
    {
      hide Unspent, Spent, Mod64, Total, Amount;
      var x, rest := ops[j - 1], ops[j..];
      assert ops[j - 1..] == [x] + rest;
      SplitFirst(x, rest, spent);
      TotalCons(ctx, x, Spent(rest, spent));
      TakeOff(current, Total(ctx, Spent(rest, spent)), Amount(ctx, x));
    }

    lemma TotalCons(ctx: Context, x: OutPoint, rest: seq<OutPoint>)
      ensures Total(ctx, [x] + rest) == Total(ctx, rest) + Amount(ctx, x)
    {
      TotalAppend(ctx, [x], rest);
      assert [x][..0] == [] && Total(ctx, []) == 0;
    }

    lemma TakeOff(current: nat, gone: nat, amount: nat)
      ensures Sub64(Mod64(current - gone), amount) == Mod64(current - (gone + amount))
    {
      ModAgain(current - gone, amount);
      assert current - gone - amount == current - (gone + amount);
    }

    // One transaction of the recomputation.
    method Process(tx: Tx, current: UInt64, previous: UInt64, now: int, ghost s: State)
        returns (next: UInt64, next': UInt64)
      requires IsRegistered(Ctx(now), tx) && Computing(s, current, previous) && AllKnown(Ctx(now), s.utxos)
      modifies this`utxos, this`balanceHist, this`spentOutputs, this`invalidTx, this`pendingTx, this`usedAddrs,
               this`totalSent, this`totalReceived
      ensures Computing(Step(Ctx(now), s, tx), next, next')
    {
      ghost var ctx := Ctx(now);
      hide TxSize, IsOpen, IsDust, BadInput, InputsOf, Addresses, Relisted, Rebalanced, Add64;
      next, next' := current, previous;
      var isInvalid := false;
      if tx.blockHeight == TX_UNCONFIRMED {
        isInvalid := HasBadInput(tx);
      }
      assert isInvalid <==> IsInvalid(tx, s.spent, s.invalid);
      if isInvalid {
        invalidTx := invalidTx + {tx.txHash};
        balanceHist := balanceHist + [next];
        return;
      }
      AddInputs(tx);
      var isPending := false;
      if tx.blockHeight == TX_UNCONFIRMED {
        isPending := CheckPending(tx, now);
      }
      assert isPending <==> IsPending(ctx, tx, s.pending);
      if isPending {
        pendingTx := pendingTx + {tx.txHash};
        balanceHist := balanceHist + [next];
        return;
      }
      next := AcceptTx(tx, next, now, s);
      if next' < next { totalReceived := Add64(totalReceived, next - next'); }
      if next < next' { totalSent := Add64(totalSent, next' - next); }
      balanceHist := balanceHist + [next];
      next' := next;
    }

    // A transaction may come before the one it spends: all outputs on the list are checked again, not only the new ones.
    method AcceptTx(tx: Tx, current: UInt64, now: int, ghost s: State) returns (next: UInt64)
      requires IsRegistered(Ctx(now), tx) && AllKnown(Ctx(now), s.utxos)
      requires utxos == s.utxos && spentOutputs == s.spent + InputsOf(tx)
      modifies this`utxos, this`usedAddrs
      ensures utxos == Relisted(Ctx(now), s.utxos, s.spent, tx)
      ensures usedAddrs == old(usedAddrs) + Addresses(tx, |tx.outputs|)
      ensures next == Rebalanced(Ctx(now), current, s.utxos, s.spent, tx)
    {
      ghost var ctx := Ctx(now);
      hide InputsOf, WalletOutputs, Addresses, Unspent, Known, Credited, After, Rebalanced;
      WalletOutputsKnown(ctx, tx, |tx.outputs|);
      next := AddOutputs(tx, current, now);
      next := Prune(next, now);
      TakeOffTotal(ctx, current, s.utxos, s.spent, tx);
    }

    lemma TakeOffTotal(ctx: Context, current: UInt64, utxos: seq<OutPoint>, spent: set<OutPoint>, tx: Tx)
      requires |tx.outputs| <= UINT32_MAX
      ensures var paid := WalletOutputs(ctx, tx, |tx.outputs|);
        After(ctx, Credited(ctx, current, tx, |tx.outputs|), utxos + paid, spent + InputsOf(tx))
          == Rebalanced(ctx, current, utxos, spent, tx)
    {
      var paid := WalletOutputs(ctx, tx, |tx.outputs|);
      ModAgain(current + Total(ctx, paid), Total(ctx, Spent(utxos + paid, spent + InputsOf(tx))));
    }

    // Recomputes the ledger from the transaction list.
    method UpdateBalance(now: int)
      requires Registered(Ctx(now), transactions) && Numbered(transactions)
      modifies this`utxos, this`balanceHist, this`spentOutputs, this`invalidTx, this`pendingTx, this`usedAddrs,
               this`balance, this`totalSent, this`totalReceived
      ensures Shows(Run(Ctx(now), transactions)) && |balanceHist| == |transactions|
    {
      hide Run, Step, Judge, AllKnown, Known, Numbered, Registered, IsRegistered, Meets;
      ghost var ctx := Ctx(now);
      var current, previous: UInt64 := 0, 0;
      utxos, balanceHist, spentOutputs, invalidTx, pendingTx, usedAddrs := [], [], {}, {}, {}, {};
      totalSent, totalReceived := 0, 0;
      RunStart(ctx, transactions);
      for i := 0 to |transactions|
        invariant Ctx(now) == ctx
        invariant Computing(Run(ctx, transactions[..i]), current, previous)
      {
        RunNext(ctx, transactions, i);
        current, previous := Process(transactions[i], current, previous, now, Run(ctx, transactions[..i]));
      }
      assert transactions[..|transactions|] == transactions;
      HistLength(ctx, transactions);
      balance := current;
    }

    lemma HistLength(ctx: Context, txs: seq<Tx>)
      requires Numbered(txs)
      ensures |Run(ctx, txs).hist| == |txs|
    {
      hide Run, Verdicts, SpentBy, Hashes, Listed;
      RunMeaning(ctx, txs);
    }

    lemma RunStart(ctx: Context, txs: seq<Tx>)
      requires Numbered(txs)
      ensures txs[..0] == [] && Run(ctx, txs[..0]) == EMPTY
      ensures forall i :: 0 <= i <= |txs| ==> Numbered(txs[..i])
    {
    }

    lemma RunNext(ctx: Context, txs: seq<Tx>, i: nat)
      requires Numbered(txs) && Registered(ctx, txs) && i < |txs|
      ensures IsRegistered(ctx, txs[i]) && AllKnown(ctx, Run(ctx, txs[..i]).utxos)
      ensures Run(ctx, txs[..i + 1]) == Step(ctx, Run(ctx, txs[..i]), txs[i])
    {
      assert txs[..i + 1][..i] == txs[..i];
      RunKnown(ctx, txs[..i]);
    }

    // ---- removal ----

    // What every operation keeps: the known transactions and the ones they spend form no cycle, and the list is
    // registered and without repetitions.
    ghost predicate Sound(rank: Hash -> nat, top: nat)
      reads this`allTx, this`transactions
    {
      SoundOf(allTx, transactions, rank, top)
    }

    static ghost predicate SoundOf(known: map<Hash, Tx>, txs: seq<Tx>, rank: Hash -> nat, top: nat) {
      && I.KnownRanked(known, rank) && R.Ranked(txs, rank, top) && R.DistinctHashes(txs) && Numbered(txs)
      && forall k :: 0 <= k < |txs| ==> txs[k].txHash in known && known[txs[k].txHash] == txs[k]
    }

    lemma SoundIs(rank: Hash -> nat, top: nat)
      ensures Sound(rank, top) <==> SoundOf(allTx, transactions, rank, top)
    {
    }

    lemma SoundRegistered(now: int, rank: Hash -> nat, top: nat)
      requires Sound(rank, top)
      ensures Registered(Ctx(now), transactions) && Numbered(transactions)
    {
      hide R.DistinctHashes, R.Ranked, I.KnownRanked;
    }

    // What all operations keep but those that set heights or add a transaction whose height does not fit: the list is
    // sorted by height, and no transaction is below one that it spends.
    ghost predicate Ordered()
      reads this`allTx, this`transactions
    {
      R.HeightSorted(transactions) && R.ChildrenAbove(transactions, allTx)
    }

    // The list holds transactions of the wallet.
    ghost predicate Owned()
      reads this`allTx, this`transactions, this`allAddrs
    {
      U.AllOurs(allTx, allAddrs, transactions)
    }

    lemma SoundLists(rank: Hash -> nat, top: nat)
      requires Sound(rank, top)
      ensures U.Lists(allTx, allAddrs, transactions) <==> Owned()
    {
      hide U.IsOurs;
      if Owned() {
        forall k | 0 <= k < |transactions| ensures U.IsListed(allTx, allAddrs, transactions[k]) {
          assert U.IsOurs(allTx, allAddrs, transactions[k]);
        }
      }
      if U.Lists(allTx, allAddrs, transactions) {
        forall k | 0 <= k < |transactions| ensures U.IsOurs(allTx, allAddrs, transactions[k]) {
          assert U.IsListed(allTx, allAddrs, transactions[k]);
        }
      }
    }

    // The transactions that spend tx, searched from the end of the list down to the first lower one.
    method Dependents(tx: Tx) returns (hashes: seq<Hash>)
      requires tx.txHash in allTx && allTx[tx.txHash] == tx
      ensures Found(tx.txHash, hashes)
    {
      R.SearchEndMeaning(transactions, tx.blockHeight);
      hashes := [];
      var i := |transactions|;
      while i > 0 && transactions[i - 1].blockHeight >= tx.blockHeight
        invariant 0 <= i <= |transactions|
        invariant forall k :: i <= k < |transactions| ==> transactions[k].blockHeight >= tx.blockHeight
        invariant forall g :: g in hashes <==>
          exists k :: i <= k < |transactions| && transactions[k].txHash == g && g != tx.txHash
                      && R.SpendsTx(transactions[k], tx.txHash)
      {
        var t := transactions[i - 1];
        if t.txHash != tx.txHash {
          var spends := SpendsHash(t, tx.txHash);
          if spends { hashes := hashes + [t.txHash]; }
        }
        i := i - 1;
      }
      assert i == R.SearchEnd(transactions, tx.blockHeight);
    }

    static method SpendsHash(t: Tx, h: Hash) returns (r: bool)
      ensures r <==> R.SpendsTx(t, h)
    {
      var j := 0;
      while j < |t.inputs|
        invariant 0 <= j <= |t.inputs| && forall i :: 0 <= i < j ==> t.inputs[i].txHash != h
      {
        if t.inputs[j].txHash == h { return true; }
        j := j + 1;
      }
      return false;
    }

    // No search for dependents that removing a transaction starts misses one: none of its dependents, nor itself, has a
    // spender before the last listed transaction below its height. On an ordered list it is so for all of them.
    ghost predicate Traceable(h: Hash)
      reads this`allTx, this`transactions
    {
      R.Traceable(transactions, allTx, h)
    }

    lemma TraceableIs(h: Hash)
      ensures Traceable(h) <==> R.Traceable(transactions, allTx, h)
      ensures Ordered() ==> Traceable(h)
    {
      hide R.Traceable, R.HeightSorted, R.ChildrenAbove;
      if Ordered() { R.OrderedTraceable(transactions, allTx, h); }
    }

    // The search finds transactions that spend h, and all of them if it misses none.
    ghost predicate Found(h: Hash, hashes: seq<Hash>)
      reads this`allTx, this`transactions
      requires h in allTx
    {
      forall g :: g in hashes <==>
        exists i :: R.SearchEnd(transactions, allTx[h].blockHeight) <= i < |transactions| && transactions[i].txHash == g
                    && g != h && R.SpendsTx(transactions[i], h)
    }

    lemma FoundGround(rank: Hash -> nat, top: nat, h: Hash, hashes: seq<Hash>)
      requires Sound(rank, top) && h in allTx && Found(h, hashes)
      ensures forall g :: g in hashes ==> R.IsGround(transactions, {h}, g) && g in allTx
    {
      forall g | g in hashes ensures R.IsGround(transactions, {h}, g) && g in allTx {
        var i :| 0 <= i < |transactions| && transactions[i].txHash == g && R.SpendsTx(transactions[i], h);
        assert R.SpendsAny(transactions[i], {h});
      }
    }

    lemma FoundNone(h: Hash, hashes: seq<Hash>)
      requires h in allTx && Found(h, hashes)
      ensures Found(h, []) ==> hashes == []
    {
      if |hashes| > 0 {
        var g := hashes[0];
        assert g in hashes && g !in [];
        assert !Found(h, []);
      }
    }

    // The search finds every spender, if no search misses one.
    lemma AllDependents(rank: Hash -> nat, top: nat, h: Hash, hashes: seq<Hash>)
      requires Sound(rank, top) && Traceable(h) && h in allTx && Found(h, hashes)
      ensures forall i :: 0 <= i < |transactions| && R.SpendsTx(transactions[i], h) ==> transactions[i].txHash in hashes
    {
      R.TraceableVisible(transactions, allTx, h);
      hide R.Traceable;
      forall i | 0 <= i < |transactions| && R.SpendsTx(transactions[i], h) ensures transactions[i].txHash in hashes {
        assert R.RanksAbove(transactions[i], rank, top);
      }
    }

    lemma SoundKeys(rank: Hash -> nat, top: nat)
      requires Sound(rank, top)
      ensures forall h :: h in allTx ==> allTx[h].txHash == h
      ensures R.Ranked(transactions, rank, top)
    {
    }

    // Removes a transaction that is not found to have dependents.
    method RemoveOne(tx: Tx, now: int, ghost rank: Hash -> nat, ghost top: nat)
      requires Sound(rank, top) && tx.txHash in allTx
      modifies this`transactions, this`allTx, this`utxos, this`balanceHist, this`spentOutputs, this`invalidTx,
               this`pendingTx, this`usedAddrs, this`balance, this`totalSent, this`totalReceived
      ensures Sound(rank, top) && (old(Ordered()) ==> Ordered())
      ensures transactions == R.Without(old(transactions), {tx.txHash}) && allTx == old(allTx) - {tx.txHash}
      ensures Shows(Run(Ctx(now), transactions))
    {
      hide R.Without, R.HeightSorted, R.ChildrenAbove, R.Ranked, I.KnownRanked, Run;
      ghost var before := transactions;
      allTx := allTx - {tx.txHash};
      var i := |transactions|;
      while i > 0 && transactions[i - 1].txHash != tx.txHash
        invariant 0 <= i <= |transactions|
        invariant forall k :: i <= k < |transactions| ==> transactions[k].txHash != tx.txHash
        invariant transactions == before
      {
        i := i - 1;
      }
      if i > 0 {
        R.WithoutOne(transactions, i - 1);
        transactions := transactions[..i - 1] + transactions[i..];
      } else {
        R.WithoutFresh(transactions, tx.txHash);
      }
      StillSound(before, old(allTx), {tx.txHash}, rank, top);
      SoundRegistered(now, rank, top);
      UpdateBalance(now);
    }

    lemma StillSound(before: seq<Tx>, known: map<Hash, Tx>, gone: set<Hash>, rank: Hash -> nat, top: nat)
      requires SoundOf(known, before, rank, top)
      requires transactions == R.Without(before, gone) && allTx == known - gone
      ensures Sound(rank, top)
      ensures R.HeightSorted(before) && R.ChildrenAbove(before, known) ==> Ordered()
    {
      R.WithoutKeeps(before, gone, known, rank, top);
      forall i | 0 <= i < |transactions|
        ensures IsRegistered(Ctx(0), transactions[i])
      {
        var k := R.WithoutIndex(before, gone, i);
      }
      hide I.RanksInputs, R.Without;
    }

    // Removes a transaction and every listed transaction that is found to depend on it, which is every one that does if no
    // search misses one.
    method RemoveTransaction(h: Hash, now: int, ghost rank: Hash -> nat, ghost top: nat)
        returns (ghost gone: set<Hash>)
      requires Sound(rank, top) && rank(h) <= top
      modifies this`transactions, this`allTx, this`utxos, this`balanceHist, this`spentOutputs, this`invalidTx,
               this`pendingTx, this`usedAddrs, this`balance, this`totalSent, this`totalReceived
      ensures Sound(rank, top) && (old(Ordered()) ==> Ordered()) && (old(Traceable(h) && Owned()) ==> Owned())
      ensures transactions == R.Without(old(transactions), gone) && allTx == old(allTx) - gone
      ensures h !in old(allTx) ==> gone == {} && unchanged(this)
      ensures h in old(allTx) ==>
        h in gone && R.Grounded(old(transactions), {h}, gone) && Shows(Run(Ctx(now), transactions))
      ensures h in old(allTx) && old(Traceable(h)) ==> R.IsCascade(old(transactions), h, gone)
      ensures h in old(allTx) && old(Found(h, [])) ==> gone == {h}
      decreases top - rank(h), |transactions|
    {
      hide R.Without, R.IsCascade, R.Partial, R.IsGround, R.Grounded, R.Closed, R.SpendsTx, Run, Shows, Sound, Ordered;
      hide Owned, Found, U.AllOurs, Traceable, R.Traceable;
      SoundKeys(rank, top);
      gone := {};
      R.WithoutNone(transactions);
      if h in allTx {
        ghost var txs, known, traced, owned := transactions, allTx, Traceable(h), Owned();
        var hashes := Dependents(allTx[h]);
        FoundGround(rank, top, h, hashes);
        FoundNone(h, hashes);
        OwnedThen();
        if |hashes| > 0 {
          TraceableIs(h);
          gone := RemoveAll(h, hashes, now, rank, top);
          if traced { R.TraceableWithout(txs, known, gone, h); }
          TraceableIs(h);
          ghost var rest := RemoveTransaction(h, now, rank, top);
          R.PartialEnd(txs, h, gone, rest);
          if traced { R.CascadeEnd(txs, h, gone, rest); }
          R.WithoutTwice(txs, gone, rest);
          gone := gone + rest;
        } else {
          if traced {
            AllDependents(rank, top, h, hashes);
            R.NoDependents(txs, h);
          }
          RemoveOne(allTx[h], now, rank, top);
          gone := {h};
          R.AloneGrounded(txs, h);
        }
        if traced && owned { OwnedRest(txs, known, h, gone); }
      }
    }

    lemma OwnedThen()
      ensures Owned() <==> U.AllOurs(allTx, allAddrs, transactions)
    {
    }

    lemma OwnedRest(before: seq<Tx>, known: map<Hash, Tx>, h: Hash, gone: set<Hash>)
      requires R.IsCascade(before, h, gone) && U.AllOurs(known, allAddrs, before)
      requires transactions == R.Without(before, gone) && allTx == known - gone
      ensures Owned()
    {
      hide R.Without;
      forall i | 0 <= i < |transactions| ensures U.IsOurs(allTx, allAddrs, transactions[i]) {
        var k := R.WithoutIndex(before, gone, i);
        U.OursRest(known, allAddrs, before[k], gone);
      }
    }

    // Removes the dependents of h that were found, from the last one to the first.
    method RemoveAll(h: Hash, hashes: seq<Hash>, now: int, ghost rank: Hash -> nat, ghost top: nat)
        returns (ghost gone: set<Hash>)
      requires Sound(rank, top) && h in allTx && rank(h) <= top && |hashes| > 0
      requires forall g :: g in hashes ==> R.IsGround(transactions, {h}, g) && g in allTx
      modifies this`transactions, this`allTx, this`utxos, this`balanceHist, this`spentOutputs, this`invalidTx,
               this`pendingTx, this`usedAddrs, this`balance, this`totalSent, this`totalReceived
      ensures Sound(rank, top) && (old(Ordered()) ==> Ordered())
      ensures transactions == R.Without(old(transactions), gone) && allTx == old(allTx) - gone
      ensures R.Partial(old(transactions), h, gone) && |transactions| < |old(transactions)| && h in allTx
      ensures old(Traceable(h)) ==> R.Cascading(old(transactions), h, gone)
      ensures forall g :: g in hashes ==> g in gone
      decreases top - rank(h), |transactions|, 0
    {
      hide R.Without, R.Closed, R.Grounded, R.IsGround, R.SpendsTx, R.Ranked, Run, Shows, Sound, Ordered, Owned, Found;
      hide R.Cascading, R.IsCascade, Traceable, R.Traceable;
      gone := {};
      ghost var txs, known, traced := transactions, allTx, Traceable(h);
      TraceableIs(h);
      R.WithoutNone(txs);
      SoundKeys(rank, top);
      R.PartialStart(txs, h);
      R.CascadeStart(txs, h);
      for i := |hashes| downto 0
        invariant Sound(rank, top) && (old(Ordered()) ==> Ordered())
        invariant transactions == R.Without(txs, gone) && allTx == old(allTx) - gone
        invariant R.Partial(txs, h, gone) && (traced ==> R.Cascading(txs, h, gone))
        invariant forall k :: i <= k < |hashes| ==> hashes[k] in gone
      {
        var g := hashes[i];
        RankAboveRoot(txs, rank, top, h, g);
        if traced {
          R.TraceableAbove(txs, known, h, g);
          R.TraceableWithout(txs, known, gone, g);
        }
        TraceableIs(g);
        ghost var more := RemoveTransaction(g, now, rank, top);
        R.WithoutTwice(txs, gone, more);
        if g in old(allTx) - gone {
          R.PartialStep(txs, rank, top, h, gone, g, more);
          if traced { R.CascadeStep(txs, rank, top, h, gone, g, more); }
        } else {
          assert g in gone && gone + more == gone;
        }
        gone := gone + more;
      }
      assert hashes[0] in hashes && hashes[0] in gone;
      GroundShorter(txs, h, hashes[0], gone);
    }

    lemma GroundShorter(txs: seq<Tx>, h: Hash, g: Hash, gone: set<Hash>)
      requires R.IsGround(txs, {h}, g) && g in gone
      ensures |R.Without(txs, gone)| < |txs|
    {
      var i :| 0 <= i < |txs| && txs[i].txHash == g && R.SpendsAny(txs[i], {h});
      R.WithoutLength(txs, gone);
    }

    lemma RankAboveRoot(txs: seq<Tx>, rank: Hash -> nat, top: nat, h: Hash, g: Hash)
      requires R.Ranked(txs, rank, top) && R.IsGround(txs, {h}, g)
      ensures rank(h) < rank(g) <= top
    {
      var i :| 0 <= i < |txs| && txs[i].txHash == g && R.SpendsAny(txs[i], {h});
      assert R.RanksAbove(txs[i], rank, top);
    }

    // ---- insertion ----

    constructor (feeRate: UInt64)
      ensures allTx == map[] && transactions == [] && allAddrs == {} && internalChain == [] && externalChain == []
      ensures Shows(EMPTY) && feePerKb == feeRate && blockHeight == 0
    {
      transactions, allTx, allAddrs, internalChain, externalChain := [], map[], {}, [], [];
      blockHeight, feePerKb := 0, feeRate;
      utxos, balanceHist, spentOutputs, invalidTx, pendingTx, usedAddrs := [], [], {}, {}, {}, {};
      balance, totalSent, totalReceived := 0, 0, 0;
    }

    method InsertGiven(given: seq<Tx>, ghost rank: Hash -> nat, ghost top: nat)
      requires transactions == [] && allTx == map[]
      requires forall k :: 0 <= k < |given| ==> R.RanksAbove(given[k], rank, top) && |given[k].outputs| <= UINT32_MAX
      modifies this`transactions, this`allTx, this`usedAddrs
      ensures Sound(rank, top) && R.HeightSorted(transactions)
      ensures allTx == I.KnownOf(I.Chosen(given)) && multiset(transactions) == multiset(I.Chosen(given))
    {
      EmptySound(rank, top);
      hide I.Chosen, I.KnownOf, IsSigned, SoundOf, R.HeightSorted, R.RanksAbove;
      I.NoneChosen();
      assert given[..0] == [];
      for i := 0 to |given|
        invariant SoundOf(allTx, transactions, rank, top) && R.HeightSorted(transactions)
        invariant allTx == I.KnownOf(I.Chosen(given[..i])) && multiset(transactions) == multiset(I.Chosen(given[..i]))
      {
        var tx := given[i];
        I.ChosenNext(given, i);
        var ready := IsSignedTx(tx);
        if ready && tx.txHash !in allTx {
          ghost var before, known := transactions, allTx;
          allTx := allTx[tx.txHash := tx];
          ghost var at := InsertNew(tx, before, known, rank, top);
          I.InsertedMultiset(before, at, tx);
          MarkUsed(tx);
        }
      }
      assert given[..|given|] == given;
    }

    static lemma EmptySound(rank: Hash -> nat, top: nat)
      ensures SoundOf(map[], [], rank, top) && R.HeightSorted([])
    {
    }

    method MarkUsed(tx: Tx)
      modifies this`usedAddrs
      ensures usedAddrs == old(usedAddrs) + Addresses(tx, |tx.outputs|)
    {
      for j := 0 to |tx.outputs|
        invariant usedAddrs == old(usedAddrs) + Addresses(tx, j)
      {
        OneAddress(tx, j);
        if tx.outputs[j].address != "" { usedAddrs := usedAddrs + {tx.outputs[j].address}; }
      }
    }

    static method IsSignedTx(tx: Tx) returns (r: bool)
      ensures r == IsSigned(tx)
    {
      for i := 0 to |tx.inputs|
        invariant forall k :: 0 <= k < i ==> tx.inputs[k].signature.Some?
      {
        if tx.inputs[i].signature.None? { return false; }
      }
      return true;
    }

    // Creates a wallet over the signed ones among the given transactions, which are inserted before it has addresses. The
    // result is none when the first of them does not belong to the wallet.
    static method New(internalAddrs: seq<string>, externalAddrs: seq<string>, feeRate: UInt64, given: seq<Tx>, now: int,
                      ghost rank: Hash -> nat, ghost top: nat) returns (wallet: Wallet?)
      requires forall k :: 0 <= k < |given| ==> R.RanksAbove(given[k], rank, top) && |given[k].outputs| <= UINT32_MAX
      ensures wallet == null <==> (given != [] &&
        !U.IsOurs(I.KnownOf(I.Chosen(given)), I.AddressesOf(internalAddrs, externalAddrs), given[0]))
      ensures wallet != null ==> fresh(wallet) && wallet.IsNew(internalAddrs, externalAddrs, feeRate, given, now, rank, top)
    {
      hide *;
      var w := new Wallet(feeRate);
      w.InsertGiven(given, rank, top);
      w.internalChain, w.externalChain := internalAddrs, externalAddrs;
      w.allAddrs := I.AddressesOf(internalAddrs, externalAddrs);
      w.SoundRegistered(now, rank, top);
      w.UpdateBalance(now);
      w.NewIs(internalAddrs, externalAddrs, feeRate, given, now, rank, top);
      if |given| > 0 {
        var ours := w.ContainsTx(given[0]);
        w.OursIs(given[0]);
        if !ours { return null; }
      }
      return w;
    }

    ghost predicate IsNew(internalAddrs: seq<string>, externalAddrs: seq<string>, feeRate: UInt64, given: seq<Tx>, now: int,
                          rank: Hash -> nat, top: nat)
      reads this
    {
      && internalChain == internalAddrs && externalChain == externalAddrs && feePerKb == feeRate && blockHeight == 0
      && allAddrs == I.AddressesOf(internalAddrs, externalAddrs)
      && Sound(rank, top) && R.HeightSorted(transactions) && Shows(Run(Ctx(now), transactions))
      && allTx == I.KnownOf(I.Chosen(given)) && multiset(transactions) == multiset(I.Chosen(given))
    }

    lemma NewIs(internalAddrs: seq<string>, externalAddrs: seq<string>, feeRate: UInt64, given: seq<Tx>, now: int,
                rank: Hash -> nat, top: nat)
      requires internalChain == internalAddrs && externalChain == externalAddrs && feePerKb == feeRate && blockHeight == 0
      requires allAddrs == I.AddressesOf(internalAddrs, externalAddrs)
      requires Sound(rank, top) && R.HeightSorted(transactions)
      requires Numbered(transactions) && Shows(Run(Ctx(now), transactions))
      requires allTx == I.KnownOf(I.Chosen(given)) && multiset(transactions) == multiset(I.Chosen(given))
      ensures IsNew(internalAddrs, externalAddrs, feeRate, given, now, rank, top)
    {
    }

    lemma OursIs(tx: Tx)
      ensures IsOurs(tx) <==> U.IsOurs(allTx, allAddrs, tx)
    {
    }

    method TxIsAscending(t1: Tx, t2: Tx, ghost rank: Hash -> nat) returns (r: bool)
      requires I.KnownRanked(allTx, rank) && I.RanksInputs(t1, rank)
      ensures r == I.IsAscending(allTx, rank, t1, t2)
      decreases rank(t1.txHash)
    {
      if t1.blockHeight > t2.blockHeight { return true; }
      if t1.blockHeight < t2.blockHeight { return false; }
      r := SpendsHash(t1, t2.txHash);
      if r { return true; }
      r := SpendsHash(t2, t1.txHash);
      if r { return false; }
      var j := 0;
      while j < |t1.inputs|
        invariant 0 <= j <= |t1.inputs|
        invariant forall i :: 0 <= i < j ==> !I.IsAscendingInput(allTx, rank, t1, i, t2)
      {
        if t1.inputs[j].txHash in allTx {
          r := TxIsAscending(allTx[t1.inputs[j].txHash], t2, rank);
          assert r == I.IsAscendingInput(allTx, rank, t1, j, t2);
          if r { return true; }
        }
        j := j + 1;
      }
      return false;
    }

    static method TxChainIndex(tx: Tx, chain: seq<string>) returns (r: Option<nat>)
      ensures r == I.ChainIndex(tx, chain)
    {
      var i := |chain|;
      assert chain[..i] == chain;
      while i > 0
        invariant 0 <= i <= |chain| && I.ChainIndex(tx, chain) == I.ChainIndex(tx, chain[..i])
      {
        var j := 0;
        while j < |tx.outputs|
          invariant 0 <= j <= |tx.outputs| && forall k :: 0 <= k < j ==> tx.outputs[k].address != chain[i - 1]
        {
          if tx.outputs[j].address == chain[i - 1] { return Some(i - 1); }
          j := j + 1;
        }
        assert chain[..i][..i - 1] == chain[..i - 1];
        i := i - 1;
      }
      return None;
    }

    // Compares what decides the order of two transactions.
    method TxCompare(t1: Tx, t2: Tx, ghost rank: Hash -> nat) returns (c: int)
      requires I.KnownRanked(allTx, rank) && I.RanksInputs(t1, rank) && I.RanksInputs(t2, rank)
      ensures c == if I.IsAscending(allTx, rank, t1, t2) then 1 else if I.IsAscending(allTx, rank, t2, t1) then -1
                   else I.ChainOrder(t1, t2, internalChain, externalChain)
      ensures I.Compares(t1, t2, c)
    {
      I.AscendingHeights(allTx, rank, t1, t2);
      I.AscendingHeights(allTx, rank, t2, t1);
      hide I.IsAscending, I.ChainIndex;
      var after := TxIsAscending(t1, t2, rank);
      if after { return 1; }
      after := TxIsAscending(t2, t1, rank);
      if after { return -1; }
      var i := TxChainIndex(t1, internalChain);
      var j := TxChainIndex(t2, if i.None? then externalChain else internalChain);
      if i.None? && j.Some? { i := TxChainIndex(t1, externalChain); }
      if i.Some? && j.Some? && i != j {
        return if i.value > j.value then 1 else -1;
      }
      return 0;
    }

    ghost function Order(t1: Tx, t2: Tx, rank: Hash -> nat): int
      requires I.KnownRanked(allTx, rank) && I.RanksInputs(t1, rank) && I.RanksInputs(t2, rank)
      reads this`allTx, this`internalChain, this`externalChain
    {
      I.Order(allTx, rank, t1, t2, internalChain, externalChain)
    }

    // The position is behind the last transaction that does not compare greater.
    ghost predicate IsPosition(before: seq<Tx>, at: nat, tx: Tx, rank: Hash -> nat)
      requires I.KnownRanked(allTx, rank) && I.RanksInputs(tx, rank) && at <= |before|
      requires forall k :: 0 <= k < |before| ==> I.RanksInputs(before[k], rank)
      reads this`allTx, this`internalChain, this`externalChain
    {
      && (at > 0 ==> Order(before[at - 1], tx, rank) <= 0)
      && forall k :: at <= k < |before| ==> Order(before[k], tx, rank) > 0
    }

    // So it is behind all that are lower; and if no known transaction is below one it spends, behind all that the
    // transaction depends on through others as high as it is.
    lemma BehindOthers(before: seq<Tx>, at: nat, tx: Tx, rank: Hash -> nat, k: nat, between: seq<Hash>)
      requires I.KnownRanked(allTx, rank) && I.RanksInputs(tx, rank) && at <= |before| && k < |before|
      requires forall i :: 0 <= i < |before| ==> I.RanksInputs(before[i], rank)
      requires IsPosition(before, at, tx, rank)
      requires
        || before[k].blockHeight < tx.blockHeight
        || (I.DependsOn(allTx, tx, between, before[k]) && I.AboveInputs(allTx, before[k])
            && forall h :: h in allTx ==> I.AboveInputs(allTx, allTx[h]))
      ensures k < at
    {
      hide I.IsAscending, I.KnownRanked, I.RanksInputs, I.ChainOrder, I.AboveInputs;
      I.AscendingHeights(allTx, rank, before[k], tx);
      I.AscendingHeights(allTx, rank, tx, before[k]);
      if before[k].blockHeight >= tx.blockHeight {
        I.DependsAscending(allTx, rank, tx, between, before[k]);
        I.NotAscending(allTx, rank, before[k], tx);
      }
    }

    // Inserts a transaction before those at the end that compare greater, which keeps a list sorted by height.
    method InsertTx(tx: Tx, ghost rank: Hash -> nat) returns (ghost at: nat)
      requires I.KnownRanked(allTx, rank) && I.RanksInputs(tx, rank)
      requires forall k :: 0 <= k < |transactions| ==> I.RanksInputs(transactions[k], rank)
      modifies this`transactions
      ensures at <= |old(transactions)| && transactions == I.Inserted(old(transactions), at, tx)
      ensures old(R.HeightSorted(transactions)) ==> R.HeightSorted(transactions)
      ensures IsPosition(old(transactions), at, tx, rank)
    {
      hide *;
      ghost var before := transactions;
      var i := |transactions|;
      transactions := transactions + [tx];
      while i > 0
        invariant 0 <= i <= |before| && |transactions| == |before| + 1
        invariant forall k :: 0 <= k < i ==> transactions[k] == before[k]
        invariant forall k :: i < k <= |before| ==> transactions[k] == before[k - 1]
        invariant forall k :: i <= k < |before| ==> Order(before[k], tx, rank) > 0
      {
        var c := TxCompare(transactions[i - 1], tx, rank);
        OrderIs(before[i - 1], tx, rank);
        if c <= 0 { break; }
        transactions := transactions[i := transactions[i - 1]];
        i := i - 1;
      }
      transactions := transactions[i := tx];
      at := i;
      I.IsInserted(transactions, before, i, tx);
      PositionKeeps(before, at, tx, rank);
    }

    lemma OrderIs(t1: Tx, t2: Tx, rank: Hash -> nat)
      requires I.KnownRanked(allTx, rank) && I.RanksInputs(t1, rank) && I.RanksInputs(t2, rank)
      ensures Order(t1, t2, rank) ==
        if I.IsAscending(allTx, rank, t1, t2) then 1 else if I.IsAscending(allTx, rank, t2, t1) then -1
        else I.ChainOrder(t1, t2, internalChain, externalChain)
      ensures I.Compares(t1, t2, Order(t1, t2, rank))
    {
      I.AscendingHeights(allTx, rank, t1, t2);
      I.AscendingHeights(allTx, rank, t2, t1);
      hide I.IsAscending, I.ChainOrder, I.KnownRanked, I.RanksInputs;
    }

    lemma PositionKeeps(before: seq<Tx>, at: nat, tx: Tx, rank: Hash -> nat)
      requires I.KnownRanked(allTx, rank) && I.RanksInputs(tx, rank) && at <= |before|
      requires forall k :: 0 <= k < |before| ==> I.RanksInputs(before[k], rank)
      requires at > 0 ==> Order(before[at - 1], tx, rank) <= 0
      requires forall k :: at <= k < |before| ==> Order(before[k], tx, rank) > 0
      ensures IsPosition(before, at, tx, rank)
      ensures R.HeightSorted(before) ==> R.HeightSorted(I.Inserted(before, at, tx))
    {
      hide Order, R.HeightSorted, I.Inserted, I.RanksInputs, I.KnownRanked;
      if R.HeightSorted(before) {
        forall k | 0 <= k < |before| ensures I.Compares(before[k], tx, Order(before[k], tx, rank)) {
          OrderIs(before[k], tx, rank);
        }
        I.InsertedSorted(before, at, tx);
      }
    }

    // Inserts a transaction that was just added to the known ones.
    method InsertNew(tx: Tx, ghost before: seq<Tx>, ghost known: map<Hash, Tx>, ghost rank: Hash -> nat, ghost top: nat)
        returns (ghost at: nat)
      requires transactions == before && allTx == known[tx.txHash := tx] && tx.txHash !in known
      requires SoundOf(known, before, rank, top) && R.RanksAbove(tx, rank, top) && |tx.outputs| <= UINT32_MAX
      modifies this`transactions
      ensures at <= |before| && transactions == I.Inserted(before, at, tx)
      ensures SoundOf(allTx, transactions, rank, top)
      ensures R.HeightSorted(before) ==> R.HeightSorted(transactions)
      ensures R.HeightSorted(before) && R.ChildrenAbove(before, known) && I.Fits(before, known, tx) ==> Ordered()
    {
      ListedFacts(known, before, rank, top);
      RankedInputs(tx, rank, top);
      KnownMore(known, tx, rank);
      hide R.HeightSorted, R.ChildrenAbove, R.DistinctHashes, R.Ranked, I.KnownRanked, I.Fits, I.Inserted;
      hide I.RanksInputs, R.RanksAbove;
      at := InsertTx(tx, rank);
      I.InsertedKeeps(before, known, at, tx, rank, top);
      ListedAndKnown(before, known, at, tx);
      assert forall k :: 0 <= k < |transactions| ==> IsRegistered(Ctx(0), transactions[k]);
    }

    static lemma ListedFacts(known: map<Hash, Tx>, txs: seq<Tx>, rank: Hash -> nat, top: nat)
      requires SoundOf(known, txs, rank, top)
      ensures forall k :: 0 <= k < |txs| ==> I.RanksInputs(txs[k], rank)
    {
      assert forall k :: 0 <= k < |txs| ==> R.RanksAbove(txs[k], rank, top);
    }

    predicate IsOurs(tx: Tx)
      reads this
    {
      U.IsOurs(allTx, allAddrs, tx)
    }

    predicate SpendsOurs(input: Input)
      reads this
    {
      U.SpendsOurs(allTx, allAddrs, input)
    }

    method ContainsTx(tx: Tx) returns (r: bool)
      ensures r == IsOurs(tx)
    {
      r := false;
      var i := 0;
      while !r && i < |tx.outputs|
        invariant 0 <= i <= |tx.outputs| && (r ==> IsOurs(tx))
        invariant !r ==> forall k :: 0 <= k < i ==> tx.outputs[k].address !in allAddrs
      {
        if tx.outputs[i].address in allAddrs { r := true; }
        i := i + 1;
      }
      i := 0;
      while !r && i < |tx.inputs|
        invariant 0 <= i <= |tx.inputs| && (r ==> IsOurs(tx))
        invariant !r ==> forall k :: 0 <= k < i ==> !SpendsOurs(tx.inputs[k])
      {
        if SpendsOurs(tx.inputs[i]) { r := true; }
        i := i + 1;
      }
    }

    // Registers a signed transaction. A foreign one is remembered while it is unconfirmed, but not listed.
    method Register(tx: Tx, now: int, ghost rank: Hash -> nat, ghost top: nat) returns (ours: bool)
      requires Sound(rank, top) && R.RanksAbove(tx, rank, top) && |tx.outputs| <= UINT32_MAX
      modifies this`transactions, this`allTx, this`utxos, this`balanceHist, this`spentOutputs, this`invalidTx,
               this`pendingTx, this`usedAddrs, this`balance, this`totalSent, this`totalReceived
      ensures Sound(rank, top) && (old(Owned()) ==> Owned())
      ensures old(Ordered() && (tx.txHash in allTx || I.Fits(transactions, allTx, tx))) ==> Ordered()
      ensures ours <==> IsSigned(tx) && (tx.txHash in old(allTx) || old(IsOurs(tx)))
      ensures !IsSigned(tx) || tx.txHash in old(allTx) ==> unchanged(this)
      ensures tx.txHash !in old(allTx) && ours ==>
        && allTx == old(allTx)[tx.txHash := tx] && Shows(Run(Ctx(now), transactions))
        && exists at :: 0 <= at <= |old(transactions)| && transactions == I.Inserted(old(transactions), at, tx)
      ensures IsSigned(tx) && !ours ==>
        && transactions == old(transactions) && Fields() == old(Fields())
        && allTx == if tx.blockHeight == TX_UNCONFIRMED then old(allTx)[tx.txHash := tx] else old(allTx)
    {
      hide Run, I.Fits, Sound, Ordered, Owned, IsOurs, IsSigned, I.Inserted, R.RanksAbove, Shows;
      var ready := IsSignedTx(tx);
      if !ready { return false; }
      ours := true;
      if tx.txHash !in allTx {
        ours := ContainsTx(tx);
        if ours {
          ghost var at := AddOwn(tx, now, rank, top);
        } else if tx.blockHeight == TX_UNCONFIRMED {
          Remember(tx, rank, top);
        }
      }
    }

    method AddOwn(tx: Tx, now: int, ghost rank: Hash -> nat, ghost top: nat) returns (ghost at: nat)
      requires Sound(rank, top) && R.RanksAbove(tx, rank, top) && |tx.outputs| <= UINT32_MAX
      requires tx.txHash !in allTx && IsOurs(tx)
      modifies this`transactions, this`allTx, this`utxos, this`balanceHist, this`spentOutputs, this`invalidTx,
               this`pendingTx, this`usedAddrs, this`balance, this`totalSent, this`totalReceived
      ensures Sound(rank, top) && (old(Owned()) ==> Owned()) && allTx == old(allTx)[tx.txHash := tx]
      ensures old(Ordered() && I.Fits(transactions, allTx, tx)) ==> Ordered()
      ensures at <= |old(transactions)| && transactions == I.Inserted(old(transactions), at, tx)
      ensures Shows(Run(Ctx(now), transactions))
    {
      ghost var before, known, owned := transactions, allTx, Owned();
      hide SoundOf, I.Fits, R.HeightSorted, R.ChildrenAbove, I.Inserted, U.IsOurs, Run, Shows, U.AllOurs;
      allTx := allTx[tx.txHash := tx];
      at := InsertNew(tx, before, known, rank, top);
      if owned { U.InsertedOurs(known, allAddrs, before, at, tx, transactions); }
      SoundRegistered(now, rank, top);
      hide Registered, Numbered, I.KnownRanked, R.Ranked, R.DistinctHashes;
      UpdateBalance(now);
    }

    lemma KnownMore(known: map<Hash, Tx>, tx: Tx, rank: Hash -> nat)
      requires I.KnownRanked(known, rank) && I.RanksInputs(tx, rank)
      ensures I.KnownRanked(known[tx.txHash := tx], rank)
    {
      hide I.RanksInputs;
    }

    method Remember(tx: Tx, ghost rank: Hash -> nat, ghost top: nat)
      requires Sound(rank, top) && R.RanksAbove(tx, rank, top) && tx.txHash !in allTx
      modifies this`allTx
      ensures Sound(rank, top) && (old(Owned()) ==> Owned()) && allTx == old(allTx)[tx.txHash := tx]
      ensures old(Ordered() && I.Fits(transactions, allTx, tx)) ==> Ordered()
    {
      ghost var known, owned := allTx, Owned();
      RankedInputs(tx, rank, top);
      KnownMore(allTx, tx, rank);
      if Ordered() && I.Fits(transactions, allTx, tx) { I.RememberedKeeps(transactions, allTx, tx); }
      hide R.HeightSorted, R.ChildrenAbove, R.DistinctHashes, R.Ranked, I.KnownRanked, I.RanksInputs, R.RanksAbove, I.Fits;
      hide U.IsOurs;
      allTx := allTx[tx.txHash := tx];
      if owned { U.RememberedOurs(known, allAddrs, transactions, tx); }
    }

    lemma RankedInputs(tx: Tx, rank: Hash -> nat, top: nat)
      requires R.RanksAbove(tx, rank, top)
      ensures I.RanksInputs(tx, rank)
    {
    }

    lemma ListedAndKnown(before: seq<Tx>, known: map<Hash, Tx>, at: nat, tx: Tx)
      requires at <= |before| && transactions == I.Inserted(before, at, tx) && allTx == known[tx.txHash := tx]
      requires tx.txHash !in known && |tx.outputs| <= UINT32_MAX
      requires Numbered(before)
      requires forall k :: 0 <= k < |before| ==> before[k].txHash in known && known[before[k].txHash] == before[k]
      ensures Registered(Ctx(0), transactions) && Numbered(transactions)
    {
      forall k | 0 <= k < |transactions|
        ensures IsRegistered(Ctx(0), transactions[k])
      {
        assert transactions[k] == if k < at then before[k] else if k == at then tx else before[k - 1];
      }
    }

    // Marks the transactions from the first one on behind the last that is not above a height as unconfirmed: on a sorted
    // list all that are above it. The ledger is recomputed if there are any, and otherwise, when the height is one that
    // transactions are confirmed at, stays the one that it would be.
    method SetTxUnconfirmedAfter(height: UInt32, now: int, ghost was: int, ghost rank: Hash -> nat, ghost top: nat)
        returns (first: nat)
      requires Sound(rank, top)
      modifies this`blockHeight, this`transactions, this`allTx, this`utxos, this`balanceHist, this`spentOutputs,
               this`invalidTx, this`pendingTx, this`usedAddrs, this`balance, this`totalSent, this`totalReceived
      ensures Sound(rank, top) && blockHeight == height && (old(Owned()) ==> Owned())
      ensures I.IsFirstAbove(old(transactions), height, first)
      ensures I.UnconfirmedFrom(transactions, old(transactions), first)
      ensures first <= |old(transactions)| && I.SameBut(allTx, old(allTx), old(transactions), first)
      ensures old(Ordered() && I.Capped(allTx)) ==> Ordered()
      ensures first < |transactions| ==> Current(now)
      ensures first == |transactions| ==> Fields() == old(Fields())
      ensures old(R.HeightSorted(transactions) && Current(was)) && height < TX_UNCONFIRMED ==> Current(now)
    {
      hide *;
      ghost var before, known, ctx, sorted := transactions, allTx, Ctx(was), R.HeightSorted(transactions);
      CurrentIs(was);
      first := FirstAbove(height);
      UnconfirmFrom(first, height, rank, top);
      blockHeight := height;
      SoundRegistered(now, rank, top);
      UnconfirmedCount(before, first);
      if first < |transactions| {
        UpdateBalance(now);
      } else if sorted && height < TX_UNCONFIRMED {
        StaysCurrent(before, known, ctx, height, now, rank, top);
      }
      CurrentIs(now);
    }

    lemma UnconfirmedCount(before: seq<Tx>, first: nat)
      requires I.UnconfirmedFrom(transactions, before, first)
      ensures |transactions| == |before|
    {
    }

    // Confirmed transactions are accepted at any height and time.
    lemma StaysCurrent(before: seq<Tx>, known: map<Hash, Tx>, ctx: Context, height: UInt32, now: int, rank: Hash -> nat,
                       top: nat)
      requires R.HeightSorted(before) && height < TX_UNCONFIRMED && Sound(rank, top)
      requires I.UnconfirmedFrom(transactions, before, |before|) && I.SameBut(allTx, known, before, |before|)
      requires I.IsFirstAbove(before, height, |before|)
      requires ctx.allTx == known && ctx.allAddrs == allAddrs
      ensures Numbered(before) && Numbered(transactions) && Run(ctx, before) == Run(Ctx(now), transactions)
    {
      NothingAbove(before, known, |before|, height);
      SoundRegistered(now, rank, top);
      assert Registered(ctx, transactions);
      hide Sound, Run, R.HeightSorted, I.UnconfirmedFrom, I.SameBut, Registered;
      U.ConfirmedRun(ctx, Ctx(now), transactions);
    }

    // The position behind the last transaction that is not above a height, searched from the end.
    method FirstAbove(height: UInt32) returns (i: nat)
      ensures i <= |transactions| && I.IsFirstAbove(transactions, height, i)
    {
      i := |transactions|;
      while i > 0 && transactions[i - 1].blockHeight > height
        invariant 0 <= i <= |transactions|
        invariant forall k :: i <= k < |transactions| ==> transactions[k].blockHeight > height
      {
        i := i - 1;
      }
    }

    method UnconfirmFrom(first: nat, ghost height: UInt32, ghost rank: Hash -> nat, ghost top: nat)
      requires Sound(rank, top) && first <= |transactions| && I.IsFirstAbove(transactions, height, first)
      modifies this`transactions, this`allTx
      ensures Sound(rank, top) && (old(Owned()) ==> Owned())
      ensures I.UnconfirmedFrom(transactions, old(transactions), first)
      ensures I.SameBut(allTx, old(allTx), old(transactions), first)
      ensures old(Ordered() && I.Capped(allTx)) ==> Ordered()
    {
      ghost var before, known, ordered, owned := transactions, allTx, Ordered(), Owned();
      hide R.HeightSorted, R.ChildrenAbove, I.UnconfirmedFrom, I.SameBut, U.IsOurs, I.Capped, I.IsFirstAbove;
      Unconfirm(first);
      StillListed(before, known, first, rank, top);
      if ordered && I.Capped(known) {
        StillOrdered(before, known, first, height, rank, top);
      }
      if owned { U.UnconfirmedOurs(known, allTx, allAddrs, before, transactions, first); }
    }

    // The transactions from a position on, which the set of all transactions shares with the list.
    method Unconfirm(first: nat)
      requires first <= |transactions| && R.DistinctHashes(transactions)
      requires forall k :: 0 <= k < |transactions| ==>
        transactions[k].txHash in allTx && allTx[transactions[k].txHash] == transactions[k]
      modifies this`transactions, this`allTx
      ensures I.UnconfirmedFrom(transactions, old(transactions), first)
      ensures I.SameBut(allTx, old(allTx), old(transactions), first)
    {
      var j := first;
      ghost var before, known := transactions, allTx;
      while j < |transactions|
        invariant first <= j <= |transactions| == |before|
        invariant forall k :: 0 <= k < |transactions| ==>
          transactions[k] == if first <= k < j then I.Unconfirmed(before[k]) else before[k]
        invariant allTx.Keys == known.Keys
        invariant forall h :: h in known ==>
          allTx[h] == if exists k :: first <= k < j && before[k].txHash == h then I.Unconfirmed(known[h]) else known[h]
      {
        var t := I.Unconfirmed(transactions[j]);
        transactions := transactions[j := t];
        allTx := allTx[t.txHash := t];
        j := j + 1;
      }
    }

    lemma StillListed(before: seq<Tx>, known: map<Hash, Tx>, first: nat, rank: Hash -> nat, top: nat)
      requires first <= |before| && I.UnconfirmedFrom(transactions, before, first)
      requires I.SameBut(allTx, known, before, first) && SoundOf(known, before, rank, top)
      ensures SoundOf(allTx, transactions, rank, top)
    {
      I.UnconfirmedSound(transactions, allTx, before, known, first, rank, top);
      hide I.SameBut, R.Ranked, R.DistinctHashes, I.KnownRanked;
    }

    lemma StillOrdered(before: seq<Tx>, known: map<Hash, Tx>, first: nat, height: nat, rank: Hash -> nat, top: nat)
      requires first <= |before| && I.UnconfirmedFrom(transactions, before, first)
      requires I.SameBut(allTx, known, before, first) && SoundOf(known, before, rank, top)
      requires R.HeightSorted(before) && R.ChildrenAbove(before, known)
      requires I.Capped(known) && I.IsFirstAbove(before, height, first)
      ensures Ordered()
    {
      hide I.Capped, I.IsFirstAbove, R.ChildrenAbove, R.HeightSorted;
      I.UnconfirmedKeeps(transactions, allTx, before, known, first, height, rank, top);
    }

    lemma NothingAbove(before: seq<Tx>, known: map<Hash, Tx>, first: nat, height: nat)
      requires R.HeightSorted(before) && I.UnconfirmedFrom(transactions, before, first) && first == |before|
      requires I.SameBut(allTx, known, before, first)
      requires I.IsFirstAbove(before, height, first) && height < TX_UNCONFIRMED
      ensures transactions == before && allTx == known
      ensures forall k :: 0 <= k < |transactions| ==> transactions[k].blockHeight != TX_UNCONFIRMED
    {
      assert forall k :: 0 <= k < first ==> before[k].blockHeight <= before[first - 1].blockHeight;
    }

    // ---- heights reported for transactions ----

    // What the reports of the given transactions leave of the list and of the known ones.
    ghost predicate ReportedTo(hs: set<Hash>, height: UInt32, timestamp: UInt32, before: seq<Tx>, known: map<Hash, Tx>)
      reads this`allTx, this`transactions, this`allAddrs
    {
      && U.Shared(allTx, transactions) && U.Shared(known, before) && U.InSet(known, before)
      && U.ReportedIn(transactions, before, hs, height, timestamp)
      && U.KnownAfter(allTx, known, allAddrs, hs, height, timestamp)
    }

    // Sets the block height and the time of some transactions. The ledger is recomputed if one of the wallet was pending
    // or invalid. Foreign transactions are forgotten once they are confirmed, also one that is listed, as removing what it
    // spends can leave it: the list is then no longer registered, and the ledger must not have to be recomputed from it.
    method UpdateTransactions(txHashes: seq<Hash>, height: UInt32, timestamp: UInt32, now: int, ghost was: int,
                              ghost rank: Hash -> nat, ghost top: nat)
      requires Sound(rank, top)
      requires U.AnyMatters(allTx, allAddrs, pendingTx, invalidTx, U.AsSet(txHashes), height, timestamp) ==>
        !U.Frees(allTx, allAddrs, transactions, U.AsSet(txHashes), height, timestamp)
      modifies this`blockHeight, this`transactions, this`allTx, this`utxos, this`balanceHist, this`spentOutputs,
               this`invalidTx, this`pendingTx, this`usedAddrs, this`balance, this`totalSent, this`totalReceived
      ensures Sound(rank, top) <==>
        !U.Frees(old(allTx), allAddrs, old(transactions), U.AsSet(txHashes), height, timestamp)
      ensures old(Owned()) ==> Sound(rank, top) && Owned()
      ensures blockHeight == if height > old(blockHeight) then height else old(blockHeight)
      ensures ReportedTo(U.AsSet(txHashes), height, timestamp, old(transactions), old(allTx))
      ensures
        if U.AnyMatters(old(allTx), allAddrs, old(pendingTx), old(invalidTx), U.AsSet(txHashes), height, timestamp)
        then Current(now) else Fields() == old(Fields())
      ensures old(Owned() && Current(was)) && U.Later(old(Ctx(was)), Ctx(now))
        && !U.AnyMatters(old(allTx), allAddrs, old(pendingTx), old(invalidTx), U.AsSet(txHashes), height, timestamp)
        ==> (Current(now) <==>
               U.AllHarmless(old(Ctx(was)), Ctx(now), old(transactions), U.AsSet(txHashes), height, timestamp))
    {
      hide *;
      ghost var before, known, ctx, current, owned := transactions, allTx, Ctx(was), Current(was), Owned();
      ghost var hs := U.AsSet(txHashes);
      SoundLists(rank, top);
      SoundRegistered(was, rank, top);
      SoundShared(rank, top);
      CurrentIs(was);
      SoundIs(rank, top);
      if height > blockHeight { blockHeight := height; }
      var needsUpdate := ReportAll(txHashes, height, timestamp);
      StillSoundReported(before, known, hs, height, timestamp, rank, top);
      if owned { StillOwnedReported(before, known, hs, height, timestamp); }
      if Sound(rank, top) {
        SoundLists(rank, top);
        SoundRegistered(now, rank, top);
      }
      CurrentIs(now);
      if needsUpdate {
        UpdateBalance(now);
        CurrentIs(now);
      } else if owned && current && U.Later(ctx, Ctx(now)) {
        SkippedCurrent(ctx, before, known, hs, height, timestamp, now, rank, top);
      }
    }

    method ReportAll(txHashes: seq<Hash>, height: UInt32, timestamp: UInt32) returns (needsUpdate: bool)
      requires U.Shared(allTx, transactions) && U.InSet(allTx, transactions)
      modifies this`transactions, this`allTx
      ensures ReportedTo(U.AsSet(txHashes), height, timestamp, old(transactions), old(allTx))
      ensures needsUpdate
        == U.AnyMatters(old(allTx), allAddrs, pendingTx, invalidTx, U.AsSet(txHashes), height, timestamp)
    {
      hide U.Shared, U.InSet, U.ReportedIn, U.KnownAfter, U.AnyMatters, U.Matters, U.AsSet;
      needsUpdate := false;
      ghost var before, known := transactions, allTx;
      U.NoneReported(allTx, allAddrs, transactions, pendingTx, invalidTx, height, timestamp);
      for i := 0 to |txHashes|
        invariant ReportedTo(U.AsSet(txHashes[..i]), height, timestamp, before, known)
        invariant needsUpdate
          == U.AnyMatters(known, allAddrs, pendingTx, invalidTx, U.AsSet(txHashes[..i]), height, timestamp)
      {
        ghost var done := U.AsSet(txHashes[..i]);
        var needs := UpdateOne(txHashes[i], height, timestamp, done, before, known);
        U.OneMore(txHashes, i, known, allAddrs, pendingTx, invalidTx, height, timestamp);
        needsUpdate := needsUpdate || needs;
      }
      assert txHashes[..|txHashes|] == txHashes;
    }

    lemma SoundShared(rank: Hash -> nat, top: nat)
      requires Sound(rank, top)
      ensures U.Shared(allTx, transactions) && U.InSet(allTx, transactions)
    {
      hide R.DistinctHashes, R.Ranked;
    }

    lemma StillOwnedReported(before: seq<Tx>, known: map<Hash, Tx>, hs: set<Hash>, height: UInt32, timestamp: UInt32)
      requires ReportedTo(hs, height, timestamp, before, known) && U.Lists(known, allAddrs, before)
      ensures U.Lists(allTx, allAddrs, transactions)
      ensures !U.Frees(known, allAddrs, before, hs, height, timestamp)
    {
      hide U.KnownAfter, U.ReportedIn, U.Shared, U.InSet, U.Lists, U.Frees;
      U.ReportedLists(allTx, known, transactions, before, allAddrs, hs, height, timestamp);
    }

    lemma StillSoundReported(before: seq<Tx>, known: map<Hash, Tx>, hs: set<Hash>, height: UInt32, timestamp: UInt32,
                             rank: Hash -> nat, top: nat)
      requires ReportedTo(hs, height, timestamp, before, known) && SoundOf(known, before, rank, top)
      ensures Sound(rank, top) <==> !U.Frees(known, allAddrs, before, hs, height, timestamp)
    {
      hide U.KnownAfter, U.ReportedIn, I.KnownRanked, R.Ranked, R.DistinctHashes, U.IsOurs, U.Frees;
      U.ReportedSound(allTx, known, transactions, before, allAddrs, hs, height, timestamp, rank, top);
      U.FreesIff(allTx, known, transactions, before, allAddrs, hs, height, timestamp);
      assert forall k :: 0 <= k < |transactions| ==> U.IsShared(allTx, transactions[k]);
    }

    // When the ledger is left alone, it stays current exactly when the report is harmless.
    lemma SkippedCurrent(ctx: Context, before: seq<Tx>, known: map<Hash, Tx>, hs: set<Hash>, height: UInt32,
                         timestamp: UInt32, now: int, rank: Hash -> nat, top: nat)
      requires ReportedTo(hs, height, timestamp, before, known) && U.Lists(known, allAddrs, before)
      requires U.Lists(allTx, allAddrs, transactions)
      requires ctx.allTx == known && ctx.allAddrs == allAddrs && U.Later(ctx, Ctx(now))
      requires Numbered(before) && Shows(Run(ctx, before)) && Sound(rank, top)
      requires !U.AnyMatters(known, allAddrs, pendingTx, invalidTx, hs, height, timestamp)
      ensures Current(now) <==> U.AllHarmless(ctx, Ctx(now), before, hs, height, timestamp)
    {
      SoundRegistered(now, rank, top);
      hide Sound, Run, U.Lists, U.ReportedIn, U.KnownAfter, U.AnyMatters, U.AllHarmless, U.Agree, U.Later;
      var ctx' := Ctx(now);
      U.KnownAgree(ctx, ctx', hs, height, timestamp);
      U.SkippedIff(ctx, ctx', before, transactions, hs, height, timestamp);
    }

    // Reports one transaction.
    method UpdateOne(h: Hash, height: UInt32, timestamp: UInt32, ghost done: set<Hash>, ghost before: seq<Tx>,
                     ghost known: map<Hash, Tx>) returns (needs: bool)
      requires ReportedTo(done, height, timestamp, before, known)
      modifies this`transactions, this`allTx
      ensures ReportedTo(done + {h}, height, timestamp, before, known)
      ensures needs <==> h !in done && U.Matters(known, allAddrs, pendingTx, invalidTx, h, height, timestamp)
    {
      hide U.Shared, U.InSet, U.ReportedIn, U.KnownAfter, U.IsOurs, U.Fewer, U.SetIn;
      ghost var txs, all := transactions, allTx;
      needs := false;
      if h in allTx && U.Changes(allTx[h], height, timestamp) {
        U.ReportOurs(allTx, known, allAddrs, done, h, height, timestamp);
        U.ReportKnown(allTx, known, allAddrs, done, h, height, timestamp);
        var tx := U.Reported(allTx[h], height, timestamp);
        U.SharedKeys(allTx, transactions, h);
        SetListed(tx);
        U.ReportListed(all, known, txs, transactions, before, allAddrs, done, h, height, timestamp);
        allTx := allTx[h := tx];
        var ours := ContainsTx(tx);
        if ours {
          needs := h in pendingTx || h in invalidTx;
        } else if height != TX_UNCONFIRMED {
          allTx := allTx - {h};
        }
      } else {
        U.SkipKeeps(allTx, known, transactions, before, allAddrs, done, h, height, timestamp);
      }
    }

    // The list shares its transactions with the known ones.
    method SetListed(tx: Tx)
      modifies this`transactions
      ensures U.SetIn(transactions, old(transactions), tx)
    {
      var k := 0;
      while k < |transactions|
        invariant 0 <= k <= |transactions| == |old(transactions)|
        invariant forall j :: 0 <= j < |transactions| ==>
          transactions[j] == if j < k && old(transactions)[j].txHash == tx.txHash then tx else old(transactions)[j]
      {
        if transactions[k].txHash == tx.txHash { transactions := transactions[k := tx]; }
        k := k + 1;
      }
    }

    // ---- spending ----

    // The balance is that of the list of unspent outputs, and amounts and rate are in the range of the currency.
    ghost predicate CanSpend(outputs: seq<Output>)
      reads this
    {
      && balance == Total(Ctx(0), utxos) <= MAX_MONEY && OutputSum(outputs) <= MAX_MONEY
      && OutputSizes(outputs) <= UINT32_MAX && feePerKb <= MAX_FEE_PER_KB
    }

    // The recomputed ledger can be spent from: its balance is the sum of the list.
    lemma LedgerCanSpend(now: int, outputs: seq<Output>)
      requires Numbered(transactions) && Shows(Run(Ctx(now), transactions))
      requires Total(Ctx(0), utxos) <= MAX_MONEY && OutputSum(outputs) <= MAX_MONEY && feePerKb <= MAX_FEE_PER_KB
      requires OutputSizes(outputs) <= UINT32_MAX
      ensures CanSpend(outputs)
    {
      hide Run, Total, OutputSum, OutputSizes, Numbered;
      RunBalance(Ctx(now), transactions);
      SameTotal(Ctx(now), Ctx(0), utxos);
    }

    lemma {:induction false} SameTotal(ctx: Context, ctx': Context, ops: seq<OutPoint>)
      requires ctx.allTx == ctx'.allTx
      ensures Total(ctx, ops) == Total(ctx', ops)
    {
      if ops != [] { SameTotal(ctx, ctx', ops[..|ops| - 1]); }
    }

    // A transaction that spends everything is not too large.
    ghost predicate FitsCap(outputs: seq<Output>)
      reads this
    {
      UnsignedSize(|InputsFor(Ctx(0), utxos)|, outputs) + TX_OUTPUT_SIZE <= TX_MAX_SIZE
    }

    // The output added as number k makes the transaction too large, or suffices; and the former happens first.
    ghost predicate Oversized(outputs: seq<Output>, k: nat)
      reads this
    {
      TooLarge(Ctx(0), utxos, outputs, k)
    }

    ghost predicate Enough(outputs: seq<Output>, k: nat)
      reads this
    {
      Suffices(Ctx(0), utxos, balance, feePerKb, outputs, k)
    }

    ghost predicate IsCapped(outputs: seq<Output>)
      reads this
    {
      HitsCap(Ctx(0), utxos, balance, feePerKb, outputs)
    }

    ghost predicate IsUndecided(outputs: seq<Output>, i: nat)
      reads this
    {
      Undecided(Ctx(0), utxos, balance, feePerKb, outputs, i)
    }

    function Spending(): Q.Funds
      reads this
    {
      Q.Funds(Ctx(0), utxos, balance, feePerKb)
    }

    method MinOutputAmount() returns (amount: UInt64)
      requires feePerKb <= MAX_FEE_PER_KB
      ensures amount == MinAmount(feePerKb) && amount <= MAX_MONEY
    {
      MinAmountFits(feePerKb);
      amount := (TX_MIN_OUTPUT_AMOUNT * feePerKb + MIN_FEE_PER_KB - 1) / MIN_FEE_PER_KB;
      if amount <= TX_MIN_OUTPUT_AMOUNT { amount := TX_MIN_OUTPUT_AMOUNT; }
    }

    // What selecting coins has chosen from the first i unspent outputs.
    ghost predicate Selecting(outputs: seq<Output>, i: nat, inputs: seq<Input>, selected: nat, fee: nat)
      reads this
    {
      && i <= |utxos| && inputs == InputsFor(Ctx(0), utxos[..i]) && selected == InputSum(inputs)
      && fee == if inputs == [] then TxFee(feePerKb, UnsignedSize(0, outputs) + TX_OUTPUT_SIZE)
                else TargetFee(balance, feePerKb, outputs, |inputs|)
    }

    // Adds the output at i to the inputs, unless that makes the transaction too large.
    method SelectOne(outputs: seq<Output>, amount: UInt64, i: nat, tx: Tx, selected: UInt64, fee: UInt64)
        returns (tx': Tx, selected': UInt64, fee': UInt64, skipped: bool, capped: bool)
      requires CanSpend(outputs) && amount == OutputSum(outputs) && tx.outputs == outputs
      requires i < |utxos| && Selecting(outputs, i, tx.inputs, selected, fee) && fee <= FEE_LIMIT + 100
      ensures skipped <==> !Known(Ctx(0), utxos[i])
      ensures capped <==> Oversized(outputs, i + 1)
      ensures capped ==> selected' == selected && fee' == fee
      ensures !capped ==> Selecting(outputs, i + 1, tx'.inputs, selected', fee') && tx'.outputs == outputs
      ensures !capped ==> selected' <= balance && fee' <= FEE_LIMIT + 100
      ensures !capped && !skipped ==> fee' == TargetFee(balance, feePerKb, outputs, |tx'.inputs|)
    {
      hide InputsFor, InputSum, Total, InputSizes, OutputSum, UnsignedSize, TxSize, TxFee, TargetFee;
      hide Oversized, Selecting, CanSpend;
      tx', selected', fee', skipped, capped := tx, selected, fee, true, false;
      SelectingNext(outputs, i, tx, selected, fee);
      var o := utxos[i];
      if o.hash !in allTx || o.n >= |allTx[o.hash].outputs| {
        return;
      }
      skipped := false;
      var t := allTx[o.hash];
      var input := Input(t.txHash, o.n, t.outputs[o.n].amount, t.outputs[o.n].script, None, UINT32_MAX);
      tx' := tx.(inputs := tx.inputs + [input]);
      var size := TransactionSize(tx');
      if size + TX_OUTPUT_SIZE > TX_MAX_SIZE {
        capped := true;
        return;
      }
      selected' := selected + t.outputs[o.n].amount;
      fee' := FeeWithChange(tx', amount);
      SelectingDone(outputs, i, tx', selected', fee');
    }

    // The selection that one more output would give.
    lemma SelectingNext(outputs: seq<Output>, i: nat, tx: Tx, selected: nat, fee: nat)
      requires CanSpend(outputs) && i < |utxos| && Selecting(outputs, i, tx.inputs, selected, fee) && tx.outputs == outputs
      ensures balance <= MAX_MONEY && OutputSum(outputs) <= MAX_MONEY && feePerKb <= MAX_FEE_PER_KB && selected <= balance
      ensures Known(Ctx(0), utxos[i]) <==> utxos[i].hash in allTx && utxos[i].n < |allTx[utxos[i].hash].outputs|
      ensures !Known(Ctx(0), utxos[i]) ==>
        Selecting(outputs, i + 1, tx.inputs, selected, fee) && !Oversized(outputs, i + 1)
      ensures Known(Ctx(0), utxos[i]) ==>
        var input := InputFor(Ctx(0), utxos[i]);
        var tx' := tx.(inputs := tx.inputs + [input]);
        && input == SpendOf(allTx[utxos[i].hash], utxos[i].n)
        && tx'.inputs == InputsFor(Ctx(0), utxos[..i + 1]) && selected + input.amount == InputSum(tx'.inputs) <= balance
        && InputSizes(tx'.inputs) == TX_INPUT_SIZE * |tx'.inputs|
        && TxSize(tx') == UnsignedSize(|tx'.inputs|, outputs)
        && (Oversized(outputs, i + 1) <==> TxSize(tx') + TX_OUTPUT_SIZE > TX_MAX_SIZE)
    {
      var ctx := Ctx(0);
      InputsForNext(ctx, utxos, i);
      InputsForMeaning(ctx, utxos[..i + 1]);
      hide InputsFor, InputSum, Total, InputSizes, OutputSizes, OutputSum, TxFee, TargetFee, VarIntSize;
      assert tx.inputs + [] == tx.inputs;
    }

    // The input that spends an output of a transaction.
    static function SpendOf(t: Tx, n: UInt32): Input
      requires n < |t.outputs|
    {
      Input(t.txHash, n, t.outputs[n].amount, t.outputs[n].script, None, UINT32_MAX)
    }

    lemma SelectingDone(outputs: seq<Output>, i: nat, tx: Tx, selected: nat, fee: nat)
      requires i < |utxos| && tx.inputs == InputsFor(Ctx(0), utxos[..i + 1]) && tx.inputs != []
      requires selected == InputSum(tx.inputs) && fee == TargetFee(balance, feePerKb, outputs, |tx.inputs|)
      ensures Selecting(outputs, i + 1, tx.inputs, selected, fee)
    {
      hide InputsFor, InputSum, TxFee, TargetFee, UnsignedSize;
    }

    // The fee once a change output is added, increased to round the remaining wallet balance.
    method FeeWithChange(tx: Tx, amount: UInt64) returns (fee: UInt64)
      requires feePerKb <= MAX_FEE_PER_KB && amount == OutputSum(tx.outputs) <= MAX_MONEY && balance <= MAX_MONEY
      requires InputSizes(tx.inputs) == TX_INPUT_SIZE * |tx.inputs|
      requires UnsignedSize(|tx.inputs|, tx.outputs) + TX_OUTPUT_SIZE <= TX_MAX_SIZE
      ensures fee == TargetFee(balance, feePerKb, tx.outputs, |tx.inputs|) <= FEE_LIMIT + 100
    {
      hide OutputSum, UnsignedSize, TxFee, TargetFee, TxSize, InputSizes;
      FeeFits(tx.outputs, |tx.inputs|);
      SizeIs(tx);
      var size := TransactionSize(tx);
      fee := TxFee(feePerKb, size + TX_OUTPUT_SIZE);
      TargetIs(tx, size, fee);
      if balance > amount + fee { fee := fee + (balance - (amount + fee)) % 100; }
    }

    lemma SizeIs(tx: Tx)
      requires InputSizes(tx.inputs) == TX_INPUT_SIZE * |tx.inputs|
      ensures TxSize(tx) == UnsignedSize(|tx.inputs|, tx.outputs)
    {
      hide InputSizes, OutputSizes, VarIntSize;
    }

    lemma TargetIs(tx: Tx, size: nat, fee: nat)
      requires size == UnsignedSize(|tx.inputs|, tx.outputs) && fee == TxFee(feePerKb, size + TX_OUTPUT_SIZE)
      ensures TargetFee(balance, feePerKb, tx.outputs, |tx.inputs|) ==
        if balance > OutputSum(tx.outputs) + fee then fee + (balance - (OutputSum(tx.outputs) + fee)) % 100 else fee
    {
      hide TxFee, UnsignedSize, OutputSum;
    }

    lemma FeeFits(outputs: seq<Output>, inCount: nat)
      requires feePerKb <= MAX_FEE_PER_KB && UnsignedSize(inCount, outputs) + TX_OUTPUT_SIZE <= SIZE_LIMIT
      ensures TxFee(feePerKb, UnsignedSize(inCount, outputs) + TX_OUTPUT_SIZE) <= FEE_LIMIT
      ensures TargetFee(balance, feePerKb, outputs, inCount) <= FEE_LIMIT + 100
    {
      TxFeeFits(feePerKb, UnsignedSize(inCount, outputs) + TX_OUTPUT_SIZE);
      RoundedFeeMeaning(balance, OutputSum(outputs), TxFee(feePerKb, UnsignedSize(inCount, outputs) + TX_OUTPUT_SIZE));
      hide TxFee, UnsignedSize;
    }

    // An unsigned transaction that satisfies the request, or none when the funds do not suffice. When the cap is hit, the
    // request that follows is tried, and so on; a call returns when that comes to an end, within depth requests. What the
    // transaction satisfies is the last request. changeScript pays to an unused address of the wallet.
    method CreateTxForOutputs(outputs: seq<Output>, changeScript: Bytes, ghost depth: nat) returns (r: Option<Tx>)
      requires CanSpend(outputs) && |changeScript| <= 25 && |utxos| <= UINT32_MAX
      requires Q.Ends(Spending(), outputs, depth)
      ensures var last := Q.Final(Spending(), outputs, depth);
        && (last.None? ==> r.None?)
        && (r.Some? ==>
              && last.Some? && last.value != []
              && Satisfies(Ctx(0), utxos, balance, feePerKb, last.value, changeScript, r.value))
        && (last.Some? && last.value != [] && balance >= OutputSum(last.value) + FeeForAll(last.value) ==> r.Some?)
      ensures outputs != [] && FitsCap(outputs) && balance >= OutputSum(outputs) + FeeForAll(outputs) ==> r.Some?
      decreases depth
    {
      hide *;
      Q.FinalStep(Spending(), outputs, depth);
      var again;
      r, again := TryOutputs(outputs, changeScript);
      if again.Some? {
        FollowCanSpend(outputs);
        r := CreateTxForOutputs(again.value, changeScript, depth - 1);
      }
    }

    // One request. When the cap is hit, no transaction is created and the request that follows is returned, if any.
    method TryOutputs(outputs: seq<Output>, changeScript: Bytes) returns (r: Option<Tx>, again: Option<seq<Output>>)
      requires CanSpend(outputs) && |changeScript| <= 25 && |utxos| <= UINT32_MAX
      ensures r.Some? ==>
        outputs != [] && Satisfies(Ctx(0), utxos, balance, feePerKb, outputs, changeScript, r.value)
      ensures !Q.IsCapped(Spending(), outputs) ==> again.None?
      ensures !Q.IsCapped(Spending(), outputs) && outputs != [] && balance >= OutputSum(outputs) + FeeForAll(outputs) ==>
        r.Some?
      ensures Q.IsCapped(Spending(), outputs) ==>
        r.None? && again == if outputs == [] then None else Q.Follow(Spending(), outputs)
      ensures FitsCap(outputs) ==> !Q.IsCapped(Spending(), outputs)
    {
      hide *;
      r, again := None, None;
      var tx := NewTransaction();
      var amount: UInt64;
      SpendFacts(outputs);
      tx, amount := AddAllOutputs(outputs, tx);
      var minAmount := MinOutputAmount();
      var fee: UInt64 := InitialFee(outputs, tx);
      CapIs(outputs);
      var selected: UInt64, capped: bool;
      ghost var i: nat;
      tx, selected, fee, i, capped := SelectCoins(outputs, amount, minAmount, tx, fee);
      if capped {
        if |outputs| >= 1 { again := NextRequest(outputs, amount, minAmount, selected, fee, i); }
      } else if |outputs| >= 1 && selected >= amount + fee {
        tx := Complete(outputs, changeScript, amount, minAmount, tx, selected, fee, i);
        r := Some(tx);
      }
    }

    static method NewTransaction() returns (tx: Tx)
      ensures tx == Tx(0, 1, [], [], 0, TX_UNCONFIRMED, 0)
    {
      tx := Tx(0, 1, [], [], 0, TX_UNCONFIRMED, 0);
    }

    // The request that follows when one more input than the first end ones is too many.
    method NextRequest(outputs: seq<Output>, amount: UInt64, minAmount: UInt64, selected: UInt64, fee: UInt64,
                       ghost end: nat) returns (again: Option<seq<Output>>)
      requires outputs != [] && CanSpend(outputs) && |utxos| <= UINT32_MAX && StopsAt(outputs, end, selected, fee)
      requires amount == OutputSum(outputs) && minAmount == MinAmount(feePerKb)
      ensures Q.IsCapped(Spending(), outputs) && again == Q.Follow(Spending(), outputs)
    {
      hide *;
      FollowsHere(outputs, end, selected, fee);
      RetriedHere(outputs, amount, selected, fee);
      CountsFit(outputs);
      var size := 10 + |utxos| * TX_INPUT_SIZE + (|outputs| + 1) * TX_OUTPUT_SIZE;
      TxFeeFits(feePerKb, size);
      var n := |outputs| - 1;
      if balance < amount + TxFee(feePerKb, size) {
        again := None;
      } else if outputs[n].amount > Sub64(amount + fee + minAmount, selected) {
        again := Some(outputs[n := outputs[n].(amount := Sub64(outputs[n].amount, amount + fee - selected))]);
      } else {
        again := Some(outputs[..n]);
      }
    }

    lemma FollowsHere(outputs: seq<Output>, end: nat, selected: nat, fee: nat)
      requires outputs != [] && StopsAt(outputs, end, selected, fee)
      ensures Q.IsCapped(Spending(), outputs)
      ensures Q.Follow(Spending(), outputs) == Q.Retried(Spending(), outputs, selected, fee)
    {
      Q.FollowIs(Spending(), outputs, end);
      hide Spending;
    }

    lemma RetriedHere(outputs: seq<Output>, amount: nat, selected: nat, fee: nat)
      requires outputs != [] && amount == OutputSum(outputs)
      ensures Q.Retried(Spending(), outputs, selected, fee) ==
        var n := |outputs| - 1;
        if balance < amount + TxFee(feePerKb, 10 + |utxos| * TX_INPUT_SIZE + (|outputs| + 1) * TX_OUTPUT_SIZE) then None
        else if outputs[n].amount > Sub64(amount + fee + MinAmount(feePerKb), selected) then
          Some(outputs[n := outputs[n].(amount := Sub64(outputs[n].amount, amount + fee - selected))])
        else Some(outputs[..n])
    {
      hide OutputSum, TxFee, MinAmount, Sub64;
    }

    lemma CountsFit(outputs: seq<Output>)
      requires CanSpend(outputs) && |utxos| <= UINT32_MAX
      ensures feePerKb <= MAX_FEE_PER_KB
      ensures 10 + |utxos| * TX_INPUT_SIZE + (|outputs| + 1) * TX_OUTPUT_SIZE <= SIZE_LIMIT
    {
      hide OutputSum, Total, OutputSizes;
      SizesCount(outputs);
    }

    static lemma {:induction false} SizesCount(outputs: seq<Output>)
      ensures |outputs| <= OutputSizes(outputs)
    {
      if outputs != [] { SizesCount(outputs[..|outputs| - 1]); }
    }

    lemma FollowCanSpend(outputs: seq<Output>)
      requires CanSpend(outputs) && |utxos| <= UINT32_MAX && outputs != [] && Q.IsCapped(Spending(), outputs)
      ensures var next := Q.Follow(Spending(), outputs); next.Some? ==> CanSpend(next.value)
    {
      hide *;
      var f := Spending();
      InRangeIs(outputs);
      Q.CapFound(f, outputs);
      var end: nat :| Q.IsCapAt(f, outputs, end);
      Q.FollowKeeps(f, outputs, end);
      if Q.Follow(f, outputs).Some? { InRangeIs(Q.Follow(f, outputs).value); }
    }

    lemma InRangeIs(outputs: seq<Output>)
      ensures Q.InRange(Spending(), outputs) <==> CanSpend(outputs) && |utxos| <= UINT32_MAX
    {
      hide Total, OutputSum, OutputSizes;
    }

    // The fee for spending every unspent output, with one output more than requested.
    ghost function FeeForAll(outputs: seq<Output>): nat
      reads this
    {
      TxFee(feePerKb, UnsignedSize(|InputsFor(Ctx(0), utxos)|, outputs) + TX_OUTPUT_SIZE)
    }

    lemma SpendFacts(outputs: seq<Output>)
      requires CanSpend(outputs)
      ensures balance <= MAX_MONEY && OutputSum(outputs) <= MAX_MONEY && feePerKb <= MAX_FEE_PER_KB
      ensures MinAmount(feePerKb) <= MAX_MONEY
    {
      MinAmountFits(feePerKb);
    }

    // Spends outputs until they pay for everything, either exactly or with an economical rest, or make the transaction
    // too large.
    method SelectCoins(outputs: seq<Output>, amount: UInt64, minAmount: UInt64, tx0: Tx, fee0: UInt64)
        returns (tx: Tx, selected: UInt64, fee: UInt64, ghost end: nat, capped: bool)
      requires CanSpend(outputs) && amount == OutputSum(outputs) && minAmount == MinAmount(feePerKb) <= MAX_MONEY
      requires tx0.outputs == outputs && Selecting(outputs, 0, tx0.inputs, 0, fee0) && fee0 <= FEE_LIMIT
      ensures capped <==> IsCapped(outputs)
      ensures !capped ==> Selecting(outputs, end, tx.inputs, selected, fee) && tx.outputs == outputs
      ensures !capped ==> selected <= balance && fee <= FEE_LIMIT + 100
      ensures capped ==> StopsAt(outputs, end, selected, fee)
      ensures FitsCap(outputs) ==> !capped
      ensures !capped && balance >= amount + FeeForAll(outputs) ==> selected >= amount + fee
    {
      hide *;
      tx, selected, fee, capped := tx0, 0, fee0, false;
      SpendFacts(outputs);
      var i, done := 0, false;
      OpenStart(outputs);
      while i < |utxos| && !done && !capped
        invariant 0 <= i <= |utxos| && (done ==> !capped)
        invariant capped ==> IsCapped(outputs) && StopsAt(outputs, i, selected, fee)
        invariant !capped ==> tx.outputs == outputs && Selecting(outputs, i, tx.inputs, selected, fee)
        invariant !capped ==> selected <= balance && fee <= FEE_LIMIT + 100
        invariant done ==> !IsCapped(outputs) && selected >= amount + fee
        invariant !done && !capped ==> IsUndecided(outputs, i)
        decreases |utxos| - i, !done, !capped
      {
        var skipped: bool;
        SelectedSoFar(outputs, i, tx.inputs, selected, fee);
        tx, selected, fee, skipped, capped := SelectOne(outputs, amount, i, tx, selected, fee);
        OpenNext(outputs, i);
        if !capped {
          EnoughIs(outputs, i, tx.inputs, selected, fee, skipped);
          if !skipped && (selected == amount + fee || selected >= amount + fee + minAmount) { done := true; }
          i := i + 1;
        }
      }
      OpenEnd(outputs, i, done, capped);
      if !done && !capped { AllSelected(outputs, i, tx.inputs, selected, fee); }
      end := i;
    }

    // Selection stops behind the first end outputs, because one more input is too large; with this sum and fee.
    ghost predicate StopsAt(outputs: seq<Output>, end: nat, selected: nat, fee: nat)
      reads this
    {
      && end < |utxos| && Q.IsCapAt(Spending(), outputs, end)
      && selected == Q.Worth(Spending(), end) && fee == Q.FeeAt(Spending(), outputs, end)
    }

    lemma SelectedSoFar(outputs: seq<Output>, i: nat, inputs: seq<Input>, selected: nat, fee: nat)
      requires i < |utxos| && Selecting(outputs, i, inputs, selected, fee) && IsUndecided(outputs, i)
      ensures Oversized(outputs, i + 1) ==> StopsAt(outputs, i, selected, fee)
    {
      hide Undecided, TooLarge, InputsFor, InputSum, OutputSum, TxFee, UnsignedSize;
    }

    lemma OpenStart(outputs: seq<Output>)
      ensures IsUndecided(outputs, 0)
    {
      Undecided0(Ctx(0), utxos, balance, feePerKb, outputs);
    }

    lemma OpenNext(outputs: seq<Output>, i: nat)
      requires i < |utxos| && IsUndecided(outputs, i)
      ensures Oversized(outputs, i + 1) ==> IsCapped(outputs)
      ensures !Oversized(outputs, i + 1) && Enough(outputs, i + 1) ==> !IsCapped(outputs)
      ensures !Oversized(outputs, i + 1) && !Enough(outputs, i + 1) ==> IsUndecided(outputs, i + 1)
    {
      hide Undecided, TooLarge, Suffices, HitsCap;
      Decided(Ctx(0), utxos, balance, feePerKb, outputs, i);
    }

    lemma OpenEnd(outputs: seq<Output>, i: nat, done: bool, capped: bool)
      requires !done && !capped ==> i == |utxos| && IsUndecided(outputs, i)
      ensures !done && !capped ==> !IsCapped(outputs)
      ensures FitsCap(outputs) ==> !IsCapped(outputs)
    {
      hide Undecided, TooLarge, Suffices, HitsCap, InputsFor, UnsignedSize;
      if !done && !capped { UndecidedEnd(Ctx(0), utxos, balance, feePerKb, outputs); }
      if FitsCap(outputs) { AllFit(Ctx(0), utxos, balance, feePerKb, outputs); }
    }

    lemma EnoughIs(outputs: seq<Output>, i: nat, inputs: seq<Input>, selected: nat, fee: nat, skipped: bool)
      requires i < |utxos| && Selecting(outputs, i + 1, inputs, selected, fee)
      requires skipped <==> !Known(Ctx(0), utxos[i])
      requires !skipped ==> fee == TargetFee(balance, feePerKb, outputs, |inputs|)
      ensures Enough(outputs, i + 1) <==> (!skipped
        && (selected == OutputSum(outputs) + fee || selected >= OutputSum(outputs) + fee + MinAmount(feePerKb)))
    {
      hide InputsFor, InputSum, OutputSum, TargetFee, TxFee, UnsignedSize, MinAmount, Known;
    }

    // Adds the change output, unless the change is uneconomical.
    method Complete(outputs: seq<Output>, changeScript: Bytes, amount: UInt64, minAmount: UInt64,
                    tx0: Tx, selected: UInt64, fee: UInt64, ghost i: nat) returns (tx: Tx)
      requires CanSpend(outputs) && |changeScript| <= 25
      requires amount == OutputSum(outputs) && minAmount == MinAmount(feePerKb) && tx0.outputs == outputs
      requires Selecting(outputs, i, tx0.inputs, selected, fee) && amount + fee <= selected <= balance
      ensures Satisfies(Ctx(0), utxos, balance, feePerKb, outputs, changeScript, tx)
    {
      hide *;
      tx := tx0;
      NonemptySelection(outputs, i, tx.inputs, selected, fee);
      if selected - (amount + fee) >= minAmount {
        var change := Output("", selected - (amount + fee), changeScript);
        var shuffled := Shuffle(outputs + [change]);
        SelectionWithChange(outputs, i, tx.inputs, selected, fee, change, tx.(outputs := shuffled));
        tx := tx.(outputs := shuffled);
      } else {
        SelectionWithoutChange(outputs, i, tx.inputs, selected, fee, changeScript, tx);
      }
    }

    static method AddAllOutputs(outputs: seq<Output>, tx0: Tx) returns (tx: Tx, amount: UInt64)
      requires OutputSum(outputs) <= MAX_MONEY && tx0.outputs == []
      ensures amount == OutputSum(outputs) && tx == tx0.(outputs := outputs)
    {
      tx, amount := tx0, 0;
      for i := 0 to |outputs|
        invariant amount == OutputSum(outputs[..i]) <= MAX_MONEY && tx == tx0.(outputs := outputs[..i])
      {
        OutputSumNext(outputs, i);
        tx := tx.(outputs := tx.outputs + [outputs[i]]);
        amount := amount + outputs[i].amount;
      }
      assert outputs[..|outputs|] == outputs;
    }

    method InitialFee(outputs: seq<Output>, tx: Tx) returns (fee: UInt64)
      requires CanSpend(outputs) && tx.inputs == [] && tx.outputs == outputs
      ensures Selecting(outputs, 0, tx.inputs, 0, fee) && fee <= FEE_LIMIT
    {
      assert utxos[..0] == [];
      FeeFits(outputs, 0);
      hide TxFee, OutputSizes;
      var size := TransactionSize(tx);
      fee := TxFee(feePerKb, size + TX_OUTPUT_SIZE);
    }

    // When every output was tried, the fee is that of spending everything, and the funds suffice if they cover it.
    lemma AllSelected(outputs: seq<Output>, i: nat, inputs: seq<Input>, selected: nat, fee: nat)
      requires CanSpend(outputs) && i == |utxos| && Selecting(outputs, i, inputs, selected, fee)
      ensures balance >= OutputSum(outputs) + FeeForAll(outputs) ==> selected >= OutputSum(outputs) + fee
    {
      assert utxos[..i] == utxos;
      InputsForMeaning(Ctx(0), utxos);
      hide TxFee, OutputSum, UnsignedSize;
      RoundedFeeMeaning(balance, OutputSum(outputs),
        TxFee(feePerKb, UnsignedSize(|InputsFor(Ctx(0), utxos)|, outputs) + TX_OUTPUT_SIZE));
    }

    // A selection that covers the fee is not empty, since no fee is zero.
    lemma NonemptySelection(outputs: seq<Output>, i: nat, inputs: seq<Input>, selected: nat, fee: nat)
      requires Selecting(outputs, i, inputs, selected, fee) && selected >= OutputSum(outputs) + fee
      ensures fee == TargetFee(balance, feePerKb, outputs, |inputs|)
    {
      assert UnsignedSize(0, outputs) > 0 && TxFee(feePerKb, UnsignedSize(0, outputs) + TX_OUTPUT_SIZE) > 0;
    }

    lemma SelectionWithoutChange(outputs: seq<Output>, i: nat, inputs: seq<Input>, selected: nat, fee: nat,
                                 changeScript: Bytes, tx: Tx)
      requires CanSpend(outputs) && Selecting(outputs, i, inputs, selected, fee) && selected <= balance
      requires fee == TargetFee(balance, feePerKb, outputs, |inputs|)
      requires 0 <= selected - (OutputSum(outputs) + fee) < MinAmount(feePerKb)
      requires tx.inputs == inputs && tx.outputs == outputs
      ensures Satisfies(Ctx(0), utxos, balance, feePerKb, outputs, changeScript, tx)
    {
      hide OutputSum, OutputSizes, OutputSize, TxFee, TxSize, UnsignedSize, InputsFor, InputSum, InputSizes, MinAmount;
      hide SpendFirst;
      InputsForMeaning(Ctx(0), utxos[..i]);
      FirstInputs(Ctx(0), utxos, i);
      RoundedWithin(outputs, |inputs|, fee);
      if |outputs| < 252 {
        TargetCovers(balance, feePerKb, outputs, tx, Output("", 0, []));
      }
    }

    lemma RoundedWithin(outputs: seq<Output>, inCount: nat, fee: nat)
      requires fee == TargetFee(balance, feePerKb, outputs, inCount) && balance >= OutputSum(outputs) + fee
      ensures (balance - (OutputSum(outputs) + fee)) % 100 == 0
    {
      hide TxFee, UnsignedSize, OutputSum;
      RoundedFeeMeaning(balance, OutputSum(outputs), TxFee(feePerKb, UnsignedSize(inCount, outputs) + TX_OUTPUT_SIZE));
    }

    lemma {:induction false} SelectionWithChange(outputs: seq<Output>, i: nat, inputs: seq<Input>, selected: nat, fee: nat,
                                                 change: Output, tx: Tx)
      requires CanSpend(outputs) && Selecting(outputs, i, inputs, selected, fee) && selected <= balance
      requires fee == TargetFee(balance, feePerKb, outputs, |inputs|)
      requires change.amount == selected - (OutputSum(outputs) + fee) >= MinAmount(feePerKb)
      requires |change.script| <= 25 && tx.inputs == inputs && |tx.outputs| == |outputs| + 1
      requires multiset(tx.outputs) == multiset(outputs + [change])
      requires OutputSum(tx.outputs) == OutputSum(outputs + [change])
      requires OutputSizes(tx.outputs) == OutputSizes(outputs + [change])
      ensures Satisfies(Ctx(0), utxos, balance, feePerKb, outputs, change.script, tx)
    {
      hide OutputSum, OutputSizes, OutputSize, TxFee, TxSize, UnsignedSize, InputsFor, InputSum, InputSizes, MinAmount;
      hide SpendFirst;
      InputsForMeaning(Ctx(0), utxos[..i]);
      FirstInputs(Ctx(0), utxos, i);
      OutputSizesAppend(outputs, change);
      RoundedWithin(outputs, |inputs|, fee);
      if |outputs| < 252 {
        TargetCovers(balance, feePerKb, outputs, tx, change);
      }
    }

    // With a current ledger, a created transaction spends outputs of accepted transactions to the wallet, and none twice.
    lemma CreatedSpends(now: int, rank: Hash -> nat, top: nat, outputs: seq<Output>, changeScript: Bytes, tx: Tx)
      requires Sound(rank, top) && Current(now)
      requires Satisfies(Ctx(0), utxos, balance, feePerKb, outputs, changeScript, tx)
      ensures NoRepeats(SpendsOf(tx.inputs))
      ensures forall op :: op in SpendsOf(tx.inputs) ==>
        exists i: nat :: i < |transactions| && transactions[i].txHash == op.hash
                         && PaysAt(Ctx(now), transactions, Verdicts(Ctx(now), transactions), i, op.n)
    {
      hide *;
      SoundKeys(rank, top);
      SoundIs(rank, top);
      SoundRegistered(now, rank, top);
      UtxosKept(now, rank, top);
      CurrentIs(0);
      SatisfiesFirst(outputs, changeScript, tx);
      SpendsListed(Ctx(0), utxos, tx.inputs);
      forall op | op in SpendsOf(tx.inputs)
        ensures exists i: nat :: i < |transactions| && transactions[i].txHash == op.hash
                                 && PaysAt(Ctx(now), transactions, Verdicts(Ctx(now), transactions), i, op.n)
      {
        UtxosIff(Ctx(now), transactions, op);
      }
    }

    lemma UtxosKept(now: int, rank: Hash -> nat, top: nat)
      requires Sound(rank, top) && Current(now)
      ensures Numbered(transactions) && utxos == Run(Ctx(now), transactions).utxos && NoRepeats(utxos)
    {
      UtxosOnce(Ctx(now), transactions);
      hide Run, NoRepeats;
    }

    lemma SatisfiesFirst(outputs: seq<Output>, changeScript: Bytes, tx: Tx)
      requires Satisfies(Ctx(0), utxos, balance, feePerKb, outputs, changeScript, tx)
      ensures SpendFirst(Ctx(0), utxos, tx.inputs)
    {
      hide SpendFirst, OutputSum, TxFee, TargetFee, MinAmount, InputSum;
    }

    // What the balance leaves for one recipient when a transaction spends every unspent output.
    method MaxOutputAmount() returns (amount: UInt64)
      requires CanSpend([]) && |utxos| <= UINT32_MAX
      ensures amount == MaxAmount(feePerKb, balance, |InputsFor(Ctx(0), utxos)|)
    {
      var i, total: UInt64, inCount := |utxos|, 0, 0;
      ghost var ctx := Ctx(0);
      assert utxos[..i] == utxos;
      InputsForMeaning(ctx, utxos);
      hide Total, InputsFor, InputSum, InputSizes;
      while i > 0
        invariant 0 <= i <= |utxos|
        invariant total == Total(ctx, utxos) - Total(ctx, utxos[..i])
        invariant inCount == |InputsFor(ctx, utxos)| - |InputsFor(ctx, utxos[..i])|
      {
        i := i - 1;
        InputsForNext(ctx, utxos, i);
        InputsForGrow(ctx, utxos, i);
        InputsForMeaning(ctx, utxos[..i]);
        InputsForMeaning(ctx, utxos[..i + 1]);
        var o := utxos[i];
        if o.hash in allTx && o.n < |allTx[o.hash].outputs| {
          inCount := inCount + 1;
          total := total + allTx[o.hash].outputs[o.n].amount;
        }
      }
      NothingLeft(ctx);
      var txSize := 8 + VarIntSize(inCount) + TX_INPUT_SIZE * inCount + VarIntSize(2) + TX_OUTPUT_SIZE * 2;
      TxFeeFits(feePerKb, txSize);
      hide TxFee;
      var fee := TxFee(feePerKb, txSize);
      amount := if total > fee then total - fee else 0;
    }

    lemma NothingLeft(ctx: Context)
      ensures utxos[..0] == [] && Total(ctx, []) == 0 && InputsFor(ctx, []) == []
    {
    }

    // Sending the largest amount to one address succeeds.
    method SendMax(script: Bytes, changeScript: Bytes) returns (r: Option<Tx>)
      requires CanSpend([]) && |utxos| <= UINT32_MAX && |script| <= 25 && |changeScript| <= 25
      requires 8 + VarIntSize(|InputsFor(Ctx(0), utxos)|) + TX_INPUT_SIZE * |InputsFor(Ctx(0), utxos)|
        + VarIntSize(2) + TX_OUTPUT_SIZE * 2 <= TX_MAX_SIZE
      ensures MaxAmount(feePerKb, balance, |InputsFor(Ctx(0), utxos)|) > 0 ==> r.Some?
    {
      hide *;
      r := None;
      var amount := MaxOutputAmount();
      if amount > 0 {
        var output := Output("", amount, script);
        MaxFits(output);
        NothingFollows([output]);
        r := CreateTxForOutputs([output], changeScript, 0);
      }
    }

    lemma MaxFits(output: Output)
      requires CanSpend([]) && |utxos| <= UINT32_MAX && |output.script| <= 25
      requires output.amount == MaxAmount(feePerKb, balance, |InputsFor(Ctx(0), utxos)|) > 0
      requires 8 + VarIntSize(|InputsFor(Ctx(0), utxos)|) + TX_INPUT_SIZE * |InputsFor(Ctx(0), utxos)|
        + VarIntSize(2) + TX_OUTPUT_SIZE * 2 <= TX_MAX_SIZE
      ensures CanSpend([output]) && FitsCap([output]) && balance >= OutputSum([output]) + FeeForAll([output])
    {
      SingleOutput(output);
      MaxAmountAffordable(feePerKb, balance, |InputsFor(Ctx(0), utxos)|, output);
      hide InputsFor, MaxAmount, TxFee, Total;
    }

    lemma NothingFollows(outputs: seq<Output>)
      ensures FitsCap(outputs) ==> Q.Ends(Spending(), outputs, 0)
    {
      hide *;
      CapIs(outputs);
      OpenEnd(outputs, 0, true, false);
      if FitsCap(outputs) { Q.EndsAtOnce(Spending(), outputs, 0); }
    }

    lemma CapIs(outputs: seq<Output>)
      ensures Q.IsCapped(Spending(), outputs) <==> IsCapped(outputs)
    {
      hide HitsCap;
    }

    lemma SingleOutput(output: Output)
      ensures OutputSum([output]) == output.amount && OutputSizes([output]) == OutputSize(output)
    {
      assert [output][..0] == [] && OutputSum([]) == 0 && OutputSizes([]) == 0;
    }
  }
}
