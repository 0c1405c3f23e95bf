/** The order in which transactions are kept, and what inserting one and marking some as unconfirmed leaves of it. */
module Insertion {
  import opened Removal
  import opened Options
  import opened Transactions

  // Spending lowers the rank: the known transactions and the ones that they spend form no cycle.
  ghost predicate RanksInputs(t: Tx, rank: Hash -> nat) {
    forall j :: 0 <= j < |t.inputs| ==> rank(t.inputs[j].txHash) < rank(t.txHash)
  }

  ghost predicate KnownRanked(allTx: map<Hash, Tx>, rank: Hash -> nat) {
    forall h :: h in allTx ==> allTx[h].txHash == h && RanksInputs(allTx[h], rank)
  }

  // t1 belongs behind t2: it is higher, or it is as high and spends t2 directly or through known transactions of
  // that height or above.
  ghost predicate IsAscending(allTx: map<Hash, Tx>, rank: Hash -> nat, t1: Tx, t2: Tx)
    requires KnownRanked(allTx, rank) && RanksInputs(t1, rank)
    decreases rank(t1.txHash)
  {
    if t1.blockHeight != t2.blockHeight then t1.blockHeight > t2.blockHeight
    else if SpendsTx(t1, t2.txHash) then true
    else if SpendsTx(t2, t1.txHash) then false
    else exists j :: 0 <= j < |t1.inputs| && IsAscendingInput(allTx, rank, t1, j, t2)
  }

  ghost predicate IsAscendingInput(allTx: map<Hash, Tx>, rank: Hash -> nat, t1: Tx, j: nat, t2: Tx)
    requires KnownRanked(allTx, rank) && RanksInputs(t1, rank) && j < |t1.inputs|
    decreases rank(t1.txHash), 0
  {
    var h := t1.inputs[j].txHash;
    h in allTx && IsAscending(allTx, rank, allTx[h], t2)
  }

  // The position of the last address of a chain that a transaction pays to.
  function ChainIndex(tx: Tx, chain: seq<string>): Option<nat> {
    if chain == [] then None
    else if PaysTo(tx, chain[|chain| - 1]) then Some(|chain| - 1)
    else ChainIndex(tx, chain[..|chain| - 1])
  }

  predicate PaysTo(tx: Tx, address: string) {
    exists j :: 0 <= j < |tx.outputs| && tx.outputs[j].address == address
  }

  // The order by address chains, for transactions that the other criteria leave open.
  function ChainOrder(t1: Tx, t2: Tx, internalChain: seq<string>, externalChain: seq<string>): int {
    var i := ChainIndex(t1, internalChain);
    var j := ChainIndex(t2, if i.None? then externalChain else internalChain);
    var i' := if i.None? && j.Some? then ChainIndex(t1, externalChain) else i;
    if i'.Some? && j.Some? && i' != j then (if i'.value > j.value then 1 else -1) else 0
  }

  lemma AscendingIff(allTx: map<Hash, Tx>, rank: Hash -> nat, t1: Tx, t2: Tx)
    requires KnownRanked(allTx, rank) && RanksInputs(t1, rank)
    ensures IsAscending(allTx, rank, t1, t2) <==>
      || t1.blockHeight > t2.blockHeight
      || (&& t1.blockHeight == t2.blockHeight
          && (|| (exists input :: input in t1.inputs && input.txHash == t2.txHash)
              || ((forall input :: input in t2.inputs ==> input.txHash != t1.txHash)
                  && exists input :: input in t1.inputs && input.txHash in allTx
                       && IsAscending(allTx, rank, allTx[input.txHash], t2))))
  {
    if input :| input in t1.inputs && input.txHash in allTx && IsAscending(allTx, rank, allTx[input.txHash], t2) {
      var j :| 0 <= j < |t1.inputs| && t1.inputs[j] == input;
      assert IsAscendingInput(allTx, rank, t1, j, t2);
    }
    if j :| 0 <= j < |t1.inputs| && IsAscendingInput(allTx, rank, t1, j, t2) {
      assert t1.inputs[j] in t1.inputs;
    }
  }

  // The last address of the chain that is paid to.
  lemma {:induction false} ChainIndexMeaning(tx: Tx, chain: seq<string>)
    ensures match ChainIndex(tx, chain)
      case None => forall k, j :: 0 <= k < |chain| && 0 <= j < |tx.outputs| ==> tx.outputs[j].address != chain[k]
      case Some(i) =>
        && i < |chain| && (exists j :: 0 <= j < |tx.outputs| && tx.outputs[j].address == chain[i])
        && forall k, j :: i < k < |chain| && 0 <= j < |tx.outputs| ==> tx.outputs[j].address != chain[k]
  {
    if chain != [] {
      ChainIndexMeaning(tx, chain[..|chain| - 1]);
    }
  }

  // Positions are compared in the internal chain if the first transaction pays to it, and in the external one otherwise;
  // without two different ones the order is open.
  lemma ChainOrderMeaning(t1: Tx, t2: Tx, internalChain: seq<string>, externalChain: seq<string>)
    ensures var chain := if ChainIndex(t1, internalChain).Some? then internalChain else externalChain;
      var i, j, c := ChainIndex(t1, chain), ChainIndex(t2, chain), ChainOrder(t1, t2, internalChain, externalChain);
      && (c == 1 <==> i.Some? && j.Some? && i.value > j.value)
      && (c == -1 <==> i.Some? && j.Some? && i.value < j.value) && -1 <= c <= 1
  {
    hide ChainIndex;
  }

  // What the position of a transaction is decided by.
  ghost function Order(allTx: map<Hash, Tx>, rank: Hash -> nat, t1: Tx, t2: Tx, internalChain: seq<string>,
                       externalChain: seq<string>): int
    requires KnownRanked(allTx, rank) && RanksInputs(t1, rank) && RanksInputs(t2, rank)
  {
    if IsAscending(allTx, rank, t1, t2) then 1
    else if IsAscending(allTx, rank, t2, t1) then -1
    else ChainOrder(t1, t2, internalChain, externalChain)
  }

  // A transaction that depends on another one through known transactions of the same height: the first of them is spent
  // by it, every one spends the next, and the last one spends the other.
  ghost predicate DependsOn(allTx: map<Hash, Tx>, t1: Tx, between: seq<Hash>, t2: Tx)
    decreases |between|
  {
    && t1.blockHeight == t2.blockHeight
    && if between == [] then exists j :: 0 <= j < |t1.inputs| && t1.inputs[j].txHash == t2.txHash
       else
         && between[0] in allTx && (exists j :: 0 <= j < |t1.inputs| && t1.inputs[j].txHash == between[0])
         && DependsOn(allTx, allTx[between[0]], between[1..], t2)
  }

  lemma {:induction false} DependsAscending(allTx: map<Hash, Tx>, rank: Hash -> nat, t1: Tx, between: seq<Hash>, t2: Tx)
    requires KnownRanked(allTx, rank) && RanksInputs(t1, rank) && RanksInputs(t2, rank)
    requires DependsOn(allTx, t1, between, t2)
    ensures rank(t2.txHash) < rank(t1.txHash) && IsAscending(allTx, rank, t1, t2)
    decreases |between|
  {
    if between != [] {
      var h := between[0];
      DependsAscending(allTx, rank, allTx[h], between[1..], t2);
      var j :| 0 <= j < |t1.inputs| && t1.inputs[j].txHash == h;
      assert IsAscendingInput(allTx, rank, t1, j, t2);
      hide IsAscending;
      assert !SpendsTx(t2, t1.txHash);
      AscendingByInput(allTx, rank, t1, j, t2);
    }
  }

  lemma AscendingByInput(allTx: map<Hash, Tx>, rank: Hash -> nat, t1: Tx, j: nat, t2: Tx)
    requires KnownRanked(allTx, rank) && RanksInputs(t1, rank) && j < |t1.inputs|
    requires t1.blockHeight == t2.blockHeight && !SpendsTx(t2, t1.txHash) && IsAscendingInput(allTx, rank, t1, j, t2)
    ensures IsAscending(allTx, rank, t1, t2)
  {
    hide IsAscendingInput;
  }

  // No transaction is below a known one that it spends.
  ghost predicate AboveInputs(allTx: map<Hash, Tx>, t: Tx) {
    forall j :: 0 <= j < |t.inputs| && t.inputs[j].txHash in allTx ==>
      t.blockHeight >= allTx[t.inputs[j].txHash].blockHeight
  }

  // Then none belongs behind one of a higher rank that is as high.
  lemma {:induction false} NotAscending(allTx: map<Hash, Tx>, rank: Hash -> nat, t1: Tx, t2: Tx)
    requires KnownRanked(allTx, rank) && RanksInputs(t1, rank) && (forall h :: h in allTx ==> AboveInputs(allTx, allTx[h]))
    requires AboveInputs(allTx, t1) && t1.blockHeight <= t2.blockHeight && rank(t1.txHash) < rank(t2.txHash)
    ensures !IsAscending(allTx, rank, t1, t2)
    decreases rank(t1.txHash)
  {
    forall j | 0 <= j < |t1.inputs| ensures !IsAscendingInput(allTx, rank, t1, j, t2) {
      var h := t1.inputs[j].txHash;
      if h in allTx { NotAscending(allTx, rank, allTx[h], t2); }
    }
    hide IsAscendingInput;
  }

  // The comparison never contradicts the heights.
  ghost predicate Compares(t1: Tx, t2: Tx, c: int) {
    (c > 0 ==> t1.blockHeight >= t2.blockHeight) && (c <= 0 ==> t1.blockHeight <= t2.blockHeight)
  }

  lemma AscendingHeights(allTx: map<Hash, Tx>, rank: Hash -> nat, t1: Tx, t2: Tx)
    requires KnownRanked(allTx, rank) && RanksInputs(t1, rank)
    ensures t1.blockHeight > t2.blockHeight ==> IsAscending(allTx, rank, t1, t2)
    ensures IsAscending(allTx, rank, t1, t2) ==> t1.blockHeight >= t2.blockHeight
  {
  }

  // ---- insertion ----

  function Inserted(txs: seq<Tx>, i: nat, tx: Tx): seq<Tx>
    requires i <= |txs|
  {
    txs[..i] + [tx] + txs[i..]
  }

  lemma IsInserted(txs: seq<Tx>, before: seq<Tx>, i: nat, tx: Tx)
    requires i <= |before| && |txs| == |before| + 1
    requires (forall k :: 0 <= k < i ==> txs[k] == before[k]) && txs[i] == tx
    requires forall k :: i < k < |txs| ==> txs[k] == before[k - 1]
    ensures txs == Inserted(before, i, tx)
  {
    assert txs[..i] == before[..i] && txs[i + 1..] == before[i..];
    assert txs == txs[..i] + [txs[i]] + txs[i + 1..];
  }

  // Inserting behind the transactions that are not higher and before those that are not lower.
  lemma InsertedSorted(txs: seq<Tx>, i: nat, tx: Tx)
    requires HeightSorted(txs) && i <= |txs|
    requires i > 0 ==> txs[i - 1].blockHeight <= tx.blockHeight
    requires forall k :: i <= k < |txs| ==> txs[k].blockHeight >= tx.blockHeight
    ensures HeightSorted(Inserted(txs, i, tx))
  {
    assert forall k :: 0 <= k < i ==> txs[k].blockHeight <= txs[i - 1].blockHeight;
  }

  // A new transaction that is not below one it spends, and not above one that spends it.
  ghost predicate Fits(txs: seq<Tx>, allTx: map<Hash, Tx>, tx: Tx) {
    && tx.txHash !in allTx
    && (forall h :: h in allTx && SpendsTx(tx, h) ==> tx.blockHeight >= allTx[h].blockHeight)
    && (forall i :: 0 <= i < |txs| && SpendsTx(txs[i], tx.txHash) ==> txs[i].blockHeight >= tx.blockHeight)
  }

  lemma InsertedKeeps(txs: seq<Tx>, allTx: map<Hash, Tx>, i: nat, tx: Tx, rank: Hash -> nat, top: nat)
    requires i <= |txs| && DistinctHashes(txs) && Ranked(txs, rank, top)
    requires forall k :: 0 <= k < |txs| ==> txs[k].txHash in allTx
    requires tx.txHash !in allTx && RanksAbove(tx, rank, top)
    ensures DistinctHashes(Inserted(txs, i, tx)) && Ranked(Inserted(txs, i, tx), rank, top)
    ensures ChildrenAbove(txs, allTx) && Fits(txs, allTx, tx) ==>
      ChildrenAbove(Inserted(txs, i, tx), allTx[tx.txHash := tx])
  {
    var all := Inserted(txs, i, tx);
    assert forall k :: 0 <= k < |all| ==> all[k] == if k < i then txs[k] else if k == i then tx else txs[k - 1];
    NoSelfSpend(tx, rank, top);
    hide Inserted, SpendsTx, RanksAbove;
  }

  lemma NoSelfSpend(tx: Tx, rank: Hash -> nat, top: nat)
    requires RanksAbove(tx, rank, top)
    ensures !SpendsTx(tx, tx.txHash)
  {
  }

  // A non-wallet transaction that is only remembered.
  lemma RememberedKeeps(txs: seq<Tx>, allTx: map<Hash, Tx>, tx: Tx)
    requires ChildrenAbove(txs, allTx) && Fits(txs, allTx, tx)
    ensures ChildrenAbove(txs, allTx[tx.txHash := tx])
  {
    hide SpendsTx;
  }

  // ---- unconfirming ----

  // i is behind the last transaction that is not above a height: on a sorted list, behind all of them.
  ghost predicate IsFirstAbove(txs: seq<Tx>, height: nat, i: nat) {
    && i <= |txs| && (i > 0 ==> txs[i - 1].blockHeight <= height)
    && forall k :: i <= k < |txs| ==> txs[k].blockHeight > height
  }

  // No known transaction is above those that are unconfirmed.
  ghost predicate Capped(allTx: map<Hash, Tx>) { forall h :: h in allTx ==> allTx[h].blockHeight <= TX_UNCONFIRMED }

  function Unconfirmed(t: Tx): Tx { t.(blockHeight := TX_UNCONFIRMED) }

  // The list with everything from position i on unconfirmed.
  ghost predicate UnconfirmedFrom(txs: seq<Tx>, before: seq<Tx>, i: nat) {
    && i <= |before| == |txs|
    && forall k :: 0 <= k < |txs| ==> txs[k] == if k < i then before[k] else before[k].(blockHeight := 0x7fff_ffff)
  }

  // The known transactions change with those of the list.
  ghost predicate SameBut(allTx: map<Hash, Tx>, before: map<Hash, Tx>, txs: seq<Tx>, i: nat)
    requires i <= |txs|
  {
    && allTx.Keys == before.Keys
    && forall h :: h in before ==>
         allTx[h] == if exists k :: i <= k < |txs| && txs[k].txHash == h then Unconfirmed(before[h]) else before[h]
  }

  lemma UnconfirmedKeeps(txs: seq<Tx>, allTx: map<Hash, Tx>, before: seq<Tx>, known: map<Hash, Tx>, i: nat, height: nat,
                         rank: Hash -> nat, top: nat)
    requires i <= |before| && UnconfirmedFrom(txs, before, i) && SameBut(allTx, known, before, i)
    requires DistinctHashes(before) && HeightSorted(before) && ChildrenAbove(before, known) && Ranked(before, rank, top)
    requires forall k :: 0 <= k < |before| ==> before[k].txHash in known && known[before[k].txHash] == before[k]
    requires Capped(known) && IsFirstAbove(before, height, i)
    ensures HeightSorted(txs) && ChildrenAbove(txs, allTx)
  {
    assert forall k :: 0 <= k < i ==> before[k].blockHeight <= before[i - 1].blockHeight;
    forall k, h | 0 <= k < |txs| && h in allTx && SpendsTx(txs[k], h)
      ensures txs[k].blockHeight >= allTx[h].blockHeight
    {
      assert SpendsTx(before[k], h);
    }
  }

  lemma UnconfirmedSound(txs: seq<Tx>, allTx: map<Hash, Tx>, before: seq<Tx>, known: map<Hash, Tx>, i: nat,
                         rank: Hash -> nat, top: nat)
    requires i <= |before| && UnconfirmedFrom(txs, before, i) && SameBut(allTx, known, before, i)
    requires DistinctHashes(before) && Ranked(before, rank, top) && KnownRanked(known, rank)
    requires forall k :: 0 <= k < |before| ==> before[k].txHash in known && known[before[k].txHash] == before[k]
    ensures DistinctHashes(txs) && Ranked(txs, rank, top) && KnownRanked(allTx, rank)
    ensures forall k :: 0 <= k < |txs| ==> txs[k].txHash in allTx && allTx[txs[k].txHash] == txs[k]
  {
    forall k | 0 <= k < |txs|
      ensures RanksAbove(txs[k], rank, top) && txs[k].txHash in allTx && allTx[txs[k].txHash] == txs[k]
    {
      assert RanksAbove(before[k], rank, top);
    }
    forall h | h in allTx ensures allTx[h].txHash == h && RanksInputs(allTx[h], rank) {
      assert RanksInputs(known[h], rank);
    }
  }

  // ---- a new wallet ----

  function AddressesOf(internalAddrs: seq<string>, externalAddrs: seq<string>): set<string> {
    (set a | a in internalAddrs) + (set a | a in externalAddrs)
  }

  // Of the transactions that a wallet is created with, the signed ones, without repetitions.
  function Chosen(given: seq<Tx>): seq<Tx> {
    if given == [] then []
    else
      var tx, chosen := given[|given| - 1], Chosen(given[..|given| - 1]);
      if IsSigned(tx) && tx.txHash !in KnownOf(chosen) then chosen + [tx] else chosen
  }

  // Transactions by their hashes.
  function KnownOf(txs: seq<Tx>): map<Hash, Tx> {
    if txs == [] then map[] else KnownOf(txs[..|txs| - 1])[txs[|txs| - 1].txHash := txs[|txs| - 1]]
  }

  lemma {:induction false} KnownOfIff(txs: seq<Tx>, h: Hash)
    ensures h in KnownOf(txs) <==> exists t :: t in txs && t.txHash == h
    ensures h in KnownOf(txs) ==> KnownOf(txs)[h] in txs && KnownOf(txs)[h].txHash == h
  {
    if txs != [] {
      var n := |txs| - 1;
      KnownOfIff(txs[..n], h);
      assert txs == txs[..n] + [txs[n]];
    }
  }

  // Exactly the given transactions whose inputs all have signatures are chosen, of several with the same hash one.
  lemma ChosenMeaning(given: seq<Tx>, t: Tx)
    ensures t in Chosen(given) ==> t in given && forall input :: input in t.inputs ==> input.signature.Some?
    ensures t in given && (forall input :: input in t.inputs ==> input.signature.Some?) ==>
      exists c :: c in Chosen(given) && c.txHash == t.txHash
    ensures DistinctHashes(Chosen(given))
  {
    hide *;
    SignedIff(t);
    ChosenFrom(given, t);
    ChosenOnce(given);
  }

  lemma {:induction false} ChosenFrom(given: seq<Tx>, t: Tx)
    ensures t in Chosen(given) ==> t in given && IsSigned(t)
    ensures t in given && IsSigned(t) ==> exists c :: c in Chosen(given) && c.txHash == t.txHash
  {
    hide IsSigned, KnownOf;
    if given != [] {
      var n := |given| - 1;
      var tx, chosen := given[n], Chosen(given[..n]);
      ChosenFrom(given[..n], t);
      KnownOfIff(chosen, tx.txHash);
      assert given[..n + 1] == given == given[..n] + [tx];
      ChosenNext(given, n);
      hide Chosen;
      assert forall c :: c in chosen ==> c in Chosen(given);
    }
  }

  lemma {:induction false} ChosenOnce(given: seq<Tx>)
    ensures DistinctHashes(Chosen(given))
  {
    hide IsSigned, KnownOf;
    if given != [] {
      var n := |given| - 1;
      var tx, chosen := given[n], Chosen(given[..n]);
      ChosenOnce(given[..n]);
      KnownOfIff(chosen, tx.txHash);
      assert given[..n + 1] == given == given[..n] + [tx];
      ChosenNext(given, n);
      hide Chosen;
      assert forall k :: 0 <= k < |chosen| ==> chosen[k] in chosen;
    }
  }

  lemma SignedIff(tx: Tx)
    ensures IsSigned(tx) <==> forall input :: input in tx.inputs ==> input.signature.Some?
  {
  }

  lemma NoneChosen()
    ensures Chosen([]) == [] && KnownOf([]) == map[]
  {
  }

  lemma InsertedMultiset(txs: seq<Tx>, i: nat, tx: Tx)
    requires i <= |txs|
    ensures multiset(Inserted(txs, i, tx)) == multiset(txs) + multiset{tx}
  {
    assert txs[..i] + txs[i..] == txs;
  }

  lemma ChosenNext(given: seq<Tx>, i: nat)
    requires i < |given|
    ensures Chosen(given[..i + 1]) ==
      if IsSigned(given[i]) && given[i].txHash !in KnownOf(Chosen(given[..i])) then Chosen(given[..i]) + [given[i]]
      else Chosen(given[..i])
    ensures KnownOf(Chosen(given[..i]) + [given[i]]) == KnownOf(Chosen(given[..i]))[given[i].txHash := given[i]]
  {
    assert given[..i + 1][..i] == given[..i];
    var chosen := Chosen(given[..i]);
    assert (chosen + [given[i]])[..|chosen|] == chosen;
  }
}
