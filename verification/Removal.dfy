/** Which transactions have to go with a transaction that is removed. */
module Removal {
  import opened Transactions

  ghost predicate SpendsTx(t: Tx, h: Hash) {
    exists j :: 0 <= j < |t.inputs| && t.inputs[j].txHash == h
  }

  ghost predicate SpendsAny(t: Tx, hs: set<Hash>) {
    exists j :: 0 <= j < |t.inputs| && t.inputs[j].txHash in hs
  }

  // A set of hashes is closed under the listed transactions that spend one of its members.
  ghost predicate Closed(txs: seq<Tx>, gone: set<Hash>) {
    forall i :: 0 <= i < |txs| && SpendsAny(txs[i], gone) ==> txs[i].txHash in gone
  }

  // Every member but the roots belongs to a listed transaction that spends another member or a root.
  ghost predicate Grounded(txs: seq<Tx>, roots: set<Hash>, gone: set<Hash>) {
    forall g :: g in gone ==> g in roots || IsGround(txs, roots + gone, g)
  }

  ghost predicate IsGround(txs: seq<Tx>, hs: set<Hash>, g: Hash) {
    exists i :: 0 <= i < |txs| && txs[i].txHash == g && SpendsAny(txs[i], hs)
  }

  // The transaction h and all listed transactions that spend it, directly or through others.
  ghost predicate IsCascade(txs: seq<Tx>, h: Hash, gone: set<Hash>) {
    h in gone && Closed(txs, gone) && Grounded(txs, {h}, gone)
  }

  // No transaction spends itself, even through others: spending raises the rank.
  ghost predicate Ranked(txs: seq<Tx>, rank: Hash -> nat, top: nat) {
    forall i :: 0 <= i < |txs| ==> RanksAbove(txs[i], rank, top)
  }

  ghost predicate RanksAbove(t: Tx, rank: Hash -> nat, top: nat) {
    rank(t.txHash) <= top && forall j :: 0 <= j < |t.inputs| ==> rank(t.inputs[j].txHash) < rank(t.txHash)
  }

  // The list without some transactions, otherwise in order.
  function Without(txs: seq<Tx>, gone: set<Hash>): seq<Tx> {
    if txs == [] then []
    else Without(txs[..|txs| - 1], gone) + (if txs[|txs| - 1].txHash in gone then [] else [txs[|txs| - 1]])
  }

  ghost predicate DistinctHashes(txs: seq<Tx>) {
    forall i, j :: 0 <= i < j < |txs| ==> txs[i].txHash != txs[j].txHash
  }

  ghost predicate HeightSorted(txs: seq<Tx>) {
    forall i, j :: 0 <= i < j < |txs| ==> txs[i].blockHeight <= txs[j].blockHeight
  }

  // A listed transaction is not below one that it spends.
  ghost predicate ChildrenAbove(txs: seq<Tx>, allTx: map<Hash, Tx>) {
    forall i, h :: 0 <= i < |txs| && h in allTx && SpendsTx(txs[i], h) ==>
      txs[i].blockHeight >= allTx[h].blockHeight
  }

  // ---- cascades ----

  // The cascade is determined by what it is grounded on.
  lemma {:induction false} CascadeMember(txs: seq<Tx>, rank: Hash -> nat, top: nat, h: Hash,
                                         gone: set<Hash>, gone': set<Hash>, g: Hash)
    requires Ranked(txs, rank, top) && IsCascade(txs, h, gone) && IsCascade(txs, h, gone') && g in gone
    ensures g in gone' && rank(g) >= rank(h)
    decreases rank(g)
  {
    if g != h {
      assert {h} + gone == gone;
      assert IsGround(txs, gone, g);
      var i :| 0 <= i < |txs| && txs[i].txHash == g && SpendsAny(txs[i], gone);
      var j :| 0 <= j < |txs[i].inputs| && txs[i].inputs[j].txHash in gone;
      assert RanksAbove(txs[i], rank, top);
      CascadeMember(txs, rank, top, h, gone, gone', txs[i].inputs[j].txHash);
      assert SpendsAny(txs[i], gone');
    }
  }

  lemma CascadeUnique(txs: seq<Tx>, rank: Hash -> nat, top: nat, h: Hash, gone: set<Hash>, gone': set<Hash>)
    requires Ranked(txs, rank, top) && IsCascade(txs, h, gone) && IsCascade(txs, h, gone')
    ensures gone == gone'
  {
    forall g | g in gone ensures g in gone' { CascadeMember(txs, rank, top, h, gone, gone', g); }
    forall g | g in gone' ensures g in gone { CascadeMember(txs, rank, top, h, gone', gone, g); }
  }

  // A path of spending transactions leads down from every member to h, so the cascade holds nothing else.
  ghost predicate IsPath(txs: seq<Tx>, path: seq<Hash>, from: Hash, to: Hash) {
    && |path| > 0 && path[0] == from && path[|path| - 1] == to
    && forall k :: 0 <= k < |path| - 1 ==> IsGround(txs, {path[k + 1]}, path[k])
  }

  // Each transaction on a path is listed, and has an input that spends the next one.
  lemma PathIs(txs: seq<Tx>, path: seq<Hash>, from: Hash, to: Hash)
    ensures IsPath(txs, path, from, to) <==>
      && |path| > 0 && path[0] == from && path[|path| - 1] == to
      && forall k :: 0 <= k < |path| - 1 ==> HasSpender(txs, path[k], path[k + 1])
  {
    forall k | 0 <= k < |path| - 1
      ensures IsGround(txs, {path[k + 1]}, path[k]) <==> HasSpender(txs, path[k], path[k + 1])
    {
    }
  }

  ghost predicate HasSpender(txs: seq<Tx>, g: Hash, h: Hash) {
    exists i, j ::
      0 <= i < |txs| && 0 <= j < |txs[i].inputs| && txs[i].txHash == g && txs[i].inputs[j].txHash == h
  }

  lemma {:induction false} CascadePath(txs: seq<Tx>, rank: Hash -> nat, top: nat, h: Hash, gone: set<Hash>, g: Hash)
      returns (path: seq<Hash>)
    requires Ranked(txs, rank, top) && IsCascade(txs, h, gone) && g in gone
    ensures IsPath(txs, path, g, h)
    decreases rank(g)
  {
    if g == h {
      path := [h];
    } else {
      assert {h} + gone == gone;
      assert IsGround(txs, gone, g);
      var i :| 0 <= i < |txs| && txs[i].txHash == g && SpendsAny(txs[i], gone);
      var j :| 0 <= j < |txs[i].inputs| && txs[i].inputs[j].txHash in gone;
      var p := txs[i].inputs[j].txHash;
      assert RanksAbove(txs[i], rank, top);
      var rest := CascadePath(txs, rank, top, h, gone, p);
      assert SpendsAny(txs[i], {p});
      path := [g] + rest;
      assert forall k :: 0 < k < |path| ==> path[k] == rest[k - 1];
    }
  }

  lemma {:induction false} PathInCascade(txs: seq<Tx>, h: Hash, gone: set<Hash>, path: seq<Hash>, g: Hash)
    requires IsCascade(txs, h, gone) && IsPath(txs, path, g, h)
    requires DistinctHashes(txs)
    ensures g in gone
  {
    if |path| > 1 {
      assert IsGround(txs, {path[1]}, path[0]);
      var i :| 0 <= i < |txs| && txs[i].txHash == g && SpendsAny(txs[i], {path[1]});
      var rest := path[1..];
      forall k | 0 <= k < |rest| - 1 ensures IsGround(txs, {rest[k + 1]}, rest[k]) {
        assert rest[k] == path[k + 1] && rest[k + 1] == path[(k + 1) + 1];
      }
      PathInCascade(txs, h, gone, rest, path[1]);
      assert SpendsAny(txs[i], gone);
    }
  }

  // The cascade is the set of transactions that depend on h.
  lemma CascadeIff(txs: seq<Tx>, rank: Hash -> nat, top: nat, h: Hash, gone: set<Hash>, g: Hash)
    requires Ranked(txs, rank, top) && IsCascade(txs, h, gone) && DistinctHashes(txs)
    ensures g in gone <==> exists path :: IsPath(txs, path, g, h)
  {
    if g in gone {
      var path := CascadePath(txs, rank, top, h, gone, g);
    }
    forall path | IsPath(txs, path, g, h) ensures g in gone {
      PathInCascade(txs, h, gone, path, g);
    }
  }

  // ---- sublists ----

  lemma {:induction false} WithoutAt(txs: seq<Tx>, gone: set<Hash>, t: Tx)
    ensures t in Without(txs, gone) <==> t in txs && t.txHash !in gone
  {
    if txs != [] {
      var n := |txs| - 1;
      WithoutAt(txs[..n], gone, t);
      assert txs == txs[..n] + [txs[n]];
    }
  }

  lemma {:induction false} WithoutTwice(txs: seq<Tx>, gone: set<Hash>, more: set<Hash>)
    ensures Without(Without(txs, gone), more) == Without(txs, gone + more)
  {
    if txs != [] {
      var n := |txs| - 1;
      WithoutTwice(txs[..n], gone, more);
      var init := Without(txs[..n], gone);
      if txs[n].txHash in gone {
        assert init + [] == init && Without(txs[..n], gone + more) + [] == Without(txs[..n], gone + more);
      } else {
        assert (init + [txs[n]])[..|init|] == init;
      }
    }
  }

  lemma {:induction false} WithoutNone(txs: seq<Tx>)
    ensures Without(txs, {}) == txs
  {
    if txs != [] {
      WithoutNone(txs[..|txs| - 1]);
    }
  }

  lemma {:induction false} WithoutOne(txs: seq<Tx>, i: nat)
    requires DistinctHashes(txs) && i < |txs|
    ensures Without(txs, {txs[i].txHash}) == txs[..i] + txs[i + 1..]
  {
    var n := |txs| - 1;
    if i < n {
      WithoutOne(txs[..n], i);
      assert txs[..n][..i] == txs[..i] && txs[i + 1..] == txs[..n][i + 1..] + [txs[n]];
    } else {
      WithoutFresh(txs[..n], txs[n].txHash);
    }
  }

  lemma {:induction false} WithoutFresh(txs: seq<Tx>, h: Hash)
    requires forall i :: 0 <= i < |txs| ==> txs[i].txHash != h
    ensures Without(txs, {h}) == txs
  {
    if txs != [] {
      var n := |txs| - 1;
      WithoutFresh(txs[..n], h);
      assert txs == txs[..n] + [txs[n]];
    }
  }

  lemma {:induction false} WithoutLength(txs: seq<Tx>, gone: set<Hash>)
    ensures |Without(txs, gone)| <= |txs|
    ensures (exists i :: 0 <= i < |txs| && txs[i].txHash in gone) ==> |Without(txs, gone)| < |txs|
  {
    if txs != [] {
      WithoutLength(txs[..|txs| - 1], gone);
    }
  }

  // Every property of single transactions, and of the order of pairs, carries over to a sublist.
  lemma {:induction false} WithoutIndex(txs: seq<Tx>, gone: set<Hash>, i: nat) returns (k: nat)
    requires i < |Without(txs, gone)|
    ensures k < |txs| && txs[k] == Without(txs, gone)[i] && txs[k].txHash !in gone
    ensures forall i' :: 0 <= i' < i ==> exists k' :: 0 <= k' < k && txs[k'] == Without(txs, gone)[i']
  {
    var n := |txs| - 1;
    var init := Without(txs[..n], gone);
    if i < |init| {
      k := WithoutIndex(txs[..n], gone, i);
    } else {
      k := n;
      forall i' | 0 <= i' < i ensures exists k' :: 0 <= k' < k && txs[k'] == Without(txs, gone)[i'] {
        var k' := WithoutIndex(txs[..n], gone, i');
        assert txs[k'] == Without(txs, gone)[i'];
      }
    }
  }

  lemma WithoutKeeps(txs: seq<Tx>, gone: set<Hash>, allTx: map<Hash, Tx>, rank: Hash -> nat, top: nat)
    ensures DistinctHashes(txs) ==> DistinctHashes(Without(txs, gone))
    ensures HeightSorted(txs) ==> HeightSorted(Without(txs, gone))
    ensures ChildrenAbove(txs, allTx) ==> ChildrenAbove(Without(txs, gone), allTx - gone)
    ensures Ranked(txs, rank, top) ==> Ranked(Without(txs, gone), rank, top)
  {
    var ts := Without(txs, gone);
    forall i, j | 0 <= i < j < |ts|
      ensures DistinctHashes(txs) ==> ts[i].txHash != ts[j].txHash
      ensures HeightSorted(txs) ==> ts[i].blockHeight <= ts[j].blockHeight
    {
      var k := WithoutIndex(txs, gone, j);
      assert ts[i] == Without(txs, gone)[i];
      var k' :| 0 <= k' < k && txs[k'] == ts[i];
    }
    forall i | 0 <= i < |ts|
      ensures Ranked(txs, rank, top) ==> RanksAbove(ts[i], rank, top)
      ensures ChildrenAbove(txs, allTx) ==>
        forall h :: h in allTx - gone && SpendsTx(ts[i], h) ==> ts[i].blockHeight >= allTx[h].blockHeight
    {
      var k := WithoutIndex(txs, gone, i);
    }
  }

  // ---- the search for dependents ----

  // Searching from the end stops behind the last transaction below a height.
  function SearchEnd(txs: seq<Tx>, height: UInt32): (end: nat)
    ensures end <= |txs|
  {
    if txs == [] || txs[|txs| - 1].blockHeight < height then |txs| else SearchEnd(txs[..|txs| - 1], height)
  }

  // The search misses a transaction that spends h exactly when one of at most its position or behind it is lower.
  lemma SearchMisses(txs: seq<Tx>, h: Hash, height: UInt32)
    ensures (exists i :: 0 <= i < SearchEnd(txs, height) && SpendsTx(txs[i], h)) <==>
      exists i, k :: 0 <= i <= k < |txs| && SpendsTx(txs[i], h) && txs[k].blockHeight < height
  {
    SearchEndMeaning(txs, height);
    var end := SearchEnd(txs, height);
    if i :| 0 <= i < end && SpendsTx(txs[i], h) {
      assert 0 <= i <= end - 1 < |txs| && SpendsTx(txs[i], h) && txs[end - 1].blockHeight < height;
    }
    if i, k :| 0 <= i <= k < |txs| && SpendsTx(txs[i], h) && txs[k].blockHeight < height {
      assert 0 <= i < end && SpendsTx(txs[i], h);
    }
  }

  lemma {:induction false} SearchEndMeaning(txs: seq<Tx>, height: UInt32)
    ensures var end := SearchEnd(txs, height);
      && (end > 0 ==> txs[end - 1].blockHeight < height) && forall k :: end <= k < |txs| ==> txs[k].blockHeight >= height
  {
    if txs != [] && txs[|txs| - 1].blockHeight >= height {
      SearchEndMeaning(txs[..|txs| - 1], height);
    }
  }

  // The search for what spends d misses nothing.
  ghost predicate Visible(txs: seq<Tx>, known: map<Hash, Tx>, d: Hash)
    requires d in known
  {
    forall i :: 0 <= i < |txs| && SpendsTx(txs[i], d) ==> SearchEnd(txs, known[d].blockHeight) <= i
  }

  // Nor do the searches for what spends one that depends on h.
  ghost predicate Traceable(txs: seq<Tx>, known: map<Hash, Tx>, h: Hash) {
    forall d, path :: d in known && IsPath(txs, path, d, h) ==> Visible(txs, known, d)
  }

  // On a sorted list with no child below its parent no search misses anything.
  lemma OrderedTraceable(txs: seq<Tx>, known: map<Hash, Tx>, h: Hash)
    requires HeightSorted(txs) && ChildrenAbove(txs, known)
    ensures Traceable(txs, known, h)
  {
    hide IsPath;
    forall d, i | d in known && 0 <= i < |txs| && SpendsTx(txs[i], d) ensures SearchEnd(txs, known[d].blockHeight) <= i {
      SearchEndMeaning(txs, known[d].blockHeight);
    }
    assert forall d :: d in known ==> Visible(txs, known, d);
  }

  // Removing transactions does not move the end of a search behind a spender.
  lemma VisibleWithout(txs: seq<Tx>, known: map<Hash, Tx>, gone: set<Hash>, d: Hash)
    requires d in known && d !in gone && Visible(txs, known, d)
    ensures Visible(Without(txs, gone), known - gone, d)
  {
    var ts, height := Without(txs, gone), known[d].blockHeight;
    hide Without, SearchEnd, SpendsTx;
    SearchEndMeaning(txs, height);
    SearchEndMeaning(ts, height);
    forall i | 0 <= i < |ts| && SpendsTx(ts[i], d) ensures SearchEnd(ts, height) <= i {
      forall m | i <= m < |ts| ensures ts[m].blockHeight >= height {
        var k := WithoutIndex(txs, gone, m);
        assert exists j :: 0 <= j <= k && txs[j] == ts[i];
      }
    }
  }

  lemma TraceableWithout(txs: seq<Tx>, known: map<Hash, Tx>, gone: set<Hash>, h: Hash)
    requires Traceable(txs, known, h)
    ensures Traceable(Without(txs, gone), known - gone, h)
  {
    var ts := Without(txs, gone);
    forall d, path | d in known - gone && IsPath(ts, path, d, h) ensures Visible(ts, known - gone, d) {
      PathWithout(txs, gone, path, d, h);
      VisibleWithout(txs, known, gone, d);
    }
  }

  lemma PathWithout(txs: seq<Tx>, gone: set<Hash>, path: seq<Hash>, d: Hash, h: Hash)
    requires IsPath(Without(txs, gone), path, d, h)
    ensures IsPath(txs, path, d, h)
  {
    var ts := Without(txs, gone);
    forall k | 0 <= k < |path| - 1 ensures IsGround(txs, {path[k + 1]}, path[k]) {
      assert IsGround(ts, {path[k + 1]}, path[k]);
      var i :| 0 <= i < |ts| && ts[i].txHash == path[k] && SpendsAny(ts[i], {path[k + 1]});
      var j := WithoutIndex(txs, gone, i);
    }
  }

  lemma TraceableAbove(txs: seq<Tx>, known: map<Hash, Tx>, h: Hash, g: Hash)
    requires Traceable(txs, known, h) && IsGround(txs, {h}, g)
    ensures Traceable(txs, known, g)
  {
    hide IsGround, Visible;
    forall d, path | d in known && IsPath(txs, path, d, g) ensures Visible(txs, known, d) {
      var longer := path + [h];
      forall k | 0 <= k < |longer| - 1 ensures IsGround(txs, {longer[k + 1]}, longer[k]) {
        assert k < |path| - 1 ==> longer[k + 1] == path[k + 1] && IsGround(txs, {path[k + 1]}, path[k]);
      }
      assert IsPath(txs, longer, d, h);
    }
  }

  lemma TraceableVisible(txs: seq<Tx>, known: map<Hash, Tx>, h: Hash)
    requires Traceable(txs, known, h) && h in known
    ensures Visible(txs, known, h)
  {
    assert IsPath(txs, [h], h, h);
  }

  // ---- removing a cascade piece by piece ----

  // Some transactions above h are gone, with everything that depends on them.
  ghost predicate Cascading(txs: seq<Tx>, h: Hash, gone: set<Hash>) {
    h !in gone && Closed(txs, gone) && Grounded(txs, {h}, gone)
  }

  lemma CascadeStart(txs: seq<Tx>, h: Hash)
    ensures Cascading(txs, h, {})
  {
  }

  // Once gone is closed, closing more of the rest closes the union.
  lemma ClosedUnion(txs: seq<Tx>, gone: set<Hash>, more: set<Hash>)
    requires Closed(txs, gone) && Closed(Without(txs, gone), more)
    ensures Closed(txs, gone + more)
  {
    forall i | 0 <= i < |txs| && SpendsAny(txs[i], gone + more) ensures txs[i].txHash in gone + more {
      if txs[i].txHash !in gone {
        assert !SpendsAny(txs[i], gone);
        assert SpendsAny(txs[i], more);
        WithoutAt(txs, gone, txs[i]);
        var k :| 0 <= k < |Without(txs, gone)| && Without(txs, gone)[k] == txs[i];
      }
    }
  }

  lemma GroundedUnion(txs: seq<Tx>, h: Hash, gone: set<Hash>, g: Hash, more: set<Hash>)
    requires Grounded(txs, {h}, gone) && Grounded(Without(txs, gone), {g}, more) && g in more
    requires g == h || IsGround(txs, {h}, g)
    ensures Grounded(txs, {h}, gone + more)
  {
    var all := {h} + (gone + more);
    forall x | x in gone + more ensures x in {h} || IsGround(txs, all, x) {
      if x in gone {
        if x != h {
          GroundMore(txs, {h} + gone, all, x);
        }
      } else if x == g {
        if x != h {
          GroundMore(txs, {h}, all, x);
        }
      } else {
        var i :| 0 <= i < |Without(txs, gone)| && Without(txs, gone)[i].txHash == x
          && SpendsAny(Without(txs, gone)[i], {g} + more);
        WithoutAt(txs, gone, Without(txs, gone)[i]);
        var k :| 0 <= k < |txs| && txs[k] == Without(txs, gone)[i];
        assert SpendsAny(txs[k], all);
      }
    }
  }

  lemma GroundMore(txs: seq<Tx>, hs: set<Hash>, more: set<Hash>, g: Hash)
    requires IsGround(txs, hs, g) && hs <= more
    ensures IsGround(txs, more, g)
  {
    var i :| 0 <= i < |txs| && txs[i].txHash == g && SpendsAny(txs[i], hs);
    assert SpendsAny(txs[i], more);
  }

  // Some transactions above h are gone that depend on it, though perhaps not everything that depends on them.
  ghost predicate Partial(txs: seq<Tx>, h: Hash, gone: set<Hash>) {
    h !in gone && Grounded(txs, {h}, gone)
  }

  lemma {:induction false} GroundedRank(txs: seq<Tx>, rank: Hash -> nat, top: nat, h: Hash, gone: set<Hash>, g: Hash)
    requires Ranked(txs, rank, top) && Grounded(txs, {h}, gone) && g in gone
    ensures rank(g) >= rank(h)
    decreases rank(g)
  {
    if g != h {
      assert IsGround(txs, {h} + gone, g);
      var i :| 0 <= i < |txs| && txs[i].txHash == g && SpendsAny(txs[i], {h} + gone);
      var j :| 0 <= j < |txs[i].inputs| && txs[i].inputs[j].txHash in {h} + gone;
      assert RanksAbove(txs[i], rank, top);
      if txs[i].inputs[j].txHash != h {
        GroundedRank(txs, rank, top, h, gone, txs[i].inputs[j].txHash);
      }
    }
  }

  lemma PartialStart(txs: seq<Tx>, h: Hash)
    ensures Partial(txs, h, {})
  {
  }

  lemma AloneGrounded(txs: seq<Tx>, h: Hash)
    ensures Grounded(txs, {h}, {h})
  {
  }

  lemma PartialStep(txs: seq<Tx>, rank: Hash -> nat, top: nat, h: Hash, gone: set<Hash>, g: Hash, more: set<Hash>)
    requires Ranked(txs, rank, top) && Partial(txs, h, gone) && IsGround(txs, {h}, g)
    requires g in more && Grounded(Without(txs, gone), {g}, more)
    ensures Partial(txs, h, gone + more)
  {
    WithoutKeeps(txs, gone, map[], rank, top);
    var i :| 0 <= i < |txs| && txs[i].txHash == g && SpendsAny(txs[i], {h});
    assert RanksAbove(txs[i], rank, top);
    if h in more {
      GroundedRank(Without(txs, gone), rank, top, g, more, h);
    }
    GroundedUnion(txs, h, gone, g, more);
  }

  lemma PartialEnd(txs: seq<Tx>, h: Hash, gone: set<Hash>, rest: set<Hash>)
    requires Partial(txs, h, gone) && h in rest && Grounded(Without(txs, gone), {h}, rest)
    ensures Grounded(txs, {h}, gone + rest)
  {
    GroundedUnion(txs, h, gone, h, rest);
  }

  // The cascade of a transaction that spends h is a further piece of the cascade of h.
  lemma CascadeStep(txs: seq<Tx>, rank: Hash -> nat, top: nat, h: Hash, gone: set<Hash>, g: Hash, more: set<Hash>)
    requires Ranked(txs, rank, top) && Cascading(txs, h, gone) && IsGround(txs, {h}, g)
    requires IsCascade(Without(txs, gone), g, more)
    ensures Cascading(txs, h, gone + more)
  {
    WithoutKeeps(txs, gone, map[], rank, top);
    var i :| 0 <= i < |txs| && txs[i].txHash == g && SpendsAny(txs[i], {h});
    assert RanksAbove(txs[i], rank, top);
    if h in more {
      CascadeMember(Without(txs, gone), rank, top, g, more, more, h);
    }
    ClosedUnion(txs, gone, more);
    GroundedUnion(txs, h, gone, g, more);
  }

  lemma CascadeEnd(txs: seq<Tx>, h: Hash, gone: set<Hash>, rest: set<Hash>)
    requires Cascading(txs, h, gone) && IsCascade(Without(txs, gone), h, rest)
    ensures IsCascade(txs, h, gone + rest)
  {
    ClosedUnion(txs, gone, rest);
    GroundedUnion(txs, h, gone, h, rest);
  }

  lemma NoDependents(txs: seq<Tx>, h: Hash)
    requires forall i :: 0 <= i < |txs| ==> !SpendsTx(txs[i], h)
    ensures IsCascade(txs, h, {h})
  {
  }
}
