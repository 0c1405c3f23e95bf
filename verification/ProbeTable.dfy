/**
 A linearly probed hash table as a sequence of buckets: what it holds, when every item can be found by
 probing from its home bucket, and what storing, removing and re-inserting do to that.
 */
module ProbeTable {
  import opened Options

  // What a set is keyed by. Two items are equivalent when their keys are equal, and the hash is taken of the
  // key, so that equivalent items have equal hashes.
  datatype Keying<!T, !K> = Keying(key: T -> K, hash: K -> nat)

  function Home<T, K>(kf: Keying<T, K>, k: K, n: nat): (h: nat)
    requires n > 0
    ensures h < n
  {
    kf.hash(k) % n
  }

  // j lies on the probe path that starts at h and stops before i.
  predicate Between(h: int, j: int, i: int) {
    if h <= i then h <= j < i else h <= j || j < i
  }

  // The bucket after i, and the number of buckets from r forward to i.
  function Next(i: int, n: int): int { if i + 1 == n then 0 else i + 1 }
  function Dist(r: int, i: int, n: int): int { if r <= i then i - r else i + n - r }

  // The number of items in the table.
  ghost function Count<T>(t: seq<Option<T>>): nat {
    if t == [] then 0 else Count(t[..|t| - 1]) + (if t[|t| - 1].Some? then 1 else 0)
  }

  // The items by key; of two items with one key the one in the later bucket.
  ghost function Contents<T, K>(kf: Keying<T, K>, t: seq<Option<T>>): map<K, T> {
    if t == [] then map[]
    else
      var m := Contents(kf, t[..|t| - 1]);
      match t[|t| - 1]
      case None => m
      case Some(x) => m[kf.key(x) := x]
  }

  ghost predicate Distinct<T, K>(kf: Keying<T, K>, t: seq<Option<T>>) {
    forall i, j :: 0 <= i < j < |t| && t[i].Some? && t[j].Some? ==> kf.key(t[i].value) != kf.key(t[j].value)
  }

  // Every item can be reached from its home bucket over occupied buckets.
  ghost predicate Reachable<T, K>(kf: Keying<T, K>, t: seq<Option<T>>) {
    forall p, j :: 0 <= p < |t| && 0 <= j < |t| && OnPath(kf, t, j, p) ==> t[j].Some?
  }

  // j lies on the probe path of the item in bucket p.
  ghost predicate OnPath<T, K>(kf: Keying<T, K>, t: seq<Option<T>>, j: nat, p: nat)
    requires p < |t|
  {
    t[p].Some? && Between(Home(kf, kf.key(t[p].value), |t|), j, p)
  }

  // p is where probing for k stops: at an item with that key, or at the first empty bucket.
  ghost predicate IsSlot<T, K>(kf: Keying<T, K>, t: seq<Option<T>>, k: K, p: nat) {
    && p < |t|
    && (t[p].Some? ==> kf.key(t[p].value) == k)
    && forall j :: 0 <= j < |t| && Between(Home(kf, k, |t|), j, p) ==> t[j].Some? && kf.key(t[j].value) != k
  }

  ghost predicate Holds<T, K>(kf: Keying<T, K>, t: seq<Option<T>>, k: K) {
    exists i :: 0 <= i < |t| && t[i].Some? && kf.key(t[i].value) == k
  }

  // ---- contents and counts ----

  lemma {:induction false} ContentsAt<T, K>(kf: Keying<T, K>, t: seq<Option<T>>)
    ensures forall k :: k in Contents(kf, t) ==>
      kf.key(Contents(kf, t)[k]) == k && Some(Contents(kf, t)[k]) in t
    ensures forall i :: 0 <= i < |t| && t[i].Some? ==> kf.key(t[i].value) in Contents(kf, t)
  {
    if t != [] {
      ContentsAt(kf, t[..|t| - 1]);
    }
  }

  lemma NoItems<T, K>(kf: Keying<T, K>, t: seq<Option<T>>)
    ensures Contents(kf, t[..0]) == map[] && Count(t[..0]) == 0
  {
  }

  lemma ContentsPrefix<T, K>(kf: Keying<T, K>, t: seq<Option<T>>, i: nat)
    requires i < |t|
    ensures Contents(kf, t[..i + 1]) ==
      if t[i].Some? then Contents(kf, t[..i])[kf.key(t[i].value) := t[i].value] else Contents(kf, t[..i])
  {
    assert t[..i + 1][..i] == t[..i];
  }

  lemma {:induction false} DistinctAt<T, K>(kf: Keying<T, K>, t: seq<Option<T>>, i: nat)
    requires Distinct(kf, t) && i < |t| && t[i].Some?
    ensures kf.key(t[i].value) in Contents(kf, t) && Contents(kf, t)[kf.key(t[i].value)] == t[i].value
  {
    if i < |t| - 1 {
      DistinctAt(kf, t[..|t| - 1], i);
    }
  }

  lemma HoldsIff<T, K>(kf: Keying<T, K>, t: seq<Option<T>>, k: K)
    ensures Holds(kf, t, k) <==> k in Contents(kf, t)
  {
    ContentsAt(kf, t);
    if k in Contents(kf, t) {
      var i :| 0 <= i < |t| && t[i] == Some(Contents(kf, t)[k]);
    }
  }

  // Two tables without duplicates agree on k when the same item with key k is in both or in neither.
  lemma SameContents<T, K>(kf: Keying<T, K>, t: seq<Option<T>>, m: map<K, T>)
    requires Distinct(kf, t)
    requires forall k :: k in m ==> kf.key(m[k]) == k && Some(m[k]) in t
    requires forall i :: 0 <= i < |t| && t[i].Some? ==> kf.key(t[i].value) in m
    ensures Contents(kf, t) == m
  {
    var c := Contents(kf, t);
    ContentsAt(kf, t);
    forall k | k in m ensures k in c && c[k] == m[k] {
      var i :| 0 <= i < |t| && t[i] == Some(m[k]);
      DistinctAt(kf, t, i);
    }
    forall k | k in c ensures k in m {
      var i :| 0 <= i < |t| && t[i] == Some(c[k]);
    }
  }

  lemma StoreContents<T, K>(kf: Keying<T, K>, t: seq<Option<T>>, p: nat, x: T)
    requires Distinct(kf, t) && p < |t|
    requires t[p].Some? ==> kf.key(t[p].value) == kf.key(x)
    requires t[p].None? ==> !Holds(kf, t, kf.key(x))
    ensures Distinct(kf, t[p := Some(x)])
    ensures Contents(kf, t[p := Some(x)]) == Contents(kf, t)[kf.key(x) := x]
  {
    var t', m := t[p := Some(x)], Contents(kf, t)[kf.key(x) := x];
    ContentsAt(kf, t);
    forall k | k in m ensures kf.key(m[k]) == k && Some(m[k]) in t' {
      if k == kf.key(x) {
        assert t'[p] == Some(x);
      } else {
        var i :| 0 <= i < |t| && t[i] == Some(m[k]);
        assert t'[i] == t[i];
      }
    }
    assert Distinct(kf, t');
    SameContents(kf, t', m);
  }

  lemma DropContents<T, K>(kf: Keying<T, K>, t: seq<Option<T>>, p: nat)
    requires Distinct(kf, t) && p < |t| && t[p].Some?
    ensures Distinct(kf, t[p := None])
    ensures Contents(kf, t[p := None]) == Contents(kf, t) - {kf.key(t[p].value)}
  {
    var t', m := t[p := None], Contents(kf, t) - {kf.key(t[p].value)};
    ContentsAt(kf, t);
    forall k | k in m ensures kf.key(m[k]) == k && Some(m[k]) in t' {
      var i :| 0 <= i < |t| && t[i] == Some(m[k]);
      assert t'[i] == t[i];
    }
    assert Distinct(kf, t');
    SameContents(kf, t', m);
  }

  lemma {:induction false} CountUpdate<T>(t: seq<Option<T>>, p: nat, o: Option<T>)
    requires p < |t|
    ensures Count(t[p := o]) + (if t[p].Some? then 1 else 0) == Count(t) + (if o.Some? then 1 else 0)
  {
    var last := |t| - 1;
    if p == last {
      assert t[p := o][..last] == t[..last];
    } else {
      assert t[p := o][..last] == t[..last][p := o];
      CountUpdate(t[..last], p, o);
    }
  }

  lemma {:induction false} CountPrefix<T>(t: seq<Option<T>>, i: nat)
    requires i <= |t|
    ensures Count(t[..i]) <= Count(t) <= Count(t[..i]) + |t| - i
    ensures i < |t| ==> Count(t[..i + 1]) == Count(t[..i]) + (if t[i].Some? then 1 else 0)
  {
    if i < |t| {
      assert t[..|t| - 1][..i] == t[..i];
      CountPrefix(t[..|t| - 1], i);
      assert t[..i + 1][..i] == t[..i];
    } else {
      assert t[..i] == t;
    }
  }

  // A table with fewer items than buckets has an empty bucket.
  lemma {:induction false} EmptyBucket<T>(t: seq<Option<T>>) returns (e: nat)
    requires Count(t) < |t|
    ensures e < |t| && t[e].None?
  {
    e := |t| - 1;
    if t[e].Some? {
      e := EmptyBucket(t[..|t| - 1]);
    }
  }

  lemma {:induction false} CountEmpty<T>(t: seq<Option<T>>)
    requires forall i :: 0 <= i < |t| ==> t[i].None?
    ensures Count(t) == 0
  {
    if t != [] {
      CountEmpty(t[..|t| - 1]);
    }
  }

  lemma EmptyTable<T, K>(kf: Keying<T, K>, t: seq<Option<T>>)
    requires forall i :: 0 <= i < |t| ==> t[i].None?
    ensures Count(t) == 0 && Distinct(kf, t) && Reachable(kf, t) && Contents(kf, t) == map[]
  {
    CountEmpty(t);
    ContentsAt(kf, t);
  }

  // The item count is the number of inequivalent items.
  lemma {:induction false} CountIsSize<T, K>(kf: Keying<T, K>, t: seq<Option<T>>)
    requires Distinct(kf, t)
    ensures |Contents(kf, t)| == Count(t)
  {
    if t != [] {
      var init := t[..|t| - 1];
      CountIsSize(kf, init);
      if t[|t| - 1].Some? {
        var k := kf.key(t[|t| - 1].value);
        HoldsIff(kf, init, k);
        assert Contents(kf, t).Keys == Contents(kf, init).Keys + {k};
      }
    }
  }

  // Two tables with the same contents hold equally many items.
  lemma SameCount<T, K>(kf: Keying<T, K>, t: seq<Option<T>>, t': seq<Option<T>>)
    requires Distinct(kf, t) && Distinct(kf, t') && Contents(kf, t) == Contents(kf, t')
    ensures Count(t) == Count(t')
  {
    CountIsSize(kf, t);
    CountIsSize(kf, t');
  }

  // ---- probing ----

  // On a table whose items are reachable, probing decides membership.
  lemma SlotFinds<T, K>(kf: Keying<T, K>, t: seq<Option<T>>, k: K, p: nat)
    requires Distinct(kf, t) && Reachable(kf, t) && IsSlot(kf, t, k, p)
    ensures t[p].None? <==> k !in Contents(kf, t)
    ensures t[p].Some? ==> Contents(kf, t)[k] == t[p].value
    ensures t[p].None? ==> !Holds(kf, t, k)
  {
    HoldsIff(kf, t, k);
    if t[p].Some? {
      DistinctAt(kf, t, p);
    } else {
      var h := Home(kf, k, |t|);
      forall q | 0 <= q < |t| && t[q].Some? ensures kf.key(t[q].value) != k {
        assert Between(h, p, q) || Between(h, q, p);
        assert !OnPath(kf, t, p, q);
      }
    }
  }

  lemma StoreKeepsReachable<T, K>(kf: Keying<T, K>, t: seq<Option<T>>, x: T, p: nat)
    requires Reachable(kf, t) && IsSlot(kf, t, kf.key(x), p)
    ensures Reachable(kf, t[p := Some(x)])
  {
    var t' := t[p := Some(x)];
    forall i, j | 0 <= i < |t| && 0 <= j < |t| && OnPath(kf, t', j, i) ensures t'[j].Some? {
      assert i != p ==> OnPath(kf, t, j, i);
    }
  }

  // ---- removal ----

  // While the buckets after the removed one are re-inserted, r is the removed bucket and i the next one to
  // re-insert. A probe path may be broken only between r and i, and only for items from i on.
  ghost predicate Cleaning<T, K>(kf: Keying<T, K>, t: seq<Option<T>>, r: nat, i: nat) {
    && r < |t| && i < |t|
    && forall p, j :: 0 <= p < |t| && 0 <= j < |t| && OnPath(kf, t, j, p) ==>
         t[j].Some? || (Dist(r, j, |t|) < Dist(r, i, |t|) <= Dist(r, p, |t|))
  }

  lemma CleaningStarts<T, K>(kf: Keying<T, K>, t: seq<Option<T>>, r: nat)
    requires Reachable(kf, t) && r < |t| && 2 <= |t|
    ensures Cleaning(kf, t[r := None], r, Next(r, |t|))
  {
    var t' := t[r := None];
    forall i, j | 0 <= i < |t| && 0 <= j < |t| && OnPath(kf, t', j, i) ensures t'[j].Some? || j == r {
      assert OnPath(kf, t, j, i);
    }
  }

  // Re-inserting the item of bucket i: it lands between r and i, and the break moves on by one bucket.
  lemma CleaningStep<T, K>(kf: Keying<T, K>, t: seq<Option<T>>, r: nat, i: nat, e: nat, q: nat)
    requires Cleaning(kf, t, r, i) && t[i].Some?
    requires e < |t| && t[e].None? && Dist(r, i, |t|) < Dist(r, e, |t|)
    requires IsSlot(kf, t[i := None], kf.key(t[i].value), q) && t[i := None][q].None?
    ensures Dist(r, q, |t|) <= Dist(r, i, |t|)
    ensures Dist(r, Next(i, |t|), |t|) == Dist(r, i, |t|) + 1
    ensures Cleaning(kf, t[i := None][q := t[i]], r, Next(i, |t|))
  {
    var t1 := t[i := None];
    var h := Home(kf, kf.key(t[i].value), |t|);
    assert t1[i].None?;
    assert q != i ==> OnPath(kf, t, q, i);
    var t' := t1[q := t[i]];
    forall p, j | 0 <= p < |t| && 0 <= j < |t| && OnPath(kf, t', j, p)
      ensures t'[j].Some? || (Dist(r, j, |t|) < Dist(r, i, |t|) + 1 <= Dist(r, p, |t|))
    {
      assert p != q ==> OnPath(kf, t, j, p);
      assert p != q && j == i && Dist(r, p, |t|) < Dist(r, i, |t|) ==> OnPath(kf, t, e, p);
    }
  }

  // The first empty bucket ends the cleanup: no path is broken any more.
  lemma CleaningEnds<T, K>(kf: Keying<T, K>, t: seq<Option<T>>, r: nat, i: nat)
    requires Cleaning(kf, t, r, i) && t[i].None?
    ensures Reachable(kf, t)
  {
    forall p, j | 0 <= p < |t| && 0 <= j < |t| && OnPath(kf, t, j, p) ensures t[j].Some? {
      assert Dist(r, j, |t|) < Dist(r, i, |t|) < Dist(r, p, |t|) ==> OnPath(kf, t, i, p);
    }
  }

  // Taking the item out of bucket r starts the cleanup at the next bucket.
  lemma RemovalStarts<T, K>(kf: Keying<T, K>, t: seq<Option<T>>, r: nat, e: nat)
    requires Distinct(kf, t) && Reachable(kf, t) && r < |t| && e < |t| && t[r].Some? && t[e].None?
    ensures var t' := t[r := None];
      && Distinct(kf, t') && Count(t') == Count(t) - 1
      && Contents(kf, t') == Contents(kf, t) - {kf.key(t[r].value)}
      && Cleaning(kf, t', r, Next(r, |t|)) && MovedBack(t, t', r) && t'[e].None?
    ensures 1 == Dist(r, Next(r, |t|), |t|) <= Dist(r, e, |t|)
  {
    TakeOut(kf, t, r);
    CleaningStarts(kf, t, r);
    var t' := t[r := None];
    forall q | 0 <= q < |t'| && t'[q].Some?
      ensures exists p :: 0 <= p < |t| && t[p] == t'[q] && Dist(r, q, |t'|) <= Dist(r, p, |t'|)
    {
      assert t[q] == t'[q];
    }
  }

  // Every item of t comes from a bucket of t0 at least as far from r.
  ghost predicate MovedBack<T>(t0: seq<Option<T>>, t: seq<Option<T>>, r: int) {
    && |t| == |t0|
    && forall q :: 0 <= q < |t| && t[q].Some? ==>
         exists p :: 0 <= p < |t0| && t0[p] == t[q] && Dist(r, q, |t|) <= Dist(r, p, |t|)
  }

  // What holds of the keys before the bucket still holds.
  lemma MovedKeeps<T, K>(kf: Keying<T, K>, t0: seq<Option<T>>, t: seq<Option<T>>, r: nat, keep: set<K>)
    requires MovedBack(t0, t, r) && r < |t|
    requires forall j :: 0 <= j < r && t0[j].Some? ==> kf.key(t0[j].value) in keep
    ensures forall j :: 0 <= j < r && t[j].Some? ==> kf.key(t[j].value) in keep
  {
  }

  lemma SameBucket<T, K>(kf: Keying<T, K>, t: seq<Option<T>>, i: nat, j: nat)
    requires Distinct(kf, t) && i < |t| && j < |t| && t[i].Some? && t[j].Some?
    requires kf.key(t[i].value) == kf.key(t[j].value)
    ensures i == j
  {
  }

  lemma TakeOut<T, K>(kf: Keying<T, K>, t: seq<Option<T>>, i: nat)
    requires Distinct(kf, t) && i < |t| && t[i].Some?
    ensures Distinct(kf, t[i := None]) && Count(t[i := None]) == Count(t) - 1
    ensures !Holds(kf, t[i := None], kf.key(t[i].value))
    ensures Contents(kf, t[i := None]) == Contents(kf, t) - {kf.key(t[i].value)}
  {
    DropContents(kf, t, i);
    CountUpdate(t, i, None);
    HoldsIff(kf, t[i := None], kf.key(t[i].value));
  }

  // One round of the cleanup: the table keeps its items, the broken stretch moves on, no item moves forward.
  lemma Reinsert<T, K>(kf: Keying<T, K>, t: seq<Option<T>>, t0: seq<Option<T>>, r: nat, i: nat, e: nat, q: nat)
    requires Distinct(kf, t) && Cleaning(kf, t, r, i) && t[i].Some? && MovedBack(t0, t, r)
    requires e < |t| && t[e].None? && Dist(r, i, |t|) < Dist(r, e, |t|)
    requires IsSlot(kf, t[i := None], kf.key(t[i].value), q)
    ensures q < |t|
    ensures var t' := t[i := None][q := t[i]];
      && Contents(kf, t') == Contents(kf, t) && Count(t') == Count(t)
      && Cleaning(kf, t', r, Next(i, |t|)) && MovedBack(t0, t', r) && t'[e].None?
    ensures Dist(r, Next(i, |t|), |t|) == Dist(r, i, |t|) + 1
  {
    var t1 := t[i := None];
    TakeOut(kf, t, i);
    assert t1[q].None?;
    CleaningStep(kf, t, r, i, e, q);
    ReinsertContents(kf, t, t0, r, i, q);
    CountUpdate(t1, q, t[i]);
  }

  // Re-inserting keeps every item and moves the one of bucket i back, or leaves it.
  lemma ReinsertContents<T, K>(kf: Keying<T, K>, t: seq<Option<T>>, t0: seq<Option<T>>, r: nat, i: nat, q: nat)
    requires Distinct(kf, t) && i < |t| && t[i].Some? && q < |t| && t[i := None][q].None?
    requires MovedBack(t0, t, r) && Dist(r, q, |t|) <= Dist(r, i, |t|)
    ensures Contents(kf, t[i := None][q := t[i]]) == Contents(kf, t)
    ensures MovedBack(t0, t[i := None][q := t[i]], r)
  {
    var k, t1 := kf.key(t[i].value), t[i := None];
    DropContents(kf, t, i);
    HoldsIff(kf, t1, k);
    StoreContents(kf, t1, q, t[i].value);
    DistinctAt(kf, t, i);
    var t' := t1[q := t[i]];
    forall j | 0 <= j < |t'| && t'[j].Some?
      ensures exists p :: 0 <= p < |t0| && t0[p] == t'[j] && Dist(r, j, |t'|) <= Dist(r, p, |t'|)
    {
      var from := if j == q then i else j;
      assert t[from] == t'[j];
      var p :| 0 <= p < |t0| && t0[p] == t[from] && Dist(r, from, |t|) <= Dist(r, p, |t|);
    }
  }

  // ---- removing every item in the order of the buckets ----

  function HomeOf<T, K>(kf: Keying<T, K>, t: seq<Option<T>>, p: nat): (h: nat)
    requires p < |t| && t[p].Some?
    ensures h < |t|
  {
    Home(kf, kf.key(t[p].value), |t|)
  }

  ghost predicate AtHome<T, K>(kf: Keying<T, K>, t: seq<Option<T>>, p: nat)
    requires p < |t|
  {
    t[p].Some? ==> HomeOf(kf, t, p) == p
  }

  // The buckets before i are empty, and every item behind bucket i is in its home bucket.
  ghost predicate Settled<T, K>(kf: Keying<T, K>, t: seq<Option<T>>, i: nat) {
    && (forall p :: 0 <= p < i && p < |t| ==> t[p].None?)
    && (forall p :: i < p < |t| ==> AtHome(kf, t, p))
  }

  // No two items have the same home bucket, nor one the bucket skip, that of bucket skip aside.
  ghost predicate OwnHomes<T, K>(kf: Keying<T, K>, t: seq<Option<T>>, skip: nat) {
    && (forall p :: 0 <= p < |t| && p != skip && t[p].Some? ==> HomeOf(kf, t, p) != skip)
    && (forall p, q :: 0 <= p < |t| && 0 <= q < |t| && p != skip && q != skip && t[p].Some? && t[q].Some? ==>
          HomeOf(kf, t, p) == HomeOf(kf, t, q) ==> p == q)
  }

  // An item elsewhere has displaced another one from its home: following the homes back never ends at an empty bucket.
  lemma {:induction false} AllAtHome<T, K>(kf: Keying<T, K>, t: seq<Option<T>>, skip: nat, e: nat, p: nat)
    requires Reachable(kf, t) && OwnHomes(kf, t, skip) && e < |t| && t[e].None?
    requires p < |t| && p != skip && t[p].Some?
    ensures HomeOf(kf, t, p) == p
    decreases Dist(e, p, |t|)
  {
    var h := HomeOf(kf, t, p);
    if h != p {
      assert OnPath(kf, t, h, p) && !OnPath(kf, t, e, p);
      AllAtHome(kf, t, skip, e, h);
    }
  }

  // The item of bucket q of a table is at home in another one, at lo or behind it.
  ghost predicate HomeIn<T, K>(kf: Keying<T, K>, t: seq<Option<T>>, q: nat, s: seq<Option<T>>, lo: nat)
    requires q < |t|
  {
    exists p :: lo <= p < |s| && s[p] == t[q] && s[p].Some? && HomeOf(kf, s, p) == p
  }

  lemma HomesOf<T, K>(kf: Keying<T, K>, t: seq<Option<T>>, s: seq<Option<T>>, lo: nat, skip: nat)
    requires |s| == |t| && Distinct(kf, t) && (skip < lo || skip >= |t|)
    requires forall q :: 0 <= q < |t| && q != skip && t[q].Some? ==> HomeIn(kf, t, q, s, lo)
    ensures OwnHomes(kf, t, skip)
    ensures forall q :: 0 <= q < |t| && q != skip && t[q].Some? ==> HomeOf(kf, t, q) >= lo
  {
  }

  lemma InSettled<T, K>(kf: Keying<T, K>, t: seq<Option<T>>, q: nat, s: seq<Option<T>>, i: nat)
    requires Settled(kf, s, i) && i < |s| && q < |t| && t[q].Some?
    requires kf.key(t[q].value) in Contents(kf, s) && Contents(kf, s)[kf.key(t[q].value)] == t[q].value
    requires s[i].Some? ==> kf.key(s[i].value) != kf.key(t[q].value)
    ensures HomeIn(kf, t, q, s, i + 1)
  {
    ContentsAt(kf, s);
    var p :| 0 <= p < |s| && s[p] == t[q];
    assert AtHome(kf, s, p);
  }

  // Passing an empty bucket.
  lemma PassBucket<T, K>(kf: Keying<T, K>, t: seq<Option<T>>, i: nat)
    requires Reachable(kf, t) && i < |t| && t[i].None?
    ensures Settled(kf, t, i) <==> Settled(kf, t, i + 1)
  {
    if i + 1 < |t| && t[i + 1].Some? {
      assert !OnPath(kf, t, i, i + 1);
    }
  }

  // Removing the item of bucket i: a settled table stays one, and no other table becomes one.
  lemma PassItem<T, K>(kf: Keying<T, K>, t: seq<Option<T>>, t': seq<Option<T>>, i: nat, e: nat, e': nat)
    requires |t'| == |t| && i < |t| && t[i].Some? && e < |t| && t[e].None? && e' < |t| && t'[e'].None?
    requires Distinct(kf, t) && Reachable(kf, t) && Distinct(kf, t') && Reachable(kf, t')
    requires Contents(kf, t') == Contents(kf, t) - {kf.key(t[i].value)}
    ensures Settled(kf, t, i) <==> Settled(kf, t', i + 1)
  {
    if Settled(kf, t', i + 1) { SettledBefore(kf, t, t', i, e); }
    if Settled(kf, t, i) { SettledAfter(kf, t, t', i, e'); }
  }

  lemma SettledBefore<T, K>(kf: Keying<T, K>, t: seq<Option<T>>, t': seq<Option<T>>, i: nat, e: nat)
    requires |t'| == |t| && i < |t| && t[i].Some? && e < |t| && t[e].None?
    requires Distinct(kf, t) && Reachable(kf, t) && Reachable(kf, t') && Settled(kf, t', i + 1)
    requires Contents(kf, t') == Contents(kf, t) - {kf.key(t[i].value)}
    ensures Settled(kf, t, i)
  {
    PassBucket(kf, t', i);
    forall q | 0 <= q < |t| && q != i && t[q].Some? ensures HomeIn(kf, t, q, t', i + 1) {
      DistinctAt(kf, t, q);
      InSettled(kf, t, q, t', i);
    }
    HomesOf(kf, t, t', i + 1, i);
    forall q | 0 <= q < |t| && q != i && t[q].Some? ensures HomeOf(kf, t, q) == q > i {
      AllAtHome(kf, t, i, e, q);
    }
  }

  lemma SettledAfter<T, K>(kf: Keying<T, K>, t: seq<Option<T>>, t': seq<Option<T>>, i: nat, e: nat)
    requires |t'| == |t| && i < |t| && t[i].Some? && e < |t| && t'[e].None?
    requires Distinct(kf, t') && Reachable(kf, t') && Settled(kf, t, i)
    requires Contents(kf, t') == Contents(kf, t) - {kf.key(t[i].value)}
    ensures Settled(kf, t', i + 1)
  {
    forall q | 0 <= q < |t'| && t'[q].Some? ensures HomeIn(kf, t', q, t, i + 1) {
      DistinctAt(kf, t', q);
      InSettled(kf, t', q, t, i);
    }
    HomesOf(kf, t', t, i + 1, |t|);
    forall q | 0 <= q < |t'| && t'[q].Some? ensures HomeOf(kf, t', q) == q > i {
      AllAtHome(kf, t', |t|, e, q);
    }
  }

  // No bucket has been passed.
  lemma SettledStart<T, K>(kf: Keying<T, K>, t: seq<Option<T>>)
    ensures Settled(kf, t, 0) <==> forall p :: 0 < p < |t| ==> AtHome(kf, t, p)
  {
  }

  // Every bucket has been passed.
  lemma SettledEnd<T, K>(kf: Keying<T, K>, t: seq<Option<T>>)
    ensures Settled(kf, t, |t|) <==> Contents(kf, t) == map[]
  {
    ContentsAt(kf, t);
    if Contents(kf, t) != map[] {
      var k :| k in Contents(kf, t);
      assert Some(Contents(kf, t)[k]) in t;
    }
  }

  lemma PairContents<T, K>(kf: Keying<T, K>, a: T, b: T)
    requires kf.key(a) != kf.key(b)
    ensures Contents(kf, [Some(a), Some(b), None]) == map[kf.key(a) := a, kf.key(b) := b]
  {
    var t := [Some(a), Some(b), None];
    assert t[..2] == [Some(a), Some(b)] && t[..2][..1] == [Some(a)] && t[..2][..1][..0] == [];
    assert Contents(kf, []) == map[];
    assert Contents(kf, [Some(a)]) == map[kf.key(a) := a];
    assert Contents(kf, t[..2]) == map[kf.key(a) := a, kf.key(b) := b];
  }
}
