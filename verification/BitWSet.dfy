/** The linearly probed hash set that the wallet's sets are built on. */
module BitWSets {
  import opened Options
  import opened ProbeTable

  const TABLE_SIZES_LEN := 51

  // The primes that tables have as many buckets as: each is about half as large again as the one before.
  function TableSize(i: nat): nat
    requires i < TABLE_SIZES_LEN
  {
    match i
    case 0 => 1 case 1 => 3 case 2 => 7 case 3 => 13 case 4 => 23 case 5 => 37 case 6 => 59 case 7 => 97
    case 8 => 149 case 9 => 227 case 10 => 347 case 11 => 523 case 12 => 787 case 13 => 1187 case 14 => 1783
    case 15 => 2677 case 16 => 4019 case 17 => 6037 case 18 => 9059 case 19 => 13591 case 20 => 20389
    case 21 => 30593 case 22 => 45887 case 23 => 68863 case 24 => 103307 case 25 => 154981 case 26 => 232487
    case 27 => 348739 case 28 => 523129 case 29 => 784697 case 30 => 1177067 case 31 => 1765609
    case 32 => 2648419 case 33 => 3972643 case 34 => 5958971 case 35 => 8938469 case 36 => 13407707
    case 37 => 20111563 case 38 => 30167359 case 39 => 45251077 case 40 => 67876637 case 41 => 101814991
    case 42 => 152722489 case 43 => 229083739 case 44 => 343625629 case 45 => 515438447 case 46 => 773157683
    case 47 => 1159736527 case 48 => 1739604799 case 49 => 2609407319 case _ => 3914111041
  }

  // The number of items above which a table of n buckets is grown.
  function Limit(n: nat): nat { (n + 2) / 3 * 2 }

  // It is the least even number that is not below two thirds of the buckets.
  lemma LoadFactor(n: nat)
    ensures Limit(n) % 2 == 0 && 3 * Limit(n) >= 2 * n && 3 * (Limit(n) - 2) < 2 * n
  {
  }

  // Every size is more than one and a half times the one before, but for one that is just below.
  lemma SizesGrow(k: nat)
    requires k + 1 < TABLE_SIZES_LEN
    ensures TableSize(0) == 1 && TableSize(1) == 3
    ensures 3 * TableSize(k) < 2 * TableSize(k + 1) <==> k != 21
    ensures 3 * TableSize(k) - 5 <= 2 * TableSize(k + 1) <= 3 * TableSize(k) + 241 && TableSize(k + 1) % 2 == 1
  {
  }

  lemma SizesIncrease(k: nat)
    requires k + 1 < TABLE_SIZES_LEN
    ensures TableSize(k) + (if k == 0 then 2 else 3) <= TableSize(k + 1) && TableSize(k + 1) >= 3
  {
  }

  lemma {:induction false} SizesSorted(j: nat, k: nat)
    requires j < k < TABLE_SIZES_LEN
    ensures TableSize(j) < TableSize(k) && TableSize(k) >= 3
  {
    hide TableSize;
    SizesIncrease(k - 1);
    if j < k - 1 {
      SizesSorted(j, k - 1);
    }
  }

  ghost predicate IsTableSize(n: nat) {
    exists k :: 1 <= k < TABLE_SIZES_LEN && TableSize(k) == n
  }

  // The size a full table of n buckets grows to.
  ghost predicate IsNextSize(n: nat, next: nat) {
    exists k :: 1 <= k < TABLE_SIZES_LEN - 1 && TableSize(k) == n && TableSize(k + 1) == next
  }

  // The most items a set can hold: the largest table cannot be grown.
  const MAX_ITEMS := Limit(3914111041)

  lemma GrownLimit(n: nat, next: nat)
    requires IsTableSize(n) && IsNextSize(n, next)
    ensures Limit(n) + 1 <= Limit(next)
  {
    var k :| 1 <= k < TABLE_SIZES_LEN - 1 && TableSize(k) == n && TableSize(k + 1) == next;
    SizesIncrease(k);
  }

  lemma CanGrow(n: nat)
    requires IsTableSize(n) && Limit(n) + 1 <= MAX_ITEMS
    ensures n <= TableSize(TABLE_SIZES_LEN - 2)
  {
    var k :| 1 <= k < TABLE_SIZES_LEN && TableSize(k) == n;
    if k < TABLE_SIZES_LEN - 2 { SizesSorted(k, TABLE_SIZES_LEN - 2); }
  }

  // The position of the first table size that is not below capacity.
  method SizeIndex(capacity: nat) returns (i: nat)
    requires capacity <= TableSize(TABLE_SIZES_LEN - 2)
    ensures i <= TABLE_SIZES_LEN - 2 && capacity <= TableSize(i)
    ensures IsTableSize(TableSize(i + 1))
    ensures IsTableSize(capacity) ==> IsNextSize(capacity, TableSize(i + 1))
  {
    hide TableSize;
    i := 0;
    while i < TABLE_SIZES_LEN && TableSize(i) < capacity
      invariant 0 <= i <= TABLE_SIZES_LEN - 2
      invariant i > 0 ==> TableSize(i - 1) < capacity
    {
      i := i + 1;
    }
    forall k | 1 <= k < TABLE_SIZES_LEN && TableSize(k) == capacity ensures i == k {
      if i < k { SizesSorted(i, k); }
      if k < i - 1 { SizesSorted(k, i - 1); }
    }
  }

  class BitWSet<T(!new), K(!new, ==)> {
    var table: array<Option<T>>
    var size: nat
    var itemCount: nat
    const kf: Keying<T, K>

    // The item count is right, and leaves an empty bucket to stop a probe at.
    ghost predicate Counted()
      reads this, table
    {
      && table.Length == size && IsTableSize(size)
      && itemCount == Count(table[..]) && itemCount <= Limit(size)
      && Distinct(kf, table[..])
    }

    ghost predicate Valid()
      reads this, table
    {
      Counted() && Reachable(kf, table[..])
    }

    // The set as an abstract map from keys to items.
    ghost function Items(): map<K, T>
      reads this, table
    {
      Contents(kf, table[..])
    }

    constructor (kf: Keying<T, K>, capacity: nat)
      requires capacity <= TableSize(TABLE_SIZES_LEN - 2)
      ensures Valid() && fresh(table) && Items() == map[] && itemCount == 0 && this.kf == kf
      ensures IsTableSize(capacity) ==> IsNextSize(capacity, size)
    {
      var i := SizeIndex(capacity);
      hide TableSize, IsTableSize, IsNextSize, Count, Contents, Distinct, Reachable;
      size := TableSize(i + 1);
      table := new Option<T>[TableSize(i + 1)](_ => None);
      itemCount := 0;
      this.kf := kf;
      new;
      EmptyTable(kf, table[..]);
    }

    // The probe loop that adding, removing and looking up share.
    method Probe(k: K) returns (i: nat)
      requires table.Length == size && Count(table[..]) < size
      ensures IsSlot(kf, table[..], k, i)
    {
      ghost var e := EmptyBucket(table[..]);
      ghost var h := Home(kf, k, size);
      i := kf.hash(k) % size;
      while table[i].Some? && kf.key(table[i].value) != k
        invariant 0 <= i < size
        invariant Dist(h, i, size) + Dist(i, e, size) == Dist(h, e, size)
        invariant forall j :: 0 <= j < size && Between(h, j, i) ==> table[j].Some? && kf.key(table[j].value) != k
        decreases Dist(i, e, size)
      {
        i := Next(i, size);
      }
    }

    // The load limit leaves a bucket free.
    lemma HasRoom()
      requires Counted()
      ensures 3 <= size && itemCount < size && itemCount <= MAX_ITEMS
    {
      var k :| 1 <= k < TABLE_SIZES_LEN && TableSize(k) == size;
      SizesSorted(0, k);
      if k < TABLE_SIZES_LEN - 1 { SizesSorted(k, TABLE_SIZES_LEN - 1); }
    }

    method Get(item: T) returns (t: Option<T>)
      requires Valid()
      ensures t == if kf.key(item) in Items() then Some(Items()[kf.key(item)]) else None
    {
      HasRoom();
      var i := Probe(kf.key(item));
      SlotFinds(kf, table[..], kf.key(item), i);
      t := table[i];
    }

    method Contains(item: T) returns (r: bool)
      requires Valid()
      ensures r <==> kf.key(item) in Items()
    {
      var t := Get(item);
      r := t.Some?;
    }

    // Adds item or replaces an equivalent one, and grows the table past its load limit. Removal also adds to
    // a table that it is cleaning up, whose items are not all reachable; it never grows that one.
    method Add(item: T) returns (t: Option<T>, ghost slot: nat)
      requires Counted() && (itemCount < MAX_ITEMS || kf.key(item) in Items())
      requires Valid() || (itemCount < Limit(size) && !Holds(kf, table[..], kf.key(item)))
      modifies this, table
      ensures Counted()
      ensures Items() == old(Items())[kf.key(item) := item]
      ensures IsSlot(kf, old(table[..]), kf.key(item), slot) && t == old(table[slot])
      ensures table == old(table) || fresh(table)
      ensures old(itemCount) < Limit(old(size)) || t.Some? ==>
        table == old(table) && size == old(size) && table[..] == old(table[..])[slot := Some(item)]
      ensures size == old(size) || IsNextSize(old(size), size)
      ensures itemCount <= old(itemCount) + 1
      ensures old(Valid()) ==> Valid() && itemCount == old(itemCount) + (if kf.key(item) in old(Items()) then 0 else 1)
      ensures old(Valid()) ==>
        t == if kf.key(item) in old(Items()) then Some(old(Items())[kf.key(item)]) else None
      decreases if itemCount < Limit(size) then 0 else 1, 2
    {
      HasRoom();
      ghost var t0, k := table[..], kf.key(item);
      var i := Probe(kf.key(item));
      slot := i;
      t := table[i];
      if old(Valid()) {
        SlotFinds(kf, t0, k, i);
        StoreKeepsReachable(kf, t0, item, i);
      }
      StoreContents(kf, t0, i, item);
      CountUpdate(t0, i, Some(item));
      if t.None? { itemCount := itemCount + 1; }
      table[i] := Some(item);
      assert table[..] == t0[i := Some(item)];
      if itemCount > Limit(size) {
        Grow(size);
      }
    }

    // Rebuilds the table in the next larger size.
    method Grow(capacity: nat)
      requires table.Length == size == capacity && IsTableSize(size) && Distinct(kf, table[..])
      requires itemCount == Count(table[..]) == Limit(size) + 1 && itemCount <= MAX_ITEMS
      modifies this
      ensures Valid() && fresh(table) && Items() == old(Items()) && itemCount == old(itemCount)
      ensures IsNextSize(old(size), size)
      decreases 1, 1
    {
      hide TableSize, IsTableSize, IsNextSize, Count, Contents, Distinct, Reachable;
      CanGrow(size);
      var newSet := new BitWSet<T, K>(kf, capacity);
      GrownLimit(size, newSet.size);
      newSet.Union(this);
      assert newSet.Items() == map[] + Items() == Items();
      SameCount(kf, table[..], newSet.table[..]);
      table := newSet.table;
      size := newSet.size;
      itemCount := newSet.itemCount;
    }

    // Adds or replaces the items of another set, or of this one, whose items then replace themselves.
    method Union(other: BitWSet<T, K>)
      requires Valid() && other.kf == kf
      requires other != this ==>
        other.table != table && other.table.Length == other.size && itemCount + Count(other.table[..]) <= MAX_ITEMS
      modifies this, table
      ensures Valid() && (table == old(table) || fresh(table))
      ensures Items() == old(Items()) + old(other.Items())
      ensures old(itemCount + Count(other.table[..]) <= Limit(size)) ==> size == old(size)
      ensures other == this ==> table == old(table) && table[..] == old(table[..]) && itemCount == old(itemCount)
      decreases if other != this && itemCount + Count(other.table[..]) <= Limit(size) then 0 else 1, 4
    {
      hide Contents, Reachable, Holds, IsTableSize, IsNextSize, Count, Limit;
      var i, n := 0, other.size;
      ghost var ot := other.table[..];
      ghost var few := itemCount + Count(ot) <= Limit(size);
      NoItems(kf, ot);
      while i < n
        invariant 0 <= i <= n == |ot| && other.table[..] == ot
        invariant Valid() && (table == old(table) || fresh(table))
        invariant other == this ==> table == old(table) && size == n && itemCount == old(itemCount)
        invariant other != this ==> other.table != table && Items() == old(Items()) + Contents(kf, ot[..i])
        invariant other != this ==> itemCount <= old(itemCount) + Count(ot[..i])
        invariant few ==> size == old(size)
      {
        CountPrefix(ot, i);
        CountPrefix(ot, i + 1);
        ContentsPrefix(kf, ot, i);
        var t := other.table[i];
        i := i + 1;
        if t.Some? {
          if other == this {
            DistinctAt(kf, ot, i - 1);
          }
          var before, slot := Add(t.value);
          if other == this {
            SameBucket(kf, ot, i - 1, slot);
          }
        }
      }
      assert ot[..n] == ot;
    }

    // What the cleanup behind a removed bucket keeps: i is the next bucket to re-insert, e an empty one.
    ghost predicate InCleanup(t0: seq<Option<T>>, hole: nat, i: nat, e: nat)
      reads this, table
    {
      && Counted() && itemCount < MAX_ITEMS
      && Cleaning(kf, table[..], hole, i) && MovedBack(t0, table[..], hole)
      && i < size && e < size && table[e].None? && Dist(hole, i, size) <= Dist(hole, e, size)
    }

    // One round: the item of bucket i is taken out and added again.
    method ReAdd(i: nat, ghost hole: nat, ghost t0: seq<Option<T>>, ghost e: nat)
      requires InCleanup(t0, hole, i, e) && table[i].Some?
      modifies this, table
      ensures table == old(table) && size == old(size) && itemCount == old(itemCount)
      ensures Items() == old(Items())
      ensures InCleanup(t0, hole, Next(i, size), e)
      ensures Dist(hole, Next(i, size), size) == Dist(hole, i, size) + 1
    {
      hide Count, Contents, Distinct, Reachable, Cleaning, MovedBack, Holds, IsSlot, IsTableSize;
      ghost var s := table[..];
      TakeOut(kf, s, i);
      var t := table[i];
      itemCount := itemCount - 1;
      table[i] := None;
      assert table[..] == s[i := None];
      assert Counted() && !Holds(kf, table[..], kf.key(t.value));
      var _, q := Add(t.value);
      Reinsert(kf, s, t0, hole, i, e, q);
    }

    // Takes the items of the buckets from i on out and adds them again, up to the first empty bucket.
    method CleanUp(start: nat, ghost hole: nat, ghost t0: seq<Option<T>>, ghost e: nat)
      requires InCleanup(t0, hole, start, e)
      modifies this, table
      ensures table == old(table) && size == old(size) && itemCount == old(itemCount)
      ensures Items() == old(Items())
      ensures Valid() && MovedBack(t0, table[..], hole)
    {
      hide Count, Contents, Distinct, Reachable, Cleaning, MovedBack, IsTableSize;
      var i := start;
      while table[i].Some?
        invariant 0 <= i < table.Length
        invariant InCleanup(t0, hole, i, e)
        invariant table == old(table) && size == old(size) && itemCount == old(itemCount)
        invariant Items() == old(Items())
        decreases Dist(hole, e, size) - Dist(hole, i, size)
      {
        ReAdd(i, hole, t0, e);
        i := Next(i, size);
      }
      CleaningEnds(kf, table[..], hole, i);
    }

    // Removes the item equivalent to the given one. Every item of the cluster behind it is taken out and added
    // again; none of them moves forward.
    method Remove(item: T) returns (r: Option<T>, ghost hole: nat)
      requires Valid()
      modifies this, table
      ensures Valid() && table == old(table) && size == old(size)
      ensures r == if kf.key(item) in old(Items()) then Some(old(Items())[kf.key(item)]) else None
      ensures Items() == old(Items()) - {kf.key(item)}
      ensures itemCount == old(itemCount) - (if r.Some? then 1 else 0)
      ensures r.None? ==> table[..] == old(table[..])
      ensures r.Some? ==>
        hole < size && old(table[hole]) == r && MovedBack(old(table[..]), table[..], hole)
    {
      hide Count, Contents, Distinct, Reachable, Cleaning, MovedBack, Holds, IsSlot, TableSize;
      HasRoom();
      ghost var t0 := table[..];
      ghost var e := EmptyBucket(t0);
      var i := Probe(kf.key(item));
      hole := i;
      r := table[i];
      SlotFinds(kf, t0, kf.key(item), i);
      if r.Some? {
        RemovalStarts(kf, t0, i, e);
        itemCount := itemCount - 1;
        table[i] := None;
        assert table[..] == t0[i := None];
        CleanUp(Next(i, size), hole, t0, e);
      } else {
        assert Items() == old(Items()) - {kf.key(item)};
      }
    }

    // Removes all items.
    method Clear()
      requires Valid()
      modifies this, table
      ensures Valid() && table == old(table) && Items() == map[]
    {
      forall j | 0 <= j < table.Length { table[j] := None; }
      itemCount := 0;
      EmptyTable(kf, table[..]);
    }

    method Size() returns (n: nat)
      requires Valid()
      ensures n == |Items()|
    {
      CountIsSize(kf, table[..]);
      n := itemCount;
    }

    lemma Passed(s: seq<Option<T>>, p: nat)
      requires Valid() && |s| == size && p < size && Distinct(kf, s) && Reachable(kf, s) && Count(s) < |s|
      requires if s[p].Some? then Items() == Contents(kf, s) - {kf.key(s[p].value)} else table[..] == s
      ensures Settled(kf, s, p) <==> Settled(kf, table[..], p + 1)
    {
      hide Count, Contents, Distinct, Reachable, Settled, IsTableSize;
      HasRoom();
      if s[p].Some? {
        var e := EmptyBucket(s);
        var e' := EmptyBucket(table[..]);
        PassItem(kf, s, table[..], p, e, e');
      } else {
        PassBucket(kf, s, p);
      }
    }

    // Of two items that belong to the first of three buckets, removing the set from itself leaves the second one.
    method MinusPair(a: T, b: T)
      requires Valid() && table[..] == [Some(a), Some(b), None]
      requires Home(kf, kf.key(a), 3) == Home(kf, kf.key(b), 3) == 0
      modifies this, table
      ensures Valid() && Items() == map[kf.key(b) := b]
    {
      assert table[0] == Some(a) && table[1] == Some(b) && kf.key(a) != kf.key(b) && !AtHome(kf, table[..], 1);
      PairContents(kf, a, b);
      hide Contents;
      Minus(this);
    }

    // Removes the items equivalent to an item of another set. Removing a set from itself walks over the table that removal
    // changes: it leaves the set empty exactly when every item but the one of the first bucket is in its home bucket.
    // Otherwise one moves to a bucket that the walk has just passed.
    method Minus(other: BitWSet<T, K>)
      requires Valid() && other.kf == kf
      requires other != this ==> other.table != table && other.table.Length == other.size
      modifies this, table
      ensures Valid() && table == old(table)
      ensures other != this ==> Items() == old(Items()) - other.Items().Keys
      ensures other == this ==> (Items() == map[] <==> old(forall p :: 0 < p < |table[..]| ==> AtHome(kf, table[..], p)))
      ensures other == this && old(table.Length > 0 && table[0].Some?) ==> kf.key(old(table[0].value)) !in Items()
      ensures forall k :: k in Items() ==> k in old(Items()) && Items()[k] == old(Items())[k]
    {
      hide Count, Contents, Distinct, Reachable, Settled, IsTableSize;
      var i, n := 0, other.size;
      ghost var ot := other.table[..];
      NoItems(kf, ot);
      SettledStart(kf, ot);
      while i < n
        invariant 0 <= i <= n == |ot| && table == old(table) && Valid()
        invariant other != this ==> other.table[..] == ot && Items() == old(Items()) - Contents(kf, ot[..i]).Keys
        invariant other == this ==> size == n && (Settled(kf, table[..], i) <==> Settled(kf, ot, 0))
        invariant other == this && i == 0 ==> table[..] == ot
        invariant other == this && i > 0 && ot[0].Some? ==> kf.key(ot[0].value) !in Items()
        invariant forall k :: k in Items() ==> k in old(Items()) && Items()[k] == old(Items())[k]
      {
        ContentsPrefix(kf, ot, i);
        var t := other.table[i];
        i := i + 1;
        ghost var s := table[..];
        HasRoom();
        if t.Some? {
          var _, _ := Remove(t.value);
        }
        if other == this {
          Passed(s, i - 1);
        }
      }
      assert ot[..n] == ot;
      SettledEnd(kf, table[..]);
    }

    // Whether an item of another set is contained in this one.
    method Intersects(other: BitWSet<T, K>) returns (r: bool)
      requires Valid() && other.Valid() && other.kf == kf
      ensures r <==> Items().Keys * other.Items().Keys != {}
    {
      var i, n := 0, other.size;
      ghost var ot := other.table[..];
      ContentsAt(kf, ot);
      while i < n
        invariant 0 <= i <= n
        invariant forall j :: 0 <= j < i && ot[j].Some? ==> kf.key(ot[j].value) !in Items()
      {
        var t := other.table[i];
        i := i + 1;
        if t.Some? {
          var found := Get(t.value);
          if found.Some? {
            assert kf.key(t.value) in Items().Keys * other.Items().Keys;
            return true;
          }
        }
      }
      forall k | k in other.Items() ensures k !in Items() {
        var j :| 0 <= j < |ot| && ot[j] == Some(other.Items()[k]);
      }
      return false;
    }

    // Removes, in place, the items that have no equivalent in another set.
    method Intersect(other: BitWSet<T, K>)
      requires Valid() && other.Valid() && other.kf == kf && (other != this ==> other.table != table)
      modifies this, table
      ensures Valid() && table == old(table)
      ensures Items() == map k | k in old(Items()) && k in old(other.Items()) :: old(Items())[k]
    {
      hide Count, Contents, Distinct, Reachable, MovedBack, IsTableSize, Limit;
      var i, n := 0, size;
      ghost var keep := other.Items().Keys;
      while i < n
        invariant 0 <= i <= n == size && table == old(table) && Valid()
        invariant other.Valid() && keep == other.Items().Keys
        invariant forall k :: k in Items() ==> k in old(Items()) && Items()[k] == old(Items())[k]
        invariant forall k :: k in old(Items()) && k in keep ==> k in Items()
        invariant forall j :: 0 <= j < i && table[j].Some? ==> kf.key(table[j].value) in keep
        decreases itemCount, n - i
      {
        var t := table[i];
        var drop := false;
        if t.Some? {
          var c := other.Contains(t.value);
          drop := !c;
        }
        if drop {
          ghost var s := table[..];
          DistinctAt(kf, s, i);
          var r, hole := Remove(t.value);
          SameBucket(kf, s, i, hole);
          MovedKeeps(kf, s, table[..], hole, keep);
        } else {
          i := i + 1;
        }
      }
      ContentsAt(kf, table[..]);
      forall k | k in Items() ensures k in keep {
        var j :| 0 <= j < |table[..]| && table[..][j] == Some(Items()[k]);
      }
    }
  }
}
