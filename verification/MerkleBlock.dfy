/**
 Merkle blocks: the tree of transaction hashes, its partial encoding (Partial Merkle branch format of BIP 37),
 and the two recursive walks that decode it.
 */
module MerkleBlocks {
  import opened Bits
  import opened Powers
  import opened Slices

  type UInt256 = n: nat | n < 0x1_00000000_00000000_00000000_00000000_00000000_00000000_00000000_00000000
  const ZERO: UInt256 := 0
  const SIZE_MAX: nat := 0xFFFF_FFFF_FFFF_FFFF

  // The double SHA-256 of two hashes: any deterministic function.
  type Sha = (UInt256, UInt256) -> UInt256

  // ---- the tree, row by row ----

  // A node of the tree: its hash, and the matched transaction hashes below it in order.
  datatype Node = Node(hash: UInt256, found: seq<UInt256>)

  function Parent(sha: Sha, left: Node, right: Node): Node {
    Node(sha(left.hash, right.hash), left.found + right.found)
  }

  // The row above: the last node of a row of odd length is hashed with itself.
  function NextRow(sha: Sha, row: seq<Node>): seq<Node> {
    if row == [] then []
    else if |row| == 1 then [Parent(sha, row[0], row[0].(found := []))]
    else [Parent(sha, row[0], row[1])] + NextRow(sha, row[2..])
  }

  lemma {:induction false} NextRowLength(sha: Sha, row: seq<Node>)
    ensures |NextRow(sha, row)| == (|row| + 1) / 2
  {
    if |row| > 1 {
      NextRowLength(sha, row[2..]);
    }
  }

  lemma {:induction false} NextRowAt(sha: Sha, row: seq<Node>, i: nat)
    requires i < |NextRow(sha, row)|
    ensures 2 * i < |row|
    ensures NextRow(sha, row)[i] == if 2 * i + 1 < |row| then Parent(sha, row[2 * i], row[2 * i + 1])
                                    else Parent(sha, row[2 * i], row[2 * i].(found := []))
  {
    if i > 0 {
      NextRowAt(sha, row[2..], i - 1);
    }
  }

  function Row(sha: Sha, leaves: seq<Node>, h: nat): seq<Node> {
    if h == 0 then leaves else NextRow(sha, Row(sha, leaves, h - 1))
  }

  // The Merkle root, by its definition: rows are formed until one hash is left.
  function MerkleRoot(sha: Sha, row: seq<Node>): UInt256
    requires row != []
    decreases |row|
  {
    if |row| == 1 then row[0].hash
    else
      NextRowLength(sha, row);
      MerkleRoot(sha, NextRow(sha, row))
  }

  // One, two and three transactions.
  lemma SmallRoots(sha: Sha, a: Node, b: Node, c: Node)
    ensures MerkleRoot(sha, [a]) == a.hash && MerkleRoot(sha, [a, b]) == sha(a.hash, b.hash)
    ensures MerkleRoot(sha, [a, b, c]) == sha(sha(a.hash, b.hash), sha(c.hash, c.hash))
  {
    assert [a, b][2..] == [] && NextRow(sha, [a, b]) == [Parent(sha, a, b)] + [];
    var ab, cc := Parent(sha, a, b), Parent(sha, c, c.(found := []));
    assert [a, b, c][2..] == [c] && NextRow(sha, [c]) == [cc];
    assert NextRow(sha, [a, b, c]) == [ab] + [cc] == [ab, cc];
    assert [ab, cc][2..] == [] && NextRow(sha, [ab, cc]) == [Parent(sha, ab, cc)] + [];
    assert MerkleRoot(sha, [a, b, c]) == MerkleRoot(sha, [ab, cc]) == MerkleRoot(sha, [Parent(sha, ab, cc)]);
  }

  // The leaves of the tree over hashes, of which some are matched.
  function Leaves(hashes: seq<UInt256>, matched: seq<bool>): seq<Node>
    requires |hashes| == |matched|
  {
    seq(|hashes|, i requires 0 <= i < |hashes| => Node(hashes[i], if matched[i] then [hashes[i]] else []))
  }

  function Filter(hashes: seq<UInt256>, matched: seq<bool>): seq<UInt256>
    requires |hashes| == |matched|
  {
    if hashes == [] then []
    else (if matched[0] then [hashes[0]] else []) + Filter(hashes[1..], matched[1..])
  }

  // ---- the encoding ----

  // A node of the tree and what its children are; the last node of a row may have a left child only.
  lemma Children(sha: Sha, leaves: seq<Node>, h: nat, pos: nat)
    requires h > 0 && pos < |Row(sha, leaves, h)|
    ensures var row, below := Row(sha, leaves, h), Row(sha, leaves, h - 1);
      && |row| == (|below| + 1) / 2 && 2 * pos < |below|
      && row[pos] == if 2 * pos + 1 < |below| then Parent(sha, below[2 * pos], below[2 * pos + 1])
                     else Parent(sha, below[2 * pos], below[2 * pos].(found := []))
  {
    NextRowLength(sha, Row(sha, leaves, h - 1));
    NextRowAt(sha, Row(sha, leaves, h - 1), pos);
  }

  datatype Encoding = Encoding(flags: seq<bool>, hashes: seq<UInt256>)

  // Depth first, one flag per node visited: set for the parent of a match, which is explored further unless it
  // is a leaf; any other node is represented by its hash.
  function Encode(sha: Sha, leaves: seq<Node>, h: nat, pos: nat): Encoding
    requires pos < |Row(sha, leaves, h)|
    decreases h
  {
    var node := Row(sha, leaves, h)[pos];
    if h == 0 || node.found == [] then Encoding([node.found != []], [node.hash])
    else
      Children(sha, leaves, h, pos);
      var left := Encode(sha, leaves, h - 1, 2 * pos);
      if 2 * pos + 1 < |Row(sha, leaves, h - 1)| then
        var right := Encode(sha, leaves, h - 1, 2 * pos + 1);
        Encoding([true] + left.flags + right.flags, left.hashes + right.hashes)
      else Encoding([true] + left.flags, left.hashes)
  }

  // One transaction, and two of which the second is matched.
  lemma SmallEncodings(sha: Sha, a: UInt256, b: UInt256)
    ensures Encode(sha, Leaves([a], [true]), 0, 0) == Encoding([true], [a])
    ensures Encode(sha, Leaves([a], [false]), 0, 0) == Encoding([false], [a])
    ensures |Row(sha, Leaves([a, b], [false, true]), 1)| == 1
    ensures Encode(sha, Leaves([a, b], [false, true]), 1, 0) == Encoding([true, false, true], [a, b])
  {
    var leaves := Leaves([a, b], [false, true]);
    assert leaves == [Node(a, []), Node(b, [b])];
    assert leaves[2..] == [] && Row(sha, leaves, 0) == leaves && NextRow(sha, []) == [];
    assert NextRow(sha, leaves) == [Parent(sha, leaves[0], leaves[1])] + [];
    assert Row(sha, leaves, 1) == [Parent(sha, leaves[0], leaves[1])] + [];
    assert Encode(sha, leaves, 0, 0) == Encoding([false], [a]);
    assert Encode(sha, leaves, 0, 1) == Encoding([true], [b]);
    assert [true] + [false] + [true] == [true, false, true] && [a] + [b] == [a, b];
  }

  // ---- the height ----

  // x & (x - 1) clears the lowest bit: it vanishes exactly for powers of two.
  lemma {:induction false} AndPred(x: nat, r: nat)
    requires Pow(2, r) <= x < Pow(2, r + 1)
    ensures And(x, x - 1) == 0 <==> x == Pow(2, r)
  {
    hide *;
    PowPositive(2, r);
    PowNext(2, r + 1);
    if r == 0 {
      AndOne();
      assert x == 1;
    } else {
      PowNext(2, r);
      PowPositive(2, r - 1);
      AndStep(x, x - 1);
      HalfPred(x);
      if x % 2 == 0 {
        AndPred(x / 2, r - 1);
      } else {
        AndSelf(x / 2);
      }
    }
  }

  lemma AndOne()
    ensures And(1, 0) == 0 && Pow(2, 0) == 1
  {
  }

  lemma HalfPred(x: nat)
    requires x > 0
    ensures Both(x, x - 1) == 0 && (x - 1) / 2 == if x % 2 == 0 then x / 2 - 1 else x / 2
    ensures x == 2 * (x / 2) + x % 2 && x % 2 < 2
  {
  }

  function CeilLog2(x: nat): (r: nat)
  {
    if x <= 1 then 0 else 1 + CeilLog2((x + 1) / 2)
  }

  lemma {:induction false} CeilLog2Bounds(x: nat)
    requires x > 0
    ensures x <= Pow(2, CeilLog2(x))
    ensures x > 1 ==> Pow(2, CeilLog2(x) - 1) < x
  {
    if x == 1 {
      assert Pow(2, 0) == 1;
    } else {
      CeilLog2Bounds((x + 1) / 2);
      if x == 2 { assert Pow(2, 0) == 1 && CeilLog2(1) == 0; }
    }
  }

  lemma CeilLog2Unique(x: nat, r: nat)
    requires x > 0 && x <= Pow(2, r) && (r > 0 ==> Pow(2, r - 1) < x)
    ensures r == CeilLog2(x)
  {
    CeilLog2Bounds(x);
    var c := CeilLog2(x);
    if c < r { PowMonotonic(2, c, r - 1); }
    if r < c { PowMonotonic(2, r, c - 1); }
  }

  // x is what is left of n after shifting it right by k.
  ghost predicate Shifted(n: nat, k: nat, x: nat) {
    x * Pow(2, k) <= n < (x + 1) * Pow(2, k)
  }

  lemma Doubled(y: nat, p: nat)
    ensures (2 * y) * p == y * (2 * p)
  {
  }

  lemma ShiftOnce(n: nat, k: nat, x: nat)
    requires Shifted(n, k, x)
    ensures Shifted(n, k + 1, x / 2)
  {
    var p, y := Pow(2, k), x / 2;
    assert Pow(2, k + 1) == 2 * p;
    hide Pow;
    Doubled(y, p);
    Doubled(y + 1, p);
    MulMonotonic(2 * y, x, p, p);
    MulMonotonic(x + 1, 2 * (y + 1), p, p);
  }

  // One bit is left after k shifts and none after k + 1: k is the position of the highest bit.
  lemma HighestBit(n: nat, k: nat)
    requires n > 0 && Shifted(n, k, 1)
    ensures CeilLog2(n) == k + (if And(n, n - 1) != 0 then 1 else 0)
  {
    var p := Pow(2, k);
    assert Pow(2, k + 1) == 2 * p;
    AndPred(n, k);
    if n == p {
      if k > 0 { PowPositive(2, k - 1); }
      CeilLog2Unique(n, k);
    } else {
      CeilLog2Unique(n, k + 1);
    }
  }

  method CeilLog2Loop(x0: nat) returns (r: nat)
    requires x0 < 0x8000_0000
    ensures r == CeilLog2(x0)
  {
    hide *;
    var x := x0;
    r := if x != 0 && And(x, x - 1) != 0 then 1 else 0;
    ghost var extra, k := r, 0;
    StartShift(x0);
    if x0 == 0 { CeilLog2Zero(); }
    var next := x / 2;
    while next != 0
      invariant r == extra + k && Shifted(x0, k, x) && next == x / 2
      invariant x0 > 0 ==> x > 0
      invariant x0 == 0 ==> x == 0 && k == 0
    {
      ShiftOnce(x0, k, x);
      x := next;
      next := x / 2;
      r := r + 1;
      k := k + 1;
    }
    if x0 > 0 {
      HighestBit(x0, k);
    }
  }

  lemma StartShift(n: nat)
    ensures Shifted(n, 0, n)
  {
    assert Pow(2, 0) == 1;
  }

  lemma CeilLog2Zero()
    ensures CeilLog2(0) == 0
  {
  }

  // ---- the decoder ----

  datatype Block = Block(totalTx: nat, hashes: seq<UInt256>, flags: seq<bv8>)

  // The position of a walk in the hashes and in the flag bits.
  datatype Cursor = Cursor(hashIdx: nat, flagIdx: nat)

  predicate More(block: Block, c: Cursor) {
    c.flagIdx / 8 < |block.flags| && c.hashIdx < |block.hashes|
  }

  function FlagAt(block: Block, i: nat): bool
    requires i / 8 < |block.flags|
  {
    block.flags[i / 8] & ((1 as bv8) << (i % 8)) != 0
  }

  // What the root walk computes at a node of the given depth. A zero hash stands for a missing right branch;
  // equal siblings, which would allow two blocks with one root, end the walk.
  function RootWalk(sha: Sha, block: Block, c: Cursor, depth: nat): (UInt256, Cursor)
    requires depth <= CeilLog2(block.totalTx)
    decreases CeilLog2(block.totalTx) - depth
  {
    if !More(block, c) then (ZERO, c)
    else
      var flag := FlagAt(block, c.flagIdx);
      var c1 := c.(flagIdx := c.flagIdx + 1);
      if flag && depth != CeilLog2(block.totalTx) then
        var (left, c2) := RootWalk(sha, block, c1, depth + 1);
        var (right, c3) := RootWalk(sha, block, c2, depth + 1);
        if left != ZERO && left != right then (sha(left, if right == ZERO then left else right), c3)
        else (ZERO, c3.(hashIdx := SIZE_MAX))
      else (block.hashes[c.hashIdx], c1.(hashIdx := c.hashIdx + 1))
  }

  // What the hash walk has collected after a node of the given depth; room is the most it may collect.
  function TxWalk(block: Block, out: seq<UInt256>, room: nat, c: Cursor, depth: nat): (seq<UInt256>, Cursor)
    requires depth <= CeilLog2(block.totalTx)
    decreases CeilLog2(block.totalTx) - depth
  {
    if !More(block, c) then (out, c)
    else
      var flag := FlagAt(block, c.flagIdx);
      var c1 := c.(flagIdx := c.flagIdx + 1);
      if !flag || depth == CeilLog2(block.totalTx) then
        (if flag && |out| < room then out + [block.hashes[c.hashIdx]] else out, c1.(hashIdx := c.hashIdx + 1))
      else
        var (out2, c2) := TxWalk(block, out, room, c1, depth + 1);
        TxWalk(block, out2, room, c2, depth + 1)
  }

  // The recursive walks, which advance shared positions.
  class Walker {
    const block: Block
    var hashIdx: nat
    var flagIdx: nat
    var idx: nat

    ghost function Position(): Cursor
      reads this
    {
      Cursor(hashIdx, flagIdx)
    }

    constructor (block: Block)
      ensures this.block == block && Position() == Cursor(0, 0) && idx == 0
    {
      this.block := block;
      hashIdx, flagIdx, idx := 0, 0, 0;
    }

    method Root(sha: Sha, depth: nat) returns (md: UInt256)
      requires depth <= CeilLog2(block.totalTx) && block.totalTx < 0x8000_0000
      modifies this
      ensures (md, Position()) == RootWalk(sha, block, old(Position()), depth) && idx == old(idx)
      decreases CeilLog2(block.totalTx) - depth
    {
      md := ZERO;
      if flagIdx / 8 < |block.flags| && hashIdx < |block.hashes| {
        var flag := FlagAt(block, flagIdx);
        flagIdx := flagIdx + 1;
        var height := CeilLog2Loop(block.totalTx);
        if flag && depth != height {
          var left := Root(sha, depth + 1);
          var right := Root(sha, depth + 1);
          if left != ZERO && left != right {
            if right == ZERO { right := left; }  // the right branch is missing: duplicate the left one
            md := sha(left, right);
          } else {
            hashIdx := SIZE_MAX;
          }
        } else {
          md := block.hashes[hashIdx];
          hashIdx := hashIdx + 1;
        }
      }
    }

    // Writes to txHashes, unless it is null, and counts.
    method TxHashes(txHashes: array?<UInt256>, hashesCount: nat, depth: nat, ghost out: seq<UInt256>)
        returns (ghost out': seq<UInt256>)
      requires depth <= CeilLog2(block.totalTx) && block.totalTx < 0x8000_0000
      requires idx == |out|
      requires txHashes != null ==> idx <= hashesCount <= txHashes.Length && txHashes[..idx] == out
      modifies this, txHashes
      ensures (out', Position()) == TxWalk(block, out, hashesCount, old(Position()), depth)
      ensures idx == |out'|
      ensures txHashes != null ==> idx <= hashesCount && txHashes[..idx] == out'
      ensures old(idx) <= idx
      ensures txHashes != null ==> forall k :: idx <= k < txHashes.Length ==> txHashes[k] == old(txHashes[k])
      decreases CeilLog2(block.totalTx) - depth
    {
      out' := out;
      if flagIdx / 8 < |block.flags| && hashIdx < |block.hashes| {
        var flag := FlagAt(block, flagIdx);
        flagIdx := flagIdx + 1;
        var height := CeilLog2Loop(block.totalTx);
        if !flag || depth == height {
          if flag && idx < hashesCount {
            out' := out + [block.hashes[hashIdx]];
            if txHashes != null { txHashes[idx] := block.hashes[hashIdx]; }
            idx := idx + 1;
          }
          hashIdx := hashIdx + 1;
        } else {
          out' := TxHashes(txHashes, hashesCount, depth + 1, out');
          out' := TxHashes(txHashes, hashesCount, depth + 1, out');
        }
      }
    }
  }

  // The matched transaction hashes of a block, or only their number if there is no array to write them to.
  method MatchedHashes(block: Block, txHashes: array?<UInt256>, hashesCount: nat) returns (n: nat)
    requires block.totalTx < 0x8000_0000 && (txHashes != null ==> hashesCount <= txHashes.Length)
    modifies txHashes
    ensures var out := TxWalk(block, [], if txHashes != null then hashesCount else SIZE_MAX, Cursor(0, 0), 0).0;
      && n == |out|
      && (txHashes != null ==> n <= hashesCount && txHashes[..n] == out && txHashes[n..] == old(txHashes[..])[n..])
  {
    hide TxWalk;
    var walker := new Walker(block);
    var room := if txHashes != null then hashesCount else SIZE_MAX;
    ghost var out := walker.TxHashes(txHashes, room, 0, []);
    n := walker.idx;
  }

  // ---- decoding undoes encoding ----

  ghost function FlagBits(block: Block): seq<bool> {
    seq(8 * |block.flags|, i requires 0 <= i < 8 * |block.flags| => FlagAt(block, i))
  }

  // The number that bits stand for, the lowest first.
  function NumberOf(bits: seq<bool>): nat {
    if bits == [] then 0 else Bit(bits[0]) + 2 * NumberOf(bits[1..])
  }

  function Bit(b: bool): nat { if b then 1 else 0 }

  function Eight(bits: seq<bool>, j: nat): seq<bool>
    requires 8 * j + 8 <= |bits|
  {
    bits[8 * j..8 * j + 8]
  }

  // Bytes that hold the given bits, eight each.
  ghost predicate Packs(flags: seq<bv8>, bits: seq<bool>) {
    |bits| == 8 * |flags| && forall j :: 0 <= j < |flags| ==> flags[j] as nat == NumberOf(Eight(bits, j))
  }

  // The walks read exactly the bits that the flag bytes hold.
  lemma PackedFlags(block: Block, bits: seq<bool>)
    ensures Packs(block.flags, bits) <==> bits == FlagBits(block)
  {
    hide NumberOf, FlagBits;
    var all, n := FlagBits(block), |block.flags|;
    assert |all| == 8 * n by { FlagCount(block); }
    if |bits| == 8 * n {
      forall j | 0 <= j < n
        ensures block.flags[j] as nat == NumberOf(Eight(bits, j)) <==> Eight(bits, j) == Eight(all, j)
      {
        ByteFlags(block, j);
        ByteUnique(block.flags[j], Eight(bits, j));
      }
      SameEights(bits, all, n);
    }
  }

  lemma FlagCount(block: Block)
    ensures |FlagBits(block)| == 8 * |block.flags|
  {
  }

  lemma SameEights(a: seq<bool>, b: seq<bool>, n: nat)
    requires |a| == |b| == 8 * n
    ensures a == b <==> forall j :: 0 <= j < n ==> Eight(a, j) == Eight(b, j)
  {
    if forall j :: 0 <= j < n ==> Eight(a, j) == Eight(b, j) {
      forall i | 0 <= i < |a| ensures a[i] == b[i] {
        var j := i / 8;
        assert Eight(a, j)[i - 8 * j] == Eight(b, j)[i - 8 * j];
      }
    }
  }

  // The bits of a byte by their masks.
  function Masked(x: bv8): (b: seq<bool>)
    ensures |b| == 8
  {
    [x & 1 != 0, x & 2 != 0, x & 4 != 0, x & 8 != 0, x & 16 != 0, x & 32 != 0, x & 64 != 0, x & 128 != 0]
  }

  lemma ByteFlags(block: Block, j: nat)
    requires j < |block.flags|
    ensures |FlagBits(block)| == 8 * |block.flags| && Eight(FlagBits(block), j) == Masked(block.flags[j])
  {
    hide Masked, FlagAt;
    forall i | 0 <= i < 8 ensures FlagAt(block, 8 * j + i) == Masked(block.flags[j])[i] {
      FlagOf(block, j, i);
      MaskAt(block.flags[j], i);
    }
  }

  lemma FlagOf(block: Block, j: nat, i: nat)
    requires j < |block.flags| && i < 8
    ensures (8 * j + i) / 8 == j && FlagAt(block, 8 * j + i) == (block.flags[j] & ((1 as bv8) << i) != 0)
  {
    assert (8 * j + i) / 8 == j && (8 * j + i) % 8 == i;
  }

  lemma MaskAt(x: bv8, i: nat)
    requires i < 8
    ensures (x & ((1 as bv8) << i) != 0) == Masked(x)[i]
  {
  }

  lemma ByteUnique(x: bv8, b: seq<bool>)
    requires |b| == 8
    ensures x as nat == NumberOf(b) <==> b == Masked(x)
  {
    MaskedValue(x);
    if NumberOf(b) == NumberOf(Masked(x)) { NumberUnique(b, Masked(x)); }
    hide Masked, NumberOf;
  }

  lemma {:induction false} NumberUnique(a: seq<bool>, b: seq<bool>)
    requires |a| == |b| && NumberOf(a) == NumberOf(b)
    ensures a == b
  {
    if a != [] {
      NumberUnique(a[1..], b[1..]);
      assert a == [a[0]] + a[1..] && b == [b[0]] + b[1..];
    }
  }

  lemma MaskedValue(x: bv8)
    ensures x as nat == NumberOf(Masked(x))
  {
    var b := Masked(x);
    hide Masked;
    assert NumberOf(b[7..]) == Bit(b[7]);
    assert NumberOf(b[6..]) == Bit(b[6]) + 2 * Bit(b[7]) by { assert b[6..][1..] == b[7..]; }
    assert NumberOf(b[5..]) == Bit(b[5]) + 2 * NumberOf(b[6..]) by { assert b[5..][1..] == b[6..]; }
    assert NumberOf(b[4..]) == Bit(b[4]) + 2 * NumberOf(b[5..]) by { assert b[4..][1..] == b[5..]; }
    assert NumberOf(b[3..]) == Bit(b[3]) + 2 * NumberOf(b[4..]) by { assert b[3..][1..] == b[4..]; }
    assert NumberOf(b[2..]) == Bit(b[2]) + 2 * NumberOf(b[3..]) by { assert b[2..][1..] == b[3..]; }
    assert NumberOf(b[1..]) == Bit(b[1]) + 2 * NumberOf(b[2..]) by { assert b[1..][1..] == b[2..]; }
    MaskedBits(x);
  }

  lemma MaskedBits(x: bv8)
    ensures var b := Masked(x);
      x as nat == Bit(b[0]) + 2 * Bit(b[1]) + 4 * Bit(b[2]) + 8 * Bit(b[3])
                + 16 * Bit(b[4]) + 32 * Bit(b[5]) + 64 * Bit(b[6]) + 128 * Bit(b[7])
  {
    assert x == (x & 1) + (x & 2) + (x & 4) + (x & 8) + (x & 16) + (x & 32) + (x & 64) + (x & 128);
  }

  // The flag bits and the hashes of the block continue with those of e.
  ghost predicate Reads(block: Block, c: Cursor, e: Encoding) {
    At(FlagBits(block), c.flagIdx, e.flags) && At(block.hashes, c.hashIdx, e.hashes)
  }

  ghost function After(c: Cursor, e: Encoding): Cursor {
    Cursor(c.hashIdx + |e.hashes|, c.flagIdx + |e.flags|)
  }

  lemma ReadsInRange(block: Block, c: Cursor, e: Encoding)
    requires Reads(block, c, e)
    ensures c.hashIdx + |e.hashes| <= |block.hashes|
  {
  }

  lemma ReadsFirst(block: Block, c: Cursor, flag: bool, e: Encoding)
    requires Reads(block, c, Encoding([flag] + e.flags, e.hashes))
    ensures c.flagIdx / 8 < |block.flags| && FlagAt(block, c.flagIdx) == flag
    ensures Reads(block, c.(flagIdx := c.flagIdx + 1), e)
  {
    AtSplit(FlagBits(block), c.flagIdx, [flag], e.flags);
    assert FlagBits(block)[c.flagIdx..c.flagIdx + 1] == [flag];
    assert FlagBits(block)[c.flagIdx] == flag;
  }

  lemma ReadsSplit(block: Block, c: Cursor, a: Encoding, b: Encoding)
    requires Reads(block, c, Encoding(a.flags + b.flags, a.hashes + b.hashes))
    ensures Reads(block, c, a) && Reads(block, After(c, a), b)
  {
    AtSplit(FlagBits(block), c.flagIdx, a.flags, b.flags);
    AtSplit(block.hashes, c.hashIdx, a.hashes, b.hashes);
  }

  // No hash of the tree is zero.
  ghost predicate Nonzero(sha: Sha, leaves: seq<Node>) {
    forall h: nat, i: nat :: h <= CeilLog2(|leaves|) && i < |Row(sha, leaves, h)| ==> Row(sha, leaves, h)[i].hash != ZERO
  }

  // No node that the encoding explores has two equal children.
  ghost predicate DistinctBelow(sha: Sha, leaves: seq<Node>, h: nat, pos: nat)
    requires pos < |Row(sha, leaves, h)|
    decreases h
  {
    h == 0 || Row(sha, leaves, h)[pos].found == [] || (
      Children(sha, leaves, h, pos);
      var below := Row(sha, leaves, h - 1);
      && DistinctBelow(sha, leaves, h - 1, 2 * pos)
      && (2 * pos + 1 < |below| ==>
            below[2 * pos].hash != below[2 * pos + 1].hash && DistinctBelow(sha, leaves, h - 1, 2 * pos + 1)))
  }

  // The subtree at a node is complete, or the hashes of the block end with it.
  ghost predicate AtEdge(sha: Sha, leaves: seq<Node>, block: Block, c: Cursor, h: nat, pos: nat)
    requires pos < |Row(sha, leaves, h)|
  {
    pos == |Row(sha, leaves, h)| - 1 ==> After(c, Encode(sha, leaves, h, pos)).hashIdx == |block.hashes|
  }

  // What follows the flag of a node is its left child and then its right one, or nothing when there is none.
  ghost predicate ReadsChildren(sha: Sha, leaves: seq<Node>, block: Block, c: Cursor, h: nat, pos: nat)
    requires h > 0 && pos < |Row(sha, leaves, h)| && 2 * pos < |Row(sha, leaves, h - 1)|
  {
    hide *;
    var c1 := c.(flagIdx := c.flagIdx + 1);
    var left := Encode(sha, leaves, h - 1, 2 * pos);
    && Reads(block, c1, left) && AtEdge(sha, leaves, block, c1, h - 1, 2 * pos)
    && (if 2 * pos + 1 < |Row(sha, leaves, h - 1)| then
          && Reads(block, After(c1, left), Encode(sha, leaves, h - 1, 2 * pos + 1))
          && AtEdge(sha, leaves, block, After(c1, left), h - 1, 2 * pos + 1)
          && After(c, Encode(sha, leaves, h, pos))
               == After(After(c1, left), Encode(sha, leaves, h - 1, 2 * pos + 1))
        else
          && !More(block, After(c1, left))
          && After(c, Encode(sha, leaves, h, pos)) == After(c1, left))
  }

  // The encoding of an explored node, taken apart.
  lemma EncodeParent(sha: Sha, leaves: seq<Node>, block: Block, c: Cursor, h: nat, pos: nat)
    requires h > 0 && pos < |Row(sha, leaves, h)| && Row(sha, leaves, h)[pos].found != []
    requires Reads(block, c, Encode(sha, leaves, h, pos)) && AtEdge(sha, leaves, block, c, h, pos)
    ensures 2 * pos < |Row(sha, leaves, h - 1)|
    ensures More(block, c) && FlagAt(block, c.flagIdx) && ReadsChildren(sha, leaves, block, c, h, pos)
  {
    hide Row, FlagAt, FlagBits, Reads, CeilLog2, Encode, More, After, NextRow;
    EncodeNode(sha, leaves, h, pos);
    EncodeHasHash(sha, leaves, h, pos);
    var e, left := Encode(sha, leaves, h, pos), Encode(sha, leaves, h - 1, 2 * pos);
    if 2 * pos + 1 < |Row(sha, leaves, h - 1)| {
      ReadsBoth(block, c, left, Encode(sha, leaves, h - 1, 2 * pos + 1), e);
    } else {
      ReadsLeft(block, c, left, e);
    }
  }

  lemma ReadsBoth(block: Block, c: Cursor, left: Encoding, right: Encoding, e: Encoding)
    requires e == Encoding([true] + left.flags + right.flags, left.hashes + right.hashes)
    requires Reads(block, c, e) && |e.hashes| > 0
    ensures More(block, c) && FlagAt(block, c.flagIdx)
    ensures var c1 := c.(flagIdx := c.flagIdx + 1);
      Reads(block, c1, left) && Reads(block, After(c1, left), right) && After(c, e) == After(After(c1, left), right)
  {
    ReadsInRange(block, c, e);
    assert [true] + left.flags + right.flags == [true] + (left.flags + right.flags);
    hide FlagAt, Reads;
    ReadsFirst(block, c, true, Encoding(left.flags + right.flags, left.hashes + right.hashes));
    ReadsSplit(block, c.(flagIdx := c.flagIdx + 1), left, right);
  }

  lemma ReadsLeft(block: Block, c: Cursor, left: Encoding, e: Encoding)
    requires e == Encoding([true] + left.flags, left.hashes)
    requires Reads(block, c, e) && |e.hashes| > 0
    ensures More(block, c) && FlagAt(block, c.flagIdx)
    ensures var c1 := c.(flagIdx := c.flagIdx + 1);
      && Reads(block, c1, left) && After(c, e) == After(c1, left)
      && (After(c, e).hashIdx == |block.hashes| ==> !More(block, After(c1, left)))
  {
    ReadsInRange(block, c, e);
    hide FlagAt, Reads;
    ReadsFirst(block, c, true, left);
  }

  // The encoding of an explored node by those of its children.
  lemma EncodeNode(sha: Sha, leaves: seq<Node>, h: nat, pos: nat)
    requires h > 0 && pos < |Row(sha, leaves, h)| && Row(sha, leaves, h)[pos].found != []
    ensures 2 * pos < |Row(sha, leaves, h - 1)| && |Row(sha, leaves, h)| == (|Row(sha, leaves, h - 1)| + 1) / 2
    ensures var left := Encode(sha, leaves, h - 1, 2 * pos);
      Encode(sha, leaves, h, pos) ==
        if 2 * pos + 1 < |Row(sha, leaves, h - 1)| then
          var right := Encode(sha, leaves, h - 1, 2 * pos + 1);
          Encoding([true] + left.flags + right.flags, left.hashes + right.hashes)
        else Encoding([true] + left.flags, left.hashes)
  {
    hide Row, NextRow, CeilLog2;
    Children(sha, leaves, h, pos);
  }

  lemma {:induction false} EncodeHasHash(sha: Sha, leaves: seq<Node>, h: nat, pos: nat)
    requires pos < |Row(sha, leaves, h)|
    ensures |Encode(sha, leaves, h, pos).hashes| > 0
    decreases h
  {
    if h > 0 && Row(sha, leaves, h)[pos].found != [] {
      Children(sha, leaves, h, pos);
      EncodeHasHash(sha, leaves, h - 1, 2 * pos);
    }
  }

  // A node that is not explored is one flag and one hash.
  lemma EncodeTip(sha: Sha, leaves: seq<Node>, block: Block, c: Cursor, h: nat, pos: nat)
    requires pos < |Row(sha, leaves, h)| && (h == 0 || Row(sha, leaves, h)[pos].found == [])
    requires Reads(block, c, Encode(sha, leaves, h, pos))
    ensures More(block, c) && FlagAt(block, c.flagIdx) == (Row(sha, leaves, h)[pos].found != [])
    ensures block.hashes[c.hashIdx] == Row(sha, leaves, h)[pos].hash
    ensures After(c, Encode(sha, leaves, h, pos)) == Cursor(c.hashIdx + 1, c.flagIdx + 1)
  {
    hide Row, FlagAt, FlagBits, CeilLog2, NextRow;
    var node := Row(sha, leaves, h)[pos];
    var e := Encode(sha, leaves, h, pos);
    assert e == Encoding([node.found != []], [node.hash]);
    hide Encode;
    assert [node.found != []] == [node.found != []] + [];
    ReadsFirst(block, c, node.found != [], Encoding([], [node.hash]));
    assert block.hashes[c.hashIdx..c.hashIdx + 1] == [node.hash];
  }

  // One step of each walk at an explored node, and at a tip.
  lemma WalkParent(sha: Sha, block: Block, c: Cursor, depth: nat, out: seq<UInt256>, room: nat)
    requires More(block, c) && FlagAt(block, c.flagIdx) && depth < CeilLog2(block.totalTx)
    ensures var c1 := c.(flagIdx := c.flagIdx + 1);
      var (left, c2) := RootWalk(sha, block, c1, depth + 1);
      var (right, c3) := RootWalk(sha, block, c2, depth + 1);
      RootWalk(sha, block, c, depth) ==
        if left != ZERO && left != right then (sha(left, if right == ZERO then left else right), c3)
        else (ZERO, c3.(hashIdx := SIZE_MAX))
    ensures var c1 := c.(flagIdx := c.flagIdx + 1);
      var (out2, c2) := TxWalk(block, out, room, c1, depth + 1);
      TxWalk(block, out, room, c, depth) == TxWalk(block, out2, room, c2, depth + 1)
  {
  }

  lemma WalkTip(sha: Sha, block: Block, c: Cursor, depth: nat, out: seq<UInt256>, room: nat)
    requires More(block, c) && depth <= CeilLog2(block.totalTx)
    requires !FlagAt(block, c.flagIdx) || depth == CeilLog2(block.totalTx)
    ensures RootWalk(sha, block, c, depth) == (block.hashes[c.hashIdx], Cursor(c.hashIdx + 1, c.flagIdx + 1))
    ensures TxWalk(block, out, room, c, depth) ==
      (if FlagAt(block, c.flagIdx) && |out| < room then out + [block.hashes[c.hashIdx]] else out,
       Cursor(c.hashIdx + 1, c.flagIdx + 1))
  {
  }

  lemma WalkMissing(sha: Sha, block: Block, c: Cursor, depth: nat, out: seq<UInt256>, room: nat)
    requires !More(block, c) && depth <= CeilLog2(block.totalTx)
    ensures RootWalk(sha, block, c, depth) == (ZERO, c) && TxWalk(block, out, room, c, depth) == (out, c)
  {
  }

  // The root walk returns the hash of a node and stops behind its encoding; but once it meets equal siblings it
  // ends beyond all hashes, wherever they are.
  lemma {:induction false} RootDecodes(sha: Sha, leaves: seq<Node>, block: Block, c: Cursor, h: nat, pos: nat)
    requires Nonzero(sha, leaves) && pos < |Row(sha, leaves, h)| && h <= CeilLog2(block.totalTx)
    requires h <= CeilLog2(|leaves|)
    requires |block.hashes| < SIZE_MAX
    requires Reads(block, c, Encode(sha, leaves, h, pos)) && AtEdge(sha, leaves, block, c, h, pos)
    ensures var r := RootWalk(sha, block, c, CeilLog2(block.totalTx) - h);
      if DistinctBelow(sha, leaves, h, pos)
      then r == (Row(sha, leaves, h)[pos].hash, After(c, Encode(sha, leaves, h, pos)))
      else r.1.hashIdx == SIZE_MAX
    decreases h
  {
    hide CeilLog2, Reads, AtEdge, FlagAt, Encode, Row, RootWalk, TxWalk, More, After, Nonzero;
    var node, depth := Row(sha, leaves, h)[pos], CeilLog2(block.totalTx) - h;
    if h == 0 || node.found == [] {
      EncodeTip(sha, leaves, block, c, h, pos);
      WalkTip(sha, block, c, depth, [], 0);
    } else {
      EncodeParent(sha, leaves, block, c, h, pos);
      Children(sha, leaves, h, pos);
      var below, c1 := Row(sha, leaves, h - 1), c.(flagIdx := c.flagIdx + 1);
      var c2 := After(c1, Encode(sha, leaves, h - 1, 2 * pos));
      RootDecodes(sha, leaves, block, c1, h - 1, 2 * pos);
      NonzeroAt(sha, leaves, h - 1, 2 * pos);
      WalkParent(sha, block, c, depth, [], 0);
      if !DistinctBelow(sha, leaves, h - 1, 2 * pos) {
        WalkStuck(sha, block, RootWalk(sha, block, c1, depth + 1).1, depth + 1);
      } else if 2 * pos + 1 < |below| {
        RootDecodes(sha, leaves, block, c2, h - 1, 2 * pos + 1);
        NonzeroAt(sha, leaves, h - 1, 2 * pos + 1);
      } else {
        WalkMissing(sha, block, c2, depth + 1, [], 0);
      }
    }
  }

  lemma WalkStuck(sha: Sha, block: Block, c: Cursor, depth: nat)
    requires c.hashIdx == SIZE_MAX && |block.hashes| < SIZE_MAX && depth <= CeilLog2(block.totalTx)
    ensures RootWalk(sha, block, c, depth) == (ZERO, c)
  {
  }

  lemma NonzeroAt(sha: Sha, leaves: seq<Node>, h: nat, i: nat)
    requires Nonzero(sha, leaves) && h <= CeilLog2(|leaves|) && i < |Row(sha, leaves, h)|
    ensures Row(sha, leaves, h)[i].hash != ZERO
  {
  }

  // A matched leaf has found itself, any other leaf nothing.
  ghost predicate PlainLeaves(leaves: seq<Node>) {
    forall i :: 0 <= i < |leaves| ==> leaves[i].found == [] || leaves[i].found == [leaves[i].hash]
  }

  lemma TxTip(sha: Sha, leaves: seq<Node>, block: Block, c: Cursor, h: nat, pos: nat,
              out: seq<UInt256>, room: nat)
    requires pos < |Row(sha, leaves, h)| && h <= CeilLog2(block.totalTx) && PlainLeaves(leaves)
    requires h == 0 || Row(sha, leaves, h)[pos].found == []
    requires Reads(block, c, Encode(sha, leaves, h, pos))
    requires |out| + |Row(sha, leaves, h)[pos].found| <= room
    ensures TxWalk(block, out, room, c, CeilLog2(block.totalTx) - h)
         == (out + Row(sha, leaves, h)[pos].found, After(c, Encode(sha, leaves, h, pos)))
  {
    assert h == 0 ==> leaves[pos].found == [] || leaves[pos].found == [leaves[pos].hash];
    hide CeilLog2, Reads, FlagAt, Encode, RootWalk, TxWalk, More, After, PlainLeaves;
    EncodeTip(sha, leaves, block, c, h, pos);
    WalkTip(sha, block, c, CeilLog2(block.totalTx) - h, out, room);
    assert out + [] == out;
  }

  // The right child, or its absence, completes what the left child collected.
  lemma TxRight(sha: Sha, leaves: seq<Node>, h: nat, pos: nat, out: seq<UInt256>)
    requires h > 0 && pos < |Row(sha, leaves, h)|
    ensures var below := Row(sha, leaves, h - 1);
      && 2 * pos < |below|
      && out + Row(sha, leaves, h)[pos].found ==
           if 2 * pos + 1 < |below| then out + below[2 * pos].found + below[2 * pos + 1].found
           else out + below[2 * pos].found
  {
    Children(sha, leaves, h, pos);
  }

  lemma {:induction false} TxDecodes(sha: Sha, leaves: seq<Node>, block: Block, c: Cursor, h: nat, pos: nat,
                                     out: seq<UInt256>, room: nat)
    requires pos < |Row(sha, leaves, h)| && h <= CeilLog2(block.totalTx) && PlainLeaves(leaves)
    requires Reads(block, c, Encode(sha, leaves, h, pos)) && AtEdge(sha, leaves, block, c, h, pos)
    requires |out + Row(sha, leaves, h)[pos].found| <= room
    ensures TxWalk(block, out, room, c, CeilLog2(block.totalTx) - h)
         == (out + Row(sha, leaves, h)[pos].found, After(c, Encode(sha, leaves, h, pos)))
    decreases h
  {
    hide CeilLog2, Reads, AtEdge, FlagAt, Encode, Row, RootWalk, TxWalk, More, After, PlainLeaves;
    if h == 0 || Row(sha, leaves, h)[pos].found == [] {
      TxTip(sha, leaves, block, c, h, pos, out, room);
    } else {
      var depth := CeilLog2(block.totalTx) - h;
      EncodeParent(sha, leaves, block, c, h, pos);
      TxRight(sha, leaves, h, pos, out);
      var below, c1 := Row(sha, leaves, h - 1), c.(flagIdx := c.flagIdx + 1);
      var c2 := After(c1, Encode(sha, leaves, h - 1, 2 * pos));
      var out2 := out + below[2 * pos].found;
      TxDecodes(sha, leaves, block, c1, h - 1, 2 * pos, out, room);
      WalkParent(sha, block, c, depth, out, room);
      if 2 * pos + 1 < |below| {
        TxDecodes(sha, leaves, block, c2, h - 1, 2 * pos + 1, out2, room);
      } else {
        WalkMissing(sha, block, c2, depth + 1, out2, room);
      }
    }
  }

  // ---- the tree has the expected root, and its root node holds all matches ----

  lemma {:induction false} RowLength(sha: Sha, leaves: seq<Node>, h: nat, k: nat)
    ensures |Row(sha, leaves, h)| <= Pow(2, k) <==> |leaves| <= Pow(2, h + k)
  {
    if h > 0 {
      assert Pow(2, k + 1) == 2 * Pow(2, k);
      NextRowLength(sha, Row(sha, leaves, h - 1));
      RowLength(sha, leaves, h - 1, k + 1);
      assert h - 1 + (k + 1) == h + k;
    }
  }

  lemma {:induction false} RowNonempty(sha: Sha, leaves: seq<Node>, h: nat)
    requires leaves != []
    ensures Row(sha, leaves, h) != []
  {
    if h > 0 {
      NextRowLength(sha, Row(sha, leaves, h - 1));
      RowNonempty(sha, leaves, h - 1);
    }
  }

  lemma RowHeight(sha: Sha, leaves: seq<Node>, h: nat)
    requires leaves != [] && h <= CeilLog2(|leaves|)
    ensures Row(sha, leaves, h) != []
    ensures |Row(sha, leaves, h)| == 1 <==> h == CeilLog2(|leaves|)
  {
    assert Pow(2, 0) == 1;
    hide Row, Pow, CeilLog2;
    RowNonempty(sha, leaves, h);
    RowLength(sha, leaves, h, 0);
    CeilLog2Bounds(|leaves|);
    if h < CeilLog2(|leaves|) {
      PowMonotonic(2, h, CeilLog2(|leaves|) - 1);
    }
  }

  lemma {:induction false} RootOfRow(sha: Sha, leaves: seq<Node>, h: nat)
    requires leaves != [] && h <= CeilLog2(|leaves|)
    ensures Row(sha, leaves, h) != [] && MerkleRoot(sha, Row(sha, leaves, h)) == MerkleRoot(sha, leaves)
  {
    RowHeight(sha, leaves, h);
    if h > 0 {
      RowHeight(sha, leaves, h - 1);
      RootOfRow(sha, leaves, h - 1);
    }
  }

  function Flatten(row: seq<Node>): seq<UInt256> {
    if row == [] then [] else row[0].found + Flatten(row[1..])
  }

  lemma {:induction false} FlattenNext(sha: Sha, row: seq<Node>)
    ensures Flatten(NextRow(sha, row)) == Flatten(row)
  {
    if |row| >= 2 {
      var rest := row[2..];
      assert NextRow(sha, row)[1..] == NextRow(sha, rest);
      FlattenNext(sha, rest);
      assert row[1..][1..] == rest;
      assert Flatten(row) == row[0].found + (row[1].found + Flatten(rest));
    } else if |row| == 1 {
      assert NextRow(sha, row)[1..] == [] && row[1..] == [];
    }
  }

  lemma {:induction false} FlattenRow(sha: Sha, leaves: seq<Node>, h: nat)
    ensures Flatten(Row(sha, leaves, h)) == Flatten(leaves)
  {
    if h > 0 {
      FlattenNext(sha, Row(sha, leaves, h - 1));
      FlattenRow(sha, leaves, h - 1);
    }
  }

  lemma {:induction false} FlattenLeaves(hashes: seq<UInt256>, matched: seq<bool>)
    requires |hashes| == |matched|
    ensures Flatten(Leaves(hashes, matched)) == Filter(hashes, matched)
  {
    if hashes != [] {
      assert Leaves(hashes, matched)[1..] == Leaves(hashes[1..], matched[1..]);
      FlattenLeaves(hashes[1..], matched[1..]);
    }
  }

  lemma RootNode(sha: Sha, hashes: seq<UInt256>, matched: seq<bool>)
    requires |hashes| == |matched| > 0
    ensures var leaves := Leaves(hashes, matched);
      && |Row(sha, leaves, CeilLog2(|hashes|))| == 1
      && Row(sha, leaves, CeilLog2(|hashes|))[0] == Node(MerkleRoot(sha, leaves), Filter(hashes, matched))
  {
    var leaves, h := Leaves(hashes, matched), CeilLog2(|hashes|);
    RowHeight(sha, leaves, h);
    RootOfRow(sha, leaves, h);
    FlattenRow(sha, leaves, h);
    FlattenLeaves(hashes, matched);
    var top := Row(sha, leaves, h);
    assert top[1..] == [] && Flatten(top[1..]) == [] && Flatten(top) == top[0].found;
  }

  // A block that encodes the given transactions and matches: its hashes are those of the encoding, and its flag
  // bytes hold the bits of the encoding, eight each from the lowest to the highest, before any others.
  ghost predicate Encodes(sha: Sha, block: Block, hashes: seq<UInt256>, matched: seq<bool>)
    requires |hashes| == |matched| > 0
  {
    var leaves, h := Leaves(hashes, matched), CeilLog2(|hashes|);
    && block.totalTx == |hashes|
    && |Row(sha, leaves, h)| == 1
    && block.hashes == Encode(sha, leaves, h, 0).hashes
    && exists bits :: Packs(block.flags, bits) && At(bits, 0, Encode(sha, leaves, h, 0).flags)
  }

  lemma EncodedFromStart(sha: Sha, block: Block, hashes: seq<UInt256>, matched: seq<bool>)
    requires |hashes| == |matched| > 0 && Encodes(sha, block, hashes, matched)
    ensures block.totalTx == |hashes| == |Leaves(hashes, matched)| && PlainLeaves(Leaves(hashes, matched))
    ensures var leaves, h, c := Leaves(hashes, matched), CeilLog2(|hashes|), Cursor(0, 0);
      && |Row(sha, leaves, h)| == 1 && AtEdge(sha, leaves, block, c, h, 0)
      && Reads(block, c, Encode(sha, leaves, h, 0))
      && After(c, Encode(sha, leaves, h, 0)).hashIdx == |block.hashes|
  {
    hide Row, Encode, CeilLog2, FlagBits, Packs;
    forall bits | Packs(block.flags, bits) ensures bits == FlagBits(block) {
      PackedFlags(block, bits);
    }
    var e := Encode(sha, Leaves(hashes, matched), CeilLog2(|hashes|), 0);
    assert block.hashes[0..0 + |e.hashes|] == e.hashes;
  }

  // Both walks over such a block recover what it encodes. The root walk uses up the hashes exactly when no node
  // it explores has equal children, and then returns the Merkle root.
  lemma BlockDecodes(sha: Sha, block: Block, hashes: seq<UInt256>, matched: seq<bool>, room: nat)
    requires |hashes| == |matched| > 0 && Encodes(sha, block, hashes, matched)
    requires |Filter(hashes, matched)| <= room && |block.hashes| < SIZE_MAX
    ensures TxWalk(block, [], room, Cursor(0, 0), 0).0 == Filter(hashes, matched)
    ensures TxWalk(block, [], room, Cursor(0, 0), 0).1.hashIdx == |block.hashes|
    ensures Nonzero(sha, Leaves(hashes, matched)) ==>
      var (root, c) := RootWalk(sha, block, Cursor(0, 0), 0);
      && (c.hashIdx == |block.hashes| <==>
            DistinctBelow(sha, Leaves(hashes, matched), CeilLog2(|hashes|), 0))
      && (c.hashIdx == |block.hashes| ==> root == MerkleRoot(sha, Leaves(hashes, matched)))
  {
    hide *;
    var leaves, h, c := Leaves(hashes, matched), CeilLog2(|hashes|), Cursor(0, 0);
    RootNode(sha, hashes, matched);
    EncodedFromStart(sha, block, hashes, matched);
    assert [] + Filter(hashes, matched) == Filter(hashes, matched);
    TxDecodes(sha, leaves, block, c, h, 0, [], room);
    if Nonzero(sha, leaves) {
      RootDecodes(sha, leaves, block, c, h, 0);
    }
  }
}
