/** The difficulty target rule: the 64-bit short cut in compact form against full-width arithmetic. */
module Difficulty {
  import opened Powers

  const MAX_PROOF_OF_WORK: nat := 0x1d00ffff
  const TARGET_TIMESPAN: nat := 14 * 24 * 60 * 60
  const BLOCK_DIFFICULTY_INTERVAL: nat := 2016
  const MAX_SIZE := MAX_PROOF_OF_WORK / 0x100_0000
  const MAX_MANTISSA := MAX_PROOF_OF_WORK % 0x100_0000

  type UInt32 = n: nat | n < 0x1_0000_0000
  type Hash = n: nat | n < 0x1_00000000_00000000_00000000_00000000_00000000_00000000_00000000_00000000

  datatype Header = Header(blockHash: Hash, prevBlock: Hash, timestamp: UInt32, target: UInt32, height: UInt32)

  // The compact format: a size in bytes, a sign bit, and the 23 leading bits of a number of that size.
  datatype Compact = Compact(size: nat, mantissa: nat) {
    function Word(): nat {
      mantissa + size * 0x100_0000
    }
  }

  function FromWord(w: UInt32): Compact {
    Compact(w / 0x100_0000, w % 0x100_0000)
  }

  // ---- the rule in full width ----

  function Bytes(n: nat): nat {
    if n == 0 then 0 else 1 + Bytes(n / 256)
  }

  // The number a compact target of at least three bytes stands for.
  function Expand(c: Compact): nat
    requires c.size >= 3
  {
    c.mantissa * Pow(256, c.size - 3)
  }

  // Drops k bytes.
  function ShiftRight(n: nat, k: nat): nat {
    PowPositive(256, k);
    n / Pow(256, k)
  }

  // The compact form of a number: its three leading bytes, or two when the third would set the sign bit.
  function ToCompact(n: nat): Compact {
    var size := Bytes(n);
    var leading := if size <= 3 then n * Pow(256, 3 - size) else ShiftRight(n, size - 3);
    if leading > 0x7f_ffff then Compact(size + 1, leading / 256) else Compact(size, leading)
  }

  function Clamp(timespan: int): nat {
    if timespan < TARGET_TIMESPAN / 4 then TARGET_TIMESPAN / 4
    else if timespan > TARGET_TIMESPAN * 4 then TARGET_TIMESPAN * 4
    else timespan
  }

  // The next target: the previous one times the time the last interval took over the time it should take, and
  // no easier than the limit.
  function Retarget(target: nat, timespan: int): nat {
    var next := target * Clamp(timespan) / TARGET_TIMESPAN;
    var limit := Expand(Compact(MAX_SIZE, MAX_MANTISSA));
    if next > limit then limit else next
  }

  // A compact target as blocks carry it: positive, in range and with no leading byte to spare.
  predicate InRange(c: Compact) {
    && 4 <= c.size <= MAX_SIZE && 0x8000 <= c.mantissa <= 0x7f_ffff
    && (c.size == MAX_SIZE ==> c.mantissa <= MAX_MANTISSA)
  }

  // ---- the short cut ----

  // The conversion of a 64-bit number to a 32-bit int.
  function ToInt32(n: int): int {
    (n + 0x8000_0000) % 0x1_0000_0000 - 0x8000_0000
  }

  // Shifts whole bytes out of target until it fits the compact format.
  function Normalize(size: int, target: nat): Compact
    decreases if size < 1 then 1 - size else 0, target
  {
    if size < 1 || target > 0x7f_ffff then Normalize(size + 1, target / 256) else Compact(size, target)
  }

  function Cap(c: Compact): Compact {
    if c.size > MAX_SIZE || (c.size == MAX_SIZE && c.mantissa > MAX_MANTISSA)
    then Compact(MAX_SIZE, MAX_MANTISSA) else c
  }

  // The mantissa times the timespan, over the time the interval should take without its last byte.
  function Scaled(mantissa: nat, timespan: nat): nat { mantissa * timespan / (TARGET_TIMESPAN / 256) }

  function ShortCut(previous: Compact, timespan: int): Compact {
    Cap(Normalize(previous.size - 1, Scaled(previous.mantissa, Clamp(timespan))))
  }

  // The product fits 64 bits.
  method MulDiv(mantissa: nat, timespan: nat) returns (target: nat)
    requires mantissa < 0x100_0000 && timespan <= TARGET_TIMESPAN * 4
    ensures target == Scaled(mantissa, timespan)
  {
    NoOverflow(mantissa, timespan);
    target := mantissa * timespan;
    target := target / (TARGET_TIMESPAN / 256);
  }

  method NextTarget(previousTarget: UInt32, measured: int) returns (c: Compact)
    ensures c == ShortCut(FromWord(previousTarget), measured)
  {
    var timespan, size: int := measured, previousTarget / 0x100_0000;
    var target: nat := previousTarget % 0x100_0000;
    if timespan < TARGET_TIMESPAN / 4 { timespan := TARGET_TIMESPAN / 4; }
    if timespan > TARGET_TIMESPAN * 4 { timespan := TARGET_TIMESPAN * 4; }
    assert timespan == Clamp(measured);
    target := MulDiv(target, timespan);
    hide Scaled, Clamp;
    size := size - 1;
    ghost var normal := Normalize(size, target);
    while size < 1 || target > 0x7f_ffff
      invariant Normalize(size, target) == normal
      decreases if size < 1 then 1 - size else 0, target
    {
      target := target / 256;
      size := size + 1;
    }
    if size > MAX_SIZE || (size == MAX_SIZE && target > MAX_MANTISSA) {
      target, size := MAX_MANTISSA, MAX_SIZE;
    }
    c := Compact(size, target);
  }

  // A block follows the previous one and carries its target, or at a transition with a known time that of the short cut.
  predicate IsAccepted(block: Header, previous: Header, transitionTime: UInt32) {
    && block.prevBlock == previous.blockHash
    && block.height == (previous.height + 1) % 0x1_0000_0000
    && (if block.height % BLOCK_DIFFICULTY_INTERVAL == 0 then
          && transitionTime != 0
          && block.target == ShortCut(FromWord(previous.target), ToInt32(previous.timestamp - transitionTime)).Word()
        else block.target == previous.target)
  }

  method VerifyDifficulty(block: Header, previous: Header, transitionTime: UInt32) returns (r: bool)
    ensures r <==> IsAccepted(block, previous, transitionTime)
  {
    r := true;
    if previous.blockHash != block.prevBlock || block.height != (previous.height + 1) % 0x1_0000_0000 {
      r := false;
    }
    if r && block.height % BLOCK_DIFFICULTY_INTERVAL == 0 && transitionTime == 0 { r := false; }
    if r && block.height % BLOCK_DIFFICULTY_INTERVAL == 0 {
      var c := NextTarget(previous.target, ToInt32(previous.timestamp - transitionTime));
      if block.target != c.mantissa + c.size * 0x100_0000 { r := false; }
    } else if r && block.target != previous.target {
      r := false;
    }
  }

  // The product fits 64 bits.
  lemma NoOverflow(mantissa: nat, timespan: nat)
    requires mantissa < 0x100_0000 && timespan <= TARGET_TIMESPAN * 4
    ensures mantissa * timespan < 0x1_0000_0000_0000_0000
  {
    MulMonotonic(mantissa, 0x100_0000, timespan, TARGET_TIMESPAN * 4);
  }

  // ---- the short cut computes the rule ----

  lemma {:induction false} BytesOf(n: nat, k: nat)
    requires Pow(256, k) <= n < Pow(256, k + 1)
    ensures Bytes(n) == k + 1
  {
    if k == 0 {
      assert Pow(256, 0) == 1 && Pow(256, 1) == 256 && Bytes(0) == 0;
    } else {
      BytesOf(n / 256, k - 1);
    }
  }

  lemma DivExact(n: nat, p: nat, q: nat)
    requires p > 0 && q * p <= n < (q + 1) * p
    ensures n / p == q
  {
    var d := n / p;
    assert n == d * p + n % p;
    if d < q { MulMonotonic(d + 1, q, p, p); }
    if d > q { MulMonotonic(q + 1, d, p, p); }
  }

  // The numbers whose leading bytes are the mantissa.
  ghost predicate Leads(c: Compact, n: nat) {
    c.size >= 3 && c.mantissa * Pow(256, c.size - 3) <= n < (c.mantissa + 1) * Pow(256, c.size - 3)
  }

  // A mantissa without a leading byte to spare determines the compact form.
  lemma CompactUnique(n: nat, c: Compact)
    requires Leads(c, n) && 0x8000 <= c.mantissa <= 0x7f_ffff && (c.size == 3 ==> c.mantissa >= 0x1_0000)
    ensures ToCompact(n) == c
  {
    var size, mantissa := c.size, c.mantissa;
    var p := Pow(256, size - 3);
    assert Pow(256, 2) == 0x1_0000 && Pow(256, 3) == 0x100_0000 by { assert Pow(256, 1) == 256; }
    PowAdd(256, 2, size - 3);
    PowAdd(256, 3, size - 3);
    if mantissa >= 0x1_0000 {
      MulMonotonic(0x1_0000, mantissa, p, p);
      MulMonotonic(mantissa + 1, 0x100_0000, p, p);
      BytesOf(n, size - 1);
      if size == 3 {
        assert Pow(256, 0) == 1;
      } else {
        PowPositive(256, size - 3);
        DivExact(n, p, mantissa);
      }
    } else {
      CompactUniqueShort(n, c);
    }
  }

  lemma CompactUniqueShort(n: nat, c: Compact)
    requires Leads(c, n) && 0x8000 <= c.mantissa < 0x1_0000 && c.size >= 4
    ensures ToCompact(n) == c
  {
    var size, mantissa := c.size, c.mantissa;
    var p, p1 := Pow(256, size - 3), Pow(256, size - 4);
    PowPositive(256, size - 4);
    assert p == 256 * p1;
    assert Pow(256, 2) == 0x1_0000 by { assert Pow(256, 1) == 256; }
    PowAdd(256, 2, size - 3);
    PowAdd(256, 2, size - 4);
    MulMonotonic(0x8000, mantissa, p, p);
    MulMonotonic(mantissa + 1, 0x1_0000, p, p);
    BytesOf(n, size - 2);
    Leading(n, p1, mantissa);
    if size == 4 {
      assert Pow(256, 0) == 1;
    }
  }

  lemma Leading(n: nat, p1: nat, mantissa: nat)
    requires p1 > 0 && mantissa >= 0x8000 && mantissa * (256 * p1) <= n < (mantissa + 1) * (256 * p1)
    ensures n / p1 > 0x7f_ffff && n / p1 / 256 == mantissa
  {
    var leading := n / p1;
    assert n == leading * p1 + n % p1;
    assert mantissa * (256 * p1) == (mantissa * 256) * p1;
    assert (mantissa + 1) * (256 * p1) == (mantissa * 256 + 256) * p1;
    if leading < mantissa * 256 { MulMonotonic(leading + 1, mantissa * 256, p1, p1); }
    if leading >= mantissa * 256 + 256 { MulMonotonic(mantissa * 256 + 256, leading, p1, p1); }
  }

  lemma DivideTwice(n: nat, x: nat, p: nat, q: nat)
    requires n == 256 * (x * p) && q == x / 4725 && p > 0
    ensures q * p <= n / (256 * 4725) < (q + 1) * p
  {
    assert n / (256 * 4725) == x * p / 4725;
    MulMonotonic(q * 4725, x, p, p);
    MulStrict(x, (q + 1) * 4725, p);
    assert (q * 4725) * p == 4725 * (q * p) && ((q + 1) * 4725) * p == 4725 * ((q + 1) * p);
  }

  // Dividing the mantissa by the rest of the timespan leads the fully divided number.
  lemma DivideLeads(c: Compact, ts: nat)
    requires c.size >= 4
    ensures Leads(Compact(c.size - 1, Scaled(c.mantissa, ts)), Expand(c) * ts / TARGET_TIMESPAN)
  {
    var p, x := Pow(256, c.size - 4), c.mantissa * ts;
    assert Pow(256, c.size - 3) == 256 * p;
    PowPositive(256, c.size - 4);
    hide Pow;
    assert c.mantissa * (256 * p) * ts == 256 * (x * p);
    DivideTwice(Expand(c) * ts, x, p, x / 4725);
  }

  lemma QuotientLarge(m: nat, ts: nat)
    requires m >= 0x8000 && ts >= 302400
    ensures Scaled(m, ts) >= 0x1_0000
  {
    MulMonotonic(0x8000, m, 302400, ts);
  }

  lemma LeadsExpand(c: Compact)
    requires c.size >= 3
    ensures Leads(c, Expand(c))
  {
    PowPositive(256, c.size - 3);
    MulStrict(c.mantissa, c.mantissa + 1, Pow(256, c.size - 3));
  }

  lemma {:induction false} NormalizeLeads(size: nat, target: nat, n: nat)
    requires size >= 3 && target >= 0x8000 && Leads(Compact(size, target), n)
    ensures var c := Normalize(size, target);
      && Leads(c, n) && 0x8000 <= c.mantissa <= 0x7f_ffff && c.size >= size
      && (c.size == size ==> c.mantissa == target)
    decreases target
  {
    if target > 0x7f_ffff {
      ShiftLeads(size, target, n);
      hide Pow, Leads;
      NormalizeLeads(size + 1, target / 256, n);
    }
  }

  lemma ShiftLeads(size: nat, target: nat, n: nat)
    requires size >= 3 && Leads(Compact(size, target), n)
    ensures Leads(Compact(size + 1, target / 256), n)
  {
    var p, q := Pow(256, size - 3), target / 256;
    assert Pow(256, size - 2) == 256 * p;
    hide Pow;
    MulMonotonic(q * 256, target, p, p);
    MulMonotonic(target + 1, (q + 1) * 256, p, p);
    assert (q * 256) * p == q * (256 * p) && ((q + 1) * 256) * p == (q + 1) * (256 * p);
  }

  // Comparing leading bytes with the limit decides as comparing the numbers does, up to what truncation hides.
  lemma CapLeads(c: Compact, n: nat)
    requires Leads(c, n) && 0x8000 <= c.mantissa <= 0x7f_ffff
    ensures var limit := Expand(Compact(MAX_SIZE, MAX_MANTISSA));
      if n > limit then Cap(c) == Compact(MAX_SIZE, MAX_MANTISSA) else Cap(c) == c
  {
    var unit := Pow(256, 26);
    assert MAX_SIZE == 29 && MAX_MANTISSA == 0xffff;
    PowPositive(256, 26);
    if c.size > 29 {
      PowAdd(256, c.size - 29, 26);
      PowMonotonic(256, 1, c.size - 29);
      assert Pow(256, 1) == 256;
      MulMonotonic(256, Pow(256, c.size - 29), unit, unit);
      MulMonotonic(0x8000, c.mantissa, 256 * unit, Pow(256, c.size - 3));
    } else if c.size < 29 {
      PowMonotonic(256, c.size - 3, 25);
      assert unit == 256 * Pow(256, 25);
      MulMonotonic(c.mantissa + 1, 0x80_0000, Pow(256, c.size - 3), Pow(256, 25));
    } else if c.mantissa > 0xffff {
      MulMonotonic(0x1_0000, c.mantissa, unit, unit);
    } else if c.mantissa < 0xffff {
      MulMonotonic(c.mantissa + 1, 0xffff, unit, unit);
    }
  }

  // The limit itself is a number in compact form.
  lemma LimitCompact()
    ensures ToCompact(Expand(Compact(MAX_SIZE, MAX_MANTISSA))) == Compact(MAX_SIZE, MAX_MANTISSA)
  {
    hide Pow, ToCompact, Expand, Leads;
    var c := Compact(29, 0xffff);
    assert MAX_SIZE == 29 && MAX_MANTISSA == 0xffff;
    LeadsExpand(c);
    CompactUnique(Expand(c), c);
  }

  // The truncating 64-bit computation loses nothing.
  lemma ShortCutIsRetarget(previous: Compact, timespan: int)
    requires InRange(previous)
    ensures ShortCut(previous, timespan) == ToCompact(Retarget(Expand(previous), timespan))
  {
    hide Pow, Normalize, ToCompact, Cap, Leads, Expand, Clamp, Scaled;
    var ts := Clamp(timespan);
    ClampBounds(timespan);
    var q, next := Scaled(previous.mantissa, ts), Expand(previous) * ts / TARGET_TIMESPAN;
    DivideLeads(previous, ts);
    QuotientLarge(previous.mantissa, ts);
    NormalizeLeads(previous.size - 1, q, next);
    var c := Normalize(previous.size - 1, q);
    CompactUnique(next, c);
    CapLeads(c, next);
    LimitCompact();
  }

  lemma ClampBounds(timespan: int)
    ensures 302400 <= Clamp(timespan) <= 4838400
  {
  }

  // The time between the blocks reaches the rule through a conversion to a 32-bit int: the difference fits, or wraps
  // around to one that is below the lower limit as well.
  predicate Survives(d: int) {
    -0x8000_0000 <= d < 0x8000_0000 || d <= TARGET_TIMESPAN / 4 - 0x1_0000_0000
  }

  lemma TimespanFits(previousTime: UInt32, transitionTime: UInt32)
    ensures var d := previousTime - transitionTime; Clamp(ToInt32(d)) == Clamp(d) <==> Survives(d)
  {
  }

  // The short cut computes the rule for every previous target exactly for these differences.
  lemma RuleIff(previousTime: UInt32, transitionTime: UInt32)
    ensures var d := previousTime - transitionTime;
      (forall previous :: InRange(previous) ==>
         ShortCut(previous, ToInt32(d)) == ToCompact(Retarget(Expand(previous), d))) <==> Survives(d)
  {
    hide ShortCut, ToCompact, Retarget, Expand;
    var d := previousTime - transitionTime;
    TimespanFits(previousTime, transitionTime);
    if Survives(d) {
      forall previous | InRange(previous)
        ensures ShortCut(previous, ToInt32(d)) == ToCompact(Retarget(Expand(previous), d))
      {
        ShortCutIsRetarget(previous, d);
        SameClamp(previous, ToInt32(d), d);
      }
    } else {
      var previous := Compact(4, 0x8000);
      assert InRange(previous);
      ShortCutIsRetarget(previous, d);
      Separated(ToInt32(d));
      Separated(d);
      SameClamp(previous, d, Clamp(d));
    }
  }

  lemma SameClamp(previous: Compact, d: int, d': int)
    requires Clamp(d) == Clamp(d')
    ensures ShortCut(previous, d) == ShortCut(previous, d')
  {
  }

  // A target with the smallest mantissa tells the shortest timespan from all others.
  lemma Separated(d: int)
    ensures ShortCut(Compact(4, 0x8000), d) == Compact(3, 0x20_0000) <==> Clamp(d) == 302400
  {
    var q := 0x8000 * Clamp(d) / 4725;
    assert Clamp(d) > 302400 ==> q >= 0x20_0006;
    if q > 0x7f_ffff {
      NormalizeStep(3, q);
      assert q / 256 <= 0x7f_ffff;
    }
  }

  // A difference that does not fit makes the rule divide the target by four instead of multiplying it.
  lemma TimespanWraps()
    ensures var previous := FromWord(0x1b04_04cb);
      InRange(previous) &&
      ShortCut(previous, ToInt32(0x8000_0001 - 1)) != ToCompact(Retarget(Expand(previous), 0x8000_0001 - 1))
  {
    var previous := FromWord(0x1b04_04cb);
    ShortCutIsRetarget(previous, 0x8000_0000);
    hide Pow, ToCompact, Retarget, Expand;
    assert ToInt32(0x8000_0000) == -0x8000_0000;
    assert Clamp(0x8000_0000) == 4838400 && Clamp(-0x8000_0000) == 302400;
    assert TARGET_TIMESPAN / 256 == 4725;
    var high, low := 0x404cb * 4838400 / 4725, 0x404cb * 302400 / 4725;
    assert high == 269691904 && low == 16855744;
    NormalizeStep(26, low);
    NormalizeStep(26, high);
  }

  lemma NormalizeStep(size: int, target: nat)
    requires size >= 1 && target > 0x7f_ffff
    ensures Normalize(size, target) == Normalize(size + 1, target / 256)
  {
  }

  // For such a difference, the next block at a transition is accepted exactly with the target the rule gives.
  lemma TransitionRule(block: Header, previous: Header, transitionTime: UInt32)
    requires InRange(FromWord(previous.target)) && Survives(previous.timestamp - transitionTime)
    requires block.height % BLOCK_DIFFICULTY_INTERVAL == 0 && transitionTime != 0
    requires block.prevBlock == previous.blockHash && block.height == (previous.height + 1) % 0x1_0000_0000
    ensures IsAccepted(block, previous, transitionTime) <==>
      block.target == ToCompact(Retarget(Expand(FromWord(previous.target)), previous.timestamp - transitionTime)).Word()
  {
    hide ShortCut, ToCompact, Retarget, Expand;
    RuleIff(previous.timestamp, transitionTime);
  }

  // ---- chains of accepted blocks ----

  // Every block but the first one is accepted behind the one before it, with some time of the last transition.
  ghost predicate IsChain(blocks: seq<Header>, times: seq<UInt32>) {
    |times| == |blocks| && forall i :: 0 < i < |blocks| ==> IsAccepted(blocks[i], blocks[i - 1], times[i])
  }

  // Blocks of a chain are linked by their hashes and numbered, and the target only changes at multiples of 2016.
  lemma {:induction false} ChainKeeps(blocks: seq<Header>, times: seq<UInt32>, i: nat, j: nat)
    requires IsChain(blocks, times) && i <= j < |blocks|
    ensures i < j ==> blocks[j].prevBlock == blocks[j - 1].blockHash
    ensures blocks[i].height + (j - i) < 0x1_0000_0000 ==> blocks[j].height == blocks[i].height + (j - i)
    ensures (forall k :: i < k <= j ==> blocks[k].height % 2016 != 0) ==> blocks[j].target == blocks[i].target
  {
    hide ShortCut;
    if i < j {
      ChainKeeps(blocks, times, i, j - 1);
      assert IsAccepted(blocks[j], blocks[j - 1], times[j]);
    }
  }

  // At such a multiple it becomes the previous one times the time of the interval over two weeks, both within a factor
  // of four, in compact form and at most the limit.
  lemma ChainTurns(blocks: seq<Header>, times: seq<UInt32>, j: nat)
    requires IsChain(blocks, times) && 0 < j < |blocks| && blocks[j].height % 2016 == 0
    requires InRange(FromWord(blocks[j - 1].target)) && Survives(blocks[j - 1].timestamp - times[j])
    ensures var d := blocks[j - 1].timestamp - times[j];
      var span := if d < 302400 then 302400 else if d > 4838400 then 4838400 else d;
      var next := Expand(FromWord(blocks[j - 1].target)) * span / 1209600;
      blocks[j].target == ToCompact(if next > LIMIT then LIMIT else next).Word()
  {
    hide *;
    AcceptedIn(blocks, times, j);
    TransitionRule(blocks[j], blocks[j - 1], times[j]);
    RangeSize(FromWord(blocks[j - 1].target));
    RetargetIs(Expand(FromWord(blocks[j - 1].target)), blocks[j - 1].timestamp - times[j]);
  }

  lemma AcceptedIn(blocks: seq<Header>, times: seq<UInt32>, j: nat)
    requires IsChain(blocks, times) && 0 < j < |blocks|
    ensures |times| == |blocks| && IsAccepted(blocks[j], blocks[j - 1], times[j])
    ensures blocks[j].prevBlock == blocks[j - 1].blockHash && blocks[j].height == (blocks[j - 1].height + 1) % 0x1_0000_0000
    ensures BLOCK_DIFFICULTY_INTERVAL == 2016 && (blocks[j].height % 2016 == 0 ==> times[j] != 0)
  {
    hide ShortCut;
  }

  // The easiest target: two bytes of ones and 26 of zeros behind them.
  const LIMIT: nat := 0xffff_0000_0000_0000_0000_0000_0000_0000_0000_0000_0000_0000_0000_0000

  lemma LimitIs()
    ensures Expand(Compact(0x1d, 0xffff)) == LIMIT
  {
    hide Pow;
    assert Pow(256, 26) == 0x1_0000_0000_0000_0000_0000_0000_0000_0000_0000_0000_0000_0000_0000 by {
      PowAdd(256, 1, 1);
      PowAdd(256, 2, 4);
      PowAdd(256, 2, 2);
      PowAdd(256, 4, 4);
      PowAdd(256, 8, 8);
      PowAdd(256, 16, 8);
      PowAdd(256, 24, 2);
      PowOf1();
    }
  }

  lemma PowOf1()
    ensures Pow(256, 1) == 256
  {
    assert Pow(256, 0) == 1;
  }

  lemma RangeSize(c: Compact)
    requires InRange(c)
    ensures c.size >= 3
  {
  }

  lemma RetargetIs(target: nat, d: int)
    ensures var span := if d < 302400 then 302400 else if d > 4838400 then 4838400 else d;
      var next := target * span / 1209600;
      Retarget(target, d) == if next > LIMIT then LIMIT else next
  {
    LimitIs();
    hide Pow, Expand;
    assert TARGET_TIMESPAN == 1209600 && MAX_SIZE == 0x1d && MAX_MANTISSA == 0xffff;
  }

  // The target of the block at height 32256 of the main chain, from the times of 30240 and 32255; and three that meet the
  // bounds of the rule: the limit, a quarter and four times.
  lemma TargetOf32256()
    ensures ShortCut(FromWord(0x1d00ffff), 1262152739 - 1261130161).Word() == 0x1d00d86a
  {
    assert FromWord(0x1d00ffff) == Compact(0x1d, 0xffff) && Clamp(1262152739 - 1261130161) == 1022578;
    ScaledIs(0xffff, 1022578, 14182994);
    assert Normalize(0x1c, 14182994) == Compact(0x1d, 0xd86a);
    hide Scaled, Clamp, Normalize;
  }

  lemma LimitKept()
    ensures ShortCut(FromWord(0x1d00ffff), 1233061996 - 1231006505).Word() == 0x1d00ffff
  {
    assert FromWord(0x1d00ffff) == Compact(0x1d, 0xffff) && Clamp(1233061996 - 1231006505) == 2055491;
    ScaledIs(0xffff, 2055491, 28509333);
    assert Normalize(0x1c, 28509333) == Compact(0x1d, 0x1b304);
    hide Scaled, Clamp, Normalize;
  }

  lemma QuarterKept()
    ensures ShortCut(FromWord(0x1c05a3f4), 1279297671 - 1279008237).Word() == 0x1c0168fd
  {
    assert FromWord(0x1c05a3f4) == Compact(0x1c, 0x5a3f4) && Clamp(1279297671 - 1279008237) == 302400;
    ScaledIs(0x5a3f4, 302400, 23657728);
    assert Normalize(0x1b, 23657728) == Compact(0x1c, 0x168fd);
    hide Scaled, Clamp, Normalize;
  }

  lemma FourTimesKept()
    ensures ShortCut(FromWord(0x1c387f6f), 1269211443 - 1263163443).Word() == 0x1d00e1fd
  {
    assert FromWord(0x1c387f6f) == Compact(0x1c, 0x387f6f) && Clamp(1269211443 - 1263163443) == 4838400;
    ScaledIs(0x387f6f, 4838400, 3791502336);
    assert Normalize(0x1b, 3791502336) == Compact(0x1d, 0xe1fd);
    hide Scaled, Clamp, Normalize;
  }

  lemma ScaledIs(mantissa: nat, timespan: nat, scaled: nat)
    requires scaled * 4725 <= mantissa * timespan < (scaled + 1) * 4725
    ensures Scaled(mantissa, timespan) == scaled
  {
    assert TARGET_TIMESPAN / 256 == 4725;
  }
}
