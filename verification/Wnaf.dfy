/**
 Constant-time scalar multiplication: the signed odd-digit recoding of a scalar, and the double-and-add
 loop over its digits, for the build without the endomorphism.
 */
module Wnaf {
  import opened Powers
  import opened Groups

  const TWO_256: nat := 0x1_00000000_00000000_00000000_00000000_00000000_00000000_00000000_00000000
  const WNAF_BITS := 256
  const WINDOW_A := 5

  function WnafSize(w: nat): nat
    requires w > 0
  {
    (WNAF_BITS + w - 1) / w
  }

  function TableSize(w: nat): nat
    requires w >= 2
  {
    Pow(2, w - 2)
  }

  // ---- the scalar operations the recoding calls ----

  predicate IsHigh(s: Scalar) { s > ORDER / 2 }

  function Negate(s: Scalar): Scalar { if s == 0 then 0 else ORDER - s }

  // Adds 2^bit when flag is set; the caller promises that the sum stays below the order.
  function CaddBit(s: Scalar, bit: nat, flag: bool): Scalar
    requires flag ==> s + Pow(2, bit) < ORDER
  {
    if flag then s + Pow(2, bit) else s
  }

  // Takes the low window off a scalar: its value, and the scalar shifted right by it.
  function ShrInt(s: nat, base: nat): (r: (nat, nat))
    requires base > 0
    ensures r.0 < base && s == base * r.1 + r.0
  {
    (s % base, s / base)
  }

  // ---- what the digits denote ----

  // The number that digits denote, least significant first: the sum of base^i * digits[i].
  ghost function Value(digits: seq<int>, base: int): int {
    if digits == [] then 0 else digits[0] + base * Value(digits[1..], base)
  }

  ghost predicate IsDigit(d: int, base: int) {
    d % 2 == 1 && -base < d < base
  }

  lemma {:induction false} ValueAppend(digits: seq<int>, base: nat, d: int)
    ensures Value(digits + [d], base) == Value(digits, base) + Pow(base, |digits|) * d
  {
    if digits == [] {
      assert (digits + [d])[1..] == [] && Value([], base) == 0;
      assert Pow(base, 0) * d == d;
    } else {
      assert (digits + [d])[0] == digits[0] && (digits + [d])[1..] == digits[1..] + [d];
      ValueAppend(digits[1..], base, d);
      var t, p := Value(digits[1..], base), Pow(base, |digits| - 1);
      assert base * (t + p * d) == base * t + (base * p) * d;
    }
  }

  lemma OddPlusEven(d: int, half: int)
    requires d % 2 == 1
    ensures (d + 2 * half) % 2 == 1
  {
  }

  // Putting an odd digit below an odd number leaves it odd, and no smaller in absolute value.
  lemma OddDigitBelow(d: int, rest: int, base: int)
    requires base > 0 && base % 2 == 0 && IsDigit(d, base)
    ensures (d + base * rest) % 2 == 1
    ensures rest % 2 == 1 ==> Abs(rest) <= Abs(d + base * rest)
  {
    var half := base / 2;
    assert base * rest == 2 * (half * rest);
    OddPlusEven(d, half * rest);
    if rest % 2 == 1 {
      Grows(base, rest, d);
    }
  }

  lemma Grows(base: int, rest: int, d: int)
    requires base > 0 && rest != 0 && -base < d < base
    ensures Abs(rest) <= Abs(d + base * rest)
  {
    if rest > 0 {
      MulMonotonic(0, base - 1, 0, rest - 1);
      assert base * rest == base + rest - 1 + (base - 1) * (rest - 1);
    } else {
      MulMonotonic(0, base - 1, 0, -rest - 1);
      assert base * rest == -(base - rest - 1 + (base - 1) * (-rest - 1));
    }
  }

  // A number written with odd digits in an even base is odd, and dropping low digits does not enlarge it.
  lemma {:induction false} ValueDrop(digits: seq<int>, base: int, i: nat)
    requires base > 0 && base % 2 == 0 && i < |digits|
    requires forall j :: 0 <= j < |digits| ==> IsDigit(digits[j], base)
    ensures Value(digits, base) % 2 == 1
    ensures Value(digits[i..], base) % 2 == 1
    ensures Abs(Value(digits[i..], base)) <= Abs(Value(digits, base))
  {
    OddDigitBelow(digits[0], Value(digits[1..], base), base);
    if i == 0 {
      assert digits[0..] == digits;
    } else {
      ValueDrop(digits[1..], base, i - 1);
      assert digits[1..][i - 1..] == digits[i..];
    }
  }

  function Abs(x: int): nat { if x < 0 then -x else x }

  // ---- recoding ----

  // The number the digits denote, as an integer: s + skew, less the order for a scalar that was flipped.
  ghost function Recoded(s: Scalar, skew: int): int {
    if IsHigh(s) then s + skew - ORDER else s + skew
  }

  lemma PowTwo256()
    ensures Pow(2, WNAF_BITS) == TWO_256
  {
    var p2, p4, p6 := Pow(2, 16), Pow(2, 64), 0;
    assert Pow(2, 4) == 16;
    PowMul(2, 4, 4);
    Fourth(16);
    PowMul(2, 16, 4);
    Fourth(0x10000);
    PowMul(2, 64, 4);
    Fourth(0x1_0000_0000_0000_0000);
  }

  lemma Fourth(x: nat)
    ensures Pow(x, 4) == (x * x) * (x * x)
  {
    assert Pow(x, 0) == 1 && Pow(x, 1) == x && Pow(x, 2) == x * x;
    PowAdd(x, 2, 2);
  }

  lemma PowPowTwo(w: nat, k: nat)
    requires k * w >= WNAF_BITS
    ensures Pow(Pow(2, w), k) >= TWO_256
  {
    PowMul(2, w, k);
    assert w * k == k * w;
    PowMonotonic(2, WNAF_BITS, k * w);
    PowTwo256();
  }

  // Steps 4.2 and 4.3: an even word u borrows one unit from, or lends it to, the digit below it, whichever
  // keeps that digit inside its range; the number denoted by both does not change.
  lemma RecodeStep(last: int, word: nat, rest: nat, base: int, u: int, digit: int)
    requires base >= 2 && base % 2 == 0 && IsDigit(last, base) && last >= -1 && word < base
    requires var sign := if last > 0 then 1 else -1;
      if word % 2 == 0 then u == word + sign && digit == last - sign * base else u == word && digit == last
    ensures IsDigit(digit, base) && IsDigit(u, base) && u >= -1
    ensures digit + base * (u + base * rest) == last + base * (word + base * rest)
  {
    assert base * (u + base * rest) == base * u + base * (base * rest);
    assert base * (word + base * rest) == base * word + base * (base * rest);
    assert base * u == base * word + base * (u - word);
    OddDigitBelow(last, if word % 2 == 1 then 0 else if last > 0 then -1 else 1, base);
  }

  // Steps 1 to 3: the skew makes the scalar odd up to the flip, and minus one, to which two cannot be added
  // below the order, is flipped only and its flags changed to claim that it was skewed.
  method SkewAndFlip(scalar: Scalar) returns (s: Scalar, globalSign: int, skew: int)
    ensures s % 2 == 1
    ensures globalSign == 1 || globalSign == -1
    ensures skew == if IsHigh(scalar) == (scalar % 2 == 1) then 1 else 2
    ensures globalSign * s == Recoded(scalar, skew)
  {
    assert Pow(2, 0) == 1 && Pow(2, 1) == 2;
    s := scalar;
    var flip := IsHigh(s);
    var bit := if flip != (s % 2 == 1) then 1 else 0;
    var negS := Negate(s);
    var notNegOne := negS != 1;
    s := CaddBit(s, bit, notNegOne);
    globalSign := if flip then -1 else 1;
    if flip { s := Negate(s); }
    globalSign := globalSign * (if notNegOne then 1 else -1);
    skew := Pow(2, bit);
  }

  ghost predicate DigitsOf(ds: seq<int>, base: int) {
    forall i :: 0 <= i < |ds| ==> IsDigit(ds[i], base)
  }

  // What x contributes from digit position k upwards.
  ghost function Place(base: nat, k: nat, x: int): int {
    Pow(base, k) * x
  }

  // One more digit split off the number that is still to be recoded.
  lemma SplitPlace(base: nat, k: nat, digit: int, rest: int)
    ensures Place(base, k, digit + base * rest) == Pow(base, k) * digit + Place(base, k + 1, rest)
  {
    var p := Pow(base, k);
    assert p * (base * rest) == (base * p) * rest;
  }

  lemma SplitDigit(ds: seq<int>, base: nat, total: int, digit: int, rest: int)
    requires Value(ds, base) + Place(base, |ds|, digit + base * rest) == total
    ensures Value(ds + [digit], base) + Place(base, |ds| + 1, rest) == total
  {
    hide *;
    ValueAppend(ds, base, digit);
    SplitPlace(base, |ds|, digit, rest);
  }

  // The recoding in progress: the digits written, the digit that may still borrow, and the rest of the
  // scalar, which the words still to come can hold, denote the total together.
  ghost predicate Recoding(ds: seq<int>, base: nat, total: int, last: int, rest: nat, words: nat) {
    && DigitsOf(ds, base)
    && IsDigit(last, base) && last >= -1
    && Fits(rest, base, words)
    && Value(ds, base) + Place(base, |ds|, last + base * rest) == total
  }

  lemma RecodingStep(ds: seq<int>, base: nat, total: int, last: int, rest: nat, words: nat,
                     word: nat, left: nat, digit: int, u: int)
    requires base >= 2 && base % 2 == 0
    requires Recoding(ds, base, total, last, rest, words)
    requires word < base && rest == base * left + word
    requires var sign := if last > 0 then 1 else -1;
      if word % 2 == 0 then u == word + sign && digit == last - sign * base else u == word && digit == last
    ensures Recoding(ds + [digit], base, total, u, left, if words > 0 then words - 1 else 0)
  {
    RecodeStep(last, word, left, base, u, digit);
    assert Value(ds + [digit], base) + Place(base, |ds| + 1, u + base * left) == total by {
      hide Place, Value, Pow;
      assert last + base * rest == digit + base * (u + base * left);
      SplitDigit(ds, base, total, digit, u + base * left);
    }
    ShiftedFits(rest, base, words, left, word);
    hide Place, Value, Pow, Fits;
  }

  lemma RecodingStart(s: Scalar, w: nat, low: nat, rest: nat)
    requires s % 2 == 1 && w >= 1 && low < Pow(2, w) && s == Pow(2, w) * rest + low
    ensures WnafSize(w) > 0 && Recoding([], Pow(2, w), s, low, rest, WnafSize(w) - 1)
  {
    var base, size := Pow(2, w), WnafSize(w);
    EvenBase(w);
    SizeBounds(w, size);
    SizeBounds(w, 0);
    OddLow(s, base, rest, low);
    assert Fits(s, base, size) by { PowPowTwo(w, size); }
    ShiftedFits(s, base, size, rest, low);
    hide Fits, WnafSize;
    assert Pow(base, 0) == 1 && Place(base, 0, s) == s;
    assert Value([], base) == 0;
  }

  lemma RecodingEnd(ds: seq<int>, base: nat, total: int, last: int, rest: nat)
    requires Recoding(ds, base, total, last, rest, 0)
    ensures rest == 0 && DigitsOf(ds + [last], base) && Value(ds + [last], base) == total
  {
    assert Pow(base, 0) == 1;
    assert rest == 0 && base * rest == 0;
    SplitDigit(ds, base, total, last, 0);
    assert Place(base, |ds| + 1, 0) == 0;
  }

  lemma ShiftedFits(s: nat, base: nat, words: nat, left: nat, word: nat)
    requires base > 0 && Fits(s, base, words) && s == base * left + word
    ensures Fits(left, base, if words > 0 then words - 1 else 0)
  {
    if words > 0 {
      var p := Pow(base, words - 1);
      if left >= p {
        MulMonotonic(base, base, p, left);
      }
    } else {
      assert Pow(base, 0) == 1;
      if left > 0 {
        MulMonotonic(1, base, 1, left);
      }
    }
  }

  lemma OddLow(s: nat, base: nat, rest: nat, low: nat)
    requires base % 2 == 0 && s % 2 == 1 && s == base * rest + low
    ensures low % 2 == 1
  {
    var half := base / 2;
    assert base * rest == 2 * (half * rest);
  }

  // The number of words fills the width, and no shorter count does.
  lemma SizeBounds(w: nat, word: nat)
    requires w > 0
    ensures word >= WnafSize(w) <==> word * w >= WNAF_BITS
  {
    var n := WNAF_BITS + w - 1;
    var size := n / w;
    assert n == size * w + n % w;
    if word >= size {
      MulMonotonic(size, word, w, w);
    } else {
      MulMonotonic(word, size - 1, w, w);
      assert (size - 1) * w == size * w - w;
    }
  }

  lemma EvenBase(w: nat)
    requires w >= 1
    ensures Pow(2, w) >= 2 && Pow(2, w) % 2 == 0
  {
    PowPositive(2, w - 1);
  }

  // The number of words the recoding still has to take in bounds what is left of the scalar.
  ghost predicate Fits(s: nat, base: nat, words: nat) {
    s < Pow(base, words)
  }

  method WnafConst(wnaf: array<int>, scalar: Scalar, w: nat) returns (skew: int)
    requires 1 <= w < 16 && wnaf.Length > WnafSize(w)
    modifies wnaf
    ensures skew == if IsHigh(scalar) == (scalar % 2 == 1) then 1 else 2
    ensures forall i :: 0 <= i <= WnafSize(w) ==> IsDigit(wnaf[i], Pow(2, w))
    ensures Value(wnaf[..WnafSize(w) + 1], Pow(2, w)) == Recoded(scalar, skew)
    ensures forall i :: WnafSize(w) < i < wnaf.Length ==> wnaf[i] == old(wnaf[i])
  {
    hide Recoding;
    var word := 0;
    var s: Scalar, globalSign: int;
    s, globalSign, skew := SkewAndFlip(scalar);

    ghost var total: int := s;
    var base := Pow(2, w);
    ghost var size := WnafSize(w);
    EvenBase(w);
    SizeBounds(w, size);
    var (low, rest) := ShrInt(s, base);
    var uLast: int, u := low, 0;
    ghost var ds: seq<int> := [];  // the digits before the global sign is applied
    RecodingStart(s, w, low, rest);
    while word * w < WNAF_BITS
      invariant 0 <= word <= size && |ds| == word
      invariant word > 0 ==> u == uLast
      invariant Recoding(ds, base, total, uLast, rest, if word < size then size - 1 - word else 0)
      invariant forall i :: 0 <= i < word ==> wnaf[i] == ds[i] * globalSign
      invariant forall i :: size < i < wnaf.Length ==> wnaf[i] == old(wnaf[i])
      decreases size - word
    {
      SizeBounds(w, word);
      ghost var rest0, last0 := rest, uLast;
      var (low, shifted) := ShrInt(rest, base);
      u, rest := low, shifted;
      var even := u % 2 == 0;
      var sign := if uLast > 0 then 1 else -1;
      if even {
        u := u + sign;
        uLast := uLast - sign * base;
      }
      RecodingStep(ds, base, total, last0, rest0, if word < size then size - 1 - word else 0,
                   low, shifted, uLast, u);
      wnaf[word] := uLast * globalSign;
      ds := ds + [uLast];
      word := word + 1;
      uLast := u;
    }
    SizeBounds(w, word);
    RecodingEnd(ds, base, total, uLast, rest);
    wnaf[word] := u * globalSign;
    ds := ds + [u];
    assert rest == 0;
    SignedDigits(ds, base, globalSign, wnaf[..size + 1]);
  }

  // The signed digits denote the signed number.
  lemma {:induction false} SignedDigits(ds: seq<int>, base: int, sign: int, signed: seq<int>)
    requires sign == 1 || sign == -1
    requires base % 2 == 0 && DigitsOf(ds, base)
    requires |signed| == |ds| && forall i :: 0 <= i < |ds| ==> signed[i] == ds[i] * sign
    ensures DigitsOf(signed, base)
    ensures Value(signed, base) == sign * Value(ds, base)
  {
    if ds != [] {
      SignedDigits(ds[1..], base, sign, signed[1..]);
      SignedStep(ds[0], base, Value(ds[1..], base), sign);
    }
  }

  lemma SignedStep(d: int, base: int, v: int, sign: int)
    ensures d * sign + base * (sign * v) == sign * (d + base * v)
  {
  }

  // ---- multiplication ----

  // pre[i] is the (2i+1)-th multiple of a.
  ghost predicate IsOddTable<P>(g: Group<P>, a: P, pre: seq<P>) {
    forall i :: 0 <= i < |pre| ==> pre[i] == Mul(g, 2 * i + 1, a)
  }

  method OddMultiplesTable<P(!new)>(g: Group<P>, a: P, n: nat) returns (pre: seq<P>)
    requires IsAbelianGroup(g) && n > 0
    ensures |pre| == n && IsOddTable(g, a, pre)
  {
    MulOne(g, a);
    var d := g.add(a, a);
    MulSucc(g, 1, a);
    pre := [a];
    for i := 1 to n
      invariant |pre| == i && IsOddTable(g, a, pre)
    {
      MulAdd(g, 2 * i - 1, 2, a);
      pre := pre + [g.add(pre[i - 1], d)];
    }
  }

  // Reads the multiple n from the table of odd multiples: a scan over all entries, then a conditional negation.
  method TableGet<P(!new)>(g: Group<P>, ghost a: P, pre: seq<P>, n: int) returns (r: P)
    requires IsAbelianGroup(g) && IsOddTable(g, a, pre)
    requires IsDigit(n, 2 * |pre|)
    ensures r == Mul(g, n, a)
  {
    var absN := if n > 0 then n else -n;
    var idx := absN / 2;
    r := pre[0];
    for m := 0 to |pre|
      invariant m > idx ==> r == pre[idx]
    {
      r := if m == idx then pre[m] else r;
    }
    assert 2 * idx + 1 == absN;
    if n != absN {
      MulNeg(g, absN, a);
      r := g.neg(r);
    }
  }

  // Doubling with the formula that is only right away from infinity.
  method DoubleNonzero<P(!new)>(g: Group<P>, p: P) returns (r: P)
    requires p != g.zero
    ensures r == g.add(p, p)
  {
    r := g.add(p, p);
  }

  // A number between -ORDER and ORDER, doubled any number of times, is no multiple of the odd order.
  lemma {:induction false} DoubledNotMultiple(v: int, j: nat)
    requires v != 0 && Abs(v) < ORDER
    ensures (Pow(2, j) * v) % ORDER != 0
  {
    if j > 0 {
      DoubledNotMultiple(v, j - 1);
      var half := Pow(2, j - 1) * v;
      assert Pow(2, j) * v == 2 * half;
      if (2 * half) % ORDER == 0 {
        HalfMultiple(half);
      }
    } else {
      assert Pow(2, 0) * v == v;
      SmallNotMultiple(v);
    }
  }

  lemma SmallNotMultiple(v: int)
    requires v != 0 && Abs(v) < ORDER
    ensures v % ORDER != 0
  {
  }

  lemma HalfMultiple(half: int)
    requires (2 * half) % ORDER == 0
    ensures half % ORDER == 0
  {
    var q := 2 * half / ORDER;
    assert 2 * half == ORDER * q;
    assert q % 2 == 0;
    assert half == ORDER * (q / 2);
  }

  // The accumulator between two digits: Horner's rule.
  lemma HornerStep(ds: seq<int>, base: int, i: nat)
    requires i < |ds|
    ensures Value(ds[i..], base) == ds[i] + base * Value(ds[i + 1..], base)
  {
    assert ds[i..][0] == ds[i] && ds[i..][1..] == ds[i + 1..];
  }

  lemma HornerMul<P(!new)>(g: Group<P>, a: P, ds: seq<int>, i: nat)
    requires IsAbelianGroup(g) && i < |ds|
    ensures g.add(Mul(g, 16 * Value(ds[i + 1..], 16), a), Mul(g, ds[i], a)) == Mul(g, Value(ds[i..], 16), a)
  {
    HornerStep(ds, 16, i);
    var v := 16 * Value(ds[i + 1..], 16);
    MulAdd(g, v, ds[i], a);
    assert ds[i] + v == v + ds[i];
  }

  lemma MulDouble<P(!new)>(g: Group<P>, a: P, v: int, j: nat)
    requires IsAbelianGroup(g)
    ensures g.add(Mul(g, Pow(2, j) * v, a), Mul(g, Pow(2, j) * v, a)) == Mul(g, Pow(2, j + 1) * v, a)
  {
    var k := Pow(2, j) * v;
    MulAdd(g, k, k, a);
    assert Pow(2, j + 1) * v == k + k;
  }

  // The w doublings between two digits. The point never reaches infinity on the way.
  method DoubleWindow<P(!new)>(g: Group<P>, a: P, w: nat, p: P, ghost v: int) returns (r: P)
    requires IsAbelianGroup(g) && HasOrder(g, a, ORDER)
    requires p == Mul(g, v, a) && v != 0 && Abs(v) < ORDER
    ensures r == Mul(g, Pow(2, w) * v, a)
  {
    r := p;
    assert Pow(2, 0) * v == v;
    for j := 0 to w
      invariant r == Mul(g, Pow(2, j) * v, a)
    {
      DoubledNotMultiple(v, j);
      r := DoubleNonzero(g, r);
      MulDouble(g, a, v, j);
    }
  }

  // No partial sum of the digits is a multiple of the order.
  lemma PartialSum(ds: seq<int>, scalar: Scalar, skew: int, i: nat)
    requires DigitsOf(ds, 16) && i < |ds| && 1 <= skew <= 2
    requires Value(ds, 16) == Recoded(scalar, skew)
    ensures Value(ds[i..], 16) != 0 && Abs(Value(ds[i..], 16)) < ORDER
  {
    ValueDrop(ds, 16, i);
  }

  method EcmultConst<P(!new)>(g: Group<P>, a: P, scalar: Scalar) returns (r: P)
    requires IsAbelianGroup(g) && HasOrder(g, a, ORDER)
    ensures r == Mul(g, scalar, a)
  {
    hide Value, Recoded, Mul;
    var w := WINDOW_A - 1;
    assert Pow(2, w) == 16 && TableSize(WINDOW_A) == 8 by { Fourth(2); assert Pow(2, 3) == 8; }
    hide Pow, WnafSize, TableSize;
    SizeBounds(w, 0);
    var size := WnafSize(w);
    var wnaf := new int[1 + size];
    var skew := WnafConst(wnaf, scalar, w);
    ghost var ds := wnaf[..];
    assert ds == wnaf[..size + 1];

    var pre := OddMultiplesTable(g, a, TableSize(WINDOW_A));

    var i := size;
    r := TableGet(g, a, pre, wnaf[i]);
    SingleDigit(ds, i);
    while i > 0
      invariant 0 <= i <= size && ds == wnaf[..]
      invariant r == Mul(g, Value(ds[i..], 16), a)
    {
      ghost var v := Value(ds[i..], 16);
      PartialSum(ds, scalar, skew, i);
      i := i - 1;
      r := DoubleWindow(g, a, w, r, v);
      var t := TableGet(g, a, pre, wnaf[i]);
      r := g.add(r, t);
      HornerMul(g, a, ds, i);
    }
    assert ds[0..] == ds;

    // Correct for the skew.
    var correction := if skew == 2 then g.add(a, a) else a;
    MulOne(g, a);
    MulSucc(g, 1, a);
    assert correction == Mul(g, skew, a);
    r := g.add(r, g.neg(correction));
    SkewCorrection(g, a, scalar, skew);
  }

  lemma SingleDigit(ds: seq<int>, i: nat)
    requires |ds| == i + 1
    ensures Value(ds[i..], 16) == ds[i]
  {
    assert ds[i..] == [ds[i]] && Value([], 16) == 0;
  }

  lemma SkewCorrection<P(!new)>(g: Group<P>, a: P, scalar: Scalar, skew: int)
    requires IsAbelianGroup(g) && HasOrder(g, a, ORDER)
    ensures g.add(Mul(g, Recoded(scalar, skew), a), g.neg(Mul(g, skew, a))) == Mul(g, scalar, a)
  {
    MulNeg(g, skew, a);
    MulAdd(g, Recoded(scalar, skew), -skew, a);
    MulMod(g, Recoded(scalar, skew) - skew, scalar, a, ORDER);
  }
}
