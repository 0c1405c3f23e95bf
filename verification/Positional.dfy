/** Numbers by their digits in a base, most significant first. */
module Positional {
  import opened Division
  import opened LittleEndian
  import opened Powers

  // Appending a digit, and taking the last one off.
  function Join(v: nat, base: nat, digit: nat): nat { v * base + digit }

  function Cut(n: nat, base: nat): nat
    requires base > 0
  {
    n / base
  }

  function Last(n: nat, base: nat): nat
    requires base > 0
  {
    n % base
  }

  function Value(digits: seq<nat>, base: nat): nat {
    if digits == [] then 0 else Join(Value(digits[..|digits| - 1], base), base, digits[|digits| - 1])
  }

  // The digits of n, without leading zeros.
  function Digits(n: nat, base: nat): seq<nat>
    requires base > 1
    decreases n
  {
    if n == 0 then []
    else
      CutSmaller(n, base);
      Digits(Cut(n, base), base) + [Last(n, base)]
  }

  lemma CutSmaller(n: nat, base: nat)
    requires n > 0 && base > 1
    ensures Cut(n, base) < n
  {
    Quotient(n, base);
    if n / base > 0 { MulMonotonic(n / base, n / base, 2, base); }
  }

  lemma CutJoin(v: nat, base: nat, digit: nat)
    requires digit < base
    ensures Cut(Join(v, base, digit), base) == v && Last(Join(v, base, digit), base) == digit
  {
    QuotientUnique(Join(v, base, digit), v, digit, base);
    RemainderUnique(Join(v, base, digit), v, digit, base);
  }

  lemma JoinCut(n: nat, base: nat)
    requires base > 0
    ensures Join(Cut(n, base), base, Last(n, base)) == n && Last(n, base) < base
  {
    Quotient(n, base);
  }

  ghost predicate Below(digits: seq<nat>, base: nat) {
    forall i :: 0 <= i < |digits| ==> digits[i] < base
  }

  function LeadingZeros(digits: seq<nat>): (z: nat)
    ensures z <= |digits|
  {
    if digits == [] || digits[0] != 0 then 0 else 1 + LeadingZeros(digits[1..])
  }

  lemma {:induction false} LeadingZerosMeaning(digits: seq<nat>)
    ensures var z := LeadingZeros(digits);
      digits == Zeros(z) + digits[z..] && (z < |digits| ==> digits[z] != 0)
  {
    var z := LeadingZeros(digits);
    if z > 0 {
      var rest := digits[1..];
      LeadingZerosMeaning(rest);
      assert rest[z - 1..] == digits[z..];
      assert digits == [0] + rest == ([0] + Zeros(z - 1)) + digits[z..];
    } else {
      assert digits[0..] == digits;
    }
  }

  lemma {:induction false} ZerosAt(n: nat, i: nat)
    requires i < n
    ensures Zeros(n)[i] == 0
  {
    if i > 0 { ZerosAt(n - 1, i - 1); }
  }

  lemma {:induction false} ZerosBack(n: nat)
    requires n > 0
    ensures Zeros(n) == Zeros(n - 1) + [0]
  {
    if n > 1 {
      ZerosBack(n - 1);
      assert Zeros(n) == [0] + (Zeros(n - 2) + [0]);
    }
  }

  lemma {:induction false} IsZeros(s: seq<nat>)
    requires forall i :: 0 <= i < |s| ==> s[i] == 0
    ensures s == Zeros(|s|)
  {
    if s != [] {
      IsZeros(s[1..]);
      assert s == [0] + s[1..];
    }
  }

  lemma {:induction false} ValueBound(digits: seq<nat>, base: nat)
    requires Below(digits, base) && base > 0
    ensures Value(digits, base) < Pow(base, |digits|)
  {
    if digits != [] {
      var init := digits[..|digits| - 1];
      ValueBound(init, base);
      hide Value;
      JoinBound(Value(init, base), Pow(base, |init|), base, digits[|digits| - 1]);
    }
  }

  lemma JoinBound(v: nat, p: nat, base: nat, digit: nat)
    requires v < p && digit < base
    ensures Join(v, base, digit) < base * p
  {
    MulMonotonic(v + 1, p, base, base);
    assert (v + 1) * base == v * base + base;
  }

  // a shifted left by the digits of b.
  function Shifted(a: nat, base: nat, count: nat): nat { a * Pow(base, count) }

  lemma ShiftedNext(a: nat, v: nat, base: nat, count: nat, digit: nat)
    ensures Join(Shifted(a, base, count) + v, base, digit) == Shifted(a, base, count + 1) + Join(v, base, digit)
  {
    var p := Pow(base, count);
    assert Pow(base, count + 1) == base * p;
    hide Pow;
    assert (a * p + v) * base == a * (base * p) + v * base;
  }

  lemma {:induction false} ValueAppend(a: seq<nat>, b: seq<nat>, base: nat)
    ensures Value(a + b, base) == Shifted(Value(a, base), base, |b|) + Value(b, base)
  {
    if b == [] {
      assert a + b == a;
      assert Pow(base, 0) == 1;
    } else {
      var init := b[..|b| - 1];
      assert (a + b)[..|a + b| - 1] == a + init;
      hide Join, Shifted;
      ValueAppend(a, init, base);
      ShiftedNext(Value(a, base), Value(init, base), base, |init|, b[|b| - 1]);
    }
  }

  lemma {:induction false} ValueZeros(n: nat, base: nat)
    ensures Value(Zeros(n), base) == 0
  {
    if n > 0 {
      ZerosBack(n);
      assert Zeros(n)[..n - 1] == Zeros(n - 1);
      ValueZeros(n - 1, base);
      assert Join(0, base, 0) == 0;
    }
  }

  lemma {:induction false} DigitsValue(n: nat, base: nat)
    requires base > 1
    ensures Value(Digits(n, base), base) == n && Below(Digits(n, base), base)
    ensures n > 0 ==> Digits(n, base) != [] && Digits(n, base)[0] != 0
  {
    if n > 0 {
      var head := Cut(n, base);
      CutSmaller(n, base);
      JoinCut(n, base);
      if head == 0 { assert Join(0, base, Last(n, base)) == Last(n, base); }
      hide Cut, Last, Join;
      DigitsValue(head, base);
      assert Digits(n, base) == Digits(head, base) + [Last(n, base)];
      assert Digits(n, base)[..|Digits(n, base)| - 1] == Digits(head, base);
    }
  }

  // A list of digits that does not start with zero is the one its value has.
  lemma {:induction false} DigitsUnique(digits: seq<nat>, base: nat)
    requires base > 1 && Below(digits, base) && (digits == [] || digits[0] != 0)
    ensures Digits(Value(digits, base), base) == digits
    ensures digits != [] ==> Value(digits, base) > 0
  {
    if digits != [] {
      var init, last := digits[..|digits| - 1], digits[|digits| - 1];
      DigitsUnique(init, base);
      CutJoin(Value(init, base), base, last);
      JoinPositive(Value(init, base), base, last);
      hide Cut, Last, Join;
      assert digits == init + [last];
    }
  }

  lemma JoinPositive(v: nat, base: nat, digit: nat)
    requires base > 0 && (v > 0 || digit > 0)
    ensures Join(v, base, digit) > 0
  {
    if v > 0 { MulMonotonic(1, v, 1, base); }
  }

  // Leading zeros aside, digits are those of their value.
  lemma Canonical(digits: seq<nat>, base: nat)
    requires base > 1 && Below(digits, base)
    ensures digits == Zeros(LeadingZeros(digits)) + Digits(Value(digits, base), base)
  {
    var z := LeadingZeros(digits);
    var rest := digits[z..];
    LeadingZerosMeaning(digits);
    assert Below(rest, base);
    hide Value, Digits, LeadingZeros, Below;
    SkipZeros(z, rest, base);
    DigitsUnique(rest, base);
  }

  lemma SkipZeros(z: nat, rest: seq<nat>, base: nat)
    ensures Value(Zeros(z) + rest, base) == Value(rest, base)
  {
    ValueZeros(z, base);
    ValueAppend(Zeros(z), rest, base);
    hide Value;
    assert Shifted(0, base, |rest|) == 0;
  }

  // Zeros in front of the digits of a number.
  lemma PaddedZeros(z: nat, n: nat, base: nat)
    requires base > 1
    ensures LeadingZeros(Zeros(z) + Digits(n, base)) == z
    ensures Value(Zeros(z) + Digits(n, base), base) == n
  {
    DigitsValue(n, base);
    hide Value, Digits, LeadingZeros;
    SkipZeros(z, Digits(n, base), base);
    ZerosCounted(z, Digits(n, base));
  }

  lemma {:induction false} ZerosCounted(z: nat, rest: seq<nat>)
    requires rest == [] || rest[0] != 0
    ensures LeadingZeros(Zeros(z) + rest) == z
  {
    if z > 0 {
      assert Zeros(z)[1..] == Zeros(z - 1);
      assert (Zeros(z) + rest)[1..] == Zeros(z)[1..] + rest;
      ZerosCounted(z - 1, rest);
    } else {
      assert Zeros(z) + rest == rest;
    }
  }

  // The zeros before a position, when they end there.
  lemma ZerosUpTo(digits: seq<nat>, z: nat)
    requires z <= |digits| && (forall i :: 0 <= i < z ==> digits[i] == 0) && (z < |digits| ==> digits[z] != 0)
    ensures LeadingZeros(digits) == z
  {
    IsZeros(digits[..z]);
    assert digits == digits[..z] + digits[z..];
    ZerosCounted(z, digits[z..]);
  }

  // From its first nonzero digit on, a list holds the digits of its value.
  lemma DigitsOfBuffer(buf: seq<nat>, base: nat)
    requires base > 1 && Below(buf, base)
    ensures buf[LeadingZeros(buf)..] == Digits(Value(buf, base), base)
  {
    Canonical(buf, base);
    hide Value, Digits, LeadingZeros;
    assert buf[LeadingZeros(buf)..] == (Zeros(LeadingZeros(buf)) + Digits(Value(buf, base), base))[LeadingZeros(buf)..];
  }

  lemma DropZeros(digits: seq<nat>, base: nat)
    ensures Value(digits, base) == Value(digits[LeadingZeros(digits)..], base)
  {
    LeadingZerosMeaning(digits);
    hide Value, LeadingZeros;
    SkipZeros(LeadingZeros(digits), digits[LeadingZeros(digits)..], base);
  }

  lemma {:induction false} DigitsLength(n: nat, base: nat, k: nat)
    requires base > 1 && n < Pow(base, k)
    ensures |Digits(n, base)| <= k
  {
    if n > 0 {
      CutPower(n, base, k);
      CutSmaller(n, base);
      hide Pow, Cut, Last;
      DigitsLength(Cut(n, base), base, k - 1);
    }
  }

  lemma CutPower(n: nat, base: nat, k: nat)
    requires base > 0 && 0 < n < Pow(base, k)
    ensures k > 0 && Cut(n, base) < Pow(base, k - 1)
  {
    assert k > 0 && Pow(base, k) == base * Pow(base, k - 1);
    hide Pow;
    CutBound(n, base, Pow(base, k - 1));
  }

  lemma CutBound(n: nat, base: nat, p: nat)
    requires base > 0 && n < base * p
    ensures Cut(n, base) < p
  {
    Quotient(n, base);
    if n / base >= p { MulMonotonic(p, n / base, base, base); }
  }
}
