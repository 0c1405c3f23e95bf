/** Bits of numbers: windows of a given width, and digits in a base that is a power of two as windows. */
module Windows {
  import opened Division
  import opened Positional
  import opened Powers

  // width bits of n from bit lo on.
  function Window(n: nat, lo: nat, width: nat): nat {
    PowPositive(2, lo);
    PowPositive(2, width);
    Last(Cut(n, Pow(2, lo)), Pow(2, width))
  }

  lemma DivideTwice(x: nat, a: nat, b: nat)
    requires a > 0 && b > 0
    ensures a * b > 0 && x / a / b == x / (a * b)
  {
    var q, r, s := x / a, x % a, x / a % b;
    Quotient(x, a);
    Quotient(q, b);
    MulMonotonic(1, a, 1, b);
    Regroup(q / b, b, a, s);
    PartBelow(s, r, a, b);
    Swap(a, b);
    QuotientUnique(x, q / b, s * a + r, a * b);
  }

  lemma Swap(a: nat, b: nat)
    ensures a * b == b * a
  {
  }

  lemma PartBelow(s: nat, r: nat, a: nat, b: nat)
    requires r < a && s < b
    ensures s * a + r < a * b
  {
    MulMonotonic(s + 1, b, a, a);
    assert (s + 1) * a == s * a + a;
    Swap(a, b);
  }

  lemma RemainderDivided(x: nat, b: nat, d: nat)
    requires b > 0 && d > 0
    ensures b * d > 0 && x % (b * d) / b == x / b % d
  {
    var u, s := x / b, x % b;
    Quotient(x, b);
    Quotient(u, d);
    MulMonotonic(1, b, 1, d);
    Regroup(u / d, d, b, u % d);
    PartBelow(u % d, s, b, d);
    Swap(b, d);
    RemainderUnique(x, u / d, u % d * b + s, b * d);
    QuotientUnique(u % d * b + s, u % d, s, b);
  }

  // A window of a window.
  lemma WindowOfWindow(n: nat, a: nat, w: nat, b: nat, v: nat)
    requires b + v <= w
    ensures Window(Window(n, a, w), b, v) == Window(n, a + b, v)
  {
    var pa, pb, pv, pr := Pow(2, a), Pow(2, b), Pow(2, v), Pow(2, w - b - v);
    PowPositive(2, a);
    PowPositive(2, b);
    PowPositive(2, v);
    PowPositive(2, w - b - v);
    PowPositive(2, w - b);
    PowAdd(2, a, b);
    PowAdd(2, b, w - b);
    PowAdd(2, w - b - v, v);
    hide Pow;
    DivideTwice(n, pa, pb);
    RemainderDivided(n / pa, pb, Pow(2, w - b));
    LowBits(n / pa / pb, pv, pr, Pow(2, w - b));
  }

  // Bits shifted in below move a window.
  lemma WindowOfShift(n: nat, a: nat, b: nat, v: nat)
    ensures Window(n * Pow(2, a), a + b, v) == Window(n, b, v)
  {
    var pa, pb := Pow(2, a), Pow(2, b);
    PowPositive(2, a);
    PowPositive(2, b);
    PowAdd(2, a, b);
    hide Pow;
    DivideTwice(n * pa, pa, pb);
    QuotientUnique(n * pa, n, 0, pa);
  }

  // ---- digits ----

  function Base(w: nat): (b: nat)
    ensures b > 0
  {
    PowPositive(2, w);
    Pow(2, w)
  }

  // The bits of k digits, and the numbers that they have room for.
  function Span(w: nat, k: nat): nat { w * k }

  function Room(w: nat, k: nat): nat { Pow(2, Span(w, k)) }

  lemma RoomBase(w: nat, k: nat)
    ensures Pow(Base(w), k) == Room(w, k)
  {
    PowMul(2, w, k);
  }

  lemma RoomNext(w: nat, k: nat)
    ensures Room(w, k + 1) == Base(w) * Room(w, k) && Room(w, 0) == 1
  {
    RoomBase(w, k);
    RoomBase(w, k + 1);
    RoomBase(w, 0);
    hide Room, Base;
    assert Pow(Base(w), 0) == 1;
    assert Pow(Base(w), k + 1) == Base(w) * Pow(Base(w), k);
  }

  lemma AppendJoin(a: seq<nat>, b: seq<nat>, w: nat)
    ensures Value(a + b, Base(w)) == Join(Value(a, Base(w)), Room(w, |b|), Value(b, Base(w)))
  {
    ValueAppend(a, b, Base(w));
    RoomBase(w, |b|);
    hide Value, Pow, Base, Room;
  }

  lemma BelowRoom(digits: seq<nat>, w: nat)
    requires Below(digits, Base(w))
    ensures Value(digits, Base(w)) < Room(w, |digits|)
  {
    ValueBound(digits, Base(w));
    RoomBase(w, |digits|);
    hide Value, Pow, Base, Room;
  }

  lemma BelowSlice(digits: seq<nat>, base: nat, i: nat, j: nat)
    requires Below(digits, base) && i <= j <= |digits|
    ensures Below(digits[i..j], base) && Below(digits[j..], base)
  {
  }

  // Consecutive digits are a window of the number.
  lemma Slice(digits: seq<nat>, w: nat, i: nat, j: nat)
    requires Below(digits, Base(w)) && i <= j <= |digits|
    ensures Value(digits[i..j], Base(w)) == Window(Value(digits, Base(w)), Span(w, |digits| - j), Span(w, j - i))
  {
    var head, mid, tail := digits[..i], digits[i..j], digits[j..];
    assert digits == (head + mid) + tail;
    hide Value, Join, Base, Below, Room, Window, Span, Pow;
    BelowSlice(digits, Base(w), i, j);
    BelowSlice(digits, Base(w), j, |digits|);
    AppendJoin(head + mid, tail, w);
    AppendJoin(head, mid, w);
    BelowRoom(mid, w);
    BelowRoom(tail, w);
    WindowOfParts(Value(head, Base(w)), Value(mid, Base(w)), Value(tail, Base(w)), w, |tail|, |mid|);
  }

  lemma WindowOfParts(head: nat, mid: nat, tail: nat, w: nat, lo: nat, width: nat)
    requires mid < Room(w, width) && tail < Room(w, lo)
    ensures Window(Join(Join(head, Room(w, width), mid), Room(w, lo), tail), Span(w, lo), Span(w, width)) == mid
  {
    hide Join, Cut, Last, Pow;
    CutJoin(Join(head, Room(w, width), mid), Room(w, lo), tail);
    CutJoin(head, Room(w, width), mid);
  }

  // One digit, and two consecutive ones.
  lemma DigitAt(digits: seq<nat>, w: nat, i: nat)
    requires Below(digits, Base(w)) && i < |digits|
    ensures digits[i] == Window(Value(digits, Base(w)), Span(w, |digits| - i - 1), w)
  {
    hide Value, Window, Base, Span;
    Slice(digits, w, i, i + 1);
    SingleValue(digits[i], Base(w));
    assert digits[i..i + 1] == [digits[i]];
    SpanOne(w);
  }

  lemma SpanOne(w: nat)
    ensures Span(w, 1) == w && Span(w, 2) == 2 * w
  {
  }

  lemma SingleValue(x: nat, base: nat)
    ensures Value([x], base) == x
  {
    assert [x][..0] == [];
    assert Join(0, base, x) == x;
  }

  lemma PairAt(digits: seq<nat>, w: nat, i: nat)
    requires Below(digits, Base(w)) && i + 1 < |digits|
    ensures Join(digits[i], Base(w), digits[i + 1]) == Window(Value(digits, Base(w)), Span(w, |digits| - i - 2), 2 * w)
  {
    hide Value, Window, Base, Span;
    Slice(digits, w, i, i + 2);
    assert digits[i..i + 2] == [digits[i], digits[i + 1]];
    PairValue(digits[i], digits[i + 1], Base(w));
    SpanOne(w);
  }

  lemma PairValue(x: nat, y: nat, base: nat)
    ensures Value([x, y], base) == Join(x, base, y)
  {
    assert [x, y][..1] == [x];
    SingleValue(x, base);
  }

  // The last m digits of a number in base 2^w.
  function Fixed(n: nat, w: nat, m: nat): (digits: seq<nat>)
    ensures |digits| == m
    decreases m
  {
    if m == 0 then [] else Fixed(Cut(n, Base(w)), w, m - 1) + [Last(n, Base(w))]
  }

  lemma {:induction false} FixedValue(n: nat, w: nat, m: nat)
    requires n < Room(w, m)
    ensures Below(Fixed(n, w, m), Base(w)) && Value(Fixed(n, w, m), Base(w)) == n
    decreases m
  {
    hide Base, Room, Cut, Last, Join;
    if m == 0 {
      RoomNext(w, 0);
    } else {
      var b := Base(w);
      RoomNext(w, m - 1);
      JoinCut(n, b);
      CutBound(n, b, Room(w, m - 1));
      FixedValue(Cut(n, b), w, m - 1);
      assert Fixed(n, w, m)[..m - 1] == Fixed(Cut(n, b), w, m - 1);
    }
  }

  lemma FixedAt(n: nat, w: nat, m: nat, i: nat)
    requires n < Room(w, m) && i < m
    ensures Fixed(n, w, m)[i] == Window(n, Span(w, m - i - 1), w)
  {
    hide Fixed, Room, Base, Window, Span;
    FixedValue(n, w, m);
    DigitAt(Fixed(n, w, m), w, i);
  }

  // Digits are determined by their number and their count.
  lemma FixedUnique(digits: seq<nat>, w: nat)
    requires Below(digits, Base(w))
    ensures Value(digits, Base(w)) < Room(w, |digits|)
    ensures Fixed(Value(digits, Base(w)), w, |digits|) == digits
  {
    hide Fixed, Room, Base, Value, Window, Span, Below;
    BelowRoom(digits, w);
    var n := Value(digits, Base(w));
    forall i | 0 <= i < |digits|
      ensures Fixed(n, w, |digits|)[i] == digits[i]
    {
      FixedAt(n, w, |digits|, i);
      DigitAt(digits, w, i);
    }
  }

  // ---- dropping bits below ----

  // n without its lowest bits.
  function High(n: nat, lo: nat): nat {
    PowPositive(2, lo);
    Cut(n, Pow(2, lo))
  }

  // Its lowest bits.
  function Low(n: nat, lo: nat): nat {
    PowPositive(2, lo);
    Last(n, Pow(2, lo))
  }

  lemma HighHigh(n: nat, a: nat, b: nat)
    ensures High(High(n, a), b) == High(n, a + b)
  {
    PowPositive(2, a);
    PowPositive(2, b);
    PowAdd(2, a, b);
    DivideTwice(n, Pow(2, a), Pow(2, b));
  }

  lemma LowHigh(n: nat, a: nat, b: nat)
    ensures Low(High(n, a), b) == Window(n, a, b)
  {
  }

  lemma WindowOfHigh(n: nat, a: nat, b: nat, v: nat)
    ensures Window(High(n, a), b, v) == Window(n, a + b, v)
  {
    hide High, Low, Window;
    LowHigh(High(n, a), b, v);
    HighHigh(n, a, b);
    LowHigh(n, a + b, v);
  }

  // A number is given by its high and its low bits.
  lemma HighLow(n: nat, m: nat, lo: nat)
    requires High(n, lo) == High(m, lo) && Low(n, lo) == Low(m, lo)
    ensures n == m
  {
    PowPositive(2, lo);
    JoinCut(n, Pow(2, lo));
    JoinCut(m, Pow(2, lo));
  }

  // A window at the top of a short number is all that is left of it.
  lemma WindowAtTop(n: nat, lo: nat, v: nat)
    requires n < Pow(2, lo + v)
    ensures Window(n, lo, v) == High(n, lo)
  {
    PowPositive(2, lo);
    PowPositive(2, v);
    PowAdd(2, lo, v);
    CutBound(n, Pow(2, lo), Pow(2, v));
    hide Pow, Cut;
    RemainderUnique(Cut(n, Pow(2, lo)), 0, Cut(n, Pow(2, lo)), Pow(2, v));
  }

  lemma HighBound(n: nat, lo: nat, v: nat)
    requires n < Pow(2, lo + v)
    ensures High(n, lo) < Pow(2, v)
  {
    PowPositive(2, lo);
    PowAdd(2, lo, v);
    hide Pow;
    CutBound(n, Pow(2, lo), Pow(2, v));
  }

  function Raised(n: nat, up: nat): nat { n * Pow(2, up) }

  lemma RaisedBound(n: nat, up: nat, v: nat)
    requires n < Pow(2, v)
    ensures Raised(n, up) < Pow(2, v + up)
  {
    PowPositive(2, up);
    PowAdd(2, v, up);
    MulStrict(n, Pow(2, v), Pow(2, up));
  }

  lemma RaisedTwice(n: nat, a: nat, b: nat)
    ensures Raised(Raised(n, a), b) == Raised(n, a + b)
  {
    PowAdd(2, a, b);
    hide Pow;
    assert n * Pow(2, a) * Pow(2, b) == n * (Pow(2, a) * Pow(2, b));
  }

  // Dropping at least the bits that were appended.
  lemma HighOfRaised(n: nat, a: nat, b: nat)
    ensures High(Raised(n, a), a + b) == High(n, b)
  {
    PowPositive(2, a);
    HighHigh(Raised(n, a), a, b);
    QuotientUnique(Raised(n, a), n, 0, Pow(2, a));
    hide Pow;
  }

  // The appended bits and c more bits of the number.
  lemma LowOfRaised(n: nat, a: nat, c: nat)
    ensures Low(Raised(n, a), c + a) == Raised(Low(n, c), a)
  {
    var pa, pc := Pow(2, a), Pow(2, c);
    PowPositive(2, a);
    PowPositive(2, c);
    PowAdd(2, c, a);
    hide Pow;
    Quotient(n, pc);
    MulStrict(n % pc, pc, pa);
    Regroup(n / pc, pc, pa, n % pc);
    RemainderUnique(n * pa, n / pc, n % pc * pa, pc * pa);
  }
}
