/** Base 58: byte strings as strings over an alphabet of 58 characters, and back. */
module Base58 {
  import opened Division
  import opened LittleEndian
  import opened Positional
  import opened Powers

  const INVALID: nat := 0xffff_ffff

  // The digit that a character stands for.
  function CharValue(c: char): nat {
    if '1' <= c <= '9' then c as nat - '1' as nat
    else if 'A' <= c <= 'H' then c as nat + 9 - 'A' as nat
    else if 'J' <= c <= 'N' then c as nat + 17 - 'J' as nat
    else if 'P' <= c <= 'Z' then c as nat + 22 - 'P' as nat
    else if 'a' <= c <= 'k' then c as nat + 33 - 'a' as nat
    else if 'm' <= c <= 'z' then c as nat + 44 - 'm' as nat
    else INVALID
  }

  // The character that stands for a digit: the digits from 1, then the letters without I, O and l.
  function CharOf(d: nat): char
    requires d < 58
  {
    if d < 9 then ('1' as nat + d) as char
    else if d < 17 then ('A' as nat + (d - 9)) as char
    else if d < 22 then ('J' as nat + (d - 17)) as char
    else if d < 33 then ('P' as nat + (d - 22)) as char
    else if d < 44 then ('a' as nat + (d - 33)) as char
    else ('m' as nat + (d - 44)) as char
  }

  lemma CharsInverse(d: nat)
    requires d < 58
    ensures CharValue(CharOf(d)) == d
  {
  }

  lemma ValuesInverse(c: char)
    requires CharValue(c) < 58
    ensures CharOf(CharValue(c)) == c
  {
  }

  // The alphabet.
  lemma Alphabet(d: nat)
    requires d < 58
    ensures CharOf(d) == ("123456789" + "ABCDEFGH" + "JKLMN" + "PQRSTUVWXYZ" + "abcdefghijk" + "mnopqrstuvwxyz")[d]
  {
    if d < 9 {
      assert CharOf(d) == "123456789"[d];
    } else if d < 17 {
      assert CharOf(d) == "ABCDEFGH"[d - 9];
    } else if d < 22 {
      assert CharOf(d) == "JKLMN"[d - 17];
    } else if d < 33 {
      assert CharOf(d) == "PQRSTUVWXYZ"[d - 22];
    } else if d < 44 {
      assert CharOf(d) == "abcdefghijk"[d - 33];
    } else {
      assert CharOf(d) == "mnopqrstuvwxyz"[d - 44];
    }
  }

  // ---- the encoding ----

  function Chars(digits: seq<nat>): (s: string)
    requires Below(digits, 58)
    ensures |s| == |digits|
  {
    if digits == [] then [] else [CharOf(digits[0])] + Chars(digits[1..])
  }

  function CharValues(s: string): (digits: seq<nat>)
    ensures |digits| == |s|
  {
    if s == [] then [] else [CharValue(s[0])] + CharValues(s[1..])
  }

  lemma {:induction false} CharsAt(digits: seq<nat>, i: nat)
    requires Below(digits, 58) && i < |digits|
    ensures Chars(digits)[i] == CharOf(digits[i])
  {
    if i > 0 { CharsAt(digits[1..], i - 1); }
  }

  lemma {:induction false} CharValuesAt(s: string, i: nat)
    requires i < |s|
    ensures CharValues(s)[i] == CharValue(s[i])
  {
    if i > 0 { CharValuesAt(s[1..], i - 1); }
  }

  ghost predicate IsText(s: string) {
    forall i :: 0 <= i < |s| ==> CharValue(s[i]) < 58
  }

  // A digit zero for every leading zero byte, and the number in base 58.
  function Encoded(data: Bytes): string {
    Chars(Spelled(LeadingZeros(data), Value(data, 256)))
  }

  function Spelled(zeros: nat, n: nat): (digits: seq<nat>)
    ensures Below(digits, 58)
  {
    BelowSpelled(zeros, n, 58);
    Zeros(zeros) + Digits(n, 58)
  }

  function ByteSpelled(zeros: nat, n: nat): Bytes {
    BelowSpelled(zeros, n, 256);
    Zeros(zeros) + Digits(n, 256)
  }

  lemma BelowSpelled(zeros: nat, n: nat, base: nat)
    requires base > 1
    ensures Below(Zeros(zeros) + Digits(n, base), base)
  {
    hide *;
    DigitsValue(n, base);
    ZerosBelow(zeros, base);
    BelowBoth(Zeros(zeros), Digits(n, base), base);
  }

  lemma ZerosBelow(n: nat, base: nat)
    requires base > 1
    ensures Below(Zeros(n), base)
  {
    forall i | 0 <= i < n ensures Zeros(n)[i] < base {
      ZerosAt(n, i);
    }
  }

  lemma BelowBoth(a: seq<nat>, b: seq<nat>, base: nat)
    requires Below(a, base) && Below(b, base)
    ensures Below(a + b, base)
  {
  }

  // The text up to the first character outside the alphabet.
  function ValidPrefix(s: string): (p: string)
    ensures |p| <= |s|
  {
    if s == [] || CharValue(s[0]) >= 58 then [] else [s[0]] + ValidPrefix(s[1..])
  }

  lemma {:induction false} ValidPrefixMeaning(s: string)
    ensures var p := ValidPrefix(s); p == s[..|p|] && IsText(p) && (|p| < |s| ==> CharValue(s[|p|]) >= 58)
  {
    if s != [] && CharValue(s[0]) < 58 {
      ValidPrefixMeaning(s[1..]);
    }
  }

  // The bytes that the text stands for: decoding stops at the first character outside the alphabet.
  function Decoded(s: string): Bytes {
    var digits := CharValues(ValidPrefix(s));
    ByteSpelled(LeadingZeros(digits), Value(digits, 58))
  }

  lemma {:induction false} ValuesOfChars(digits: seq<nat>)
    requires Below(digits, 58)
    ensures CharValues(Chars(digits)) == digits && IsText(Chars(digits))
  {
    if digits != [] {
      CharsInverse(digits[0]);
      ValuesOfChars(digits[1..]);
      assert Chars(digits)[1..] == Chars(digits[1..]);
      hide CharOf, CharValue;
    }
  }

  lemma {:induction false} CharsOfValues(s: string)
    requires IsText(s)
    ensures Below(CharValues(s), 58) && Chars(CharValues(s)) == s
  {
    if s != [] {
      ValuesInverse(s[0]);
      CharsOfValues(s[1..]);
      assert CharValues(s)[1..] == CharValues(s[1..]);
      hide CharOf, CharValue;
    }
  }

  lemma PrefixOfText(s: string)
    requires IsText(s)
    ensures ValidPrefix(s) == s
  {
    ValidPrefixMeaning(s);
    assert |ValidPrefix(s)| == |s|;
  }

  // Decoding undoes encoding, on all byte strings.
  lemma DecodeEncode(data: Bytes)
    ensures Decoded(Encoded(data)) == data
  {
    var z, n := LeadingZeros(data), Value(data, 256);
    ValuesOfChars(Spelled(z, n));
    PaddedZeros(z, n, 58);
    assert Spelled(z, n) == Zeros(z) + Digits(n, 58);
    assert Below(data, 256);
    Canonical(data, 256);
    hide Digits, Value, LeadingZeros, Chars, CharValues, Spelled, IsText, ValidPrefix;
    PrefixOfText(Encoded(data));
  }

  // Encoding undoes decoding, on all strings over the alphabet.
  lemma EncodeDecode(s: string)
    requires IsText(s)
    ensures Encoded(Decoded(s)) == s
  {
    var digits := CharValues(s);
    var z, n := LeadingZeros(digits), Value(digits, 58);
    PrefixOfText(s);
    CharsOfValues(s);
    PaddedZeros(z, n, 256);
    Canonical(digits, 58);
    assert ByteSpelled(z, n) == Zeros(z) + Digits(n, 256);
    hide Digits, Value, LeadingZeros, Chars, CharValues, IsText, ValidPrefix, ByteSpelled;
  }

  // Any other string decodes as the part of it before the first character outside the alphabet: encoding gives back
  // exactly the strings over the alphabet.
  lemma DecodeInvalid(s: string)
    ensures Decoded(s) == Decoded(ValidPrefix(s)) && Encoded(Decoded(s)) == ValidPrefix(s)
    ensures Encoded(Decoded(s)) == s <==> IsText(s)
  {
    ValidPrefixMeaning(s);
    hide IsText, Encoded, ByteSpelled, Value, LeadingZeros, CharValues;
    PrefixOfText(ValidPrefix(s));
    EncodeDecode(ValidPrefix(s));
    if IsText(s) { PrefixOfText(s); }
  }

  // ---- the buffers ----

  // A power of a is at most a power of b when that holds for two powers whose exponents are in proportion.
  lemma PowersFit(a: nat, b: nat, e: nat, f: nat, n: nat, m: nat)
    requires b > 0 && e > 0 && Pow(a, e) <= Pow(b, f) && f * n <= m * e
    ensures Pow(a, n) <= Pow(b, m)
  {
    hide Pow;
    PowSwap(a, n, e);
    PowBase(Pow(a, e), Pow(b, f), n);
    PowChain(b, f, n, m, e);
    PowRoot(Pow(a, n), Pow(b, m), e);
  }

  lemma PowSwap(a: nat, n: nat, e: nat)
    ensures Pow(Pow(a, n), e) == Pow(Pow(a, e), n)
  {
    PowMul(a, n, e);
    PowMul(a, e, n);
    assert n * e == e * n;
  }

  lemma PowChain(b: nat, f: nat, n: nat, m: nat, e: nat)
    requires b > 0 && f * n <= m * e
    ensures Pow(Pow(b, f), n) <= Pow(Pow(b, m), e)
  {
    hide Pow;
    PowMul(b, f, n);
    PowMul(b, m, e);
    PowMonotonic(b, f * n, m * e);
  }

  // The sizes of the buffers for n bytes and for n characters.
  function CharsFor(n: nat): nat { n * 138 / 100 + 1 }

  function BytesFor(n: nat): nat { n * 733 / 1000 + 1 }

  lemma BytesFit(n: nat)
    ensures Pow(256, n) <= Pow(58, CharsFor(n))
  {
    Ratio11To8();
    hide Pow;
    PowersFit(256, 58, 8, 11, n, CharsFor(n));
  }

  lemma CharsFit(n: nat)
    ensures Pow(58, n) <= Pow(256, BytesFor(n))
  {
    Ratio52To71();
    hide Pow;
    PowersFit(58, 256, 71, 52, n, BytesFor(n));
  }

  lemma Ratio11To8()
    ensures Pow(256, 8) <= Pow(58, 11)
  {
    assert Pow(256, 4) == 0x1_0000_0000;
    assert Pow(58, 5) == 656356768;
    PowAdd(256, 4, 4);
    PowAdd(58, 5, 5);
    PowAdd(58, 1, 10);
  }

  lemma Ratio52To71()
    ensures Pow(58, 71) <= Pow(256, 52)
  {
    Pow58();
    Pow256();
  }

  lemma Pow58()
    ensures Pow(58, 71) == 0xf1a10f76073f997e1af0b37f5c795ecf145633452837a5de3fa17ac74b86f60a0ebe5446f358940a4ca12a800000000000000000
  {
    assert Pow(58, 1) == 58;
    PowAdd(58, 1, 1);
    assert Pow(58, 2) == 0xd24;
    PowAdd(58, 2, 2);
    assert Pow(58, 4) == 0xacad10;
    PowAdd(58, 4, 4);
    assert Pow(58, 8) == 0x7479027ea100;
    PowAdd(58, 8, 8);
    assert Pow(58, 16) == 0x34fde3761da26b26e1410000;
    PowAdd(58, 16, 16);
    assert Pow(58, 32) == 0xaf820335d9b3d9cf58b911d87035677fb7f528100000000;
    PowAdd(58, 32, 32);
    assert Pow(58, 64) == 0x7853026ae25f4ce0c69893e6f1f86f67aef4db69563516064adeb967a9d66f4fe64b09ec94e5010000000000000000;
    PowAdd(58, 1, 2);
    PowAdd(58, 3, 4);
    assert Pow(58, 7) == 0x202161caa80;
    PowAdd(58, 7, 64);
  }

  lemma Pow256()
    ensures Pow(256, 52) == 0x100000000000000000000000000000000000000000000000000000000000000000000000000000000000000000000000000000000
  {
    assert Pow(256, 1) == 256;
    PowAdd(256, 1, 1);
    assert Pow(256, 2) == 0x10000;
    PowAdd(256, 2, 2);
    assert Pow(256, 4) == 0x100000000;
    PowAdd(256, 4, 4);
    assert Pow(256, 8) == 0x10000000000000000;
    PowAdd(256, 8, 8);
    assert Pow(256, 16) == 0x100000000000000000000000000000000;
    PowAdd(256, 16, 16);
    assert Pow(256, 32) == 0x10000000000000000000000000000000000000000000000000000000000000000;
    PowAdd(256, 4, 16);
    assert Pow(256, 20) == 0x10000000000000000000000000000000000000000;
    PowAdd(256, 20, 32);
  }

  // ---- the digit buffer ----

  lemma ValueOne(d: nat, base: nat)
    ensures Value([d], base) == d
  {
    assert [d][..0] == [] && Value([], base) == 0;
  }

  // One digit of multiplying a number by mul and adding the carry.
  lemma CarryStep(head: nat, x: nat, tail: seq<nat>, mul: nat, base: nat, carry: nat)
    requires base > 0
    ensures var d := Last(carry + x * mul, base);
      Shifted(Join(Join(head, base, x), mul, carry), base, |tail|) + Value(tail, base)
        == Shifted(Join(head, mul, Cut(carry + x * mul, base)), base, |tail| + 1) + Value([d] + tail, base)
  {
    hide *;
    var c := carry + x * mul;
    var d, q := Last(c, base), Cut(c, base);
    ValueAppend([d], tail, base);
    ValueOne(d, base);
    JoinCut(c, base);
    CarryJoin(head, x, mul, base, carry, q, d);
    ShiftedUp(Join(head, mul, q), base, |tail|, d);
  }

  lemma CarryJoin(head: nat, x: nat, mul: nat, base: nat, carry: nat, q: nat, d: nat)
    requires carry + x * mul == Join(q, base, d)
    ensures Join(Join(head, base, x), mul, carry) == Join(Join(head, mul, q), base, d)
  {
    assert (head * base + x) * mul == head * base * mul + x * mul;
    assert (head * mul + q) * base == head * base * mul + q * base;
  }

  lemma ShiftedUp(a: nat, base: nat, count: nat, d: nat)
    ensures Shifted(Join(a, base, d), base, count) == Shifted(a, base, count + 1) + Shifted(d, base, count)
  {
    var p := Pow(base, count);
    assert Pow(base, count + 1) == base * p;
    hide Pow;
    assert (a * base + d) * p == a * (base * p) + d * p;
  }

  // Multiplies the number in the buffer by mul and adds digit. No carry leaves the buffer.
  method MulAdd(buf: array<Byte>, mul: nat, base: nat, digit: nat)
    requires digit < mul <= 256 && 1 < base <= 256 && Below(buf[..], base)
    requires Join(Value(buf[..], base), mul, digit) < Pow(base, buf.Length)
    modifies buf
    ensures Below(buf[..], base) && Value(buf[..], base) == old(Join(Value(buf[..], base), mul, digit))
  {
    ghost var was := buf[..];
    var carry: nat := digit;
    var j := buf.Length;
    hide *;
    assert was[..j] == was && buf[j..] == [];
    StartCarry(was, mul, base, digit);
    while j > 0
      invariant 0 <= j <= buf.Length && carry < mul && Below(buf[..], base)
      invariant Carrying(buf[..], j, mul, base, carry) == Join(Value(was, base), mul, digit)
    {
      carry := StepCarry(buf, j, mul, base, carry);
      j := j - 1;
    }
    NoCarry(buf[..], mul, base, carry);
  }

  // The number that a pass from the end has yet to multiply, with its carry, above the digits that are done.
  ghost function Carrying(buf: seq<nat>, j: nat, mul: nat, base: nat, carry: nat): nat
    requires j <= |buf|
  {
    Shifted(Join(Value(buf[..j], base), mul, carry), base, |buf| - j) + Value(buf[j..], base)
  }

  // One digit of the pass.
  method StepCarry(buf: array<Byte>, j: nat, mul: nat, base: nat, carry: nat) returns (next: nat)
    requires 0 < j <= buf.Length && carry < mul <= 256 && 1 < base <= 256 && Below(buf[..], base)
    modifies buf
    ensures next < mul && Below(buf[..], base)
    ensures Carrying(buf[..], j - 1, mul, base, next) == old(Carrying(buf[..], j, mul, base, carry))
  {
    ghost var was: seq<nat> := buf[..];
    BelowAt(was, j - 1, base);
    DigitStep(was, j, mul, base, carry);
    hide *;
    var sum: Word32 := carry + buf[j - 1] * mul;
    BelowSet(was, j - 1, Last(sum, base), base);
    buf[j - 1] := Last(sum, base);
    next := Cut(sum, base);
    assert buf[..] == was[j - 1 := Last(sum, base)];
  }

  lemma BelowAt(digits: seq<nat>, i: nat, base: nat)
    requires Below(digits, base) && i < |digits|
    ensures digits[i] < base
  {
  }

  lemma BelowSet(digits: seq<nat>, i: nat, d: nat, base: nat)
    requires Below(digits, base) && i < |digits| && d < base
    ensures Below(digits[i := d], base)
  {
  }

  lemma DigitStep(was: seq<nat>, j: nat, mul: nat, base: nat, carry: nat)
    requires 0 < j <= |was| && carry < mul <= 256 && was[j - 1] < base <= 256
    ensures var sum := carry + was[j - 1] * mul;
      && sum < 0x1_0000_0000 && Cut(sum, base) < mul && Last(sum, base) < base
      && Carrying(was[j - 1 := Last(sum, base)], j - 1, mul, base, Cut(sum, base))
           == Carrying(was, j, mul, base, carry)
  {
    var sum := carry + was[j - 1] * mul;
    var next := was[j - 1 := Last(sum, base)];
    assert was[..j][..j - 1] == was[..j - 1] == next[..j - 1];
    assert next[j - 1..] == [Last(sum, base)] + was[j..];
    ValueInit(was[..j], base);
    hide Value, Join, Shifted, Cut, Last;
    CarryStep(Value(was[..j - 1], base), was[j - 1], was[j..], mul, base, carry);
    CarryBound(carry, was[j - 1], mul, base);
  }

  lemma StartCarry(was: seq<nat>, mul: nat, base: nat, digit: nat)
    ensures Carrying(was, |was|, mul, base, digit) == Join(Value(was, base), mul, digit)
  {
    assert Pow(base, 0) == 1 && was[..|was|] == was;
  }

  lemma ValueInit(digits: seq<nat>, base: nat)
    requires digits != []
    ensures Value(digits, base) == Join(Value(digits[..|digits| - 1], base), base, digits[|digits| - 1])
  {
  }

  lemma CarryBound(carry: nat, x: nat, mul: nat, base: nat)
    requires carry < mul <= 256 && x < base <= 256
    ensures carry + x * mul < 0x1_0000_0000
    ensures Cut(carry + x * mul, base) < mul && Last(carry + x * mul, base) < base
  {
    MulMonotonic(x, 255, mul, 256);
    JoinCut(carry + x * mul, base);
    MulMonotonic(x + 1, base, mul, mul);
    assert (x + 1) * mul == x * mul + mul;
    if Cut(carry + x * mul, base) >= mul {
      MulMonotonic(mul, Cut(carry + x * mul, base), base, base);
    }
  }

  // A carry would not leave the number below the power that the buffer has room for.
  lemma NoCarry(buf: seq<nat>, mul: nat, base: nat, carry: nat)
    requires Carrying(buf, 0, mul, base, carry) < Pow(base, |buf|)
    ensures Carrying(buf, 0, mul, base, carry) == Value(buf, base)
  {
    assert buf[..0] == [] && buf[0..] == buf;
    assert Join(Value([], base), mul, carry) == carry;
    if carry > 0 { MulMonotonic(1, carry, Pow(base, |buf|), Pow(base, |buf|)); }
  }

  // ---- encoding and decoding ----

  method FirstNonzero(buf: array<Byte>) returns (i: nat)
    ensures i == LeadingZeros(buf[..])
  {
    i := 0;
    while i < buf.Length && buf[i] == 0
      invariant i <= buf.Length && forall k :: 0 <= k < i ==> buf[k] == 0
    {
      i := i + 1;
    }
    ZerosUpTo(buf[..], i);
  }

  // The number of bytes in base 58.
  method ToBase58(data: Bytes, zcount: nat) returns (buf: array<Byte>)
    requires zcount == LeadingZeros(data)
    ensures fresh(buf) && Below(buf[..], 58) && Value(buf[..], 58) == Value(data, 256)
  {
    ghost var rest := data[zcount..];
    DropZeros(data, 256);
    EmptyValue(256);
    hide *;
    buf := NewBuffer(CharsFor(|data| - zcount), 58);
    assert rest[..0] == [];
    var i := zcount;
    while i < |data|
      invariant zcount <= i <= |data|
      invariant Below(buf[..], 58) && Value(buf[..], 58) == Value(rest[..i - zcount], 256)
    {
      RoomForByte(rest, i - zcount);
      MulAdd(buf, 256, 58, data[i]);
      i := i + 1;
    }
    assert rest[..i - zcount] == rest;
  }

  lemma ZeroBuffer(buf: seq<nat>, base: nat)
    requires forall i :: 0 <= i < |buf| ==> buf[i] == 0
    ensures Value(buf, base) == 0
  {
    ValueZeros(|buf|, base);
    IsZeros(buf);
  }

  lemma EmptyValue(base: nat)
    ensures Value([], base) == 0
  {
  }

  lemma RoomForByte(rest: Bytes, k: nat)
    requires k < |rest|
    ensures Value(rest[..k + 1], 256) == Join(Value(rest[..k], 256), 256, rest[k])
    ensures Value(rest[..k + 1], 256) < Pow(58, CharsFor(|rest|))
  {
    ValueInit(rest[..k + 1], 256);
    assert rest[..k + 1][..k] == rest[..k];
    hide Value, Join, Pow;
    ValueBound(rest[..k + 1], 256);
    PowMonotonic(256, k + 1, |rest|);
    BytesFit(|rest|);
  }

  // Writes the text and its terminator, or returns the length that they need if there is no buffer.
  method Encode(str: array?<char>, data: Bytes) returns (len: nat)
    modifies str
    ensures len == if str == null || |Encoded(data)| + 1 <= str.Length then |Encoded(data)| + 1 else 0
    ensures str != null && len > 0 ==> str[..len] == Encoded(data) + ['\0'] && str[len..] == old(str[len..])
    ensures str != null && len == 0 ==> str[..] == old(str[..])
  {
    var zcount := 0;
    while zcount < |data| && data[zcount] == 0
      invariant zcount <= |data| && forall k :: 0 <= k < zcount ==> data[k] == 0
    {
      zcount := zcount + 1;
    }
    ZerosUpTo(data, zcount);
    var buf := ToBase58(data, zcount);
    var i := FirstNonzero(buf);
    EncodedText(data, buf[..], i);
    len := zcount + buf.Length - i + 1;
    if str != null && len <= str.Length {
      WriteText(str, buf, zcount, i);
    }
    if str != null && len > str.Length {
      len := 0;
    }
  }

  // The text that the buffer holds: a character for each leading zero byte and one for each digit from i on.
  lemma EncodedText(data: Bytes, buf: seq<nat>, i: nat)
    requires Below(buf, 58) && Value(buf, 58) == Value(data, 256) && i == LeadingZeros(buf)
    ensures var digits := Zeros(LeadingZeros(data)) + buf[i..];
      Below(digits, 58) && Encoded(data) == Chars(digits)
  {
    var z, n := LeadingZeros(data), Value(data, 256);
    DigitsOfBuffer(buf, 58);
    assert Spelled(z, n) == Zeros(z) + buf[i..];
    hide Value, Digits, LeadingZeros, Spelled, Chars;
  }

  lemma SpelledAt(zeros: nat, rest: seq<nat>, i: nat)
    requires i < zeros + |rest|
    ensures (Zeros(zeros) + rest)[i] == if i < zeros then 0 else rest[i - zeros]
  {
    if i < zeros { ZerosAt(zeros, i); }
  }

  method WriteText(str: array<char>, buf: array<Byte>, zcount: nat, first: nat)
    requires first <= buf.Length && zcount + buf.Length - first < str.Length
    requires Below(Zeros(zcount) + buf[first..], 58)
    modifies str
    ensures var len := zcount + buf.Length - first;
      str[..len + 1] == Chars(Zeros(zcount) + buf[first..]) + ['\0'] && str[len + 1..] == old(str[len + 1..])
  {
    hide *;
    ghost var digits: seq<nat> := Zeros(zcount) + buf[first..];
    ghost var chars := Chars(digits);
    var at := 0;
    while at < zcount
      invariant 0 <= at <= zcount && forall k :: 0 <= k < at ==> str[k] == chars[k]
      invariant forall k :: at <= k < str.Length ==> str[k] == old(str[k])
    {
      SpelledAt(zcount, buf[first..], at);
      CharsAt(digits, at);
      str[at] := CharOf(0);
      at := at + 1;
    }
    var i := first;
    while i < buf.Length
      invariant first <= i <= buf.Length && at == zcount + i - first
      invariant forall k :: 0 <= k < at ==> str[k] == chars[k]
      invariant forall k :: at <= k < str.Length ==> str[k] == old(str[k])
    {
      SpelledAt(zcount, buf[first..], at);
      assert buf[first..][i - first] == buf[i];
      BelowAt(digits, at, 58);
      CharsAt(digits, at);
      str[at] := CharOf(buf[i]);
      i := i + 1;
      at := at + 1;
    }
    str[at] := '\0';
  }

  // The number of the text from its first character other than '1' on, in bytes.
  method ToBytes(str: string, zcount: nat) returns (buf: array<Byte>)
    requires zcount == LeadingZeros(CharValues(ValidPrefix(str)))
    ensures fresh(buf) && Below(buf[..], 256)
    ensures Value(buf[..], 256) == Value(CharValues(ValidPrefix(str)), 58)
  {
    hide *;
    ghost var digits := CharValues(ValidPrefix(str));
    DropZeros(digits, 58);
    ValidPrefixMeaning(str);
    CharsOfValues(ValidPrefix(str));
    RestBelow(digits, zcount);
    ghost var rest := digits[zcount..];
    EmptyValue(58);
    buf := NewBuffer(BytesFor(|str| - zcount), 256);
    assert rest[..0] == [];
    var i, stop := zcount, false;
    while i < |str| && !stop
      invariant zcount <= i <= |digits|
      invariant Below(buf[..], 256) && Value(buf[..], 256) == Value(rest[..i - zcount], 58)
      invariant stop ==> i == |digits|
      decreases |str| - i, !stop
    {
      var carry: nat := CharValue(str[i]);
      PrefixStep(str, i);
      if carry >= 58 {
        stop := true;
      } else {
        AddChar(buf, rest, i - zcount, |str| - zcount, carry);
        i := i + 1;
      }
    }
    assert rest[..i - zcount] == rest;
  }

  method NewBuffer(size: nat, base: nat) returns (buf: array<Byte>)
    requires base > 0
    ensures fresh(buf) && buf.Length == size && Below(buf[..], base) && Value(buf[..], base) == 0
  {
    buf := new Byte[size](_ => 0);
    ZeroBuffer(buf[..], base);
  }

  method AddChar(buf: array<Byte>, ghost rest: seq<nat>, ghost k: nat, n: nat, digit: nat)
    requires k < |rest| <= n && Below(rest, 58) && buf.Length == BytesFor(n) && digit == rest[k]
    requires Below(buf[..], 256) && Value(buf[..], 256) == Value(rest[..k], 58)
    modifies buf
    ensures Below(buf[..], 256) && Value(buf[..], 256) == Value(rest[..k + 1], 58)
  {
    BelowAt(rest, k, 58);
    RoomForChar(rest, k, n);
    hide *;
    MulAdd(buf, 58, 256, digit);
  }

  lemma RestBelow(digits: seq<nat>, z: nat)
    requires Below(digits, 58) && z <= |digits|
    ensures Below(digits[z..], 58)
  {
  }

  // The character after a part of the valid prefix ends it, or belongs to it as well.
  lemma PrefixStep(str: string, i: nat)
    requires i <= |ValidPrefix(str)| && i < |str|
    ensures var digits := CharValues(ValidPrefix(str));
      && |digits| <= |str| && Below(digits, 58)
      && (if CharValue(str[i]) >= 58 then i == |digits| else i < |digits| && digits[i] == CharValue(str[i]))
  {
    var p := ValidPrefix(str);
    ValidPrefixMeaning(str);
    CharsOfValues(p);
    if i < |p| {
      assert p[i] == str[i];
      CharValuesAt(p, i);
    }
  }

  lemma RoomForChar(rest: seq<nat>, k: nat, n: nat)
    requires k < |rest| <= n && Below(rest, 58)
    ensures Value(rest[..k + 1], 58) == Join(Value(rest[..k], 58), 58, rest[k])
    ensures Value(rest[..k + 1], 58) < Pow(256, BytesFor(n))
  {
    ValueInit(rest[..k + 1], 58);
    assert rest[..k + 1][..k] == rest[..k];
    hide Value, Join, Pow;
    ValueBound(rest[..k + 1], 58);
    PowMonotonic(58, k + 1, n);
    CharsFit(n);
  }

  // Writes the bytes, or returns the length that they need if there is no buffer.
  method Decode(data: array?<Byte>, str: string) returns (len: nat)
    modifies data
    ensures len == if data == null || |Decoded(str)| <= data.Length then |Decoded(str)| else 0
    ensures data != null && |Decoded(str)| <= data.Length ==>
      data[..len] == Decoded(str) && data[len..] == old(data[len..])
    ensures data != null && |Decoded(str)| > data.Length ==> data[..] == old(data[..])
  {
    var zcount := 0;
    while zcount < |str| && str[zcount] == CharOf(0)
      invariant zcount <= |str| && forall k :: 0 <= k < zcount ==> str[k] == CharOf(0)
    {
      zcount := zcount + 1;
    }
    LeadingOnes(str, zcount);
    var buf := ToBytes(str, zcount);
    var i := FirstNonzero(buf);
    DigitsOfBuffer(buf[..], 256);
    ghost var n := Value(CharValues(ValidPrefix(str)), 58);
    assert Decoded(str) == ByteSpelled(zcount, n) == Zeros(zcount) + buf[i..];
    hide *;
    len := zcount + buf.Length - i;
    if data != null && len <= data.Length {
      WriteBytes(data, buf, zcount, i);
    }
    if data != null && len > data.Length {
      len := 0;
    }
  }

  lemma LeadingOnes(str: string, z: nat)
    requires z <= |str| && (forall k :: 0 <= k < z ==> str[k] == CharOf(0)) && (z < |str| ==> str[z] != CharOf(0))
    ensures LeadingZeros(CharValues(ValidPrefix(str))) == z
  {
    var p := ValidPrefix(str);
    ValidPrefixMeaning(str);
    CharsInverse(0);
    hide CharOf, CharValue, ValidPrefix, CharValues;
    forall k | 0 <= k < |p|
      ensures k < z ==> CharValues(p)[k] == 0
      ensures k == z ==> CharValues(p)[k] != 0
    {
      CharValuesAt(p, k);
      ValuesInverse(p[k]);
    }
    ZerosUpTo(CharValues(p), z);
  }

  method WriteBytes(data: array<Byte>, buf: array<Byte>, zcount: nat, first: nat)
    requires first <= buf.Length && zcount + buf.Length - first <= data.Length && data != buf
    modifies data
    ensures var len := zcount + buf.Length - first;
      data[..len] == Zeros(zcount) + buf[first..] && data[len..] == old(data[len..])
  {
    var at := 0;
    while at < zcount
      invariant 0 <= at <= zcount && data[..at] == Zeros(at) && data[at..] == old(data[at..])
    {
      data[at] := 0;
      at := at + 1;
      ZerosBack(at);
    }
    var i := first;
    assert buf[first..first] == [];
    while i < buf.Length
      invariant first <= i <= buf.Length && at == zcount + i - first && data[at..] == old(data[at..])
      invariant data[..at] == Zeros(zcount) + buf[first..i]
    {
      data[at] := buf[i];
      assert buf[first..i + 1] == buf[first..i] + [buf[i]];
      i := i + 1;
      at := at + 1;
    }
  }

  // ---- with a checksum ----

  // A text never decodes to more bytes than it has characters: the buffer that checking uses is large enough.
  lemma DecodedLength(s: string)
    ensures |Decoded(s)| <= |s|
  {
    hide Value, Digits, LeadingZeros, ValidPrefix, CharValues, Below, Pow;
    var digits := CharValues(ValidPrefix(s));
    var z := LeadingZeros(digits);
    ValidPrefixMeaning(s);
    CharsOfValues(ValidPrefix(s));
    RestBelow(digits, z);
    DropZeros(digits, 58);
    ValueBound(digits[z..], 58);
    PowBase(58, 256, |digits| - z);
    DigitsLength(Value(digits, 58), 256, |digits| - z);
  }

  // A known pair of bytes and text: in base 58 the number of 62 62 62 is 33, 2, 39, 28.
  lemma KnownText()
    ensures Encoded([0x00, 0x62, 0x62, 0x62]) == "1a3gV"
  {
    hide *;
    KnownDigits();
    KnownChars();
    KnownZeros();
    Canonical([0, 33, 2, 39, 28], 58);
    EncodedIs([0x00, 0x62, 0x62, 0x62], 1, 6447714, [0, 33, 2, 39, 28]);
  }

  lemma EncodedIs(data: Bytes, zeros: nat, n: nat, digits: seq<nat>)
    requires LeadingZeros(data) == zeros && Value(data, 256) == n
    requires Below(digits, 58) && digits == Zeros(zeros) + Digits(n, 58)
    ensures Encoded(data) == Chars(digits)
  {
    hide LeadingZeros, Value, Chars, Digits;
  }

  lemma KnownDigits()
    ensures Value([0x00, 0x62, 0x62, 0x62], 256) == 6447714 && Value([0, 33, 2, 39, 28], 58) == 6447714
  {
    hide *;
    KnownStart();
    NextIs([0], 0x62, 256, 0, [0, 0x62]);
    NextIs([0, 0x62], 0x62, 256, 98, [0, 0x62, 0x62]);
    NextIs([0, 0x62, 0x62], 0x62, 256, 25186, [0, 0x62, 0x62, 0x62]);
    NextIs([0], 33, 58, 0, [0, 33]);
    NextIs([0, 33], 2, 58, 33, [0, 33, 2]);
    NextIs([0, 33, 2], 39, 58, 1916, [0, 33, 2, 39]);
    NextIs([0, 33, 2, 39], 28, 58, 111167, [0, 33, 2, 39, 28]);
  }

  lemma NextIs(digits: seq<nat>, d: nat, base: nat, n: nat, digits': seq<nat>)
    requires Value(digits, base) == n && digits' == digits + [d]
    ensures Value(digits', base) == n * base + d
  {
    assert digits'[..|digits|] == digits;
    hide Value;
  }

  lemma KnownStart()
    ensures Value([0], 256) == Value([0], 58) == 0
  {
    assert Value([], 256) == Value([], 58) == 0;
  }

  lemma KnownChars()
    ensures Below([0, 33, 2, 39, 28], 58) && Chars([0, 33, 2, 39, 28]) == "1a3gV"
  {
    assert Chars([28]) == "V";
    assert [39, 28][1..] == [28] && Chars([39, 28]) == "gV";
    assert [2, 39, 28][1..] == [39, 28] && Chars([2, 39, 28]) == "3gV";
    assert [33, 2, 39, 28][1..] == [2, 39, 28] && Chars([33, 2, 39, 28]) == "a3gV";
    assert [0, 33, 2, 39, 28][1..] == [33, 2, 39, 28];
  }

  lemma KnownZeros()
    ensures LeadingZeros([0x00, 0x62, 0x62, 0x62]) == 1 && LeadingZeros([0, 33, 2, 39, 28]) == 1
  {
  }

  // The bytes that a text stands for without their checksum, or none when it is wrong.
  function Checked(sum: Bytes -> Bytes, s: string): Bytes { TakenOff(sum, Decoded(s)) }

  function TakenOff(sum: Bytes -> Bytes, all: Bytes): Bytes {
    if |all| >= 4 && all[|all| - 4..] == sum(all[..|all| - 4]) then all[..|all| - 4] else []
  }

  lemma CheckedRoundTrip(sum: Bytes -> Bytes, data: Bytes)
    requires |sum(data)| == 4
    ensures Checked(sum, Encoded(data + sum(data))) == data
  {
    DecodeEncode(data + sum(data));
    assert (data + sum(data))[..|data|] == data && (data + sum(data))[|data|..] == sum(data);
    hide Decoded, Encoded;
  }

  // A text stands for data exactly when it begins with the encoding of the data and its checksum, and with no longer text
  // over the alphabet: a wrong checksum is rejected.
  lemma CheckedIff(sum: Bytes -> Bytes, s: string, data: Bytes)
    requires data != [] && |sum(data)| == 4
    ensures Checked(sum, s) == data <==> ValidPrefix(s) == Encoded(data + sum(data))
  {
    hide Decoded, Encoded, ValidPrefix;
    DecodeInvalid(s);
    DecodeEncode(data + sum(data));
    assert (data + sum(data))[..|data|] == data && (data + sum(data))[|data|..] == sum(data);
    if Checked(sum, s) == data {
      assert Decoded(s) == data + Decoded(s)[|data|..];
    }
  }

  // Encodes the data and its checksum.
  method CheckEncode(str: array?<char>, sum: Bytes -> Bytes, data: Bytes) returns (len: nat)
    modifies str
    ensures var text := Encoded(data + sum(data));
      && len == (if str == null || |text| + 1 <= str.Length then |text| + 1 else 0)
      && (str != null && len > 0 ==> str[..len] == text + ['\0'] && str[len..] == old(str[len..]))
      && (str != null && len == 0 ==> str[..] == old(str[..]))
  {
    hide Encoded;
    len := Encode(str, data + sum(data));
  }

  // Decodes into a buffer of its own, and copies what is left when the checksum is right and taken off.
  method CheckDecode(data: array?<Byte>, sum: Bytes -> Bytes, str: string) returns (len: nat)
    modifies data
    ensures var d := Checked(sum, str);
      && len == (if data == null || |d| <= data.Length then |d| else 0)
      && (data != null && |d| <= data.Length ==> data[..len] == d && data[len..] == old(data[len..]))
      && (data != null && |d| > data.Length ==> data[..] == old(data[..]))
  {
    hide *;
    DecodedLength(str);
    var buf := NewBuffer(|str|, 256);
    len := Decode(buf, str);
    len := TakeOff(buf, len, sum);
    CheckedIs(sum, str);
    if data != null && len <= data.Length { CopyTo(data, buf, len); }
    if data != null && len > data.Length { len := 0; }
  }

  lemma CheckedIs(sum: Bytes -> Bytes, s: string)
    ensures Checked(sum, s) == TakenOff(sum, Decoded(s))
  {
  }

  // The bytes without their checksum, if it is right.
  method TakeOff(buf: array<Byte>, len: nat, sum: Bytes -> Bytes) returns (n: nat)
    requires len <= buf.Length
    ensures n <= buf.Length && buf[..n] == TakenOff(sum, buf[..len])
  {
    n := 0;
    ghost var all := buf[..len];
    if len >= 4 {
      assert all[..len - 4] == buf[..len - 4] && all[len - 4..] == buf[len - 4..len];
      if buf[len - 4..len] == sum(buf[..len - 4]) { n := len - 4; }
    }
  }

  method CopyTo(data: array<Byte>, buf: array<Byte>, len: nat)
    requires len <= data.Length && len <= buf.Length && data != buf
    modifies data
    ensures data[..len] == buf[..len] && data[len..] == old(data[len..])
  {
    for i := 0 to len
      invariant data[..i] == buf[..i] && forall k :: i <= k < data.Length ==> data[k] == old(data[k])
    {
      data[i] := buf[i];
    }
  }
}
