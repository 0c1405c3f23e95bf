/**
 BIP 39: entropy as a phrase of words that carries a checksum, and back. Both directions take bits out of byte and
 word positions by index formulas; here the bits are windows of one number.
 */
module Bip39 {
  import opened LittleEndian
  import opened Positional
  import opened Powers
  import opened Windows

  // Distinct nonempty words without spaces.
  ghost predicate IsWordList(list: seq<string>) {
    && |list| == 2048
    && (forall i :: 0 <= i < 2048 ==> IsWord(list[i]))
    && (forall i, j :: 0 <= i < j < 2048 ==> list[i] != list[j])
  }

  ghost predicate IsWord(word: string) { word != "" && forall k :: 0 <= k < |word| ==> word[k] != ' ' }

  ghost predicate IsDigest(sha: Bytes -> Bytes) { forall x: Bytes :: |sha(x)| == 32 }

  lemma WordOf(list: seq<string>, i: nat)
    requires IsWordList(list)
    ensures |list| == 2048 && (i < 2048 ==> IsWord(list[i]))
  {
  }

  lemma BaseValues()
    ensures Base(8) == 256 && Base(11) == 2048
  {
    assert Pow(2, 4) == 16;
    PowAdd(2, 4, 4);
    PowAdd(2, 3, 8);
  }

  // ---- the bits ----

  // 4k bytes of entropy and the first k bits of its digest, as a number. Up to 940 bytes, all the words that are taken
  // from both lie within them.
  function Checksummed(sha: Bytes -> Bytes, data: Bytes): nat
    requires |data| <= 940
  {
    High(Value(data + sha(data), 256), 256 - |data| / 4)
  }

  // Its 3k words of 11 bits.
  function Indices(sha: Bytes -> Bytes, data: Bytes): seq<nat>
    requires |data| <= 940
  {
    Fixed(Checksummed(sha, data), 11, |data| * 3 / 4)
  }

  // The bytes of 3k words of 11 bits: 4k of them, and a last one that starts with the k bits that are left.
  function Unpacked(idx: seq<nat>): seq<nat>
    requires |idx| <= 24
  {
    var k := |idx| / 3;
    Fixed(Raised(Value(idx, 2048), 8 - k), 8, 4 * k + 1)
  }

  lemma ByteBelow(s: Bytes)
    ensures Below(s, Base(8))
  {
    BaseValues();
  }

  lemma ChecksummedBound(sha: Bytes -> Bytes, data: Bytes, k: nat)
    requires |data| == 4 * k <= 940 && |sha(data)| == 32
    ensures Value(data + sha(data), 256) < Pow(2, 256 + 32 * k) && Checksummed(sha, data) < Room(11, 3 * k)
  {
    BaseValues();
    ByteBelow(data + sha(data));
    hide Value, Pow, Base, High;
    BelowRoom(data + sha(data), 8);
    HighBound(Value(data + sha(data), 256), 256 - k, 33 * k);
  }

  // The checksummed number is the entropy followed by the leading bits of its digest.
  lemma ChecksummedParts(sha: Bytes -> Bytes, data: Bytes, k: nat)
    requires |data| == 4 * k <= 32 && |sha(data)| == 32
    ensures High(Checksummed(sha, data), k) == Value(data, 256)
    ensures Low(Checksummed(sha, data), k) == High(sha(data)[0], 8 - k)
  {
    hide *;
    var all := data + sha(data);
    var s := Value(all, 256);
    ChecksummedBound(sha, data, k);
    ChecksummedIs(sha, data, k);
    HighHigh(s, 256 - k, k);
    LowHigh(s, 256 - k, k);
    HeadBits(all, |data|);
    assert all[..|data|] == data && all[|data|] == sha(data)[0];
    WindowAtTop(s, 256, 32 * k);
    TopBits(s, k);
  }

  // The first m of m + 32 bytes are the bits from 256 on, and the next byte the eight bits below.
  lemma HeadBits(all: Bytes, m: nat)
    requires |all| == m + 32
    ensures Value(all[..m], 256) == Window(Value(all, 256), 256, 8 * m)
    ensures all[m] == Window(Value(all, 256), 248, 8)
  {
    BaseValues();
    ByteBelow(all);
    hide Value, Pow, Base, Window;
    assert all[0..m] == all[..m];
    Slice(all, 8, 0, m);
    DigitAt(all, 8, m);
  }

  // The leading k bits of the byte at bit 248.
  lemma TopBits(s: nat, k: nat)
    requires k <= 8
    ensures High(Window(s, 248, 8), 8 - k) == Window(s, 256 - k, k)
  {
    WindowBound(s, 248, 8);
    hide High, Low, Window, Pow;
    WindowAtTop(Window(s, 248, 8), 8 - k, k);
    WindowOfWindow(s, 248, 8, 8 - k, k);
  }

  lemma WindowBound(n: nat, lo: nat, w: nat)
    ensures Window(n, lo, w) < Pow(2, w)
  {
    PowPositive(2, lo);
    PowPositive(2, w);
    hide Pow, Cut;
  }

  // The unpacked bytes hold the high bits of the words, and the low ones at the start of the last byte.
  lemma UnpackedParts(idx: seq<nat>, k: nat)
    requires |idx| == 3 * k <= 24 && Below(idx, 2048)
    ensures var bytes, v := Unpacked(idx), Value(idx, 2048);
      && |bytes| == 4 * k + 1 && Below(bytes, 256)
      && Value(bytes[..4 * k], 256) == High(v, k) && High(bytes[4 * k], 8 - k) == Low(v, k)
  {
    var v := Value(idx, 2048);
    var u := Raised(v, 8 - k);
    hide *;
    RaisedRoom(idx, k);
    UnpackedIs(idx, k);
    BytesOfBits(Unpacked(idx), u, v, k);
  }

  lemma UnpackedIs(idx: seq<nat>, k: nat)
    requires |idx| == 3 * k <= 24
    ensures Unpacked(idx) == Fixed(Raised(Value(idx, 2048), 8 - k), 8, 4 * k + 1)
  {
    hide Fixed, Raised, Value;
    assert |idx| / 3 == k;
  }

  lemma BytesOfBits(bytes: seq<nat>, u: nat, v: nat, k: nat)
    requires k <= 8 && u == Raised(v, 8 - k) && u < Pow(2, 32 * k + 8) && bytes == Fixed(u, 8, 4 * k + 1)
    ensures |bytes| == 4 * k + 1 && Below(bytes, 256)
    ensures Value(bytes[..4 * k], 256) == High(v, k) && High(bytes[4 * k], 8 - k) == Low(v, k)
  {
    BaseValues();
    hide Value, Pow, Base, High, Low, Window, Raised, Fixed, Below;
    FixedValue(u, 8, 4 * k + 1);
    EntropyBits(bytes, u, v, k);
    CheckBits(bytes, u, v, k);
  }

  lemma SpanBytes(m: nat)
    ensures Span(8, m) == 8 * m
  {
  }

  lemma EntropyBits(bytes: seq<nat>, u: nat, v: nat, k: nat)
    requires k <= 8 && u == Raised(v, 8 - k) && u < Pow(2, 32 * k + 8)
    requires |bytes| == 4 * k + 1 && Below(bytes, 256) && Value(bytes, 256) == u
    ensures Value(bytes[..4 * k], 256) == High(v, k)
  {
    hide *;
    BaseValues();
    assert bytes[0..4 * k] == bytes[..4 * k];
    SpanBytes(4 * k);
    SpanBytes(1);
    Slice(bytes, 8, 0, 4 * k);
    WindowAtTop(u, 8, 32 * k);
    HighOfRaised(v, 8 - k, k);
  }

  lemma CheckBits(bytes: seq<nat>, u: nat, v: nat, k: nat)
    requires k <= 8 && u == Raised(v, 8 - k)
    requires |bytes| == 4 * k + 1 && Below(bytes, 256) && Value(bytes, 256) == u
    ensures High(bytes[4 * k], 8 - k) == Low(v, k)
  {
    BaseValues();
    hide Value, Pow, Base, High, Low, Window, Raised, Below;
    DigitAt(bytes, 8, 4 * k);
    LastBits(v, k);
  }

  lemma LastBits(v: nat, k: nat)
    requires k <= 8
    ensures High(Window(Raised(v, 8 - k), 0, 8), 8 - k) == Low(v, k)
  {
    var u := Raised(v, 8 - k);
    WindowAtZero(u, 8);
    hide Pow, High, Low, Window, Raised;
    LowOfRaised(v, 8 - k, k);
    HighOfRaised(Low(v, k), 8 - k, 0);
    HighZero(Low(v, k));
  }

  lemma WindowAtZero(n: nat, w: nat)
    ensures Window(n, 0, w) == Low(n, w)
  {
    HighZero(n);
    LowHigh(n, 0, w);
  }

  lemma HighZero(n: nat)
    ensures High(n, 0) == n
  {
    assert Pow(2, 0) == 1;
  }

  // Bytes are determined by their number and their count.
  lemma SameBytes(a: seq<nat>, b: seq<nat>)
    requires Below(a, 256) && Below(b, 256) && |a| == |b| && Value(a, 256) == Value(b, 256)
    ensures a == b
  {
    BaseValues();
    hide Value, Below, Fixed;
    FixedUnique(a, 8);
    FixedUnique(b, 8);
  }

  lemma BelowPrefix(a: seq<nat>, k: nat, base: nat)
    requires Below(a, base) && k <= |a|
    ensures Below(a[..k], base)
  {
  }

  // Unpacking the words of an entropy gives it back, followed by a byte that starts with its checksum.
  lemma UnpackIndices(sha: Bytes -> Bytes, data: Bytes, k: nat)
    requires |data| == 4 * k <= 32 && |sha(data)| == 32
    ensures var idx := Indices(sha, data);
      && |idx| == 3 * k && Below(idx, 2048) && |Unpacked(idx)| == 4 * k + 1 && Below(Unpacked(idx), 256)
      && Unpacked(idx)[..4 * k] == data
      && High(Unpacked(idx)[4 * k], 8 - k) == High(sha(data)[0], 8 - k)
  {
    var t, idx := Checksummed(sha, data), Indices(sha, data);
    BaseValues();
    ByteBelow(data);
    hide Value, Pow, Base, High, Low, Fixed, Below, Checksummed, Unpacked, Room;
    ChecksummedBound(sha, data, k);
    FixedValue(t, 11, 3 * k);
    ChecksummedParts(sha, data, k);
    UnpackedParts(idx, k);
    BelowPrefix(Unpacked(idx), 4 * k, 256);
    SameBytes(Unpacked(idx)[..4 * k], data);
  }

  // Words whose unpacked bytes have the right checksum are the words of these bytes.
  lemma PackUnpacked(sha: Bytes -> Bytes, idx: seq<nat>, data: Bytes, k: nat)
    requires |idx| == 3 * k <= 24 && Below(idx, 2048) && |data| == 4 * k && |sha(data)| == 32
    requires |Unpacked(idx)| == 4 * k + 1 && data == Unpacked(idx)[..4 * k]
    requires High(Unpacked(idx)[4 * k], 8 - k) == High(sha(data)[0], 8 - k)
    ensures Indices(sha, data) == idx
  {
    var t, v := Checksummed(sha, data), Value(idx, 2048);
    BaseValues();
    hide Value, Pow, Base, High, Low, Fixed, Below, Checksummed, Unpacked, Room;
    UnpackedParts(idx, k);
    ChecksummedParts(sha, data, k);
    HighLow(t, v, k);
    FixedUnique(idx, 11);
  }

  // ---- the index formulas ----

  // The 11 bits of word i lie in the four bytes from position i * 11 / 8 on.
  lemma WordIndex(sha: Bytes -> Bytes, data: Bytes, k: nat, i: nat)
    requires |data| == 4 * k <= 940 && |sha(data)| == 32 && i < 3 * k
    ensures var all, p, q := data + sha(data), i * 11 / 8, i * 11 % 8;
      p + 4 <= |all| && Low(High(Value(all[p..p + 4], 256), 21 - q), 11) == Indices(sha, data)[i]
  {
    hide *;
    var all, p, q := data + sha(data), i * 11 / 8, i * 11 % 8;
    WordPosition(k, i);
    ChecksummedBound(sha, data, k);
    ChecksummedIs(sha, data, k);
    FourBytes(all, p);
    WordOfBytes(Value(all, 256), Checksummed(sha, data), k, p, q, i);
  }

  lemma WordPosition(k: nat, i: nat)
    requires k <= 235 && i < 3 * k
    ensures i * 11 / 8 + 4 <= 4 * k + 32 && 8 * (i * 11 / 8) + i * 11 % 8 == 11 * i && i * 11 % 8 < 8
  {
  }

  lemma ChecksummedIs(sha: Bytes -> Bytes, data: Bytes, k: nat)
    requires |data| == 4 * k <= 940
    ensures Checksummed(sha, data) == High(Value(data + sha(data), 256), 256 - k)
    ensures Indices(sha, data) == Fixed(Checksummed(sha, data), 11, 3 * k)
  {
    hide High, Value, Fixed;
    assert |data| / 4 == k && |data| * 3 / 4 == 3 * k;
  }

  lemma FourBytes(all: Bytes, p: nat)
    requires p + 4 <= |all|
    ensures Value(all[p..p + 4], 256) == Window(Value(all, 256), 8 * (|all| - p - 4), 32)
  {
    BaseValues();
    ByteBelow(all);
    hide Value, Base, Window;
    Slice(all, 8, p, p + 4);
  }

  lemma WordOfBytes(s: nat, t: nat, k: nat, p: nat, q: nat, i: nat)
    requires k <= 235 && i < 3 * k && 8 * p + q == 11 * i && q < 8 && p + 4 <= 4 * k + 32
    requires t == High(s, 256 - k) && t < Room(11, 3 * k)
    ensures Low(High(Window(s, 8 * (4 * k + 32 - p - 4), 32), 21 - q), 11) == Fixed(t, 11, 3 * k)[i]
  {
    hide High, Low, Window, Fixed, Room;
    LowHigh(Window(s, 8 * (4 * k + 32 - p - 4), 32), 21 - q, 11);
    WindowOfWindow(s, 8 * (4 * k + 32 - p - 4), 32, 21 - q, 11);
    FixedAt(t, 11, 3 * k, i);
    WindowOfHigh(s, 256 - k, 11 * (3 * k - i - 1), 11);
  }

  // The 8 bits of byte i lie in the words i * 8 / 11 and the next one, or zero bits after the last word.
  lemma ByteIndex(idx: seq<nat>, k: nat, i: nat)
    requires |idx| == 3 * k <= 24 && Below(idx, 2048) && k > 0 && i < 4 * k + 1
    ensures var w := i * 8 / 11;
      && w < |idx| && (i + 1) * 8 <= (w + 2) * 11
      && (var y := if w + 1 < |idx| then idx[w + 1] else 0;
          Low(High(idx[w] * 2048 + y, (w + 2) * 11 - (i + 1) * 8), 8) == Unpacked(idx)[i])
  {
    hide *;
    var w := i * 8 / 11;
    WordOfByte(k, i);
    RaisedRoom(idx, k);
    UnpackedIs(idx, k);
    PairOfWords(idx, w);
    ByteOfPair(idx[w] * 2048 + (if w + 1 < |idx| then idx[w + 1] else 0), Value(idx, 2048), k, w, i);
  }

  lemma RaisedRoom(idx: seq<nat>, k: nat)
    requires |idx| == 3 * k <= 24 && Below(idx, 2048)
    ensures Raised(Value(idx, 2048), 8 - k) < Pow(2, 32 * k + 8)
  {
    BaseValues();
    hide Value, Pow, Base, Raised, Below;
    BelowRoom(idx, 11);
    RaisedBound(Value(idx, 2048), 8 - k, 33 * k);
  }

  lemma WordOfByte(k: nat, i: nat)
    requires k > 0 && i < 4 * k + 1 && k <= 8
    ensures var w := i * 8 / 11; w < 3 * k && 11 * w <= 8 * i < 11 * (w + 1) && (i + 1) * 8 <= (w + 2) * 11
  {
  }

  lemma PairOfWords(idx: seq<nat>, w: nat)
    requires Below(idx, 2048) && w < |idx|
    ensures idx[w] * 2048 + (if w + 1 < |idx| then idx[w + 1] else 0)
         == Window(Raised(Value(idx, 2048), 11), 11 * (|idx| - w - 1), 22)
  {
    var all := idx + [0];
    BaseValues();
    BelowMore(idx);
    assert Join(all[w], 2048, all[w + 1]) == idx[w] * 2048 + (if w + 1 < |idx| then idx[w + 1] else 0);
    hide Value, Base, Window, Below, Raised, Join;
    PairAt(all, 11, w);
    ZeroWord(idx);
  }

  lemma ByteOfPair(pair: nat, v: nat, k: nat, w: nat, i: nat)
    requires 0 < k <= 8 && i < 4 * k + 1 && w < 3 * k && 11 * w <= 8 * i < 11 * (w + 1)
    requires pair == Window(Raised(v, 11), 11 * (3 * k - w - 1), 22) && Raised(v, 8 - k) < Pow(2, 32 * k + 8)
    ensures Low(High(pair, (w + 2) * 11 - (i + 1) * 8), 8) == Fixed(Raised(v, 8 - k), 8, 4 * k + 1)[i]
  {
    var shift := (w + 2) * 11 - (i + 1) * 8;
    hide Pow, High, Low, Window, Fixed, Raised;
    LowHigh(pair, shift, 8);
    WindowOfWindow(Raised(v, 11), 11 * (3 * k - w - 1), 22, shift, 8);
    assert 11 * (3 * k - w - 1) + shift == (3 + k) + (32 * k - 8 * i);
    FixedAt(Raised(v, 8 - k), 8, 4 * k + 1, i);
    RaisedTwice(v, 8 - k, 3 + k);
    WindowOfRaised(Raised(v, 8 - k), 3 + k, 32 * k - 8 * i, 8);
  }

  lemma BelowMore(idx: seq<nat>)
    requires Below(idx, 2048)
    ensures Below(idx + [0], 2048)
  {
  }

  // A zero word after the others.
  lemma ZeroWord(idx: seq<nat>)
    ensures Value(idx + [0], 2048) == Raised(Value(idx, 2048), 11)
  {
    assert (idx + [0])[..|idx|] == idx;
    BaseValues();
  }

  lemma WindowOfRaised(n: nat, a: nat, b: nat, v: nat)
    ensures Window(Raised(n, a), a + b, v) == Window(n, b, v)
  {
    WindowOfShift(n, a, b, v);
  }

  // ---- phrases ----

  // The words with a space between them.
  function Phrase(list: seq<string>, idx: seq<nat>): string
    requires Below(idx, |list|)
  {
    if idx == [] then ""
    else if |idx| == 1 then list[idx[0]]
    else list[idx[0]] + " " + Phrase(list, idx[1..])
  }

  lemma {:induction false} PhraseAppend(list: seq<string>, idx: seq<nat>, i: nat)
    requires Below(idx, |list|) && i < |list|
    ensures Below(idx + [i], |list|)
    ensures Phrase(list, idx + [i]) == (if idx == [] then "" else Phrase(list, idx) + " ") + list[i]
  {
    if idx != [] {
      PhraseAppend(list, idx[1..], i);
      assert (idx + [i])[1..] == idx[1..] + [i];
      if |idx| > 1 {
        var rest := Phrase(list, idx[1..]);
        assert list[idx[0]] + " " + (rest + " " + list[i]) == (list[idx[0]] + " " + rest) + " " + list[i];
      } else {
        assert "" + list[i] == list[i];
      }
    } else {
      assert [] + [i] == [i] && "" + list[i] == list[i];
    }
  }

  // The text starts with the word, which ends there or before a space.
  predicate Matches(word: string, s: string) {
    |word| <= |s| && s[..|word|] == word && (|s| == |word| || s[|word|] == ' ')
  }

  // The first word of the list from position i on that the text starts with.
  function FirstMatch(list: seq<string>, s: string, i: nat): (r: nat)
    requires i <= |list|
    ensures i <= r <= |list|
    decreases |list| - i
  {
    if i == |list| || Matches(list[i], s) then i else FirstMatch(list, s, i + 1)
  }

  lemma {:induction false} FirstMatchFinds(list: seq<string>, s: string, i: nat)
    requires i <= |list|
    ensures var r := FirstMatch(list, s, i);
      (r < |list| ==> Matches(list[r], s)) && forall j :: i <= j < r ==> !Matches(list[j], s)
    decreases |list| - i
  {
    if i < |list| && !Matches(list[i], s) {
      FirstMatchFinds(list, s, i + 1);
    }
  }

  // Words are found, since no two of them end at the same space.
  lemma FindsWord(list: seq<string>, i: nat, rest: string)
    requires IsWordList(list) && i < 2048 && (rest == "" || rest[0] == ' ')
    ensures FirstMatch(list, list[i] + rest, 0) == i
  {
    var s := list[i] + rest;
    FirstMatchFinds(list, s, 0);
    assert Matches(list[i], s);
    var r := FirstMatch(list, s, 0);
    assert r <= i;
    SameToken(list[r], list[i], s);
  }

  lemma SameToken(v: string, w: string, s: string)
    requires IsWord(v) && IsWord(w) && Matches(v, s) && Matches(w, s)
    ensures v == w
  {
    if |v| < |w| { NoSpaceInside(w, s, |v|); }
    if |w| < |v| { NoSpaceInside(v, s, |w|); }
  }

  lemma NoSpaceInside(w: string, s: string, n: nat)
    requires IsWord(w) && Matches(w, s) && n < |w|
    ensures s[n] != ' '
  {
    assert s[..|w|][n] == s[n];
  }

  // The words that a text starts with, at most limit of them, and whether it ends with them.
  datatype Parsed = Parsed(idx: seq<nat>, done: bool)

  function Parse(list: seq<string>, s: string, limit: nat): Parsed
    decreases limit
  {
    if s == "" || limit == 0 then Parsed([], s == "")
    else
      var i := FirstMatch(list, s, 0);
      FirstMatchFinds(list, s, 0);
      if i == |list| then Parsed([], false)
      else if |s| == |list[i]| then Parsed([i], true)
      else
        var rest := Parse(list, s[|list[i]| + 1..], limit - 1);
        Parsed([i] + rest.idx, rest.done)
  }

  lemma ParseStep(list: seq<string>, s: string, i: nat, limit: nat)
    requires i < |list| && FirstMatch(list, s, 0) == i && limit > 0 && s != ""
    ensures |list[i]| <= |s|
    ensures |s| == |list[i]| ==> Parse(list, s, limit) == Parsed([i], true)
    ensures |s| > |list[i]| ==>
      Parse(list, s, limit) == Parsed([i] + Parse(list, s[|list[i]| + 1..], limit - 1).idx,
                                      Parse(list, s[|list[i]| + 1..], limit - 1).done)
  {
    FirstMatchFinds(list, s, 0);
    hide FirstMatch;
  }

  lemma EndParse(list: seq<string>, s: string, limit: nat)
    ensures s == "" || limit == 0 ==> Parse(list, s, limit) == Parsed([], s == "")
  {
  }

  lemma UnknownWord(list: seq<string>, s: string, limit: nat)
    requires FirstMatch(list, s, 0) == |list| && s != "" && limit > 0
    ensures Parse(list, s, limit) == Parsed([], false)
  {
    hide FirstMatch;
  }

  lemma {:induction false} ParseBelow(list: seq<string>, s: string, limit: nat)
    ensures Below(Parse(list, s, limit).idx, |list|) && |Parse(list, s, limit).idx| <= limit
    decreases limit
  {
    if s == "" || limit == 0 {
      EndParse(list, s, limit);
    } else {
      var i := FirstMatch(list, s, 0);
      if i == |list| {
        UnknownWord(list, s, limit);
      } else {
        ParseStep(list, s, i, limit);
        hide Parse, FirstMatch;
        if |s| != |list[i]| {
          ParseBelow(list, s[|list[i]| + 1..], limit - 1);
        }
      }
    }
  }

  // A phrase is parsed as its words, with or without a space at the end.
  lemma {:induction false} ParsePhrase(list: seq<string>, idx: seq<nat>, end: string, limit: nat)
    requires IsWordList(list) && Below(idx, 2048) && |idx| <= limit && (end == "" || (end == " " && idx != []))
    ensures Parse(list, Phrase(list, idx) + end, limit) == Parsed(idx, true)
    decreases limit
  {
    hide *;
    WordOf(list, 0);
    ParseNothing(list, limit);
    if idx != [] {
      var rest, s, i := idx[1..], Phrase(list, idx) + end, idx[0];
      var after := if rest == [] then "" else end;
      FirstWord(list, idx, end, after);
      ParseStep(list, s, i, limit);
      if |s| > |list[i]| {
        ParsePhrase(list, rest, after, limit - 1);
      }
      assert idx == [i] + rest;
    }
  }

  lemma ParseNothing(list: seq<string>, limit: nat)
    ensures Parse(list, Phrase(list, []) + "", limit) == Parsed([], true)
  {
    assert Phrase(list, []) + "" == "";
  }

  lemma FirstWord(list: seq<string>, idx: seq<nat>, end: string, after: string)
    requires IsWordList(list) && Below(idx, 2048) && idx != [] && (end == "" || end == " ")
    requires after == if idx[1..] == [] then "" else end
    ensures |list| == 2048 && idx[0] < 2048 && Below(idx[1..], 2048)
    ensures var word, rest, s := list[idx[0]], idx[1..], Phrase(list, idx) + end;
      && FirstMatch(list, s, 0) == idx[0] && s != "" && |word| <= |s|
      && (|s| == |word| ==> rest == [])
      && (|s| > |word| ==> s[|word| + 1..] == Phrase(list, rest) + after)
  {
    hide *;
    PhraseParts(list, idx);
    PhraseTail(list[idx[0]], Phrase(list, idx[1..]), end, idx[1..] == []);
    FindsWord(list, idx[0], if idx[1..] == [] then end else " " + (Phrase(list, idx[1..]) + end));
  }

  lemma PhraseTail(word: string, rest: string, end: string, last: bool)
    requires word != "" && (end == "" || end == " ")
    requires last ==> rest == ""
    ensures var tail, s := if last then end else " " + (rest + end), (if last then word else word + " " + rest) + end;
      && s == word + tail && s != "" && |word| <= |s| && (|s| == |word| ==> last)
      && (|s| > |word| ==> s[|word| + 1..] == rest + (if last then "" else end))
  {
    var tail := if last then end else " " + (rest + end);
    assert (if last then word else word + " " + rest) + end == word + tail;
    assert |tail| > 0 ==> (word + tail)[|word| + 1..] == tail[1..];
  }

  lemma PhraseParts(list: seq<string>, idx: seq<nat>)
    requires IsWordList(list) && Below(idx, 2048) && idx != []
    ensures |list| == 2048 && idx[0] < 2048 && Below(idx[1..], 2048) && list[idx[0]] != "" && Below(idx, 2048)
    ensures Phrase(list, []) == ""
    ensures Phrase(list, idx) == if idx[1..] == [] then list[idx[0]] else list[idx[0]] + " " + Phrase(list, idx[1..])
  {
    WordOf(list, idx[0]);
    hide IsWordList;
  }

  // A phrase of more words is not read to its end.
  lemma {:induction false} ParseLong(list: seq<string>, idx: seq<nat>, end: string, limit: nat)
    requires IsWordList(list) && Below(idx, 2048) && |idx| > limit && end in {"", " "}
    ensures Below(idx, |list|) && !Parse(list, Phrase(list, idx) + end, limit).done
    decreases limit
  {
    hide *;
    WordOf(list, 0);
    var s, after := Phrase(list, idx) + end, if idx[1..] == [] then "" else end;
    FirstWord(list, idx, end, after);
    if limit == 0 {
      EndParse(list, s, 0);
    } else {
      ParseStep(list, s, idx[0], limit);
      ParseLong(list, idx[1..], after, limit - 1);
    }
  }

  // A text that ends with the words it is parsed as is their phrase, but for a space at the end.
  lemma {:induction false} ParseAccepted(list: seq<string>, s: string, limit: nat)
    requires Parse(list, s, limit).done
    ensures Below(Parse(list, s, limit).idx, |list|)
    ensures s == Phrase(list, Parse(list, s, limit).idx) || s == Phrase(list, Parse(list, s, limit).idx) + " "
    ensures Parse(list, s, limit).idx == [] ==> s == ""
    decreases limit
  {
    ParseBelow(list, s, limit);
    hide *;
    if s == "" || limit == 0 {
      EndParse(list, s, limit);
      PhraseOf(list, []);
    } else {
      var i := FirstMatch(list, s, 0);
      if i == |list| {
        UnknownWord(list, s, limit);
      } else {
        ParseStep(list, s, i, limit);
        StartsWith(list, s, i);
        var tail := s[|list[i]|..];
        if tail == "" {
          PhraseOf(list, [i]);
        } else {
          var rest := Parse(list, tail[1..], limit - 1).idx;
          ParseAccepted(list, tail[1..], limit - 1);
          PhraseOf(list, [i] + rest);
          AcceptedStep(list[i], tail[1..], rest == [], Phrase(list, rest));
        }
      }
    }
  }

  lemma StartsWith(list: seq<string>, s: string, i: nat)
    requires i < |list| && i == FirstMatch(list, s, 0)
    ensures |list[i]| <= |s| && s[..|list[i]|] == list[i]
    ensures |s| > |list[i]| ==> s == list[i] + " " + s[|list[i]| + 1..] && s[|list[i]|..][1..] == s[|list[i]| + 1..]
  {
    FirstMatchFinds(list, s, 0);
  }

  lemma PhraseOf(list: seq<string>, idx: seq<nat>)
    requires Below(idx, |list|)
    ensures Phrase(list, []) == ""
    ensures idx != [] ==> (
      && idx[0] < |list| && Below(idx[1..], |list|)
      && Phrase(list, idx) == if idx[1..] == [] then list[idx[0]] else list[idx[0]] + " " + Phrase(list, idx[1..]))
  {
  }

  // A word, a space and a rest that is a phrase but for a space at its end.
  lemma AcceptedStep(word: string, rest: string, none: bool, phrase: string)
    requires rest == phrase || rest == phrase + " "
    requires none ==> rest == ""
    ensures var all := if none then word else word + " " + phrase;
      word + " " + rest == all || word + " " + rest == all + " "
  {
  }

  // ---- the two directions ----

  function Encoded(list: seq<string>, sha: Bytes -> Bytes, data: Bytes): string
    requires |list| == 2048 && |data| <= 940
  {
    IndicesBelow(sha, data);
    Phrase(list, Indices(sha, data))
  }

  lemma IndicesBelow(sha: Bytes -> Bytes, data: Bytes)
    requires |data| <= 940
    ensures Below(Indices(sha, data), 2048)
  {
    BaseValues();
    FixedBelow(Checksummed(sha, data), 11, |data| * 3 / 4);
  }

  // The words, as digits of base 2048, are the number of the entropy with the leading k bits of its digest behind it.
  lemma IndicesMeaning(sha: Bytes -> Bytes, data: Bytes, k: nat)
    requires |data| == 4 * k <= 32 && |sha(data)| == 32
    ensures |Indices(sha, data)| == 3 * k && Below(Indices(sha, data), 2048) && Pow(2, 8 - k) > 0
    ensures Value(Indices(sha, data), 2048) == Value(data, 256) * Pow(2, k) + sha(data)[0] / Pow(2, 8 - k)
  {
    hide *;
    PowPositive(2, k);
    PowPositive(2, 8 - k);
    ChecksummedIs(sha, data, k);
    ChecksummedBound(sha, data, k);
    ChecksummedParts(sha, data, k);
    IndicesBelow(sha, data);
    BaseValues();
    FixedValue(Checksummed(sha, data), 11, 3 * k);
    HighLowSum(Checksummed(sha, data), k);
    HighIs(sha(data)[0], 8 - k);
  }

  lemma HighLowSum(n: nat, k: nat)
    ensures n == High(n, k) * Pow(2, k) + Low(n, k)
  {
    PowPositive(2, k);
    JoinCut(n, Pow(2, k));
    hide Pow, Cut, Last;
  }

  lemma HighIs(n: nat, k: nat)
    ensures Pow(2, k) > 0 && High(n, k) == n / Pow(2, k)
  {
    PowPositive(2, k);
    hide Pow;
  }

  lemma {:induction false} FixedBelow(n: nat, w: nat, m: nat)
    ensures Below(Fixed(n, w, m), Base(w))
    decreases m
  {
    if m > 0 {
      JoinCut(n, Base(w));
      hide Base, Cut, Last;
      FixedBelow(Cut(n, Base(w)), w, m - 1);
    }
  }

  function Entropy(idx: seq<nat>): (data: Bytes)
    requires |idx| <= 24 && |idx| % 3 == 0 && Below(idx, 2048)
    ensures |data| == |idx| / 3 * 4
  {
    UnpackedParts(idx, |idx| / 3);
    Unpacked(idx)[..|idx| / 3 * 4]
  }

  // The leading bits of the last byte are those of the digest.
  predicate ChecksumHolds(sha: Bytes -> Bytes, idx: seq<nat>)
    requires |idx| <= 24 && |idx| % 3 == 0 && Below(idx, 2048)
  {
    var k := |idx| / 3;
    UnpackedParts(idx, k);
    var digest := sha(Entropy(idx));
    |digest| > 0 && High(Unpacked(idx)[4 * k], 8 - k) == High(digest[0], 8 - k)
  }

  // The entropy of a phrase, or nothing when it is not accepted.
  function Decoded(list: seq<string>, sha: Bytes -> Bytes, s: string): Bytes
    requires |list| == 2048
  {
    var p := Parse(list, s, 24);
    ParseBelow(list, s, 24);
    if p.done && |p.idx| % 3 == 0 && ChecksumHolds(sha, p.idx) then Entropy(p.idx) else []
  }

  lemma DecodedAs(list: seq<string>, sha: Bytes -> Bytes, s: string, idx: seq<nat>)
    requires |list| == 2048 && Parse(list, s, 24).idx == idx
    ensures |idx| <= 24 && Below(idx, 2048)
    ensures Decoded(list, sha, s) ==
      if Parse(list, s, 24).done && |idx| % 3 == 0 && ChecksumHolds(sha, idx) then Entropy(idx) else []
  {
    ParseBelow(list, s, 24);
    hide Parse, ChecksumHolds, Entropy, Below;
  }

  lemma ChecksumIs(sha: Bytes -> Bytes, idx: seq<nat>, k: nat)
    requires |idx| == 3 * k <= 24 && Below(idx, 2048) && IsDigest(sha)
    ensures |Unpacked(idx)| == 4 * k + 1 && Entropy(idx) == Unpacked(idx)[..4 * k] && |sha(Entropy(idx))| == 32
    ensures ChecksumHolds(sha, idx) <==> High(Unpacked(idx)[4 * k], 8 - k) == High(sha(Entropy(idx))[0], 8 - k)
  {
    UnpackedParts(idx, k);
    hide High, Unpacked, Below;
    assert |idx| / 3 == k;
  }

  // Decoding undoes encoding, also when a space follows the phrase, exactly up to 32 bytes: of the phrase of a longer
  // entropy, only 24 words are read, and it is not accepted.
  lemma DecodeEncode(list: seq<string>, sha: Bytes -> Bytes, data: Bytes, end: string)
    requires IsWordList(list) && IsDigest(sha) && 0 < |data| <= 940 && |data| % 4 == 0 && end in {"", " "}
    ensures Decoded(list, sha, Encoded(list, sha, data) + end) == if |data| <= 32 then data else []
  {
    var k := |data| / 4;
    assert |sha(data)| == 32;
    hide *;
    WordOf(list, 0);
    EncodedAs(list, sha, data);
    var idx := Indices(sha, data);
    if |data| <= 32 {
      UnpackIndices(sha, data, k);
      ChecksumIs(sha, idx, k);
      ParsePhrase(list, idx, end, 24);
      DecodedAs(list, sha, Phrase(list, idx) + end, idx);
    } else {
      ParseLong(list, idx, end, 24);
      DecodedAs(list, sha, Phrase(list, idx) + end, Parse(list, Phrase(list, idx) + end, 24).idx);
    }
  }

  // A phrase that is accepted is the encoding of its entropy, but for a space at the end: it re-encodes to itself exactly
  // when it does not end in one.
  lemma EncodeDecode(list: seq<string>, sha: Bytes -> Bytes, s: string)
    requires IsWordList(list) && IsDigest(sha) && Decoded(list, sha, s) != []
    ensures var data := Decoded(list, sha, s);
      && 0 < |data| <= 32 && |data| % 4 == 0 && s != ""
      && s == Encoded(list, sha, data) + (if s[|s| - 1] == ' ' then " " else "")
      && (s == Encoded(list, sha, data) <==> s[|s| - 1] != ' ')
  {
    var idx := Parse(list, s, 24).idx;
    WordOf(list, 0);
    AcceptedParts(list, sha, s);
    hide *;
    ParseAccepted(list, s, 24);
    Reencode(list, sha, idx);
    PhraseEnd(list, idx);
    assert Phrase(list, idx) + "" == Phrase(list, idx);
    assert (Phrase(list, idx) + " ")[|Phrase(list, idx)|] == ' ';
  }

  // A phrase ends with the last letter of a word.
  lemma {:induction false} PhraseEnd(list: seq<string>, idx: seq<nat>)
    requires IsWordList(list) && Below(idx, 2048) && idx != []
    ensures Below(idx, |list|)
    ensures var p := Phrase(list, idx); p != "" && p[|p| - 1] != ' '
  {
    WordOf(list, idx[0]);
    if |idx| > 1 {
      PhraseEnd(list, idx[1..]);
    }
  }

  lemma AcceptedParts(list: seq<string>, sha: Bytes -> Bytes, s: string)
    requires |list| == 2048 && Decoded(list, sha, s) != []
    ensures var p, data := Parse(list, s, 24), Decoded(list, sha, s);
      && p.done && |p.idx| <= 24 && |p.idx| % 3 == 0 && Below(p.idx, 2048) && ChecksumHolds(sha, p.idx)
      && data == Entropy(p.idx) && |data| % 4 == 0 && 0 < |data| <= 32 && p.idx != []
  {
    var idx := Parse(list, s, 24).idx;
    hide Parse, ChecksumHolds, Entropy, Decoded, Below;
    DecodedAs(list, sha, s, idx);
    FourTimes(|idx|);
  }

  lemma FourTimes(n: nat)
    requires n <= 24
    ensures n / 3 * 4 % 4 == 0 && n / 3 * 4 <= 32
  {
  }

  lemma Reencode(list: seq<string>, sha: Bytes -> Bytes, idx: seq<nat>)
    requires |list| == 2048 && IsDigest(sha)
    requires |idx| <= 24 && |idx| % 3 == 0 && Below(idx, 2048) && ChecksumHolds(sha, idx)
    ensures |Entropy(idx)| <= 32 && Encoded(list, sha, Entropy(idx)) == Phrase(list, idx)
  {
    var k := |idx| / 3;
    ThreeTimes(|idx|);
    hide Indices, Unpacked, High, Phrase, Below, ChecksumHolds, Entropy;
    ChecksumIs(sha, idx, k);
    PackUnpacked(sha, idx, Entropy(idx), k);
  }

  lemma ThreeTimes(n: nat)
    requires n % 3 == 0
    ensures n == 3 * (n / 3)
  {
  }

  // ---- encoding ----

  // Four bytes from position p on, most significant first.
  function BE32(b: Bytes, p: nat): (x: Word32)
    requires p + 4 <= |b|
  {
    BE32Bound(b[p..p + 4]);
    Value(b[p..p + 4], 256)
  }

  lemma BE32Bound(b: Bytes)
    requires |b| == 4
    ensures Value(b, 256) < 0x1_0000_0000
  {
    ValueBound(b, 256);
    PowAdd(256, 2, 2);
  }

  lemma LowBits11(n: nat)
    ensures Low(n, 11) == n % 2048 && Low(n, 8) == n % 256
  {
    BaseValues();
  }

  // The buffer holds as much of the text as it has room for.
  ghost predicate Holds(phrase: array?<char>, text: string)
    reads phrase
  {
    phrase != null ==> forall k :: 0 <= k < |text| && k < phrase.Length ==> phrase[k] == text[k]
  }

  // What follows the text is filled with terminators.
  ghost predicate Ended(phrase: array?<char>, text: string)
    reads phrase
  {
    phrase != null ==> forall k :: |text| <= k < phrase.Length ==> phrase[k] == '\0'
  }

  // Copies a word behind the text and fills the rest of the buffer with terminators.
  method CopyWord(phrase: array?<char>, len: nat, word: string, ghost text: string)
    requires len == |text| && Holds(phrase, text)
    modifies phrase
    ensures Holds(phrase, text + word) && Ended(phrase, text + word)
  {
    if phrase == null { return; }
    var at := len;
    while at < phrase.Length
      invariant len <= at
      invariant forall k :: 0 <= k < |text| && k < phrase.Length ==> phrase[k] == text[k]
      invariant forall k :: len <= k < at && k < phrase.Length ==>
        phrase[k] == if k - len < |word| then word[k - len] else '\0'
    {
      phrase[at] := if at - len < |word| then word[at - len] else '\0';
      at := at + 1;
    }
  }

  method AddSpace(phrase: array?<char>, len: nat, ghost text: string)
    requires len == |text| && Holds(phrase, text)
    modifies phrase
    ensures Holds(phrase, text + " ")
  {
    if phrase != null && len < phrase.Length { phrase[len] := ' '; }
  }

  lemma {:induction false} NextWord(list: seq<string>, idx: seq<nat>, i: nat)
    requires Below(idx, |list|) && i < |idx|
    ensures Below(idx[..i], |list|) && Below(idx[..i + 1], |list|) && idx[i] < |list|
    ensures Phrase(list, idx[..i + 1]) == (if i == 0 then "" else Phrase(list, idx[..i]) + " ") + list[idx[i]]
  {
    BelowPrefix(idx, i, |list|);
    BelowPrefix(idx, i + 1, |list|);
    BelowItem(idx, i, |list|);
    hide Below, Phrase;
    assert idx[..i + 1] == idx[..i] + [idx[i]];
    PhraseAppend(list, idx[..i], idx[i]);
  }

  lemma BelowItem(idx: seq<nat>, i: nat, base: nat)
    requires Below(idx, base) && i < |idx|
    ensures idx[i] < base
  {
  }

  // The word at position i of the phrase.
  method WordAt(list: seq<string>, sha: Bytes -> Bytes, data: Bytes, buf: Bytes, i: nat) returns (word: string)
    requires |list| == 2048 && |sha(data)| == 32 && |data| <= 940 && |data| % 4 == 0 && buf == data + sha(data)
    requires i < |data| * 3 / 4
    ensures Indices(sha, data)[i] < 2048 && word == list[Indices(sha, data)[i]]
  {
    WordIndex(sha, data, |data| / 4, i);
    hide Indices, Value, High, Low;
    var x := BE32(buf, i * 11 / 8);
    LowBits11(High(x, 21 - i * 11 % 8));
    word := list[High(x, 32 - (11 + i * 11 % 8)) % 2048];
  }

  lemma EncodedAs(list: seq<string>, sha: Bytes -> Bytes, data: Bytes)
    requires IsWordList(list) && |data| <= 940
    ensures |list| == 2048 && |Indices(sha, data)| == |data| * 3 / 4 && Below(Indices(sha, data), 2048)
    ensures Encoded(list, sha, data) == Phrase(list, Indices(sha, data))
    ensures Below(Indices(sha, data)[..0], 2048) && Phrase(list, Indices(sha, data)[..0]) == ""
  {
    IndicesBelow(sha, data);
    assert Indices(sha, data)[..0] == [];
  }

  // Writes the phrase and its terminator, or returns the length that they need if there is no buffer. A buffer that
  // is too short is left with a part of the phrase, and the result is 0.
  method Encode(phrase: array?<char>, list: seq<string>, sha: Bytes -> Bytes, data: Bytes) returns (len: nat)
    requires IsWordList(list) && IsDigest(sha) && 0 < |data| <= 940
    modifies phrase
    ensures |data| % 4 != 0 ==> len == 0
    ensures |data| % 4 == 0 ==>
      len == if phrase == null || |Encoded(list, sha, data)| < phrase.Length then |Encoded(list, sha, data)| + 1 else 0
    ensures len > 0 && phrase != null ==> |data| % 4 == 0 && phrase[..len] == Encoded(list, sha, data) + ['\0']
  {
    assert |sha(data)| == 32;
    hide *;
    if |data| % 4 != 0 { return 0; }
    ghost var idx := Indices(sha, data);
    EncodedAs(list, sha, data);
    var buf := data + sha(data);
    len := 0;
    ghost var text := "";
    NothingHeld(phrase);
    for i := 0 to |data| * 3 / 4
      invariant Below(idx[..i], 2048) && text == Phrase(list, idx[..i]) && len == |text|
      invariant Holds(phrase, text) && (i > 0 ==> Ended(phrase, text))
    {
      var word := WordAt(list, sha, data, buf, i);
      NextWord(list, idx, i);
      if i > 0 {
        AddSpace(phrase, len, text);
        len := len + 1;
        text := text + " ";
      }
      CopyWord(phrase, len, word, text);
      len := len + |word|;
      text := text + word;
    }
    assert idx[..|data| * 3 / 4] == idx;
    if phrase != null { HeldWhole(phrase, text); }
    len := if phrase == null || len + 1 <= phrase.Length then len + 1 else 0;
  }

  lemma NothingHeld(phrase: array?<char>)
    ensures Holds(phrase, "")
  {
  }

  lemma HeldWhole(phrase: array<char>, text: string)
    requires Holds(phrase, text) && Ended(phrase, text)
    ensures |text| < phrase.Length ==> phrase[..|text| + 1] == text + ['\0']
  {
  }

  // ---- decoding ----

  method FindWord(list: seq<string>, phrase: string, pos: nat) returns (i: nat)
    requires pos <= |phrase|
    ensures i == FirstMatch(list, phrase[pos..], 0)
  {
    i := 0;
    while i < |list| && !Matches(list[i], phrase[pos..])
      invariant i <= |list| && FirstMatch(list, phrase[pos..], 0) == FirstMatch(list, phrase[pos..], i)
    {
      i := i + 1;
    }
  }

  // The next space from a position on, or the end of the text.
  method FindSpace(phrase: string, pos: nat) returns (at: nat)
    requires pos <= |phrase|
    ensures pos <= at <= |phrase| && (forall k :: pos <= k < at ==> phrase[k] != ' ')
    ensures at < |phrase| ==> phrase[at] == ' '
  {
    at := pos;
    while at < |phrase| && phrase[at] != ' '
      invariant pos <= at <= |phrase| && forall k :: pos <= k < at ==> phrase[k] != ' '
    {
      at := at + 1;
    }
  }

  // After the word that matches, the next space is the one that ends it.
  lemma SpaceAfterWord(word: string, phrase: string, pos: nat, at: nat)
    requires IsWord(word) && pos <= at <= |phrase| && Matches(word, phrase[pos..])
    requires (forall k :: pos <= k < at ==> phrase[k] != ' ') && (at < |phrase| ==> phrase[at] == ' ')
    ensures at == pos + |word|
  {
    var s := phrase[pos..];
    if at - pos < |word| { NoSpaceInside(word, s, at - pos); }
  }

  // The parse of the whole text, when idx was taken from the part of it before the position.
  ghost predicate Continues(list: seq<string>, phrase: string, idx: seq<nat>, rest: Parsed) {
    Parse(list, phrase, 24) == Parsed(idx + rest.idx, rest.done)
  }

  // The words of a phrase; ended says that the last one reached the end of the text.
  method ReadWords(list: seq<string>, phrase: string) returns (idx: seq<nat>, done: bool)
    requires IsWordList(list)
    ensures done == Parse(list, phrase, 24).done && (done ==> idx == Parse(list, phrase, 24).idx)
  {
    hide *;
    idx := [];
    var pos, ended, unknown := 0, false, false;
    assert phrase[0..] == phrase;
    StartParse(list, phrase);
    WordOf(list, 0);
    while !ended && !unknown && pos < |phrase| && |idx| < 24
      invariant pos <= |phrase| && |idx| <= 24
      invariant Continues(list, phrase, idx,
        if ended then Parsed([], true) else if unknown then Parsed([], false)
        else Parse(list, phrase[pos..], 24 - |idx|))
      invariant unknown ==> pos < |phrase|
      decreases 24 - |idx|, !unknown
    {
      var i := FindWord(list, phrase, pos);
      if i == 2048 {
        UnknownWord(list, phrase[pos..], 24 - |idx|);
        unknown := true;
      } else {
        var at := FindSpace(phrase, pos);
        KnownWord(list, phrase, pos, at, i, idx);
        idx := idx + [i];
        if at == |phrase| { ended := true; } else { pos := at + 1; }
      }
    }
    EndParse(list, phrase[pos..], 24 - |idx|);
    done := ended || pos == |phrase|;
    EndWords(list, phrase, idx, done);
  }

  lemma EndWords(list: seq<string>, phrase: string, idx: seq<nat>, done: bool)
    requires Continues(list, phrase, idx, Parsed([], done))
    ensures Parse(list, phrase, 24) == Parsed(idx, done)
  {
    assert idx + [] == idx;
    hide Parse;
  }

  lemma StartParse(list: seq<string>, phrase: string)
    ensures Continues(list, phrase, [], Parse(list, phrase, 24))
  {
    hide Parse;
    assert [] + Parse(list, phrase, 24).idx == Parse(list, phrase, 24).idx;
  }

  lemma KnownWord(list: seq<string>, phrase: string, pos: nat, at: nat, i: nat, idx: seq<nat>)
    requires IsWordList(list) && pos < |phrase| && i < 2048 && i == FirstMatch(list, phrase[pos..], 0) && |idx| < 24
    requires pos <= at <= |phrase| && (forall k :: pos <= k < at ==> phrase[k] != ' ')
    requires at < |phrase| ==> phrase[at] == ' '
    requires Continues(list, phrase, idx, Parse(list, phrase[pos..], 24 - |idx|))
    ensures Continues(list, phrase, idx + [i],
      if at == |phrase| then Parsed([], true) else Parse(list, phrase[at + 1..], 24 - |idx + [i]|))
  {
    hide FirstMatch, IsWordList, Parse, IsWord, Matches, Continues;
    var s := phrase[pos..];
    WordOf(list, i);
    FirstMatchFinds(list, s, 0);
    SpaceAfterWord(list[i], phrase, pos, at);
    ParseStep(list, s, i, 24 - |idx|);
    if at < |phrase| {
      assert s[|list[i]| + 1..] == phrase[at + 1..];
      ContinueWith(list, phrase, idx, i, Parse(list, phrase[at + 1..], 23 - |idx|));
    } else {
      assert [i] + [] == [i];
      ContinueWith(list, phrase, idx, i, Parsed([], true));
    }
  }

  lemma ContinueWith(list: seq<string>, phrase: string, idx: seq<nat>, i: nat, rest: Parsed)
    requires Continues(list, phrase, idx, Parsed([i] + rest.idx, rest.done))
    ensures Continues(list, phrase, idx + [i], rest)
  {
    hide Parse;
    MoreWords(idx, i, rest.idx);
  }

  lemma MoreWords(idx: seq<nat>, i: nat, rest: seq<nat>)
    ensures idx + ([i] + rest) == idx + [i] + rest
  {
  }

  // The bytes of the words; their number is a multiple of three and not zero.
  method Unpack(idx: seq<nat>) returns (buf: array<Byte>)
    requires 0 < |idx| <= 24 && |idx| % 3 == 0 && Below(idx, 2048)
    ensures fresh(buf) && buf.Length == |idx| / 3 * 4 + 1 && buf[..] == Unpacked(idx)
  {
    hide *;
    var k := |idx| / 3;
    UnpackedLength(idx, k);
    buf := new Byte[(|idx| * 11 + 7) / 8](_ => 0);
    for i := 0 to buf.Length
      invariant forall j :: 0 <= j < i ==> buf[j] == Unpacked(idx)[j]
    {
      ByteIndex(idx, k, i);
      WordOfByte(k, i);
      var w := i * 8 / 11;
      BelowItem(idx, w, 2048);
      var y := 0;
      if w + 1 < |idx| {
        BelowItem(idx, w + 1, 2048);
        y := idx[w + 1];
      }
      var pair: Word32 := idx[w] * 2048 + y;
      LowBits11(High(pair, (w + 2) * 11 - (i + 1) * 8));
      buf[i] := High(pair, (w + 2) * 11 - (i + 1) * 8) % 256;
    }
  }

  lemma UnpackedLength(idx: seq<nat>, k: nat)
    requires |idx| == 3 * k <= 24 && k > 0
    ensures |Unpacked(idx)| == 4 * k + 1 == (|idx| * 11 + 7) / 8
  {
  }

  // The entropy of the words, if the checksum holds.
  method CheckedEntropy(sha: Bytes -> Bytes, idx: seq<nat>) returns (data: Bytes)
    requires IsDigest(sha) && |idx| <= 24 && |idx| % 3 == 0 && Below(idx, 2048)
    ensures data == if ChecksumHolds(sha, idx) then Entropy(idx) else []
  {
    if |idx| == 0 { return []; }
    var buf := Unpack(idx);
    var k := |idx| / 3;
    assert buf[..4 * k] == Unpacked(idx)[..4 * k] == Entropy(idx);
    assert |idx| * 4 / 3 == 4 * k;
    var digest := sha(buf[..|idx| * 4 / 3]);
    var b := buf[buf.Length - 1];
    if High(b, 8 - k) == High(digest[0], 8 - k) {
      data := buf[..|idx| * 4 / 3];
    } else {
      data := [];
    }
  }

  method CopyBytes(data: array?<Byte>, bytes: Bytes) returns (r: nat)
    modifies data
    ensures r == if data == null || |bytes| <= data.Length then |bytes| else 0
    ensures data != null && |bytes| <= data.Length ==> data[..r] == bytes && data[r..] == old(data[r..])
    ensures data != null && |bytes| > data.Length ==> data[..] == old(data[..])
  {
    r := |bytes|;
    if data != null {
      if r > data.Length { return 0; }
      for i := 0 to r
        invariant forall j :: 0 <= j < i ==> data[j] == bytes[j]
        invariant forall j :: i <= j < data.Length ==> data[j] == old(data[j])
      {
        data[i] := bytes[i];
      }
    }
  }

  // Writes the entropy of a phrase, or returns its length if there is no buffer.
  method Decode(data: array?<Byte>, list: seq<string>, sha: Bytes -> Bytes, phrase: string) returns (r: nat)
    requires IsWordList(list) && IsDigest(sha)
    modifies data
    ensures var d := Decoded(list, sha, phrase);
      && r == (if data == null || |d| <= data.Length then |d| else 0)
      && (data != null && |d| <= data.Length ==> data[..r] == d && data[r..] == old(data[r..]))
      && (data != null && |d| > data.Length ==> data[..] == old(data[..]))
  {
    hide *;
    WordOf(list, 0);
    DecodedAs(list, sha, phrase, Parse(list, phrase, 24).idx);
    var idx, done := ReadWords(list, phrase);
    var bytes: Bytes := [];
    if done && |idx| % 3 == 0 {
      bytes := CheckedEntropy(sha, idx);
    }
    r := CopyBytes(data, bytes);
  }
}
