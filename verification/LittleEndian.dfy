/** Bytes and words, and numbers as their little-endian bytes. */
module LittleEndian {
  import opened Powers

  type Byte = n: nat | n < 256
  type Bytes = seq<Byte>
  type Word32 = n: nat | n < 0x1_0000_0000
  type Word64 = n: nat | n < 0x1_0000_0000_0000_0000

  // The number that bytes spell, least significant first.
  function LE(bytes: Bytes): nat {
    if bytes == [] then 0 else bytes[0] + 256 * LE(bytes[1..])
  }

  // The count least significant bytes of n.
  function ToLE(n: nat, count: nat): (bytes: Bytes)
    ensures |bytes| == count
  {
    if count == 0 then [] else [n % 256] + ToLE(n / 256, count - 1)
  }

  lemma {:induction false} LEBound(bytes: Bytes)
    ensures LE(bytes) < Pow(256, |bytes|)
  {
    if bytes != [] {
      LEBound(bytes[1..]);
    }
  }

  lemma LENext(bytes: Bytes)
    requires bytes != []
    ensures LE(bytes) == bytes[0] + 256 * LE(bytes[1..])
  {
  }

  lemma ToLENext(d: Byte, n: nat, count: nat)
    requires count > 0
    ensures ToLE(d + 256 * n, count) == [d] + ToLE(n, count - 1)
  {
    var x := d + 256 * n;
    assert x % 256 == d && x / 256 == n;
    assert ToLE(x, count) == [x % 256] + ToLE(x / 256, count - 1);
  }

  lemma {:induction false} LEAppend(a: Bytes, b: Bytes)
    ensures LE(a + b) == LE(a) + Pow(256, |a|) * LE(b)
  {
    if a == [] {
      assert a + b == b && Pow(256, 0) == 1;
    } else {
      hide *;
      assert (a + b)[1..] == a[1..] + b;
      LEAppend(a[1..], b);
      LENext(a);
      LENext(a + b);
      PowNext(256, |a|);
      Product3(256, Pow(256, |a| - 1), LE(b));
    }
  }

  // Encoding a number and reading it again.
  lemma {:induction false} LERoundTrip(n: nat, count: nat)
    requires n < Pow(256, count)
    ensures LE(ToLE(n, count)) == n
  {
    if count > 0 {
      assert n / 256 < Pow(256, count - 1);
      LERoundTrip(n / 256, count - 1);
      assert ToLE(n, count)[1..] == ToLE(n / 256, count - 1);
    }
  }

  lemma {:induction false} ToLERoundTrip(bytes: Bytes)
    ensures ToLE(LE(bytes), |bytes|) == bytes
  {
    if bytes != [] {
      hide *;
      ToLERoundTrip(bytes[1..]);
      LENext(bytes);
      ToLENext(bytes[0], LE(bytes[1..]), |bytes|);
    }
  }

  function Zeros(count: nat): (bytes: Bytes)
    ensures |bytes| == count
  {
    if count == 0 then [] else [0] + Zeros(count - 1)
  }

  lemma {:induction false} LEZeros(count: nat)
    ensures LE(Zeros(count)) == 0
  {
    if count > 0 {
      LEZeros(count - 1);
    }
  }
}
