/** Bytes, big-endian integers of any width, and the variable-length size field. */
module Octets {
  type Byte = b: int | 0 <= b < 256
  type Bytes = seq<Byte>
  type U16 = n: int | 0 <= n < 0x1_0000
  type U32 = n: int | 0 <= n < 0x1_0000_0000
  type U64 = n: int | 0 <= n < 0x1_0000_0000_0000_0000
  type U128 = n: int | 0 <= n < 0x1_0000_0000_0000_0000_0000_0000_0000_0000
  type I64 = n: int | -0x8000_0000_0000_0000 <= n < 0x8000_0000_0000_0000

  const U32_MAX: U32 := 0xFFFF_FFFF

  /** 256 to the power `k`: the number of values that `k` bytes can hold. */
  function Pow256(k: nat): (p: nat)
    ensures p > 0
  {
    if k == 0 then 1 else 256 * Pow256(k - 1)
  }

  /** The big-endian bytes of `n mod 256^len`, exactly `len` of them. */
  function BigEndian(n: nat, len: nat): (s: Bytes)
    ensures |s| == len
  {
    if len == 0 then [] else BigEndian(n / 256, len - 1) + [n % 256]
  }

  /** The value that a byte string denotes when read big-endian. */
  function FromBigEndian(s: Bytes): nat {
    if s == [] then 0 else FromBigEndian(s[..|s| - 1]) * 256 + s[|s| - 1]
  }

  lemma {:induction false} FromBigEndianBound(s: Bytes)
    ensures FromBigEndian(s) < Pow256(|s|)
  {
    if s != [] {
      FromBigEndianBound(s[..|s| - 1]);
    }
  }

  lemma DivMod256(n: nat, p: nat)
    requires p > 0
    ensures (n / 256) % p * 256 + n % 256 == n % (256 * p)
  {
    var q, r := n / 256 / p, (n / 256) % p;
    assert n / 256 == q * p + r;
    assert n == 256 * (q * p + r) + n % 256;
    assert 256 * (q * p) == q * (256 * p);
    var m := r * 256 + n % 256;
    assert 0 <= m < 256 * p;
    assert n == q * (256 * p) + m;
    ModUnique(n, 256 * p, q, m);
  }

  lemma ModUnique(n: nat, d: nat, q: nat, m: nat)
    requires n == q * d + m && m < d
    ensures n % d == m
  {
    var e := n / d - q;
    assert n == (n / d) * d + n % d;
    assert (n / d) * d - q * d == e * d;
  }

  /** Encoding then decoding keeps a number modulo what the width can hold. */
  lemma {:induction false} BigEndianRoundTrip(n: nat, len: nat)
    ensures FromBigEndian(BigEndian(n, len)) == n % Pow256(len)
  {
    if len > 0 {
      BigEndianRoundTrip(n / 256, len - 1);
      var s := BigEndian(n, len);
      assert s[..|s| - 1] == BigEndian(n / 256, len - 1);
      DivMod256(n, Pow256(len - 1));
    }
  }

  lemma BigEndianExact(n: nat, len: nat)
    requires n < Pow256(len)
    ensures FromBigEndian(BigEndian(n, len)) == n
  {
    BigEndianRoundTrip(n, len);
    ModUnique(n, Pow256(len), 0, n);
  }

  /** Decoding then encoding at the same width gives the same bytes back. */
  lemma {:induction false} FromBigEndianRoundTrip(s: Bytes)
    ensures BigEndian(FromBigEndian(s), |s|) == s
  {
    if s != [] {
      FromBigEndianRoundTrip(s[..|s| - 1]);
      assert s == s[..|s| - 1] + [s[|s| - 1]];
    }
  }

  /** Byte `i` counts the powers of 256 from the front: the most significant one comes first. */
  lemma {:induction false} BigEndianDigit(n: nat, len: nat, i: nat)
    requires i < len
    ensures BigEndian(n, len)[i] == n / Pow256(len - 1 - i) % 256
  {
    if i < len - 1 {
      BigEndianDigit(n / 256, len - 1, i);
      DivTwice(n, Pow256(len - 2 - i));
    }
  }

  lemma DivTwice(n: nat, p: nat)
    requires p > 0
    ensures n / 256 / p == n / (256 * p)
  {
    var m, q := n / 256, n / 256 / p;
    var r := (m - q * p) * 256 + n % 256;
    assert m == q * p + m % p;
    assert n == q * (256 * p) + r;
    assert 0 <= r < 256 * p;
    DivUnique(n, 256 * p, q, r);
  }

  lemma DivUnique(n: nat, d: nat, q: nat, m: nat)
    requires n == q * d + m && m < d
    ensures n / d == q
  {
    var e := n / d - q;
    assert n == (n / d) * d + n % d;
    assert (n / d) * d - q * d == e * d;
  }

  lemma Widths()
    ensures Pow256(1) == 256
    ensures Pow256(2) == 0x1_0000
    ensures Pow256(4) == 0x1_0000_0000
    ensures Pow256(8) == 0x1_0000_0000_0000_0000
    ensures Pow256(16) == 0x1_0000_0000_0000_0000_0000_0000_0000_0000
  {
    assert Pow256(2) == 256 * Pow256(1);
    assert Pow256(3) == 256 * Pow256(2);
    assert Pow256(4) == 256 * Pow256(3);
    assert Pow256(5) == 256 * Pow256(4);
    assert Pow256(6) == 256 * Pow256(5);
    assert Pow256(7) == 256 * Pow256(6);
    assert Pow256(8) == 256 * Pow256(7);
    assert Pow256(9) == 256 * Pow256(8);
    assert Pow256(10) == 256 * Pow256(9);
    assert Pow256(11) == 256 * Pow256(10);
    assert Pow256(12) == 256 * Pow256(11);
    assert Pow256(13) == 256 * Pow256(12);
    assert Pow256(14) == 256 * Pow256(13);
    assert Pow256(15) == 256 * Pow256(14);
    assert Pow256(16) == 256 * Pow256(15);
  }

  // Fixed-width integers, as `to_be_bytes` and `from_be_bytes` convert them.

  function U32Bytes(n: U32): (s: Bytes)
    ensures |s| == 4
  {
    BigEndian(n, 4)
  }

  function U32Of(s: Bytes): U32
    requires |s| == 4
  {
    FromBigEndianBound(s);
    Widths();
    FromBigEndian(s)
  }

  lemma U32RoundTrip(n: U32)
    ensures U32Of(U32Bytes(n)) == n
  {
    Widths();
    BigEndianExact(n, 4);
  }

  lemma U32BytesOf(s: Bytes)
    requires |s| == 4
    ensures U32Bytes(U32Of(s)) == s
  {
    FromBigEndianRoundTrip(s);
  }

  // The variable-length raw file size (`fSIZ`).

  /** The longest suffix of `s` whose first element does not satisfy `p`. */
  function DropWhile<T>(s: seq<T>, p: T -> bool): (r: seq<T>)
    ensures |r| <= |s| && r == s[|s| - |r|..]
    ensures r != [] ==> !p(r[0])
    ensures forall i :: 0 <= i < |s| - |r| ==> p(s[i])
  {
    if s != [] && p(s[0]) then DropWhile(s[1..], p) else s
  }

  /** `skip_while`: drops the head of the slice for as long as the predicate holds of it. */
  method SkipWhile<T>(slice: seq<T>, p: T -> bool) returns (s: seq<T>)
    ensures s == DropWhile(slice, p)
  {
    s := slice;
    while s != []
      invariant DropWhile(s, p) == DropWhile(slice, p)
      decreases |s|
    {
      if !p(s[0]) {
        break;
      }
      s := s[1..];
    }
  }

  predicate IsZero(b: Byte) {
    b == 0
  }

  function SizeBytes(n: U128): Bytes {
    DropWhile(BigEndian(n, 16), IsZero)
  }

  /** `u128_from_be_bytes_last`: the last 16 bytes, right-aligned in a zeroed buffer. */
  function SizeOf(s: Bytes): U128 {
    var min := if |s| < 16 then |s| else 16;
    var buf := Zeros(16 - min) + s[|s| - min..];
    FromBigEndianBound(buf);
    Widths();
    FromBigEndian(buf)
  }

  function Zeros(k: nat): (s: Bytes)
    ensures |s| == k && forall i :: 0 <= i < k ==> s[i] == 0
  {
    seq(k, _ => 0)
  }

  /** A big-endian value splits at any byte boundary. */
  lemma {:induction false} FromBigEndianSplit(a: Bytes, b: Bytes)
    ensures FromBigEndian(a + b) == FromBigEndian(a) * Pow256(|b|) + FromBigEndian(b)
  {
    if b == [] {
      assert a + b == a;
    } else {
      var init := b[..|b| - 1];
      FromBigEndianSplit(a, init);
      assert (a + b)[..|a + b| - 1] == a + init;
      assert FromBigEndian(a) * Pow256(|init|) * 256 == FromBigEndian(a) * Pow256(|b|);
    }
  }

  lemma {:induction false} ZerosDenoteZero(s: Bytes)
    requires forall i :: 0 <= i < |s| ==> s[i] == 0
    ensures FromBigEndian(s) == 0
  {
    if s != [] {
      ZerosDenoteZero(s[..|s| - 1]);
    }
  }

  lemma LeadingZeros(z: Bytes, s: Bytes)
    requires forall i :: 0 <= i < |z| ==> z[i] == 0
    ensures FromBigEndian(z + s) == FromBigEndian(s)
  {
    FromBigEndianSplit(z, s);
    ZerosDenoteZero(z);
  }

  /** Whatever its length, a size field denotes its big-endian value modulo 2^128. */
  lemma SizeOfAnyLength(s: Bytes)
    ensures SizeOf(s) == FromBigEndian(s) % Pow256(16)
  {
    var min := if |s| < 16 then |s| else 16;
    var low := s[|s| - min..];
    LeadingZeros(Zeros(16 - min), low);
    FromBigEndianBound(Zeros(16 - min) + low);
    var high := s[..|s| - min];
    assert s == high + low;
    FromBigEndianSplit(high, low);
    if min < 16 {
      assert high == [];
      ModUnique(FromBigEndian(s), Pow256(16), 0, FromBigEndian(low));
    } else {
      ModUnique(FromBigEndian(s), Pow256(16), FromBigEndian(high), FromBigEndian(low));
    }
  }

  /** Every size survives its field, which is at most 16 bytes with no leading zero. */
  lemma SizeRoundTrip(n: U128)
    ensures SizeOf(SizeBytes(n)) == n
    ensures |SizeBytes(n)| <= 16
    ensures SizeBytes(n) != [] ==> SizeBytes(n)[0] != 0
  {
    var full := BigEndian(n, 16);
    var s := SizeBytes(n);
    Widths();
    BigEndianExact(n, 16);
    var z := full[..16 - |s|];
    assert full == z + s;
    LeadingZeros(z, s);
    SizeOfAnyLength(s);
    ModUnique(n, Pow256(16), 0, n);
  }
}
