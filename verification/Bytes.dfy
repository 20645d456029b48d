/** Bytes, and the big-endian integers Buffer reads and writes. */
module Bytes {
  import opened Basics

  type byte = b: int | 0 <= b < 256

  /** 256^n: the number of values of an n-byte integer. */
  function Pow256(n: nat): (p: nat)
    ensures p >= 1
  {
    if n == 0 then 1 else 256 * Pow256(n - 1)
  }

  ghost predicate FitsSigned(x: int, n: nat) {
    0 <= 2 * x + Pow256(n) && 2 * x < Pow256(n)
  }

  /** The bytes of a non-negative number, most significant first. */
  function Encode(u: nat, n: nat): (s: seq<byte>)
    ensures |s| == n
  {
    if n == 0 then [] else Encode(u / 256, n - 1) + [u % 256]
  }

  function Decode(s: seq<byte>): nat {
    if s == [] then 0 else 256 * Decode(s[..|s| - 1]) + s[|s| - 1]
  }

  lemma {:induction false} DecodeEncode(u: nat, n: nat)
    requires u < Pow256(n)
    ensures Decode(Encode(u, n)) == u
  {
    if n > 0 {
      DecodeEncode(u / 256, n - 1);
      assert Encode(u, n)[..n - 1] == Encode(u / 256, n - 1);
    }
  }

  lemma {:induction false} EncodeDecode(s: seq<byte>)
    ensures Decode(s) < Pow256(|s|) && Encode(Decode(s), |s|) == s
  {
    if s != [] {
      EncodeDecode(s[..|s| - 1]);
    }
  }

  /** Network byte order: byte i of n stands for 256 to the power n - 1 - i, so the first is the most
      significant. */
  lemma {:induction false} BigEndian(u: nat, n: nat, i: nat)
    requires i < n
    ensures Encode(u, n)[i] == u / Pow256(n - 1 - i) % 256
  {
    if i < n - 1 {
      BigEndian(u / 256, n - 1, i);
      DivideTwice(u, Pow256(n - 2 - i));
    }
  }

  lemma DivideTwice(u: nat, p: nat)
    requires p > 0
    ensures u / 256 / p == u / (256 * p)
  {
    var q, r := u / 256 / p, u / 256 % p;
    var left := 256 * r + u % 256;
    assert u == 256 * (p * q + r) + u % 256;
    assert 256 * (p * q) == (256 * p) * q;
    assert left < 256 * p;
    Quotient(u, 256 * p, q, left);
  }

  lemma Quotient(u: int, d: nat, q: int, left: nat)
    requires u == d * q + left && left < d
    ensures u / d == q
  {
    assert u == d * (u / d) + u % d;
    assert d * (u / d - q) == left - u % d;
    MulBound(d, u / d - q);
  }

  /** Two's complement: what hostToNetwork of a signed integer puts in memory. */
  function EncodeSigned(x: int, n: nat): (s: seq<byte>)
    requires FitsSigned(x, n)
    ensures |s| == n
  {
    Encode(if x < 0 then x + Pow256(n) else x, n)
  }

  /** Byte i of a signed integer, with the division that rounds down. */
  lemma SignedBigEndian(x: int, n: nat, i: nat)
    requires FitsSigned(x, n) && i < n
    ensures EncodeSigned(x, n)[i] == x / Pow256(n - 1 - i) % 256
  {
    BigEndian(if x < 0 then x + Pow256(n) else x, n, i);
    if x < 0 {
      PowSplit(n - 1 - i, i + 1);
      Shifted(x, Pow256(n - 1 - i), Pow256(i));
    }
  }

  lemma Shifted(x: int, p: nat, m: nat)
    requires p > 0
    ensures (x + p * (256 * m)) / p % 256 == x / p % 256
  {
    var q, left := x / p, x % p;
    Distributes(p, q, 256 * m);
    Quotient(x + p * (256 * m), p, q + 256 * m, left);
    Periodic(q, m);
  }

  lemma Distributes(p: nat, q: int, k: nat)
    ensures p * (q + k) == p * q + p * k
  {
  }

  lemma Periodic(q: int, m: nat)
    ensures (q + 256 * m) % 256 == q % 256
  {
  }

  lemma {:induction false} PowSplit(a: nat, b: nat)
    ensures Pow256(a + b) == Pow256(a) * Pow256(b)
  {
    if b > 0 {
      PowSplit(a, b - 1);
      assert 256 * (Pow256(a) * Pow256(b - 1)) == Pow256(a) * (256 * Pow256(b - 1));
    }
  }

  function DecodeSigned(s: seq<byte>): int {
    var u := Decode(s);
    if 2 * u < Pow256(|s|) then u else u - Pow256(|s|)
  }

  lemma SignedRoundTrip(x: int, n: nat)
    requires FitsSigned(x, n)
    ensures DecodeSigned(EncodeSigned(x, n)) == x
  {
    DecodeEncode(if x < 0 then x + Pow256(n) else x, n);
  }

  /** Every byte string is the encoding of exactly the number it decodes to. */
  lemma SignedOnto(s: seq<byte>)
    ensures FitsSigned(DecodeSigned(s), |s|) && EncodeSigned(DecodeSigned(s), |s|) == s
  {
    EncodeDecode(s);
    EvenPow(|s|);
  }

  /** An integer put in front of anything is read back as itself, leaving that anything. */
  lemma ReadBack(x: int, y: int, n: nat, rest: seq<byte>, left: seq<byte>)
    requires FitsSigned(x, n) && FitsSigned(y, n)
    requires EncodeSigned(x, n) + rest == EncodeSigned(y, n) + left
    ensures x == y && rest == left
  {
    assert EncodeSigned(x, n) == (EncodeSigned(x, n) + rest)[..n];
    assert EncodeSigned(y, n) == (EncodeSigned(y, n) + left)[..n];
    assert rest == (EncodeSigned(x, n) + rest)[n..];
    SignedRoundTrip(x, n);
    SignedRoundTrip(y, n);
  }

  lemma EvenPow(n: nat)
    ensures n > 0 ==> Pow256(n) % 2 == 0
  {
  }

  lemma Regroup(a: seq<byte>, b: seq<byte>, c: seq<byte>)
    ensures a + b + c == a + (b + c)
  {
  }
}
