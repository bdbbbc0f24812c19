/** Bytes, their big-endian reading, and copying into a buffer. */
module Bytes {
  import opened Wrappers
  import opened Radix
  import opened DivMod

  type Byte = x: int | 0 <= x < 256

  /** n bytes that hold v, most significant first; higher bits of v are lost. */
  function BigEndian(v: nat, n: nat): (b: seq<Byte>)
    ensures |b| == n
  {
    if n == 0 then [] else BigEndian(v / 256, n - 1) + [v % 256]
  }

  function FromBigEndian(b: seq<Byte>): nat {
    Value(b, 256)
  }

  /** Byte i of n is the one of weight 256^(n - 1 - i). */
  lemma {:induction false} BigEndianByte(v: nat, n: nat, i: nat)
    requires i < n
    ensures Pow(256, n - 1 - i) > 0
    ensures BigEndian(v, n)[i] == v / Pow(256, n - 1 - i) % 256
    decreases n
  {
    PowPositive(256, n - 1 - i);
    if i < n - 1 {
      BigEndianByte(v / 256, n - 1, i);
      DivTwice(v, 256, Pow(256, n - 2 - i));
    } else {
      ModUnique(v, 1, v, 0);
    }
  }

  lemma DivTwice(v: nat, a: nat, b: nat)
    requires a > 0 && b > 0
    ensures a * b > 0 && (v / a) / b == v / (b * a)
  {
    var q, r := v / a, v % a;
    var p, s := q / b, q % b;
    DivModEquation(v, a);
    DivModEquation(q, b);
    MulMonotone(s + 1, b, a);
    MulMonotone(1, b, a);
    assert (p * b + s) * a + r == p * (b * a) + (s * a + r);
    assert (s + 1) * a == s * a + a;
    MulNonNegative(s, a);
    ModUnique(v, b * a, p, s * a + r);
  }

  /** Reading back what was written gives the value modulo 256^n. */
  lemma {:induction false} BigEndianRoundTrip(v: nat, n: nat)
    requires v < Pow(256, n)
    ensures FromBigEndian(BigEndian(v, n)) == v
  {
    if n > 0 {
      var b := BigEndian(v / 256, n - 1);
      DivModEquation(v, 256);
      QuotientBound(v, Pow(256, n - 1));
      BigEndianRoundTrip(v / 256, n - 1);
      assert BigEndian(v, n)[..n - 1] == b;
    }
  }

  lemma QuotientBound(v: nat, p: nat)
    requires v < p * 256
    ensures v / 256 < p
  {}

  /** Byte strings are recovered from their value and length. */
  lemma BytesRoundTrip(b: seq<Byte>)
    ensures BigEndian(FromBigEndian(b), |b|) == b
  {
    ValueBound(b, 256);
    BigEndianRoundTrip(FromBigEndian(b), |b|);
    SameLengthInjective(BigEndian(FromBigEndian(b), |b|), b, 256);
  }

  lemma Powers256()
    ensures Pow(256, 1) == 0x100 && Pow(256, 2) == 0x1_0000 && Pow(256, 4) == 0x1_0000_0000
    ensures Pow(256, 8) == 0x1_0000_0000_0000_0000
  {
    assert Pow(256, 0) == 1;
    PowAdds(256, 1, 1);
    PowAdds(256, 2, 2);
    PowAdds(256, 4, 4);
  }

  /** s with the bytes from at on replaced by b. */
  function Splice(s: seq<Byte>, at: nat, b: seq<Byte>): (r: seq<Byte>)
    requires at + |b| <= |s|
    ensures |r| == |s|
  {
    s[..at] + b + s[at + |b|..]
  }

  lemma SpliceTwice(s: seq<Byte>, at: nat, a: seq<Byte>, b: seq<Byte>)
    requires at + |a| + |b| <= |s|
    ensures Splice(Splice(s, at, a), at + |a|, b) == Splice(s, at, a + b)
  {}

  lemma ConcatAssociates(a: seq<Byte>, b: seq<Byte>, c: seq<Byte>)
    ensures (a + b) + c == a + (b + c)
  {}

  method Copy(out: array<Byte>, at: nat, b: seq<Byte>)
    requires at + |b| <= out.Length
    modifies out
    ensures out[..] == Splice(old(out[..]), at, b)
  {
    forall i | 0 <= i < |b| {
      out[at + i] := b[i];
    }
  }
}
