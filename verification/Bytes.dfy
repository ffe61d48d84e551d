/** Octets, and the base-256 arithmetic that BER lengths and integers are made of. */
module Bytes {

  type byte = x: int | 0 <= x < 256

  datatype Option<+T> = None | Some(value: T)

  const TWO_TO_THE_64: nat := 0x1_0000_0000_0000_0000

  function Pow256(k: nat): (p: nat)
    ensures p >= 1
  {
    if k == 0 then 1 else 256 * Pow256(k - 1)
  }

  /** The number of octets in the shortest unsigned form of n; zero takes one octet. */
  function ByteLen(n: nat): (k: nat)
    ensures k >= 1
  {
    if n < 256 then 1 else 1 + ByteLen(n / 256)
  }

  /** The k low octets of n in two's complement, most significant first. */
  function LowOctets(n: int, k: nat): (bs: seq<byte>)
    ensures |bs| == k
    decreases k
  {
    if k == 0 then [] else LowOctets(n / 256, k - 1) + [n % 256]
  }

  /** The unsigned value of an octet string. */
  function Unsigned(bs: seq<byte>): (n: nat)
  {
    if bs == [] then 0 else 256 * Unsigned(bs[..|bs| - 1]) + bs[|bs| - 1]
  }

  /** The two's complement value of a non-empty octet string (section 8.3.3 of X.690). */
  function Signed(bs: seq<byte>): (n: int)
    requires bs != []
  {
    if bs[0] < 128 then Unsigned(bs) else Unsigned(bs) - Pow256(|bs|)
  }

  lemma {:induction false} ByteLenBounds(n: nat)
    ensures n < Pow256(ByteLen(n))
    ensures ByteLen(n) > 1 ==> n >= Pow256(ByteLen(n) - 1)
  {
    if n >= 256 {
      ByteLenBounds(n / 256);
    }
  }

  lemma {:induction false} PowMonotone(j: nat, k: nat)
    requires j <= k
    ensures Pow256(j) <= Pow256(k)
    decreases k
  {
    if j < k {
      PowMonotone(j, k - 1);
    }
  }

  /** ByteLen really is the least sufficient number of octets. */
  lemma {:induction false} ByteLenLeast(n: nat, k: nat)
    requires k >= 1 && n < Pow256(k)
    ensures ByteLen(n) <= k
  {
    ByteLenBounds(n);
    if ByteLen(n) > k {
      PowMonotone(k, ByteLen(n) - 1);
    }
  }

  lemma {:induction false} UnsignedBound(bs: seq<byte>)
    ensures Unsigned(bs) < Pow256(|bs|)
  {
    if bs != [] {
      UnsignedBound(bs[..|bs| - 1]);
    }
  }

  lemma {:induction false} UnsignedOfLowOctets(n: nat, k: nat)
    requires n < Pow256(k)
    ensures Unsigned(LowOctets(n, k)) == n
  {
    if k > 0 {
      UnsignedOfLowOctets(n / 256, k - 1);
      assert LowOctets(n, k)[..k - 1] == LowOctets(n / 256, k - 1);
    }
  }

  /** For a negative number the low octets read back with the modulus added. */
  lemma {:induction false} UnsignedOfNegative(n: int, k: nat)
    requires 0 <= n + Pow256(k) && n < 0
    ensures Unsigned(LowOctets(n, k)) == n + Pow256(k)
    decreases k
  {
    if k > 0 {
      UnsignedOfNegative(n / 256, k - 1);
      assert LowOctets(n, k)[..k - 1] == LowOctets(n / 256, k - 1);
    }
  }

  /** A suffix of the fixed-width form is the narrower form. */
  lemma {:induction false} LowOctetsSuffix(n: int, k: nat, w: nat)
    requires k <= w
    ensures LowOctets(n, w)[w - k..] == LowOctets(n, k)
    decreases k
  {
    if k > 0 {
      LowOctetsSuffix(n / 256, k - 1, w - 1);
    }
  }

  /** The first octet carries the top digit. */
  lemma {:induction false} LeadingOctet(bs: seq<byte>)
    requires bs != []
    ensures bs[0] * Pow256(|bs| - 1) <= Unsigned(bs) < (bs[0] + 1) * Pow256(|bs| - 1)
  {
    if |bs| > 1 {
      var front := bs[..|bs| - 1];
      LeadingOctet(front);
      assert bs[0] == front[0];
      Scale(bs[0], Pow256(|bs| - 2), Unsigned(front));
    }
  }

  lemma {:induction false} Scale(d: nat, p: nat, n: nat)
    requires d * p <= n < (d + 1) * p
    ensures d * (256 * p) <= 256 * n
    ensures 256 * n + 256 <= (d + 1) * (256 * p)
  {
    assert d * (256 * p) == 256 * (d * p);
    assert (d + 1) * (256 * p) == 256 * ((d + 1) * p);
  }

  /** The sign is the top bit: it splits the unsigned range in the middle. */
  lemma {:induction false} TopBit(bs: seq<byte>)
    requires bs != []
    ensures bs[0] < 128 <==> Unsigned(bs) < 128 * Pow256(|bs| - 1)
  {
    LeadingOctet(bs);
    if bs[0] < 128 {
      TimesMonotone(bs[0] + 1, 128, Pow256(|bs| - 1));
    } else {
      TimesMonotone(128, bs[0], Pow256(|bs| - 1));
    }
  }

  lemma {:induction false} TimesMonotone(a: nat, b: nat, p: nat)
    requires a <= b
    ensures a * p <= b * p
  {
    assert b * p == a * p + (b - a) * p;
  }

  lemma {:induction false} SignedRange(bs: seq<byte>)
    requires bs != []
    ensures -128 * Pow256(|bs| - 1) <= Signed(bs) < 128 * Pow256(|bs| - 1)
  {
    TopBit(bs);
    UnsignedBound(bs);
    assert Pow256(|bs|) == 256 * Pow256(|bs| - 1);
  }
}
