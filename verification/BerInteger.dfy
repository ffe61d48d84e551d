/** INTEGER and ENUMERATED contents. */
module BerInteger {
  import opened Bytes
  import opened Ber
  import BerParser
  import BerCodec

  const TWO_TO_THE_63: int := 0x8000_0000_0000_0000

  type i64 = x: int | -TWO_TO_THE_63 <= x < TWO_TO_THE_63

  function Abs(i: int): nat { if i >= 0 then i else -i }

  /** As many octets as the magnitude takes, and one more when a positive number would look negative. */
  function OctetCount(i: int): (n: nat)
    ensures n >= 1
  {
    var base := ByteLen(Abs(i));
    if i > 0 && i >= 128 * Pow256(base - 1) then base + 1 else base
  }

  function IntegerOctets(i: int): (bs: seq<byte>)
    ensures bs != []
  {
    LowOctets(i, OctetCount(i))
  }

  /** Never more than eight octets, so that the padding of i_e_into_structure is never needed. */
  lemma {:induction false} FitsEightOctets(i: i64)
    ensures OctetCount(i) <= 8
  {
    BerCodec.AtMostEight(Abs(i));
    BerCodec.PowSeven();
  }

  lemma {:induction false} ShiftTest(i: nat, h: nat)
    requires 0 < h && i < 2 * h
    ensures i / h == 1 <==> i >= h
  {
  }

  /** The one i64 whose negation overflows. */
  const MINIMUM: int := -TWO_TO_THE_63

  /** The octets that are written; with a negation that wraps around, the loop ends at once on the minimum. */
  function Written(i: i64): (bs: seq<byte>)
  {
    if i == MINIMUM then [0] else IntegerOctets(i)
  }

  /** i_e_into_structure. Where overflow is checked, the negation of the minimum panics: None. */
  method IntoStructure(id: nat, cls: TagClass, inner: i64, checked: bool) returns (t: Option<StructureTag>)
    ensures t == if checked && inner == MINIMUM then None else Some(StructureTag(cls, id, P(Written(inner))))
  {
    if checked && inner == MINIMUM {
      return None;
    }
    var count := CountOctets(inner);
    var out: seq<byte> := [];
    var repr := LowOctets(inner, 8);
    if count > |repr| {
      out := out + [0];
      count := count - 1;
    }
    FitsEightOctets(inner);
    LowOctetsSuffix(inner, count, 8);
    out := out + repr[|repr| - count..];
    assert out == LowOctets(inner, count);
    assert inner == MINIMUM ==> LowOctets(inner, 1) == LowOctets(inner / 256, 0) + [0];
    t := Some(StructureTag(cls, id, P(out)));
  }

  /** The shift loop, and the test of the most significant bit. */
  method CountOctets(inner: i64) returns (count: nat)
    ensures count == if inner == MINIMUM then 1 else OctetCount(inner)
  {
    var rem: int := if inner >= 0 then inner else if inner == MINIMUM then MINIMUM else -(inner as int);
    count, rem := 1, rem / 256;
    while rem > 0
      invariant count >= 1
      invariant if inner == MINIMUM then rem < 0 && count == 1
                else rem >= 0 && count + (if rem > 0 then ByteLen(rem) else 0) == ByteLen(Abs(inner))
      decreases rem
    {
      count, rem := count + 1, rem / 256;
    }
    if inner > 0 {
      ByteLenBounds(inner);
      ShiftTest(inner, 128 * Pow256(count - 1));
      if inner / (128 * Pow256(count - 1)) == 1 {
        count := count + 1;
      }
    }
  }

  /** For non-negative numbers the octets are below half of their range and read back, signed or not. */
  lemma {:induction false} NonNegativeReadsBack(i: nat)
    ensures Unsigned(IntegerOctets(i)) == i && Signed(IntegerOctets(i)) == i
  {
    var base, bs := ByteLen(i), IntegerOctets(i);
    ByteLenBounds(i);
    PowMonotone(base, |bs|);
    UnsignedOfLowOctets(i, |bs|);
    assert i < 128 * Pow256(|bs| - 1);
    TopBit(bs);
  }

  /** ... and no octet string that stands for the number is shorter (section 8.3.2 of X.690). */
  lemma {:induction false} NonNegativeShortest(i: nat, other: seq<byte>)
    requires other != [] && Signed(other) == i
    ensures |IntegerOctets(i)| <= |other|
  {
    var base := ByteLen(i);
    ByteLenBounds(i);
    SignedRange(other);
    if |other| < OctetCount(i) {
      if i >= 128 * Pow256(base - 1) {
        PowMonotone(|other| - 1, base - 1);
      } else {
        PowMonotone(|other|, base - 1);
      }
    }
  }

  lemma {:induction false} NonNegativeParses(i: i64)
    requires i >= 0
    ensures |IntegerOctets(i)| <= 8 && BerParser.ParseUint(IntegerOctets(i)) == i
  {
    FitsEightOctets(i);
    NonNegativeReadsBack(i);
    BerCodec.ParseUintIsUnsigned(IntegerOctets(i));
  }

  lemma {:induction false} NegativeOctets(i: int)
    requires i < 0
    ensures Unsigned(IntegerOctets(i)) == i + Pow256(ByteLen(-i))
  {
    ByteLenBounds(-i);
    UnsignedOfNegative(i, ByteLen(-i));
  }

  /**
   * Two's complement correctness over every number: it fails exactly on the negative numbers whose
   * magnitude fills its octets beyond the middle of their range.
   */
  lemma {:induction false} SignKeptExactlyWhen(i: int)
    ensures Signed(IntegerOctets(i)) == i
            <==> i >= 0 || -i <= 128 * Pow256(ByteLen(-i) - 1)
  {
    if i >= 0 {
      NonNegativeReadsBack(i);
    } else {
      NegativeOctets(i);
      TopBit(IntegerOctets(i));
    }
  }

  /** The same for what is written of every i64: the minimum is lost as well. */
  lemma {:induction false} WrittenKeptExactlyWhen(i: i64)
    ensures Signed(Written(i)) == i
            <==> i > MINIMUM && (i >= 0 || -(i as int) <= 128 * Pow256(ByteLen(-(i as int)) - 1))
  {
    SignKeptExactlyWhen(i);
    assert Signed([0]) == 0 by { assert Unsigned([0]) == 256 * Unsigned([]) + 0; }
  }

  /** The least magnitude that loses its sign: -129 is written as 0x7F, which reads as 127. */
  lemma {:induction false} SignLost()
    ensures IntegerOctets(-129) == [0x7F] && Signed(IntegerOctets(-129)) == 127
  {
    assert -129 / 256 == -1 && -129 % 256 == 127;
    assert LowOctets(-129, 1) == LowOctets(-1, 0) + [127];
    assert Unsigned([127]) == 256 * Unsigned([]) + 127;
  }

  // ----- The way of message ids and page sizes: i32, written as INTEGER, read unsigned and cut to 32 bits -----

  const TWO_TO_THE_31: int := 0x8000_0000
  const TWO_TO_THE_32: int := 0x1_0000_0000

  type i32 = x: int | -TWO_TO_THE_31 <= x < TWO_TO_THE_31

  /** A u64 cast to i32. */
  function AsI32(n: nat): (i: i32)
    ensures (n - i as int) % TWO_TO_THE_32 == 0
  {
    var low := n % TWO_TO_THE_32;
    if low < TWO_TO_THE_31 then low else low - TWO_TO_THE_32
  }

  lemma {:induction false} CastUndoes(i: i32, p: nat, v: nat)
    requires i < 0 && v == i + p
    requires if i <= -0x100_0000 then p == TWO_TO_THE_32 else p <= 0x100_0000
    ensures AsI32(v) == i <==> i <= -0x100_0000
  {
  }

  /** The octets of a negative i32, read as unsigned: the modulus of their width is added. */
  lemma {:induction false} NegativeI32Parses(i: i32, m: nat)
    requires i < 0 && m == -(i as int)
    ensures ByteLen(m) <= 4
    ensures BerParser.ParseUint(IntegerOctets(i)) == i + Pow256(ByteLen(m))
  {
    FirstPowers();
    NegativeOctets(i);
    ByteLenLeast(m, 4);
    BerCodec.ParseUintIsUnsigned(IntegerOctets(i));
  }

  lemma {:induction false} FirstPowers()
    ensures Pow256(3) == 0x100_0000 && Pow256(4) == TWO_TO_THE_32
  {
    assert Pow256(2) == 0x1_0000;
  }

  /** Four octets are taken from the magnitude 0x1000000 on. */
  lemma {:induction false} FourOctetsExactlyWhen(m: nat)
    requires ByteLen(m) <= 4
    ensures ByteLen(m) == 4 <==> m >= 0x100_0000
  {
    FirstPowers();
    ByteLenBounds(m);
    if m < 0x100_0000 {
      ByteLenLeast(m, 3);
    } else if ByteLen(m) <= 3 {
      PowMonotone(ByteLen(m), 3);
    }
  }

  lemma {:induction false} NegativeKeptExactlyWhen(i: i32)
    requires i < 0
    ensures AsI32(BerParser.ParseUint(IntegerOctets(i))) == i <==> i <= -0x100_0000
  {
    var m: nat := -(i as int);
    NegativeI32Parses(i, m);
    NegativeModulus(i, m);
    CastUndoes(i, Pow256(ByteLen(m)), BerParser.ParseUint(IntegerOctets(i)));
  }

  lemma {:induction false} NonNegativeKept(i: i32)
    requires i >= 0
    ensures AsI32(BerParser.ParseUint(IntegerOctets(i))) == i
  {
    NonNegativeParses(i);
  }

  /** The cast undoes the encoding except on the negative numbers that take fewer than four octets. */
  lemma {:induction false} I32KeptExactlyWhen(i: i32)
    ensures AsI32(BerParser.ParseUint(IntegerOctets(i))) == i <==> i >= 0 || i <= -0x100_0000
  {
    if i >= 0 {
      NonNegativeKept(i);
    } else {
      NegativeKeptExactlyWhen(i);
    }
  }

  lemma {:induction false} NegativeModulus(i: i32, m: nat)
    requires i < 0 && m == -(i as int) && ByteLen(m) <= 4
    ensures if i <= -0x100_0000 then Pow256(ByteLen(m)) == TWO_TO_THE_32 else Pow256(ByteLen(m)) <= 0x100_0000
  {
    FourOctetsExactlyWhen(m);
    FirstPowers();
    if ByteLen(m) <= 3 {
      PowMonotone(ByteLen(m), 3);
    }
  }
}
