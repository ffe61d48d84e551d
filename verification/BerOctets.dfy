/** The octets themselves: what is written and read, in the terms of sections 8.1.2 and 8.1.3 of X.690. */
module BerOctets {
  import opened Bytes
  import opened Ber
  import opened BerParser
  import BerCodec

  // ----- Identifier octets -----

  /** The class bits of an identifier octet. */
  function ClassBits(cls: TagClass): (n: nat)
  {
    match cls
    case Universal => 0x00
    case Application => 0x40
    case Context => 0x80
    case Private => 0xC0
  }

  function Identifier(cls: TagClass, constructed: bool, low: nat): (n: nat)
  {
    ClassBits(cls) + (if constructed then 0x20 else 0x00) + low
  }

  /** An element with a low number and short contents is one identifier octet, one length octet and the contents. */
  lemma {:induction false} ShortElement(t: StructureTag)
    requires t.id <= 30 && |Contents(t.payload)| < 128
    ensures EncodeTag(t) == [Identifier(t.cls, t.payload.C?, t.id), |Contents(t.payload)|] + Contents(t.payload)
  {
  }

  /** The number that seven-bit digits stand for, whatever their continuation bits. */
  function Base128(ds: seq<byte>): (n: nat)
  {
    if ds == [] then 0 else 128 * Base128(ds[..|ds| - 1]) + ds[|ds| - 1] % 128
  }

  lemma {:induction false} ContinuedIs(n: nat)
    ensures Base128(Continued(n)) == n
    ensures forall i :: 0 <= i < |Continued(n)| ==> Continued(n)[i] >= 0x80
    ensures n > 0 ==> Continued(n) != [] && Continued(n)[0] != 0x80
  {
    if n > 0 {
      ContinuedIs(n / 128);
      var front := Continued(n / 128);
      assert Continued(n)[..|front|] == front;
    }
  }

  /**
   * A number above 30: the low bits are all set, and the digits of the number follow, the most significant first,
   * with the high bit on all but the last and no leading zero.
   */
  lemma {:induction false} HighIdentifier(cls: TagClass, constructed: bool, id: nat)
    requires id > 30
    ensures var bs := TypeOctets(cls, constructed, id);
            && |bs| >= 2 && bs[0] == Identifier(cls, constructed, 0x1F) && Base128(bs[1..]) == id
            && bs[1] != 0x80 && bs[|bs| - 1] < 0x80 && forall i :: 1 <= i < |bs| - 1 ==> bs[i] >= 0x80
  {
    ContinuedIs(id / 128);
    var front := Continued(id / 128);
    HighForm(Identifier(cls, constructed, 0x1F), front, id);
    assert id < 128 ==> front == [];
  }

  lemma {:induction false} HighForm(first: byte, front: seq<byte>, id: nat)
    requires Base128(front) == id / 128 && id > 0 && (forall i :: 0 <= i < |front| ==> front[i] >= 0x80)
    requires if id < 128 then front == [] else front != [] && front[0] != 0x80
    ensures var bs: seq<byte> := [first] + front + [id % 128];
            && |bs| >= 2 && bs[0] == first && Base128(bs[1..]) == id
            && bs[1] != 0x80 && bs[|bs| - 1] < 0x80 && forall i :: 1 <= i < |bs| - 1 ==> bs[i] >= 0x80
  {
    var last: byte := id % 128;
    var bs := [first] + front + [last];
    assert bs[1..] == front + [last] && (front + [last])[..|front|] == front;
    assert forall i :: 1 <= i < |bs| - 1 ==> bs[i] == front[i - 1];
  }

  // ----- Length octets -----

  /** The long form: the number of octets that follow, and the length in no more octets than it takes. */
  lemma {:induction false} LongLength(length: nat, other: seq<byte>)
    requires 128 <= length < TWO_TO_THE_64
    ensures var bs := LengthOctets(length);
            && 2 <= |bs| <= 9 && bs[0] == 0x80 + |bs| - 1 && Unsigned(bs[1..]) == length
            && (Unsigned(other) == length ==> |bs| - 1 <= |other|)
  {
    var low := LowOctets(length, ByteLen(length));
    BerCodec.LongForm(length, low);
    ByteLenBounds(length);
    UnsignedOfLowOctets(length, ByteLen(length));
    assert LengthOctets(length)[1..] == low;
    if other != [] && Unsigned(other) == length {
      UnsignedBound(other);
      ByteLenLeast(length, |other|);
    }
  }

  /** The accumulator keeps the low 64 bits. */
  lemma {:induction false} ParseUintIs(bs: seq<byte>)
    ensures ParseUint(bs) == Unsigned(bs) % TWO_TO_THE_64
  {
    if bs != [] {
      ParseUintIs(bs[..|bs| - 1]);
      ShiftIn(Unsigned(bs[..|bs| - 1]), bs[|bs| - 1]);
    }
  }

  lemma {:induction false} ShiftIn(n: nat, b: byte)
    ensures 256 * (n % TWO_TO_THE_64) % TWO_TO_THE_64 + b == (256 * n + b) % TWO_TO_THE_64
  {
    var q, r := n / TWO_TO_THE_64, n % TWO_TO_THE_64;
    var high, low := r / 0x100_0000_0000_0000, r % 0x100_0000_0000_0000;
    assert 256 * r == high * TWO_TO_THE_64 + 256 * low;
    Remainder(high, 256 * low);
    assert 256 * n + b == (256 * q + high) * TWO_TO_THE_64 + (256 * low + b);
    Remainder(256 * q + high, 256 * low + b);
  }

  lemma {:induction false} Remainder(q: nat, r: nat)
    requires r < TWO_TO_THE_64
    ensures (q * TWO_TO_THE_64 + r) % TWO_TO_THE_64 == r
  {
  }

  /** Any length octets: the short form, or a long form of any number of octets, zero and superfluous ones included. */
  lemma {:induction false} LengthRead(i: seq<byte>)
    ensures ParseLength(i)
            == if i == [] then Incomplete
               else if i[0] < 0x80 then Done(i[0], i[1..])
               else if |i| - 1 < i[0] as int - 0x80 then Incomplete
               else Done(Unsigned(i[1..i[0] as int - 0x7F]) % TWO_TO_THE_64, i[i[0] as int - 0x7F..])
  {
    if i != [] && i[0] >= 0x80 && |i| - 1 >= i[0] as int - 0x80 {
      var k := i[0] as int - 0x80;
      ParseUintIs(i[1..1 + k]);
      assert i[1..][..k] == i[1..1 + k] && i[1..][k..] == i[1 + k..];
    }
  }

  // ----- Elements -----

  function ClassRead(x: byte): TagClass
  {
    if x < 0x40 then Universal else if x < 0x80 then Application else if x < 0xC0 then Context else Private
  }

  /** Any identifier octet, with any length octets after it: what is read, or that more is needed. */
  lemma {:induction false} ElementRead(x: byte, i: seq<byte>)
    ensures var len := ParseLength(i);
            ParseTag([x] + i)
            == if len.Incomplete? || |len.rest| < len.value then Incomplete
               else if x % 0x40 < 0x20 then
                 Done(StructureTag(ClassRead(x), x % 0x20, P(len.rest[..len.value])), len.rest[len.value..])
               else if ParseAll(len.rest[..len.value]).None? then Incomplete
               else Done(StructureTag(ClassRead(x), x % 0x20, C(ParseAll(len.rest[..len.value]).value)),
                         len.rest[len.value..])
  {
    assert ([x] + i)[1..] == i && ([x] + i)[0] == x;
    HeaderBits(x);
  }

  lemma {:induction false} HeaderBits(x: byte)
    ensures ClassOf(x / 64) == ClassRead(x) && (x / 32 % 2 == 1 <==> x % 0x40 >= 0x20)
  {
  }
}
