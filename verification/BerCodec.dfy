/** What the writer and the parser promise together. */
module BerCodec {
  import opened Bytes
  import opened Ber
  import opened BerParser

  lemma {:induction false} ParseUintIsUnsigned(bs: seq<byte>)
    requires |bs| <= 8
    ensures ParseUint(bs) == Unsigned(bs)
  {
    if bs != [] {
      var front := bs[..|bs| - 1];
      ParseUintIsUnsigned(front);
      UnsignedBound(front);
      PowMonotone(|front|, 7);
      assert Pow256(7) == 0x1_00_0000_0000_0000 by { PowSeven(); }
    }
  }

  lemma {:induction false} PowSeven()
    ensures Pow256(7) == 0x1_00_0000_0000_0000
    ensures Pow256(8) == TWO_TO_THE_64
  {
    assert Pow256(2) == 0x1_0000;
    assert Pow256(4) == 0x1_0000_0000;
    assert Pow256(6) == 0x1_0000_0000_0000;
  }

  /** Tag numbers up to 30 are exactly the ones whose identifier octets the parser reads back. */
  lemma {:induction false} TypeRoundTrip(cls: TagClass, constructed: bool, id: nat, tail: seq<byte>)
    ensures ParseTypeHeader(TypeOctets(cls, constructed, id) + tail) == Done(Header(cls, constructed, id), tail)
            <==> id <= 30
  {
    var bs := TypeOctets(cls, constructed, id) + tail;
    assert bs[0] == TypeOctet(cls, constructed, if id <= 30 then id else 31);
    if id <= 30 {
      assert bs[1..] == tail;
    } else {
      assert |bs[1..]| > |tail|;
    }
  }

  lemma {:induction false} AtMostEight(n: nat)
    requires n < TWO_TO_THE_64
    ensures ByteLen(n) <= 8
  {
    PowSeven();
    ByteLenLeast(n, 8);
  }

  lemma {:induction false} LongForm(length: nat, low: seq<byte>)
    requires 128 <= length < TWO_TO_THE_64 && low == LowOctets(length, ByteLen(length))
    ensures LengthOctets(length) == [128 + |low|] + low && |low| <= 8
  {
    AtMostEight(length);
  }

  /** The shortest unsigned form reads back. */
  lemma {:induction false} ShortestReadsBack(n: nat)
    requires n < TWO_TO_THE_64
    ensures ParseUint(LowOctets(n, ByteLen(n))) == n
  {
    AtMostEight(n);
    ByteLenBounds(n);
    UnsignedOfLowOctets(n, ByteLen(n));
    ParseUintIsUnsigned(LowOctets(n, ByteLen(n)));
  }

  lemma {:induction false} TakeAll(b: seq<byte>, tail: seq<byte>)
    ensures Take(b + tail, |b|) == Done(b, tail)
  {
    assert (b + tail)[..|b|] == b && (b + tail)[|b|..] == tail;
  }

  lemma {:induction false} LongLengthParses(low: seq<byte>, tail: seq<byte>)
    requires |low| <= 8
    ensures ParseLength([128 + |low|] + low + tail) == Done(ParseUint(low), tail)
  {
    var bs := [128 + |low|] + low + tail;
    assert bs[0] == 128 + |low| && bs[1..] == low + tail;
    TakeAll(low, tail);
  }

  lemma {:induction false} LengthRoundTrip(length: nat, tail: seq<byte>)
    requires length < TWO_TO_THE_64
    ensures ParseLength(LengthOctets(length) + tail) == Done(length, tail)
  {
    var bs := LengthOctets(length) + tail;
    if length < 128 {
      assert bs[1..] == tail;
    } else {
      var low := LowOctets(length, ByteLen(length));
      LongForm(length, low);
      LongLengthParses(low, tail);
      ShortestReadsBack(length);
    }
  }

  /** The header of an encoded tag parses and leaves the contents and the tail. */
  lemma {:induction false} HeaderRoundTrip(t: StructureTag, tail: seq<byte>)
    requires t.id <= 30 && |Contents(t.payload)| < TWO_TO_THE_64
    ensures ParseTypeHeader(EncodeTag(t) + tail).Done?
    ensures ParseTypeHeader(EncodeTag(t) + tail).value == Header(t.cls, t.payload.C?, t.id)
    ensures ParseLength(ParseTypeHeader(EncodeTag(t) + tail).rest)
            == Done(|Contents(t.payload)|, Contents(t.payload) + tail)
  {
    var body := Contents(t.payload);
    var len := LengthOctets(|body|);
    var ty := TypeOctets(t.cls, t.payload.C?, t.id);
    assert EncodeTag(t) + tail == ty + (len + (body + tail));
    TypeRoundTrip(t.cls, t.payload.C?, t.id, len + (body + tail));
    LengthRoundTrip(|body|, body + tail);
  }

  /** Parsing the octets of a tree, whatever follows them, gives the tree and leaves what follows. */
  lemma {:induction false} RoundTrip(t: StructureTag, tail: seq<byte>)
    requires LowIds(t) && |EncodeTag(t)| < TWO_TO_THE_64
    ensures ParseTag(EncodeTag(t) + tail) == Done(t, tail)
    decreases t, 1
  {
    var body := Contents(t.payload);
    HeaderRoundTrip(t, tail);
    TakeAll(body, tail);
    match t.payload
    case P(_) =>
    case C(tags) => RoundTripAll(tags);
  }

  lemma {:induction false} RoundTripAll(ts: seq<StructureTag>)
    requires AllLowIds(ts) && |EncodeAll(ts)| < TWO_TO_THE_64
    ensures ParseAll(EncodeAll(ts)) == Some(ts)
    decreases ts, 0
  {
    if ts != [] {
      var rest := EncodeAll(ts[1..]);
      RoundTrip(ts[0], rest);
      RoundTripAll(ts[1..]);
      assert [ts[0]] + ts[1..] == ts;
    }
  }

  /** A truncated encoding is always reported as incomplete, never misread. */
  lemma {:induction false} PrefixIncomplete(t: StructureTag, k: nat)
    requires t.id <= 30 && |Contents(t.payload)| < TWO_TO_THE_64
    requires k < |EncodeTag(t)|
    ensures ParseTag(EncodeTag(t)[..k]).Incomplete?
  {
    var body := Contents(t.payload);
    var first := TypeOctet(t.cls, t.payload.C?, t.id);
    var len := LengthOctets(|body|);
    assert EncodeTag(t) == [first] + len + body;
    if k > 0 {
      PrefixAfterType(first, len, body, k);
      CutIncomplete(EncodeTag(t)[..k], |body|, body, k - 1);
    }
  }

  lemma {:induction false} PrefixAfterType(first: byte, len: seq<byte>, body: seq<byte>, k: nat)
    requires 0 < k <= |[first] + len + body|
    ensures ([first] + len + body)[..k][1..]
            == if k - 1 < |len| then len[..k - 1] else len + body[..k - 1 - |len|]
  {
  }

  /** Cut within the length or within the contents. */
  lemma {:induction false} CutIncomplete(p: seq<byte>, n: nat, body: seq<byte>, k: nat)
    requires p != [] && n == |body| < TWO_TO_THE_64 && k < |LengthOctets(n)| + n
    requires p[1..] == if k < |LengthOctets(n)| then LengthOctets(n)[..k]
                       else LengthOctets(n) + body[..k - |LengthOctets(n)|]
    ensures ParseTag(p).Incomplete?
  {
    if k < |LengthOctets(n)| {
      LengthPrefixIncomplete(n, k);
    } else {
      LengthRoundTrip(n, body[..k - |LengthOctets(n)|]);
    }
  }

  lemma {:induction false} LengthPrefixIncomplete(length: nat, k: nat)
    requires length < TWO_TO_THE_64 && k < |LengthOctets(length)|
    ensures ParseLength(LengthOctets(length)[..k]).Incomplete?
  {
    if length >= 128 {
      LongForm(length, LowOctets(length, ByteLen(length)));
    }
  }

  lemma {:induction false} TakeAppend(i: seq<byte>, n: nat, x: seq<byte>)
    requires n <= |i|
    ensures Take(i + x, n) == Done(i[..n], i[n..] + x)
  {
    assert (i + x)[..n] == i[..n] && (i + x)[n..] == i[n..] + x;
  }

  lemma {:induction false} ParseLengthAppend(l: seq<byte>, x: seq<byte>)
    requires ParseLength(l).Done?
    ensures ParseLength(l + x) == Done(ParseLength(l).value, ParseLength(l).rest + x)
  {
    assert (l + x)[0] == l[0] && (l + x)[1..] == l[1..] + x;
    if l[0] >= 128 {
      TakeAppend(l[1..], l[0] - 128, x);
    }
  }

  /** Octets appended to an input that parses only lengthen the remainder. */
  lemma {:induction false} AppendKeepsParse(b: seq<byte>, x: seq<byte>)
    requires ParseTag(b).Done?
    ensures ParseTag(b + x) == Done(ParseTag(b).value, ParseTag(b).rest + x)
  {
    assert (b + x)[1..] == b[1..] + x;
    var len := ParseLength(b[1..]);
    ParseLengthAppend(b[1..], x);
    TakeAppend(len.rest, len.value, x);
  }

  // ----- Re-encoding -----

  lemma {:induction false} LengthOctetsMonotone(m: nat, n: nat)
    requires m <= n
    ensures |LengthOctets(m)| <= |LengthOctets(n)|
  {
    if m >= 128 {
      ByteLenBounds(n);
      ByteLenLeast(m, ByteLen(n));
    }
  }

  /** However the length was written, the shortest form is no longer. */
  lemma {:induction false} LengthOctetsShortest(i: seq<byte>)
    requires ParseLength(i).Done?
    ensures |LengthOctets(ParseLength(i).value)| <= |i| - |ParseLength(i).rest|
  {
    if i[0] >= 128 {
      var b := Take(i[1..], i[0] - 128).value;
      var v := ParseUint(b);
      if v >= 128 {
        assert b != [];
        PowSeven();
        if |b| <= 8 {
          ParseUintIsUnsigned(b);
          UnsignedBound(b);
          ByteLenLeast(v, |b|);
        } else {
          ByteLenLeast(v, 8);
        }
      }
    }
  }

  /** Whatever the parser accepts, writing the tree again takes no more octets than were read. */
  lemma {:induction false} ReencodeShrinks(b: seq<byte>)
    requires ParseTag(b).Done? && LowIds(ParseTag(b).value)
    ensures |EncodeTag(ParseTag(b).value)| <= |b| - |ParseTag(b).rest|
    decreases |b|, 0
  {
    var t := ParseTag(b).value;
    var len := ParseLength(b[1..]);
    var content := Take(len.rest, len.value).value;
    if t.payload.C? {
      ReencodeAllShrinks(content);
    }
    LengthOctetsMonotone(|Contents(t.payload)|, len.value);
    LengthOctetsShortest(b[1..]);
  }

  lemma {:induction false} ReencodeAllShrinks(content: seq<byte>)
    requires ParseAll(content).Some? && AllLowIds(ParseAll(content).value)
    ensures |EncodeAll(ParseAll(content).value)| <= |content|
    decreases |content|, 1
  {
    if content != [] {
      var ts := ParseAll(content).value;
      var rest := ParseTag(content).rest;
      assert ts[0] == ParseTag(content).value && ts[1..] == ParseAll(rest).value;
      ReencodeShrinks(content);
      ReencodeAllShrinks(rest);
    }
  }

  /** The normal form of an accepted input: no longer, and with the same meaning. */
  lemma {:induction false} Normalize(b: seq<byte>, tail: seq<byte>)
    requires |b| < TWO_TO_THE_64
    requires ParseTag(b).Done? && LowIds(ParseTag(b).value)
    ensures var t := ParseTag(b).value;
            && |EncodeTag(t)| <= |b| - |ParseTag(b).rest|
            && ParseTag(EncodeTag(t) + tail) == Done(t, tail)
  {
    ReencodeShrinks(b);
    RoundTrip(ParseTag(b).value, tail);
  }
}
