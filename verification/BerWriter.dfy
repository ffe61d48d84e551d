/** The writer as it runs: octets appended to growing buffers, digits peeled off by shifting. */
module BerWriter {
  import opened Bytes
  import opened Ber
  import BerCodec

  class Buffer {
    var data: seq<byte>

    constructor ()
      ensures data == []
    {
      data := [];
    }

    method Extend(bs: seq<byte>)
      modifies this
      ensures data == old(data) + bs
    {
      data := data + bs;
    }
  }

  type digit = x: int | 0 <= x < 128

  /** The digits a little-endian stack of seven-bit digits stands for, with the continuation bit set. */
  ghost function Stacked(digits: seq<digit>): seq<byte>
  {
    if digits == [] then []
    else [128 + digits[|digits| - 1] as int] + Stacked(digits[..|digits| - 1])
  }

  /** The seven-bit digits of a tag number, peeled off by shifting, least significant first. */
  method TagDigits(id: nat) returns (tagbytes: seq<digit>)
    requires id > 0
    ensures tagbytes != [] && Stacked(tagbytes) == Continued(id)
  {
    tagbytes := [];
    var tag := id;
    while tag > 0
      invariant tag == 0 ==> tagbytes != []
      invariant Continued(tag) + Stacked(tagbytes) == Continued(id)
    {
      var digit := tag % 128;
      assert (tagbytes + [digit])[..|tagbytes|] == tagbytes;
      assert Continued(tag) + Stacked(tagbytes) == Continued(tag / 128) + ([128 + digit] + Stacked(tagbytes));
      tagbytes, tag := tagbytes + [digit], tag / 128;
    }
  }

  /** The digits popped off the stack, each with the continuation bit but the last. */
  method WriteDigits(w: Buffer, digits: seq<digit>) returns (ghost written: seq<byte>)
    requires digits != []
    modifies w
    ensures written + [128 + digits[0] as int] == Stacked(digits)
    ensures w.data == old(w.data) + written + [digits[0] as int]
  {
    var tagbytes := digits;
    written := [];
    while |tagbytes| > 1
      invariant tagbytes != [] && tagbytes <= digits
      invariant w.data == old(w.data) + written
      invariant written + Stacked(tagbytes) == Stacked(digits)
      decreases |tagbytes|
    {
      StackStep(written, tagbytes);
      var digit: int := tagbytes[|tagbytes| - 1];
      tagbytes := tagbytes[..|tagbytes| - 1];
      w.Extend([digit + 128]);
      AppendLast(old(w.data), written, digit + 128);
      written := written + [digit + 128];
    }
    StackBottom(tagbytes);
    w.Extend([tagbytes[0]]);
  }

  lemma {:induction false} StackStep(written: seq<byte>, digits: seq<digit>)
    requires digits != []
    ensures written + Stacked(digits)
            == written + [128 + digits[|digits| - 1] as int] + Stacked(digits[..|digits| - 1])
  {
  }

  lemma {:induction false} StackBottom(digits: seq<digit>)
    requires |digits| == 1
    ensures Stacked(digits) == [128 + digits[0] as int]
  {
    assert digits[..0] == [];
  }

  lemma {:induction false} AppendLast(before: seq<byte>, written: seq<byte>, x: byte)
    ensures before + written + [x] == before + (written + [x])
  {
  }

  method WriteType(w: Buffer, cls: TagClass, constructed: bool, id: nat)
    modifies w
    ensures w.data == old(w.data) + TypeOctets(cls, constructed, id)
  {
    if id <= 30 {
      w.Extend([TypeOctet(cls, constructed, id)]);
      return;
    }
    var tagbytes := TagDigits(id);
    var first := TypeOctet(cls, constructed, 31);
    w.Extend([first]);
    ghost var written := WriteDigits(w, tagbytes);
    LastDigit(written, tagbytes[0], id);
    HighForm(old(w.data), first, Continued(id / 128), id % 128);
  }

  lemma {:induction false} HighForm(before: seq<byte>, first: byte, middle: seq<byte>, last: byte)
    ensures before + [first] + middle + [last] == before + ([first] + middle + [last])
  {
  }

  lemma {:induction false} LastDigit(written: seq<byte>, d: digit, id: nat)
    requires id > 0 && written + [128 + d as int] == Continued(id)
    ensures written == Continued(id / 128) && d == id % 128
  {
    var all := written + [128 + d as int];
    assert all == Continued(id / 128) + [128 + id % 128];
    assert written == all[..|all| - 1] && all[|all| - 1] == 128 + d as int;
    assert Continued(id / 128) == all[..|all| - 1];
  }

  method WriteLength(w: Buffer, length: nat)
    requires length < TWO_TO_THE_64
    modifies w
    ensures w.data == old(w.data) + LengthOctets(length)
  {
    if length < 128 {
      w.Extend([length]);
      return;
    }
    var count := CountOctets(length);
    var repr := LowOctets(length, 8);
    LowOctetsSuffix(length, count, 8);
    w.Extend([count + 128]);
    w.Extend(repr[8 - count..]);
    LongLength(old(w.data), length);
  }

  /** The shift loop: how many octets the length takes. */
  method CountOctets(length: nat) returns (count: nat)
    requires length < TWO_TO_THE_64
    ensures count == ByteLen(length) <= 8
  {
    var len := length / 256;
    count := 1;
    while len > 0
      invariant count + (if len > 0 then ByteLen(len) else 0) == ByteLen(length)
      decreases len
    {
      count, len := count + 1, len / 256;
    }
    BerCodec.AtMostEight(length);
  }

  lemma {:induction false} LongLength(before: seq<byte>, length: nat)
    requires 128 <= length < TWO_TO_THE_64
    ensures ByteLen(length) <= 8
    ensures before + [ByteLen(length) + 128] + LowOctets(length, ByteLen(length)) == before + LengthOctets(length)
  {
    BerCodec.LongForm(length, LowOctets(length, ByteLen(length)));
  }

  method EncodeInner(buf: Buffer, t: StructureTag)
    requires |EncodeTag(t)| < TWO_TO_THE_64
    modifies buf
    ensures buf.data == old(buf.data) + EncodeTag(t)
    decreases t, 1
  {
    WriteType(buf, t.cls, t.payload.C?, t.id);
    match t.payload
    case P(v) =>
      WriteLength(buf, |v|);
      buf.Extend(v);
      Regroup(old(buf.data), t);
    case C(tags) =>
      var tmp := new Buffer();
      EncodeEach(tmp, tags);
      WriteLength(buf, |tmp.data|);
      buf.Extend(tmp.data);
      Regroup(old(buf.data), t);
  }

  lemma {:induction false} Regroup(before: seq<byte>, t: StructureTag)
    ensures before + TypeOctets(t.cls, t.payload.C?, t.id) + LengthOctets(|Contents(t.payload)|) + Contents(t.payload)
            == before + EncodeTag(t)
  {
  }

  lemma {:induction false} EncodeRest(before: seq<byte>, tags: seq<StructureTag>, k: nat)
    requires k < |tags|
    ensures before + EncodeTag(tags[k]) + EncodeAll(tags[k + 1..]) == before + EncodeAll(tags[k..])
  {
    assert tags[k..][0] == tags[k] && tags[k..][1..] == tags[k + 1..];
    assert EncodeAll(tags[k..]) == EncodeTag(tags[k]) + EncodeAll(tags[k + 1..]);
  }

  /** The loop over the parts of a constructed tag. */
  method EncodeEach(tmp: Buffer, tags: seq<StructureTag>)
    requires |EncodeAll(tags)| < TWO_TO_THE_64
    modifies tmp
    ensures tmp.data == old(tmp.data) + EncodeAll(tags)
    decreases tags, 0
  {
    assert tags[0..] == tags;
    for k := 0 to |tags|
      invariant tmp.data + EncodeAll(tags[k..]) == old(tmp.data) + EncodeAll(tags)
    {
      PartFits(tags, k);
      ghost var before := tmp.data;
      EncodeInner(tmp, tags[k]);
      EncodeRest(before, tags, k);
    }
  }

  lemma {:induction false} PartFits(tags: seq<StructureTag>, k: nat)
    requires k < |tags|
    ensures |EncodeTag(tags[k])| <= |EncodeAll(tags)|
  {
    FirstFits(tags);
    if k > 0 {
      PartFits(tags[1..], k - 1);
      assert tags[1..][k - 1] == tags[k];
    }
  }

  lemma {:induction false} FirstFits(tags: seq<StructureTag>)
    requires tags != []
    ensures |EncodeAll(tags)| == |EncodeTag(tags[0])| + |EncodeAll(tags[1..])|
  {
  }

  /** encode_into: through a vector of its own, then onto the caller's buffer. */
  method EncodeInto(buf: Buffer, t: StructureTag)
    requires |EncodeTag(t)| < TWO_TO_THE_64
    modifies buf
    ensures buf.data == old(buf.data) + EncodeTag(t)
  {
    var tagVec := new Buffer();
    EncodeInner(tagVec, t);
    buf.Extend(tagVec.data);
  }
}
