/** The streaming parser: every element is read in full or the input is reported incomplete. */
module BerParser {
  import opened Bytes
  import opened Ber

  datatype Parsed<+T> = Done(value: T, rest: seq<byte>) | Incomplete

  datatype Header = Header(cls: TagClass, constructed: bool, id: nat)

  /** Streaming take. */
  function Take(i: seq<byte>, n: nat): (r: Parsed<seq<byte>>)
    ensures r.Done? <==> n <= |i|
    ensures r.Done? ==> r.value + r.rest == i && |r.value| == n
  {
    if n <= |i| then Done(i[..n], i[n..]) else Incomplete
  }

  /** One octet: two class bits, the constructed bit and a five-bit tag number. */
  function ParseTypeHeader(i: seq<byte>): (r: Parsed<Header>)
  {
    if i == [] then Incomplete
    else Done(Header(ClassOf(i[0] / 64), i[0] / 32 % 2 == 1, i[0] % 32), i[1..])
  }

  /** The accumulator is a u64: the shift drops the bits above it. */
  function ParseUint(bs: seq<byte>): (n: nat)
    ensures n < TWO_TO_THE_64
  {
    if bs == [] then 0
    else 256 * ParseUint(bs[..|bs| - 1]) % TWO_TO_THE_64 + bs[|bs| - 1]
  }

  function ParseLength(i: seq<byte>): (r: Parsed<nat>)
    ensures r.Done? ==> |r.rest| < |i|
  {
    if i == [] then Incomplete
    else if i[0] < 128 then Done(i[0], i[1..])
    else
      match Take(i[1..], i[0] - 128)
      case Incomplete => Incomplete
      case Done(b, rest) => Done(ParseUint(b), rest)
  }

  function ParseTag(i: seq<byte>): (r: Parsed<StructureTag>)
    ensures r.Done? ==> |r.rest| < |i|
    decreases |i|, 0
  {
    match ParseTypeHeader(i)
    case Incomplete => Incomplete
    case Done(h, afterType) =>
      match ParseLength(afterType)
      case Incomplete => Incomplete
      case Done(len, afterLength) =>
        match Take(afterLength, len)
        case Incomplete => Incomplete
        case Done(content, rest) =>
          if !h.constructed then Done(StructureTag(h.cls, h.id, P(content)), rest)
          else
            match ParseAll(content)
            case None => Incomplete
            case Some(tags) => Done(StructureTag(h.cls, h.id, C(tags)), rest)
  }

  /** Elements up to the end of the content; None when one of them is incomplete. */
  function ParseAll(content: seq<byte>): (r: Option<seq<StructureTag>>)
    decreases |content|, 1
  {
    if content == [] then Some([])
    else
      match ParseTag(content)
      case Incomplete => None
      case Done(t, rest) =>
        match ParseAll(rest)
        case None => None
        case Some(ts) => Some([t] + ts)
  }

  /** parse_uint: the fold over the octets. */
  method ComputeUint(i: seq<byte>) returns (n: nat)
    ensures n == ParseUint(i)
  {
    n := 0;
    for k := 0 to |i|
      invariant n == ParseUint(i[..k])
    {
      assert i[..k + 1][..k] == i[..k];
      n := 256 * n % TWO_TO_THE_64 + i[k];
    }
    assert i[..|i|] == i;
  }

  /** parse_tag: the loop over the content of a constructed element pushes one subtag a round. */
  method ReadTag(i: seq<byte>) returns (r: Parsed<StructureTag>)
    ensures r == ParseTag(i)
    decreases |i|
  {
    var header := ParseTypeHeader(i);
    if header.Incomplete? {
      return Incomplete;
    }
    var length := ParseLength(header.rest);
    if length.Incomplete? {
      return Incomplete;
    }
    var taken := Take(length.rest, length.value);
    if taken.Incomplete? {
      return Incomplete;
    }
    var h := header.value;
    if !h.constructed {
      return Done(StructureTag(h.cls, h.id, P(taken.value)), taken.rest);
    }
    var content, tv := taken.value, [];
    assert forall ts: seq<StructureTag> :: [] + ts == ts;
    while |content| > 0
      invariant |content| < |i|
      invariant ParseAll(taken.value) ==
                if ParseAll(content).None? then None else Some(tv + ParseAll(content).value)
      decreases |content|
    {
      var sub := ReadTag(content);
      if sub.Incomplete? {
        return Incomplete;
      }
      ghost var tail := ParseAll(sub.rest);
      assert tail.Some? ==> tv + ([sub.value] + tail.value) == (tv + [sub.value]) + tail.value;
      content, tv := sub.rest, tv + [sub.value];
    }
    assert content == [] && tv + [] == tv;
    return Done(StructureTag(h.cls, h.id, C(tv)), taken.rest);
  }
}
