/** The serializable tag trees of lber and their octet form. */
module Ber {
  import opened Bytes

  datatype TagClass = Universal | Application | Context | Private {
    function Bits(): (b: byte)
      ensures b < 4 && ClassOf(b) == this
    {
      match this
      case Universal => 0
      case Application => 1
      case Context => 2
      case Private => 3
    }
  }

  function ClassOf(bits: byte): (c: TagClass)
    requires bits < 4
  {
    if bits == 0 then Universal else if bits == 1 then Application else if bits == 2 then Context else Private
  }

  datatype Payload =
    | P(bytes: seq<byte>)
    | C(tags: seq<StructureTag>)

  datatype StructureTag = StructureTag(cls: TagClass, id: nat, payload: Payload)

  // Universal type numbers used by the protocol.
  const BOOLEAN: nat := 1
  const INTEGER: nat := 2
  const OCTET_STRING: nat := 4
  const SEQUENCE: nat := 16

  /** No tag number anywhere in the tree needs the high-tag form. */
  ghost predicate LowIds(t: StructureTag)
    decreases t, 1
  {
    t.id <= 30 && (t.payload.C? ==> AllLowIds(t.payload.tags))
  }

  ghost predicate AllLowIds(ts: seq<StructureTag>)
    decreases ts, 0
  {
    ts == [] || (LowIds(ts[0]) && AllLowIds(ts[1..]))
  }

  lemma {:induction false} AllLowIdsPointwise(ts: seq<StructureTag>)
    ensures AllLowIds(ts) <==> forall i :: 0 <= i < |ts| ==> LowIds(ts[i])
  {
    if ts != [] {
      AllLowIdsPointwise(ts[1..]);
      if AllLowIds(ts) {
        forall i | 0 <= i < |ts| ensures LowIds(ts[i]) {
          assert i > 0 ==> ts[i] == ts[1..][i - 1];
        }
      } else if LowIds(ts[0]) {
        var i :| 0 <= i < |ts[1..]| && !LowIds(ts[1..][i]);
        assert !LowIds(ts[i + 1]);
      }
    }
  }

  // ----- Octets -----

  function TypeOctet(cls: TagClass, constructed: bool, low: nat): (b: byte)
    requires low < 32
  {
    64 * cls.Bits() + (if constructed then 32 else 0) + low
  }

  /** Every seven-bit digit of n, most significant first, with the continuation bit set. */
  function Continued(n: nat): (bs: seq<byte>)
  {
    if n == 0 then [] else Continued(n / 128) + [128 + n % 128]
  }

  /** The identifier octets (section 8.1.2 of X.690). */
  function TypeOctets(cls: TagClass, constructed: bool, id: nat): (bs: seq<byte>)
    ensures bs != []
  {
    if id <= 30 then [TypeOctet(cls, constructed, id)]
    else [TypeOctet(cls, constructed, 31)] + Continued(id / 128) + [id % 128]
  }

  /**
   * The length octets (section 8.1.3 of X.690). A length is a usize, so that the long form has at most
   * eight length octets; the remainder only makes the function total.
   */
  function LengthOctets(length: nat): (bs: seq<byte>)
    ensures bs != []
  {
    if length < 128 then [length]
    else [128 + ByteLen(length) % 128] + LowOctets(length, ByteLen(length))
  }

  function Contents(p: Payload): (bs: seq<byte>)
    decreases p, 2
  {
    match p
    case P(bytes) => bytes
    case C(tags) => EncodeAll(tags)
  }

  function EncodeTag(t: StructureTag): (bs: seq<byte>)
    ensures bs != []
    decreases t, 3
  {
    TypeOctets(t.cls, t.payload.C?, t.id) + LengthOctets(|Contents(t.payload)|) + Contents(t.payload)
  }

  function EncodeAll(ts: seq<StructureTag>): (bs: seq<byte>)
    decreases ts, 0
  {
    if ts == [] then [] else EncodeTag(ts[0]) + EncodeAll(ts[1..])
  }
}
