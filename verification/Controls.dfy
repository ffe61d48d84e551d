/** Request and response controls. */
module Controls {
  import opened Bytes
  import opened Ber
  import opened BerInteger
  import Utf8
  import BerParser
  import BerCodec

  datatype ControlType =
    | PagedResults | PostReadResp | PreReadResp | SyncDone | SyncState | ManageDsaIt | MatchedValues

  /** A generic control; the type is the octets of a Rust string. */
  datatype RawControl = RawControl(ctype: seq<byte>, crit: bool, val: Option<seq<byte>>)

  datatype Control = Control(known: Option<ControlType>, raw: RawControl)

  function Ascii(s: string): (bs: seq<byte>)
    ensures |bs| == |s|
  {
    seq(|s|, i requires 0 <= i < |s| => s[i] as int % 256)
  }

  const PAGED_RESULTS_OID: seq<byte> := Ascii("1.2.840.113556.1.4.319")

  function KnownType(oid: seq<byte>): (t: Option<ControlType>)
  {
    if oid == PAGED_RESULTS_OID then Some(PagedResults)
    else if oid == Ascii("1.3.6.1.1.13.2") then Some(PostReadResp)
    else if oid == Ascii("1.3.6.1.1.13.1") then Some(PreReadResp)
    else if oid == Ascii("1.3.6.1.4.1.4203.1.9.1.3") then Some(SyncDone)
    else if oid == Ascii("1.3.6.1.4.1.4203.1.9.1.2") then Some(SyncState)
    else if oid == Ascii("2.16.840.1.113730.3.4.2") then Some(ManageDsaIt)
    else if oid == Ascii("1.2.826.0.1.3344810.2.3") then Some(MatchedValues)
    else None
  }

  // ----- Tag constructors with the default class and number -----

  function OctetStringTag(bs: seq<byte>): StructureTag { StructureTag(Universal, OCTET_STRING, P(bs)) }

  function BooleanTag(b: bool): StructureTag { StructureTag(Universal, BOOLEAN, P([if b then 0xFF else 0x00])) }

  function IntegerTag(i: int): StructureTag { StructureTag(Universal, INTEGER, P(IntegerOctets(i))) }

  function SequenceTag(ts: seq<StructureTag>): StructureTag { StructureTag(Universal, SEQUENCE, C(ts)) }

  // ----- build_tag and parse_controls -----

  function BuildTag(rc: RawControl): (t: StructureTag)
  {
    SequenceTag(
      [OctetStringTag(rc.ctype)]
      + (if rc.crit then [BooleanTag(true)] else [])
      + (if rc.val.Some? then [OctetStringTag(rc.val.value)] else []))
  }

  function BuildAll(rcs: seq<RawControl>): (ts: seq<StructureTag>)
    ensures |ts| == |rcs|
  {
    if rcs == [] then [] else [BuildTag(rcs[0])] + BuildAll(rcs[1..])
  }

  /** What follows the control type: criticality, then a value. None where the source panics. */
  function ParseTail(cs: seq<StructureTag>): (r: Option<(bool, Option<seq<byte>>)>)
  {
    if cs == [] then Some((false, None))
    else if cs[0].id == BOOLEAN then
      if cs[0].payload.C? || cs[0].payload.bytes == [] then None
      else
        var crit := cs[0].payload.bytes[0] != 0;
        if |cs| == 1 then Some((crit, None))
        else if cs[1].payload.P? then Some((crit, Some(cs[1].payload.bytes)))
        else None
    else if cs[0].id == OCTET_STRING && cs[0].payload.P? then Some((false, Some(cs[0].payload.bytes)))
    else None
  }

  function ParseControl(t: StructureTag): (r: Option<Control>)
  {
    if t.payload.P? || t.payload.tags == [] then None
    else
      var cs := t.payload.tags;
      if cs[0].payload.C? || !Utf8.Valid(cs[0].payload.bytes) then None
      else
        var ctype := cs[0].payload.bytes;
        match ParseTail(cs[1..])
        case None => None
        case Some((crit, val)) => Some(Control(KnownType(ctype), RawControl(ctype, crit, val)))
  }

  function ParseEach(ts: seq<StructureTag>): (r: Option<seq<Control>>)
  {
    if ts == [] then Some([])
    else
      match ParseControl(ts[0])
      case None => None
      case Some(c) =>
        match ParseEach(ts[1..])
        case None => None
        case Some(cs) => Some([c] + cs)
  }

  function ParseControls(t: StructureTag): (r: Option<seq<Control>>)
  {
    if t.payload.P? then None else ParseEach(t.payload.tags)
  }

  /** build_tag as it runs: the optional parts are pushed one after the other. */
  method Build(rc: RawControl) returns (t: StructureTag)
    ensures t == BuildTag(rc)
  {
    var parts := [OctetStringTag(rc.ctype)];
    if rc.crit {
      parts := parts + [BooleanTag(true)];
    }
    if rc.val.Some? {
      parts := parts + [OctetStringTag(rc.val.value)];
    }
    assert parts == BuildTag(rc).payload.tags;
    t := SequenceTag(parts);
  }

  /** parse_controls as it runs. */
  method Parse(t: StructureTag) returns (r: Option<seq<Control>>)
    ensures r == ParseControls(t)
  {
    if t.payload.P? {
      return None;
    }
    var tags := t.payload.tags;
    var ctrls: seq<Control> := [];
    assert tags[0..] == tags && forall cs: seq<Control> :: [] + cs == cs;
    for k := 0 to |tags|
      invariant ParseEach(tags) ==
                if ParseEach(tags[k..]).None? then None else Some(ctrls + ParseEach(tags[k..]).value)
    {
      assert tags[k..][1..] == tags[k + 1..];
      var c := ParseControl(tags[k]);
      if c.None? {
        return None;
      }
      ghost var after := ParseEach(tags[k + 1..]);
      assert after.Some? ==> ctrls + ([c.value] + after.value) == ctrls + [c.value] + after.value;
      ctrls := ctrls + [c.value];
    }
    assert ctrls + [] == ctrls;
    return Some(ctrls);
  }

  // ----- The two directions -----

  /** The type of a control is a Rust string. */
  ghost predicate StringTyped(rcs: seq<RawControl>)
  {
    forall i :: 0 <= i < |rcs| ==> Utf8.Valid(rcs[i].ctype)
  }

  /** A control as the other side sees it. */
  function Received(rc: RawControl): Control
  {
    Control(KnownType(rc.ctype), rc)
  }

  function ReceivedAll(rcs: seq<RawControl>): (cs: seq<Control>)
    ensures |cs| == |rcs|
  {
    if rcs == [] then [] else [Received(rcs[0])] + ReceivedAll(rcs[1..])
  }

  lemma {:induction false} ControlRoundTrip(rc: RawControl)
    requires Utf8.Valid(rc.ctype)
    ensures ParseControl(BuildTag(rc)) == Some(Received(rc))
  {
    var cs := BuildTag(rc).payload.tags;
    var crit := if rc.crit then [BooleanTag(true)] else [];
    var val := if rc.val.Some? then [OctetStringTag(rc.val.value)] else [];
    assert cs[1..] == crit + val;
  }

  lemma {:induction false} ControlsRoundTrip(rcs: seq<RawControl>)
    requires StringTyped(rcs)
    ensures ParseEach(BuildAll(rcs)) == Some(ReceivedAll(rcs))
  {
    if rcs != [] {
      ControlRoundTrip(rcs[0]);
      ControlsRoundTrip(rcs[1..]);
    }
  }

  lemma {:induction false} BuildTagLowIds(rc: RawControl)
    ensures LowIds(BuildTag(rc))
  {
    AllLowIdsPointwise(BuildTag(rc).payload.tags);
  }

  lemma {:induction false} BuildAllLowIds(rcs: seq<RawControl>)
    ensures AllLowIds(BuildAll(rcs))
  {
    if rcs != [] {
      BuildTagLowIds(rcs[0]);
      BuildAllLowIds(rcs[1..]);
    }
  }

  // ----- The paged results control (RFC 2696) -----

  datatype Paging = Paging(size: i32, cookie: seq<byte>)

  function PagingTag(pr: Paging): StructureTag
  {
    SequenceTag([IntegerTag(pr.size), OctetStringTag(pr.cookie)])
  }

  function PagingControl(pr: Paging): (rc: RawControl)
    ensures rc.ctype == PAGED_RESULTS_OID && !rc.crit && rc.val.Some?
  {
    RawControl(PAGED_RESULTS_OID, false, Some(EncodeTag(PagingTag(pr))))
  }

  /** None where the source panics. */
  function ParsePaging(val: seq<byte>): (r: Option<Paging>)
  {
    match BerParser.ParseTag(val)
    case Incomplete => None
    case Done(t, _) => PagingOf(t)
  }

  function PagingOf(t: StructureTag): (r: Option<Paging>)
  {
    if t.payload.P? || |t.payload.tags| < 2 then None
    else
      var size, cookie := t.payload.tags[0], t.payload.tags[1];
      if size.cls == Universal && size.id == INTEGER && size.payload.P? && cookie.payload.P?
      then Some(Paging(AsI32(BerParser.ParseUint(size.payload.bytes)), cookie.payload.bytes))
      else None
  }

  lemma {:induction false} PagingTagParses(pr: Paging)
    requires |EncodeTag(PagingTag(pr))| < TWO_TO_THE_64
    ensures BerParser.ParseTag(EncodeTag(PagingTag(pr))) == BerParser.Done(PagingTag(pr), [])
  {
    var t := PagingTag(pr);
    AllLowIdsPointwise(t.payload.tags);
    BerCodec.RoundTrip(t, []);
    assert EncodeTag(t) + [] == EncodeTag(t);
  }

  lemma {:induction false} PagingOfTag(pr: Paging)
    ensures PagingOf(PagingTag(pr))
            == Some(Paging(AsI32(BerParser.ParseUint(IntegerOctets(pr.size))), pr.cookie))
  {
    var tags := PagingTag(pr).payload.tags;
    assert tags[0] == IntegerTag(pr.size) && tags[1] == OctetStringTag(pr.cookie);
  }

  /** The cookie always survives; the size survives except when it is negative and short. */
  lemma {:induction false} PagingRoundTrip(pr: Paging)
    requires |EncodeTag(PagingTag(pr))| < TWO_TO_THE_64
    ensures ParsePaging(PagingControl(pr).val.value).Some?
    ensures ParsePaging(PagingControl(pr).val.value).value.cookie == pr.cookie
    ensures ParsePaging(PagingControl(pr).val.value) == Some(pr) <==> pr.size >= 0 || pr.size <= -0x100_0000
  {
    PagingTagParses(pr);
    PagingOfTag(pr);
    I32KeptExactlyWhen(pr.size);
  }
}
