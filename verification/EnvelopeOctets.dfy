/** Messages in octets, and every shape of envelope and control that can arrive. */
module EnvelopeOctets {
  import opened Bytes
  import opened Ber
  import opened BerInteger
  import opened Controls
  import opened Protocol
  import BerParser
  import BerOctets
  import Utf8

  // ----- Shapes of envelopes -----

  /** The integer that an id element holds: the low 32 bits of the unsigned reading, as an i32. */
  function IdOf(bs: seq<byte>): i32
  {
    AsI32(Unsigned(bs) % TWO_TO_THE_64)
  }

  ghost predicate IsMessageId(t: StructureTag)
  {
    t.cls == Universal && t.id == 2 && t.payload.P?
  }

  lemma {:induction false} IdRead(front: seq<StructureTag>, id: StructureTag, op: StructureTag, controls: seq<Control>)
    ensures WithId(front + [id], op, controls)
            == if IsMessageId(id) then Decoded(Message(IdOf(id.payload.bytes), op, controls)) else Panicked
  {
    if id.payload.P? {
      BerOctets.ParseUintIs(id.payload.bytes);
    }
  }

  /** What is no sequence is an error, and an envelope without elements enough a panic. */
  lemma {:induction false} NoEnvelope(t: StructureTag)
    ensures t.id != 16 || t.payload.P? ==> Interpret(t) == DecodingError
    ensures t.id == 16 && t.payload.C? && |t.payload.tags| == 0 ==> Interpret(t) == Panicked
    ensures t.id == 16 && t.payload.C? && |t.payload.tags| == 1
            && !(t.payload.tags[0].cls == Context && t.payload.tags[0].id == 0 && t.payload.tags[0].payload.P?)
            ==> Interpret(t) == Panicked
  {
  }

  /** Without controls: the id and the operation are the last two elements. */
  lemma {:induction false} PlainEnvelope(cls: TagClass, front: seq<StructureTag>, id: StructureTag, op: StructureTag)
    requires !(op.cls == Context && (op.id == 0 || op.id == 10))
    ensures Interpret(StructureTag(cls, 16, C(front + [id] + [op])))
            == if IsMessageId(id) then Decoded(Message(IdOf(id.payload.bytes), op, [])) else Panicked
  {
    var tags := front + [id] + [op];
    assert tags[..|tags| - 1] == front + [id];
    IdRead(front, id, op, []);
  }

  /** An element 10 after the operation is ignored. */
  lemma {:induction false} EnvelopeWithTen(cls: TagClass, front: seq<StructureTag>, id: StructureTag, op: StructureTag,
                                           ten: StructureTag)
    requires ten.cls == Context && ten.id == 10
    ensures Interpret(StructureTag(cls, 16, C(front + [id] + [op] + [ten])))
            == if IsMessageId(id) then Decoded(Message(IdOf(id.payload.bytes), op, [])) else Panicked
  {
    TakenApart(front, id, op, ten);
    IdRead(front, id, op, []);
  }

  lemma {:induction false} TakenApart(front: seq<StructureTag>, id: StructureTag, op: StructureTag, last: StructureTag)
    ensures var tags := front + [id] + [op] + [last];
            var before := tags[..|tags| - 1];
            && tags[|tags| - 1] == last && before[|before| - 1] == op && before[..|before| - 1] == front + [id]
  {
    var tags := front + [id] + [op] + [last];
    assert tags[..|tags| - 1] == front + [id] + [op];
  }

  /** Controls after the operation: primitive ones are an error, unreadable ones a panic. */
  lemma {:induction false} EnvelopeWithControls(cls: TagClass, front: seq<StructureTag>, id: StructureTag,
                                                op: StructureTag, controls: StructureTag)
    requires controls.cls == Context && controls.id == 0
    ensures Interpret(StructureTag(cls, 16, C(front + [id] + [op] + [controls])))
            == if controls.payload.P? then DecodingError
               else if ParseEach(controls.payload.tags).None? then Panicked
               else if IsMessageId(id) then
                 Decoded(Message(IdOf(id.payload.bytes), op, ParseEach(controls.payload.tags).value))
               else Panicked
  {
    TakenApart(front, id, op, controls);
    if controls.payload.C? && ParseEach(controls.payload.tags).Some? {
      IdRead(front, id, op, ParseEach(controls.payload.tags).value);
    }
  }

  // ----- Shapes of controls -----

  /** The type comes first; nothing, a criticality, a value, or both follow; the criticality is any octet but zero. */
  lemma {:induction false} ControlShapes(cls: TagClass, id: nat, ctype: StructureTag, crit: StructureTag,
                                         val: StructureTag, more: seq<StructureTag>)
    requires ctype.payload.P? && Utf8.Valid(ctype.payload.bytes)
    requires crit.id == 1 && crit.payload.P? && crit.payload.bytes != [] && val.payload.P?
    ensures var name, critical := ctype.payload.bytes, crit.payload.bytes[0] != 0;
            && ParseControl(StructureTag(cls, id, C([ctype])))
               == Some(Control(KnownType(name), RawControl(name, false, None)))
            && ParseControl(StructureTag(cls, id, C([ctype, crit])))
               == Some(Control(KnownType(name), RawControl(name, critical, None)))
            && ParseControl(StructureTag(cls, id, C([ctype, crit, val] + more)))
               == Some(Control(KnownType(name), RawControl(name, critical, Some(val.payload.bytes))))
            && (val.id == 4 ==>
                  ParseControl(StructureTag(cls, id, C([ctype, val] + more)))
                  == Some(Control(KnownType(name), RawControl(name, false, Some(val.payload.bytes)))))
  {
    assert [ctype][1..] == [] && [ctype, crit][1..] == [crit];
    assert ([ctype, crit, val] + more)[1..] == [crit, val] + more;
    assert ([ctype, val] + more)[1..] == [val] + more;
  }

  /** Whatever else is a panic. */
  lemma {:induction false} ControlPanics(t: StructureTag)
    ensures t.payload.P? || t.payload.tags == [] ==> ParseControl(t) == None
    ensures t.payload.C? && |t.payload.tags| > 0
            && (t.payload.tags[0].payload.C? || !Utf8.Valid(t.payload.tags[0].payload.bytes))
            ==> ParseControl(t) == None
    ensures t.payload.C? && |t.payload.tags| > 1 && t.payload.tags[1].id != 1 && t.payload.tags[1].id != 4
            ==> ParseControl(t) == None
    ensures t.payload.C? && |t.payload.tags| > 1
            && (t.payload.tags[1].payload.C? || (t.payload.tags[1].id == 1 && t.payload.tags[1].payload.bytes == []))
            ==> ParseControl(t) == None
    ensures t.payload.C? && |t.payload.tags| > 2 && t.payload.tags[1].id == 1 && t.payload.tags[2].payload.C?
            ==> ParseControl(t) == None
  {
    if t.payload.C? && |t.payload.tags| > 1 {
      assert t.payload.tags[1..][0] == t.payload.tags[1];
    }
    if t.payload.C? && |t.payload.tags| > 2 {
      assert t.payload.tags[1..][1] == t.payload.tags[2];
    }
  }

  /** The size and the cookie of a paging control, whatever comes after them. */
  lemma {:induction false} PagingShape(cls: TagClass, id: nat, size: seq<byte>, cookie: StructureTag,
                                       more: seq<StructureTag>)
    requires cookie.payload.P?
    ensures PagingOf(StructureTag(cls, id, C([StructureTag(Universal, 2, P(size)), cookie] + more)))
            == Some(Paging(IdOf(size), cookie.payload.bytes))
  {
    BerOctets.ParseUintIs(size);
  }

  // ----- Messages in octets -----

  /** Every message starts with the identifier octet of a sequence. */
  lemma {:induction false} StartsAsSequence(m: Outgoing)
    ensures EncodeTag(MessageTag(m))[0] == 0x30
  {
  }

  /** An unbind request with the id 1. */
  const UNBIND: Outgoing := Outgoing(1, StructureTag(Application, 2, P([])), None)

  lemma {:induction false} EncodePair(t: StructureTag, u: StructureTag)
    ensures EncodeAll([t, u]) == EncodeTag(t) + EncodeTag(u)
  {
    assert [t, u][1..] == [u] && [u][1..] == [];
    assert EncodeAll([u]) == EncodeTag(u) + EncodeAll([]);
  }

  lemma {:induction false} SmallInteger(i: int)
    requires 0 <= i < 128
    ensures EncodeTag(IntegerTag(i)) == [0x02, 0x01, i]
  {
    assert LowOctets(i, 1) == LowOctets(i / 256, 0) + [i % 256];
    BerOctets.ShortElement(IntegerTag(i));
  }

  lemma {:induction false} UnbindOctets()
    ensures EncodeTag(MessageTag(UNBIND)) == [0x30, 0x05, 0x02, 0x01, 0x01, 0x42, 0x00]
  {
    SmallInteger(1);
    BerOctets.ShortElement(UNBIND.op);
    var tags := MessageTag(UNBIND).payload.tags;
    assert tags == [IntegerTag(1), UNBIND.op];
    EncodePair(IntegerTag(1), UNBIND.op);
    BerOctets.ShortElement(MessageTag(UNBIND));
  }

  /** ... and the other way. */
  lemma {:induction false} UnbindDecoded(tail: seq<byte>)
    ensures Decode([0x30, 0x05, 0x02, 0x01, 0x01, 0x42, 0x00] + tail)
            == (Decoded(Message(1, StructureTag(Application, 2, P([])), [])), tail)
  {
    UnbindOctets();
    EnvelopeRoundTrip(UNBIND, tail);
  }

  /** A final search result, success, with the id 7. */
  const DONE_OP: StructureTag :=
    StructureTag(Application, 5,
                 C([StructureTag(Universal, 10, P([0])), StructureTag(Universal, 4, P([])),
                    StructureTag(Universal, 4, P([]))]))

  lemma {:induction false} DoneOctets()
    ensures EncodeTag(MessageTag(Outgoing(7, DONE_OP, None)))
            == [0x30, 0x0C, 0x02, 0x01, 0x07, 0x65, 0x07, 0x0A, 0x01, 0x00, 0x04, 0x00, 0x04, 0x00]
  {
    var code, empty := StructureTag(Universal, 10, P([0])), StructureTag(Universal, 4, P([]));
    BerOctets.ShortElement(code);
    BerOctets.ShortElement(empty);
    EncodeThree(code, empty, empty);
    BerOctets.ShortElement(DONE_OP);
    var op: seq<byte> := [0x65, 0x07, 0x0A, 0x01, 0x00, 0x04, 0x00, 0x04, 0x00];
    assert EncodeTag(DONE_OP) == op;
    PlainMessage(DONE_OP, op);
  }

  lemma {:induction false} PlainMessage(op: StructureTag, octets: seq<byte>)
    requires EncodeTag(op) == octets && |octets| == 9
    ensures EncodeTag(MessageTag(Outgoing(7, op, None))) == [0x30, 0x0C, 0x02, 0x01, 0x07] + octets
  {
    SmallInteger(7);
    EncodePair(IntegerTag(7), op);
    assert MessageTag(Outgoing(7, op, None)).payload.tags == [IntegerTag(7), op];
    BerOctets.ShortElement(MessageTag(Outgoing(7, op, None)));
  }

  lemma {:induction false} DoneDecoded(tail: seq<byte>)
    ensures Decode([0x30, 0x0C, 0x02, 0x01, 0x07, 0x65, 0x07, 0x0A, 0x01, 0x00, 0x04, 0x00, 0x04, 0x00] + tail)
            == (Decoded(Message(7, DONE_OP, [])), tail)
  {
    DoneOctets();
    AllLowIdsPointwise(DONE_OP.payload.tags);
    EnvelopeRoundTrip(Outgoing(7, DONE_OP, None), tail);
  }

  // ----- A request with two controls -----

  /** A critical control without a value, with the type "2.5". */
  const CRITICAL: RawControl := RawControl([0x32, 0x2E, 0x35], true, None)

  /** An abandon of 5 with the id 7, a paging control with the size 10 and a cookie, and a critical control. */
  const CONTROLLED: Outgoing :=
    Outgoing(7, StructureTag(Application, 16, P([5])), Some([PagingControl(Paging(10, [0xAB])), CRITICAL]))

  const PAGING_VALUE: seq<byte> := [0x30, 0x06, 0x02, 0x01, 0x0A, 0x04, 0x01, 0xAB]

  /** "1.2.840.113556.1.4.319" */
  const PAGING_TYPE: seq<byte> :=
    [0x31, 0x2E, 0x32, 0x2E, 0x38, 0x34, 0x30, 0x2E, 0x31, 0x31, 0x33, 0x35, 0x35, 0x36,
     0x2E, 0x31, 0x2E, 0x34, 0x2E, 0x33, 0x31, 0x39]

  const PAGING_OCTETS: seq<byte> := [0x30, 0x22, 0x04, 0x16] + PAGING_TYPE + [0x04, 0x08] + PAGING_VALUE

  const CRITICAL_OCTETS: seq<byte> := [0x30, 0x08, 0x04, 0x03, 0x32, 0x2E, 0x35, 0x01, 0x01, 0xFF]

  lemma {:induction false} PagingValue()
    ensures EncodeTag(PagingTag(Paging(10, [0xAB]))) == PAGING_VALUE
  {
    SmallInteger(10);
    BerOctets.ShortElement(OctetStringTag([0xAB]));
    EncodePair(IntegerTag(10), OctetStringTag([0xAB]));
    BerOctets.ShortElement(PagingTag(Paging(10, [0xAB])));
  }

  lemma {:induction false} PagingType()
    ensures PAGED_RESULTS_OID == PAGING_TYPE
  {
    var s := "1.2.840.113556.1.4.319";
    assert |s| == |PAGING_TYPE|;
    forall i | 0 <= i < |s| ensures s[i] as int == PAGING_TYPE[i] {
    }
  }

  lemma {:induction false} PagingOctets()
    ensures EncodeTag(BuildTag(PagingControl(Paging(10, [0xAB])))) == PAGING_OCTETS
  {
    PagingValue();
    PagingType();
    var ty, val := OctetStringTag(PAGING_TYPE), OctetStringTag(PAGING_VALUE);
    BerOctets.ShortElement(ty);
    BerOctets.ShortElement(val);
    EncodePair(ty, val);
    var t := BuildTag(PagingControl(Paging(10, [0xAB])));
    assert t.payload.tags == [ty, val];
    BerOctets.ShortElement(t);
  }

  lemma {:induction false} CriticalOctets()
    ensures EncodeTag(BuildTag(CRITICAL)) == CRITICAL_OCTETS
  {
    var ty := OctetStringTag([0x32, 0x2E, 0x35]);
    BerOctets.ShortElement(ty);
    BerOctets.ShortElement(BooleanTag(true));
    EncodePair(ty, BooleanTag(true));
    assert BuildTag(CRITICAL).payload.tags == [ty, BooleanTag(true)];
    BerOctets.ShortElement(BuildTag(CRITICAL));
  }

  lemma {:induction false} ControlsOctets()
    ensures EncodeTag(ControlsTag(CONTROLLED.controls.value)) == [0xA0, 0x2E] + (PAGING_OCTETS + CRITICAL_OCTETS)
  {
    PagingOctets();
    CriticalOctets();
    var rcs := CONTROLLED.controls.value;
    assert rcs[1..] == [CRITICAL] && rcs[1..][1..] == [];
    assert BuildAll(rcs) == [BuildTag(rcs[0]), BuildTag(rcs[1])];
    EncodePair(BuildTag(rcs[0]), BuildTag(rcs[1]));
    BerOctets.ShortElement(ControlsTag(rcs));
  }

  lemma {:induction false} Assembled(two: seq<byte>)
    ensures [0x30, 0x36] + ([0x02, 0x01, 0x07] + ([0x50, 0x01, 0x05] + ([0xA0, 0x2E] + two)))
            == [0x30, 0x36, 0x02, 0x01, 0x07, 0x50, 0x01, 0x05, 0xA0, 0x2E] + two
  {
  }

  lemma {:induction false} EncodeThree(t: StructureTag, u: StructureTag, v: StructureTag)
    ensures EncodeAll([t, u, v]) == EncodeTag(t) + (EncodeTag(u) + EncodeTag(v))
  {
    EncodePair(u, v);
    assert [t, u, v][1..] == [u, v];
  }

  lemma {:induction false} ControlledContents(op: StructureTag, controls: StructureTag, two: seq<byte>)
    requires op == StructureTag(Application, 16, P([5])) && EncodeTag(controls) == [0xA0, 0x2E] + two && |two| == 46
    ensures EncodeTag(SequenceTag([IntegerTag(7), op, controls]))
            == [0x30, 0x36, 0x02, 0x01, 0x07, 0x50, 0x01, 0x05, 0xA0, 0x2E] + two
  {
    SmallInteger(7);
    BerOctets.ShortElement(op);
    EncodeThree(IntegerTag(7), op, controls);
    BerOctets.ShortElement(SequenceTag([IntegerTag(7), op, controls]));
    Assembled(two);
  }

  lemma {:induction false} ControlledOctets()
    ensures EncodeTag(MessageTag(CONTROLLED)) == CONTROLLED_OCTETS
  {
    ControlsOctets();
    var controls := ControlsTag(CONTROLLED.controls.value);
    assert MessageTag(CONTROLLED).payload.tags == [IntegerTag(7), CONTROLLED.op, controls];
    ControlledContents(CONTROLLED.op, controls, PAGING_OCTETS + CRITICAL_OCTETS);
  }

  const CONTROLLED_OCTETS: seq<byte> :=
    [0x30, 0x36, 0x02, 0x01, 0x07, 0x50, 0x01, 0x05, 0xA0, 0x2E] + (PAGING_OCTETS + CRITICAL_OCTETS)

  /** Both controls with type, criticality and value, the paging one known as such. */
  const CONTROLLED_READ: Message :=
    Message(7, StructureTag(Application, 16, P([5])),
            [Control(Some(PagedResults), RawControl(PAGING_TYPE, false, Some(PAGING_VALUE))),
             Control(None, RawControl([0x32, 0x2E, 0x35], true, None))])

  lemma {:induction false} ControlledSent()
    ensures Sent(CONTROLLED) == CONTROLLED_READ
  {
    PagingType();
    PagingValue();
    var rcs := CONTROLLED.controls.value;
    assert rcs[1..] == [CRITICAL] && rcs[1..][1..] == [];
    assert ReceivedAll(rcs) == [Received(rcs[0]), Received(rcs[1])];
  }

  lemma {:induction false} ControlledTyped()
    ensures Typed(CONTROLLED)
  {
    ControlledOctets();
    ControlTypesValid();
  }

  lemma {:induction false} TypeIsAscii(s: seq<byte>)
    requires s == PAGING_TYPE || s == CRITICAL.ctype
    ensures forall i :: 0 <= i < |s| ==> s[i] < 0x80
  {
  }

  lemma {:induction false} TypesAreStrings(rcs: seq<RawControl>)
    requires forall i :: 0 <= i < |rcs| ==> rcs[i].ctype == PAGING_TYPE || rcs[i].ctype == CRITICAL.ctype
    ensures StringTyped(rcs)
  {
    forall i | 0 <= i < |rcs| ensures Utf8.Valid(rcs[i].ctype) {
      TypeIsAscii(rcs[i].ctype);
      AsciiValid(rcs[i].ctype);
    }
  }

  lemma {:induction false} ControlTypesValid()
    ensures StringTyped(CONTROLLED.controls.value)
  {
    PagingType();
    TypesAreStrings(CONTROLLED.controls.value);
  }

  /** ... and read. */
  lemma {:induction false} ControlledDecoded(tail: seq<byte>)
    ensures Decode(CONTROLLED_OCTETS + tail) == (Decoded(CONTROLLED_READ), tail)
  {
    ControlledOctets();
    ControlledTyped();
    ControlledSent();
    EnvelopeRoundTrip(CONTROLLED, tail);
  }

  lemma {:induction false} AsciiValid(s: seq<byte>)
    requires forall i :: 0 <= i < |s| ==> s[i] < 0x80
    ensures Utf8.Valid(s)
  {
    if s != [] {
      AsciiValid(s[1..]);
    }
  }

  /** The control types that are known, and no others. */
  lemma {:induction false} KnownTypes(oid: seq<byte>)
    ensures KnownType(PAGING_TYPE) == Some(PagedResults)
    ensures KnownType(Ascii("1.3.6.1.1.13.2")) == Some(PostReadResp)
    ensures KnownType(Ascii("1.3.6.1.1.13.1")) == Some(PreReadResp)
    ensures KnownType(Ascii("1.3.6.1.4.1.4203.1.9.1.3")) == Some(SyncDone)
    ensures KnownType(Ascii("1.3.6.1.4.1.4203.1.9.1.2")) == Some(SyncState)
    ensures KnownType(Ascii("2.16.840.1.113730.3.4.2")) == Some(ManageDsaIt)
    ensures KnownType(Ascii("1.2.826.0.1.3344810.2.3")) == Some(MatchedValues)
    ensures KnownType(oid).Some? ==> |oid| in {14, 22, 23, 24}
  {
    PagingType();
    var a, b := Ascii("1.3.6.1.1.13.2"), Ascii("1.3.6.1.1.13.1");
    assert a[13] == 0x32 && b[13] == 0x31;
    var c, d := Ascii("1.3.6.1.4.1.4203.1.9.1.3"), Ascii("1.3.6.1.4.1.4203.1.9.1.2");
    assert c[23] == 0x33 && d[23] == 0x32;
    var e, f := Ascii("2.16.840.1.113730.3.4.2"), Ascii("1.2.826.0.1.3344810.2.3");
    assert e[0] == 0x32 && f[0] == 0x31;
  }
}
