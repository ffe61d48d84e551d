/** The LDAPMessage envelope (section 4.1.1 of RFC 4511) and its framing on a byte stream. */
module Protocol {
  import opened Bytes
  import opened Ber
  import opened BerInteger
  import opened Controls
  import BerWriter
  import BerParser
  import BerCodec
  import BerExact

  /** What a caller hands to the encoder; the operation is given by its structure. */
  datatype Outgoing = Outgoing(id: i32, op: StructureTag, controls: Option<seq<RawControl>>)

  datatype Message = Message(id: i32, op: StructureTag, controls: seq<Control>)

  datatype Outcome = NeedMore | Decoded(msg: Message) | DecodingError | Panicked

  // ----- Encoding -----

  function ControlsTag(rcs: seq<RawControl>): StructureTag
  {
    StructureTag(Context, 0, C(BuildAll(rcs)))
  }

  function MessageTag(m: Outgoing): StructureTag
  {
    SequenceTag([IntegerTag(m.id), m.op] + (if m.controls.Some? then [ControlsTag(m.controls.value)] else []))
  }

  /** What the peer should make of the message. */
  function Sent(m: Outgoing): Message
  {
    Message(m.id, m.op, if m.controls.Some? then ReceivedAll(m.controls.value) else [])
  }

  method Encode(m: Outgoing, into: BerWriter.Buffer)
    requires |EncodeTag(MessageTag(m))| < TWO_TO_THE_64
    modifies into
    ensures into.data == old(into.data) + EncodeTag(MessageTag(m))
  {
    var id := BerInteger.IntoStructure(INTEGER, Universal, m.id, true);
    var parts := [id.value, m.op];
    if m.controls.Some? {
      parts := parts + [ControlsTag(m.controls.value)];
    }
    assert parts == MessageTag(m).payload.tags;
    BerWriter.EncodeInto(into, SequenceTag(parts));
  }

  // ----- Decoding -----

  /** The elements of the envelope, taken from the end. */
  function Interpret(t: StructureTag): (o: Outcome)
    ensures o != NeedMore
  {
    if t.id != SEQUENCE || t.payload.P? then DecodingError
    else if t.payload.tags == [] then Panicked
    else
      var tags := t.payload.tags;
      var last, front := tags[|tags| - 1], tags[..|tags| - 1];
      if last.cls == Context && last.id == 0 then
        if last.payload.P? then DecodingError
        else if front == [] then Panicked
        else
          match ParseControls(last)
          case None => Panicked
          case Some(controls) => WithId(front[..|front| - 1], front[|front| - 1], controls)
      else if last.cls == Context && last.id == 10 then
        // An element that some servers put after the operation; it is ignored.
        if front == [] then Panicked else WithId(front[..|front| - 1], front[|front| - 1], [])
      else WithId(front, last, [])
  }

  function WithId(front: seq<StructureTag>, op: StructureTag, controls: seq<Control>): (o: Outcome)
    ensures o.Panicked? || (o.Decoded? && o.msg.op == op && o.msg.controls == controls)
  {
    if front == [] then Panicked
    else
      var id := front[|front| - 1];
      if id.cls == Universal && id.id == INTEGER && id.payload.P?
      then Decoded(Message(AsI32(BerParser.ParseUint(id.payload.bytes)), op, controls))
      else Panicked
  }

  /** One call of the decoder: the outcome and what is left of the buffer. */
  function Decode(buf: seq<byte>): (r: (Outcome, seq<byte>))
    ensures r.0 == NeedMore ==> r.1 == buf
    ensures r.0 != NeedMore ==> |r.1| < |buf|
  {
    if buf == [] then (NeedMore, buf)
    else
      match BerParser.ParseTag(buf)
      case Incomplete => (NeedMore, buf)
      case Done(t, rest) => (Interpret(t), rest)
  }

  /** decode_inner as it runs: the buffer is advanced, then elements are popped. */
  method DecodeInner(buf: BerWriter.Buffer) returns (o: Outcome)
    modifies buf
    ensures (o, buf.data) == Decode(old(buf.data))
  {
    if buf.data == [] {
      return NeedMore;
    }
    var parsed := BerParser.ReadTag(buf.data);
    if parsed.Incomplete? {
      return NeedMore;
    }
    buf.data := parsed.rest;
    var tag := parsed.value;
    if tag.id != SEQUENCE || tag.payload.P? {
      return DecodingError;
    }
    var tags := tag.payload.tags;
    if tags == [] {
      return Panicked;
    }
    var op := tags[|tags| - 1];
    var controls: seq<Control> := [];
    tags := tags[..|tags| - 1];
    if op.cls == Context && op.id == 0 {
      if op.payload.P? {
        return DecodingError;
      }
      if tags == [] {
        return Panicked;
      }
      var maybeControls := op;
      op, tags := tags[|tags| - 1], tags[..|tags| - 1];
      var r := Controls.Parse(maybeControls);
      if r.None? {
        return Panicked;
      }
      controls := r.value;
    } else if op.cls == Context && op.id == 10 {
      if tags == [] {
        return Panicked;
      }
      op, tags := tags[|tags| - 1], tags[..|tags| - 1];
    }
    if tags == [] {
      return Panicked;
    }
    var id := tags[|tags| - 1];
    if id.cls != Universal || id.id != INTEGER || !id.payload.P? {
      return Panicked;
    }
    var n := BerParser.ComputeUint(id.payload.bytes);
    return Decoded(Message(AsI32(n), op, controls));
  }

  // ----- Envelope round trip -----

  /** What the types of the source guarantee of a message, and the limit of the five-bit tag numbers. */
  ghost predicate Typed(m: Outgoing)
  {
    && |EncodeTag(MessageTag(m))| < TWO_TO_THE_64
    && (m.controls.Some? ==> StringTyped(m.controls.value))
  }

  ghost predicate Encodable(m: Outgoing)
  {
    LowIds(m.op) && Typed(m)
  }

  /** Without a control list after it, the operation must not look like one, or like the ignored element. */
  predicate Unmistakable(m: Outgoing)
  {
    m.controls.Some? || !(m.op.cls == Context && m.op.id in {0, 10})
  }

  predicate IdKept(id: i32)
  {
    id >= 0 || id <= -0x100_0000
  }

  lemma {:induction false} MessageTagLowIds(m: Outgoing)
    requires LowIds(m.op)
    ensures LowIds(MessageTag(m))
  {
    if m.controls.Some? {
      BuildAllLowIds(m.controls.value);
    }
    AllLowIdsPointwise(MessageTag(m).payload.tags);
  }

  lemma {:induction false} DecodeEncoded(m: Outgoing, tail: seq<byte>)
    requires Encodable(m)
    ensures Decode(EncodeTag(MessageTag(m)) + tail) == (Interpret(MessageTag(m)), tail)
  {
    MessageTagLowIds(m);
    BerCodec.RoundTrip(MessageTag(m), tail);
  }

  /**
   * Decoding gives back the message exactly when no tag number in its operation is above 30, its id is kept and its
   * operation is unmistakable.
   */
  lemma {:induction false} EnvelopeRoundTrip(m: Outgoing, tail: seq<byte>)
    requires Typed(m) && m.op.id != 31
    ensures Decode(EncodeTag(MessageTag(m)) + tail) == (Decoded(Sent(m)), tail)
            <==> LowIds(m.op) && IdKept(m.id) && Unmistakable(m)
  {
    if LowIds(m.op) {
      DecodeEncoded(m, tail);
      I32KeptExactlyWhen(m.id);
      InterpretMessage(m);
    } else {
      HighNumberLost(m, tail);
    }
  }

  function ControlTags(m: Outgoing): (ts: seq<StructureTag>)
  {
    if m.controls.Some? then [ControlsTag(m.controls.value)] else []
  }

  lemma {:induction false} MessageParts(m: Outgoing)
    ensures MessageTag(m) == SequenceTag([IntegerTag(m.id)] + ([m.op] + ControlTags(m)))
    ensures Contents(MessageTag(m).payload)
            == EncodeTag(IntegerTag(m.id)) + (EncodeTag(m.op) + EncodeAll(ControlTags(m)))
  {
    var later := [m.op] + ControlTags(m);
    assert MessageTag(m).payload.tags == [IntegerTag(m.id)] + later;
    EncodeFirst(IntegerTag(m.id), later);
    EncodeFirst(m.op, ControlTags(m));
  }

  lemma {:induction false} EncodeFirst(t: StructureTag, ts: seq<StructureTag>)
    ensures EncodeAll([t] + ts) == EncodeTag(t) + EncodeAll(ts)
  {
    assert ([t] + ts)[1..] == ts;
  }

  /** The elements of the envelope as they are read back. */
  lemma {:induction false} EnvelopeElements(m: Outgoing)
    requires Typed(m) && m.op.id <= 30 && m.op.payload.C?
    ensures BerParser.ParseAll(Contents(MessageTag(m).payload))
            == match BerParser.ParseAll(EncodeAll(m.op.payload.tags))
               case None => None
               case Some(ts) => Some(MessageTag(m.(op := StructureTag(m.op.cls, m.op.id, C(ts)))).payload.tags)
  {
    var later := EncodeAll(ControlTags(m));
    MessageParts(m);
    PartsFit(m);
    Outside(m.op);
    BerCodec.RoundTrip(IntegerTag(m.id), EncodeTag(m.op) + later);
    BerExact.LowConstructed(m.op.cls, m.op.id, m.op.payload.tags, later);
    ControlTagsReadBack(m);
    var read := BerParser.ParseAll(EncodeAll(m.op.payload.tags));
    if read.Some? {
      var v := StructureTag(m.op.cls, m.op.id, C(read.value));
      assert BerParser.ParseAll(EncodeTag(m.op) + later) == Some([v] + ControlTags(m));
      MessageParts(m.(op := v));
    }
  }

  lemma {:induction false} ControlTagsLow(m: Outgoing)
    ensures AllLowIds(ControlTags(m))
  {
    if m.controls.Some? {
      BuildAllLowIds(m.controls.value);
      assert LowIds(ControlsTag(m.controls.value));
    }
    AllLowIdsPointwise(ControlTags(m));
  }

  /** The parts are smaller than the whole. */
  lemma {:induction false} PartsFit(m: Outgoing)
    ensures |EncodeAll(MessageTag(m).payload.tags)| < |EncodeTag(MessageTag(m))|
    ensures |EncodeTag(m.op)| + |EncodeAll(ControlTags(m))| < |EncodeTag(MessageTag(m))|
  {
    MessageParts(m);
    Outside(MessageTag(m));
  }

  lemma {:induction false} Outside(t: StructureTag)
    ensures |Contents(t.payload)| < |EncodeTag(t)|
  {
  }

  lemma {:induction false} ControlTagsReadBack(m: Outgoing)
    requires Typed(m)
    ensures BerParser.ParseAll(EncodeAll(ControlTags(m))) == Some(ControlTags(m))
  {
    PartsFit(m);
    ControlTagsLow(m);
    BerCodec.RoundTripAll(ControlTags(m));
  }

  /** An operation with a high number somewhere comes back as another one, or not at all. */
  lemma {:induction false} HighNumberLost(m: Outgoing, tail: seq<byte>)
    requires Typed(m) && m.op.id != 31 && !LowIds(m.op)
    ensures Decode(EncodeTag(MessageTag(m)) + tail) != (Decoded(Sent(m)), tail)
  {
    var tags := MessageTag(m).payload.tags;
    PartsFit(m);
    Outside(m.op);
    BerExact.LowConstructed(Universal, SEQUENCE, tags, tail);
    var content := EncodeAll(tags);
    if m.op.id > 31 {
      if BerParser.ParseAll(content).Some? {
        LowOperation(content);
      }
    } else {
      EnvelopeElements(m);
      var read := BerParser.ParseAll(EncodeAll(m.op.payload.tags));
      if read.Some? {
        if read.value == m.op.payload.tags {
          BerExact.ReadBackIsLow(m.op.payload.tags);
        }
        InterpretMessage(m.(op := StructureTag(m.op.cls, m.op.id, C(read.value))));
      }
    }
  }

  /** The operation of a decoded message is one of its elements, so that its number is small. */
  lemma {:induction false} LowOperation(content: seq<byte>)
    requires BerParser.ParseAll(content).Some?
    ensures var o := Interpret(SequenceTag(BerParser.ParseAll(content).value)); o.Decoded? ==> o.msg.op.id < 32
  {
    var ts := BerParser.ParseAll(content).value;
    if |ts| > 0 {
      BerExact.ParsedNumbers(content, |ts| - 1);
    }
    if |ts| > 1 {
      BerExact.ParsedNumbers(content, |ts| - 2);
    }
  }

  lemma {:induction false} InterpretMessage(m: Outgoing)
    requires m.controls.Some? ==> StringTyped(m.controls.value)
    ensures Unmistakable(m) ==>
              Interpret(MessageTag(m))
              == Decoded(Sent(m).(id := AsI32(BerParser.ParseUint(IntegerOctets(m.id)))))
    ensures !Unmistakable(m) ==> !Interpret(MessageTag(m)).Decoded?
  {
    var tags := MessageTag(m).payload.tags;
    if m.controls.Some? {
      ControlsRoundTrip(m.controls.value);
      assert tags[..2][..1] == [IntegerTag(m.id)];
    } else {
      assert tags == [IntegerTag(m.id), m.op];
      assert tags[..1] == [IntegerTag(m.id)];
      assert tags[..1][..0] == [];
    }
  }

  // ----- Framing -----

  /** The decode loop: messages until more octets are needed, or until the stream is broken. */
  datatype Drained = Drained(msgs: seq<Message>, stop: Outcome, rest: seq<byte>)

  function Drain(buf: seq<byte>): (d: Drained)
    ensures !d.stop.Decoded?
    decreases |buf|
  {
    var (o, rest) := Decode(buf);
    if o.Decoded? then
      var d := Drain(rest);
      Drained([o.msg] + d.msgs, d.stop, d.rest)
    else Drained([], o, rest)
  }

  /** One chunk arrives. After an error or a panic nothing more is read. */
  function Feed(d: Drained, chunk: seq<byte>): Drained
  {
    if d.stop != NeedMore then d
    else
      Prepend(d.msgs, Drain(d.rest + chunk))
  }

  function FeedAll(chunks: seq<seq<byte>>): Drained
  {
    if chunks == [] then Drained([], NeedMore, [])
    else Feed(FeedAll(chunks[..|chunks| - 1]), chunks[|chunks| - 1])
  }

  function Concat(chunks: seq<seq<byte>>): seq<byte>
  {
    if chunks == [] then [] else Concat(chunks[..|chunks| - 1]) + chunks[|chunks| - 1]
  }

  /** The reading side of a framed connection. */
  class Framed {
    const buffer: BerWriter.Buffer
    var received: seq<Message>
    var stop: Outcome

    ghost function State(): Drained
      reads this, buffer
    {
      Drained(received, stop, buffer.data)
    }

    constructor ()
      ensures State() == FeedAll([]) && fresh(buffer)
    {
      buffer := new BerWriter.Buffer();
      received, stop := [], NeedMore;
    }

    method Read(chunk: seq<byte>)
      modifies this, buffer
      ensures State() == Feed(old(State()), chunk)
    {
      if stop != NeedMore {
        return;
      }
      buffer.Extend(chunk);
      ghost var goal := Prepend(received, Drain(buffer.data));
      var more := true;
      while more
        invariant more ==> Prepend(received, Drain(buffer.data)) == goal
        invariant !more ==> State() == goal
        decreases |buffer.data|, more
      {
        ghost var before := buffer.data;
        var o := DecodeInner(buffer);
        DrainStep(received, before);
        if o.Decoded? {
          received := received + [o.msg];
        } else {
          stop, more := o, false;
        }
      }
    }
  }

  function Prepend(msgs: seq<Message>, d: Drained): Drained
  {
    Drained(msgs + d.msgs, d.stop, d.rest)
  }

  lemma {:induction false} DrainStep(msgs: seq<Message>, buf: seq<byte>)
    ensures var (o, rest) := Decode(buf);
            Prepend(msgs, Drain(buf)) ==
            if o.Decoded? then Prepend(msgs + [o.msg], Drain(rest)) else Drained(msgs, o, rest)
  {
    var (o, rest) := Decode(buf);
    if o.Decoded? {
      assert msgs + ([o.msg] + Drain(rest).msgs) == msgs + [o.msg] + Drain(rest).msgs;
    }
  }

  lemma {:induction false} DecodeAppend(a: seq<byte>, b: seq<byte>)
    requires Decode(a).0 != NeedMore
    ensures Decode(a + b) == (Decode(a).0, Decode(a).1 + b)
  {
    BerCodec.AppendKeepsParse(a, b);
  }

  lemma {:induction false} PrependMore(m: Message, msgs: seq<Message>, d: Drained)
    ensures Prepend([m], Prepend(msgs, d)) == Prepend([m] + msgs, d) && Prepend([], d) == d
  {
    assert [m] + (msgs + d.msgs) == [m] + msgs + d.msgs && [] + d.msgs == d.msgs;
  }

  /** Draining, one message unfolded. */
  lemma {:induction false} DrainOne(buf: seq<byte>)
    ensures var (o, rest) := Decode(buf);
            Drain(buf) == if o.Decoded? then Prepend([o.msg], Drain(rest)) else Drained([], o, rest)
  {
  }

  /** Draining does not care where the octets so far were cut. */
  lemma {:induction false} DrainAppend(a: seq<byte>, b: seq<byte>)
    ensures var d := Drain(a);
            if d.stop == NeedMore
            then Drain(a + b) == Prepend(d.msgs, Drain(d.rest + b))
            else Drain(a + b) == d.(rest := d.rest + b)
    decreases |a|
  {
    var (o, rest) := Decode(a);
    DrainOne(a);
    if o == NeedMore {
      assert [] + Drain(a + b).msgs == Drain(a + b).msgs;
    } else {
      DecodeAppend(a, b);
      DrainOne(a + b);
      if o.Decoded? {
        DrainAppend(rest, b);
        PrependMore(o.msg, Drain(rest).msgs, Drain(Drain(rest).rest + b));
      }
    }
  }

  /**
   * Chunking is immaterial for every byte stream, well formed or not: the messages and the way the stream
   * stops depend on the concatenated octets only, and so does the buffer while the stream is alive.
   */
  lemma {:induction false} ChunkingImmaterial(chunks: seq<seq<byte>>)
    ensures FeedAll(chunks).msgs == Drain(Concat(chunks)).msgs
    ensures FeedAll(chunks).stop == Drain(Concat(chunks)).stop
    ensures FeedAll(chunks).stop == NeedMore ==> FeedAll(chunks).rest == Drain(Concat(chunks)).rest
  {
    if chunks != [] {
      var front, chunk := chunks[..|chunks| - 1], chunks[|chunks| - 1];
      ChunkingImmaterial(front);
      DrainAppend(Concat(front), chunk);
    }
  }

  function EncodeStream(ms: seq<Outgoing>): seq<byte>
  {
    if ms == [] then [] else EncodeTag(MessageTag(ms[0])) + EncodeStream(ms[1..])
  }

  function SentAll(ms: seq<Outgoing>): (r: seq<Message>)
  {
    if ms == [] then [] else [Sent(ms[0])] + SentAll(ms[1..])
  }

  ghost predicate Deliverable(m: Outgoing)
  {
    Encodable(m) && IdKept(m.id) && Unmistakable(m)
  }

  ghost predicate AllDeliverable(ms: seq<Outgoing>)
  {
    ms == [] || (Deliverable(ms[0]) && AllDeliverable(ms[1..]))
  }

  lemma {:induction false} DeliverHead(m: Outgoing, tail: seq<byte>)
    requires Deliverable(m)
    ensures Drain(EncodeTag(MessageTag(m)) + tail) == Prepend([Sent(m)], Drain(tail))
  {
    EnvelopeRoundTrip(m, tail);
  }

  /** A cut message yields nothing and is kept. */
  lemma {:induction false} CutMessageKept(m: Outgoing, k: nat)
    requires Encodable(m) && k < |EncodeTag(MessageTag(m))|
    ensures Drain(EncodeTag(MessageTag(m))[..k]) == Drained([], NeedMore, EncodeTag(MessageTag(m))[..k])
  {
    BerCodec.PrefixIncomplete(MessageTag(m), k);
  }

  function Octets(m: Outgoing): (bs: seq<byte>)
    ensures bs != []
  {
    EncodeTag(MessageTag(m))
  }

  /** The messages that lie entirely within the first n octets of the stream. */
  function WholeIn(ms: seq<Outgoing>, n: nat): (whole: seq<Outgoing>)
    ensures whole <= ms
  {
    if ms == [] || n < |Octets(ms[0])| then [] else [ms[0]] + WholeIn(ms[1..], n - |Octets(ms[0])|)
  }

  /** The octets of the message that is cut by the end of the first n octets. */
  function CutBy(ms: seq<Outgoing>, n: nat): (cut: seq<byte>)
  {
    if ms == [] then []
    else if n < |Octets(ms[0])| then Octets(ms[0])[..n]
    else CutBy(ms[1..], n - |Octets(ms[0])|)
  }

  lemma {:induction false} PrefixOf(head: seq<byte>, later: seq<byte>, n: nat)
    requires n <= |head + later|
    ensures (head + later)[..n] == if n < |head| then head[..n] else head + later[..n - |head|]
  {
  }

  lemma {:induction false} DrainPrefix(ms: seq<Outgoing>, n: nat)
    requires AllDeliverable(ms) && n <= |EncodeStream(ms)|
    ensures Drain(EncodeStream(ms)[..n]) == Drained(SentAll(WholeIn(ms, n)), NeedMore, CutBy(ms, n))
    decreases |ms|
  {
    if ms == [] {
      DrainNothing(EncodeStream(ms)[..n]);
    } else {
      var head, later := Octets(ms[0]), EncodeStream(ms[1..]);
      PrefixOf(head, later, n);
      if n < |head| {
        CutMessageKept(ms[0], n);
      } else {
        DrainPrefix(ms[1..], n - |head|);
        DeliverHead(ms[0], later[..n - |head|]);
      }
    }
  }

  lemma {:induction false} DrainNothing(buf: seq<byte>)
    requires buf == []
    ensures Drain(buf) == Drained([], NeedMore, [])
  {
  }

  /** Together they are the whole of those octets. */
  lemma {:induction false} CutBySplits(ms: seq<Outgoing>, n: nat)
    requires n <= |EncodeStream(ms)|
    ensures EncodeStream(WholeIn(ms, n)) + CutBy(ms, n) == EncodeStream(ms)[..n]
  {
    if ms != [] {
      var head, later := Octets(ms[0]), EncodeStream(ms[1..]);
      if n < |head| {
        assert EncodeStream(ms)[..n] == head[..n];
      } else {
        CutBySplits(ms[1..], n - |head|);
        assert EncodeStream(ms)[..n] == head + later[..n - |head|];
      }
    }
  }

  /**
   * However the first n octets of an encoded stream are cut into chunks, reading the chunks has delivered
   * exactly the messages that lie within those octets, in order, and the buffer is the rest of them.
   */
  lemma {:induction false} StreamDelivered(ms: seq<Outgoing>, n: nat, chunks: seq<seq<byte>>)
    requires AllDeliverable(ms) && n <= |EncodeStream(ms)|
    requires Concat(chunks) == EncodeStream(ms)[..n]
    ensures FeedAll(chunks) == Drained(SentAll(WholeIn(ms, n)), NeedMore, CutBy(ms, n))
    ensures EncodeStream(WholeIn(ms, n)) + CutBy(ms, n) == Concat(chunks)
    ensures n == |EncodeStream(ms)| ==> WholeIn(ms, n) == ms && CutBy(ms, n) == []
  {
    DrainPrefix(ms, n);
    CutBySplits(ms, n);
    ChunkingImmaterial(chunks);
    WholeStream(ms);
  }

  lemma {:induction false} WholeStream(ms: seq<Outgoing>)
    ensures WholeIn(ms, |EncodeStream(ms)|) == ms && CutBy(ms, |EncodeStream(ms)|) == []
  {
    if ms != [] {
      WholeStream(ms[1..]);
      assert |EncodeStream(ms)| - |Octets(ms[0])| == |EncodeStream(ms[1..])|;
    }
  }
}
