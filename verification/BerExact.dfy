/**
 * The round trip of the codec is exact: it succeeds on the trees without a tag number above 30, and on no
 * other tree, however deep the number is and however the octets it displaces might fall into place again.
 */
module BerExact {
  import opened Bytes
  import opened Ber
  import opened BerParser
  import BerCodec

  // ----- One element, taken apart -----

  /** The tag has the header that this identifier octet stands for. */
  predicate Headed(t: StructureTag, x: byte)
  {
    t.cls == ClassOf(x / 64) && t.payload.C? == (x / 32 % 2 == 1) && t.id == x % 32
  }

  lemma {:induction false} Unfold(b: seq<byte>)
    requires ParseTag(b).Done?
    ensures b != [] && ParseLength(b[1..]).Done?
    ensures var t, len := ParseTag(b).value, ParseLength(b[1..]);
            && Headed(t, b[0]) && len.value <= |len.rest| && ParseTag(b).rest == len.rest[len.value..]
            && (t.payload.P? ==> t.payload.bytes == len.rest[..len.value])
            && (t.payload.C? ==> ParseAll(len.rest[..len.value]) == Some(t.payload.tags))
  {
  }

  lemma {:induction false} UnfoldShort(b: seq<byte>)
    requires ParseTag(b).Done? && |b| >= 2 && b[1] < 128
    ensures var t := ParseTag(b).value;
            && Headed(t, b[0]) && b[1] <= |b| - 2 && ParseTag(b).rest == b[2 + b[1]..]
            && (t.payload.P? ==> t.payload.bytes == b[2..2 + b[1]])
            && (t.payload.C? ==> ParseAll(b[2..2 + b[1]]) == Some(t.payload.tags))
  {
    Unfold(b);
    assert b[1..][1..] == b[2..] && b[2..][..b[1]] == b[2..2 + b[1]] && b[2..][b[1]..] == b[2 + b[1]..];
  }

  function Marker(id: nat): seq<byte>
  {
    if id <= 30 then [] else [31]
  }

  lemma {:induction false} Shape(t: StructureTag, x: byte)
    requires Headed(t, x)
    ensures EncodeTag(t) == [x] + Marker(t.id) + LengthOctets(|Contents(t.payload)|) + Contents(t.payload)
  {
    assert TypeOctet(t.cls, t.payload.C?, t.id) == x;
    if t.id == 31 {
      assert TypeOctets(t.cls, t.payload.C?, 31) == [x] + Continued(0) + [31];
    }
  }

  lemma {:induction false} ParseAllHead(content: seq<byte>, ts: seq<StructureTag>)
    requires content != [] && ParseAll(content) == Some(ts)
    ensures ParseTag(content).Done? && ts != []
    ensures ParseTag(content).value == ts[0] && ParseAll(ParseTag(content).rest) == Some(ts[1..])
  {
    var tail := ParseAll(ParseTag(content).rest).value;
    assert ts == [ParseTag(content).value] + tail;
    assert ts[1..] == tail;
  }

  // ----- What little input can grow to -----

  lemma {:induction false} LittleTag(b: seq<byte>)
    requires |b| < 64 && ParseTag(b).Done?
    ensures |EncodeTag(ParseTag(b).value)| <= 2 * (|b| - |ParseTag(b).rest|)
    decreases |b|, 0
  {
    Unfold(b);
    var t, len := ParseTag(b).value, ParseLength(b[1..]);
    Shape(t, b[0]);
    if t.payload.C? {
      Little(len.rest[..len.value]);
    }
    assert |Contents(t.payload)| <= 2 * len.value < 128;
  }

  lemma {:induction false} Little(content: seq<byte>)
    requires |content| < 64 && ParseAll(content).Some?
    ensures |EncodeAll(ParseAll(content).value)| <= 2 * |content|
    decreases |content|, 1
  {
    if content != [] {
      ParseAllHead(content, ParseAll(content).value);
      LittleTag(content);
      Little(ParseTag(content).rest);
    }
  }

  // ----- A length in front of its own elements is never read as the first of them -----

  /** Short contents, written out. */
  lemma {:induction false} ShortShape(us: seq<StructureTag>, x: byte, pl: seq<byte>)
    requires us != [] && Headed(us[0], x) && |EncodeAll(us)| < 128 && pl == Contents(us[0].payload)
    ensures EncodeAll(us) == [x] + Marker(us[0].id) + [|pl|] + pl + EncodeAll(us[1..])
  {
    Shape(us[0], x);
    assert EncodeAll(us) == EncodeTag(us[0]) + EncodeAll(us[1..]);
    assert |pl| < 128;
  }

  lemma {:induction false} PartIsShorter(ts: seq<StructureTag>)
    requires ts != []
    ensures |Contents(ts[0].payload)| < |EncodeAll(ts)|
  {
    assert |EncodeTag(ts[0])| > |Contents(ts[0].payload)|;
  }

  /** Elements cannot start with a primitive one as long as all of them together. */
  lemma {:induction false} ChildOutgrows(content: seq<byte>, ts: seq<StructureTag>)
    requires |content| >= 2 && content[0] == 31 && content[1] == |EncodeAll(ts)| && content[1] < 128
    ensures ParseAll(content) != Some(ts)
  {
    if ParseAll(content) == Some(ts) {
      ParseAllHead(content, ts);
      PartIsShorter(ts);
      UnfoldShort(content);
    }
  }

  /** The first element after a displaced length m: its own length is m again. */
  lemma {:induction false} ShiftedHead(us: seq<StructureTag>, m: byte, body: seq<byte>, b: seq<byte>, x: seq<byte>)
    requires body == EncodeAll(us) && m == |body| < 128 && b == [m] + body + x && ParseAll(b) == Some(us)
    ensures us != [] && Headed(us[0], m) && |b| >= 2 + m && b[1] == m
    ensures us[0].payload.P? ==> |us[0].payload.bytes| == m
    ensures us[0].payload.C? ==> ParseAll(b[2..2 + m]) == Some(us[0].payload.tags)
  {
    assert b[0] == m;
    ParseAllHead(b, us);
    Unfold(b);
    ShortShape(us, m, Contents(us[0].payload));
    assert b[1] == body[0] == m;
    UnfoldShort(b);
  }

  lemma {:induction false} ShiftedTaken(m: byte, mark: seq<byte>, pl: seq<byte>, rest: seq<byte>, x: seq<byte>,
                                        b: seq<byte>)
    requires |pl| < 128 && |mark| <= 1 && b == [m] + ([m] + mark + [|pl|] + pl + rest) + x
    requires m == 2 + |mark| + |pl| + |rest| && |b| >= 2 + m
    ensures b[2..2 + m] == mark + [|pl|] + pl + (rest + x)[..m - 1 - |mark| - |pl|]
  {
    assert b[2..] == mark + [|pl|] + pl + (rest + x);
    assert b[2..2 + m] == b[2..][..m];
  }

  /** A length in front of its own elements is not read as the first of them. */
  lemma {:induction false} ShiftedFails(us: seq<StructureTag>, m: byte, x: seq<byte>)
    requires m == |EncodeAll(us)| < 128
    ensures ParseAll([m] + EncodeAll(us) + x) != Some(us)
    decreases us
  {
    var body := EncodeAll(us);
    var b := [m] + body + x;
    if ParseAll(b) == Some(us) {
      ShiftedHead(us, m, body, b, x);
      var u, pl := us[0], Contents(us[0].payload);
      ShortShape(us, m, pl);
      ShiftedTaken(m, Marker(u.id), pl, EncodeAll(us[1..]), x, b);
      var y := (EncodeAll(us[1..]) + x)[..m - 1 - |Marker(u.id)| - |pl|];
      ShiftedChild(u, pl, b[2..2 + m], y);
    }
  }

  lemma {:induction false} ShiftedChild(u: StructureTag, pl: seq<byte>, taken: seq<byte>, y: seq<byte>)
    requires pl == Contents(u.payload) && |pl| < 128 && taken == Marker(u.id) + [|pl|] + pl + y
    ensures u.payload.C? ==> ParseAll(taken) != Some(u.payload.tags)
    decreases u
  {
    if u.payload.C? {
      if u.id <= 30 {
        assert taken == [|pl|] + pl + y;
        ShiftedFails(u.payload.tags, |pl|, y);
      } else {
        assert taken[0] == 31 && taken[1] == |pl|;
        ChildOutgrows(taken, u.payload.tags);
      }
    }
  }

  // ----- A run of displaced octets 31 never ends -----

  function Run(k: nat): (r: seq<byte>)
    ensures |r| == k && forall i :: 0 <= i < k ==> r[i] == 31
  {
    seq(k, _ => 31)
  }

  lemma {:induction false} RunIs(s: seq<byte>)
    requires forall i :: 0 <= i < |s| ==> s[i] == 31
    ensures s == Run(|s|)
  {
  }

  /** A string that repeats at a distance what comes before it, and starts with a run, is a run. */
  lemma {:induction false} Periodic(s: seq<byte>, d: nat, i: nat)
    requires d > 0 && i < |s| && (forall j :: 0 <= j < d && j < |s| ==> s[j] == 31)
    requires forall j :: d <= j < |s| ==> s[j] == s[j - d]
    ensures s[i] == 31
  {
    if i >= d {
      Periodic(s, d, i - d);
    }
  }

  /** The element after k displaced octets takes 33 of them and of its own, and leaves one more. */
  lemma {:induction false} RunHead(k: nat, us: seq<StructureTag>, b: seq<byte>)
    requires k >= 1 && b == Run(k) + EncodeAll(us) && ParseAll(b) == Some(us)
    ensures us != [] && ParseTag(b).Done? && ParseTag(b).rest == Run(k + 1) + EncodeAll(us[1..])
    ensures ParseAll(Run(k + 1) + EncodeAll(us[1..])) == Some(us[1..])
  {
    assert b[0] == 31;
    ParseAllHead(b, us);
    var u, later := us[0], EncodeAll(us[1..]);
    Unfold(b);
    Shape(u, 31);
    assert EncodeAll(us) == EncodeTag(u) + later;
    assert EncodeAll(us)[0] == 31 && EncodeAll(us)[1] == 31;
    assert b[1] == 31;
    UnfoldShort(b);
    var bytes := u.payload.bytes;
    assert |bytes| == 31 && LengthOctets(31) == [31];
    assert EncodeTag(u) == [31, 31, 31] + bytes;
    RunHeadBytes(k, bytes, later, b);
  }

  lemma {:induction false} RunHeadBytes(k: nat, bytes: seq<byte>, later: seq<byte>, b: seq<byte>)
    requires |bytes| == 31 && b == Run(k) + ([31, 31, 31] + bytes + later) && bytes == b[2..33]
    ensures b[33..] == Run(k + 1) + later
  {
    forall i | 0 <= i < 31 ensures bytes[i] == 31 {
      assert forall j :: 0 <= j < 31 ==> bytes[j] == b[j + 2];
      assert forall j :: 0 <= j < k + 1 && j < 31 ==> bytes[j] == 31;
      assert forall j :: k + 1 <= j < 31 ==> bytes[j] == bytes[j - (k + 1)];
      Periodic(bytes, k + 1, i);
    }
    var ones := Run(k) + [31, 31, 31] + bytes;
    assert b == ones + later;
    RunIs(ones[33..]);
    assert b[33..] == ones[33..] + later;
  }

  lemma {:induction false} RunFails(k: nat, us: seq<StructureTag>)
    requires k >= 1
    ensures ParseAll(Run(k) + EncodeAll(us)) != Some(us)
    decreases |us|
  {
    if ParseAll(Run(k) + EncodeAll(us)) == Some(us) {
      RunHead(k, us, Run(k) + EncodeAll(us));
      RunFails(k + 1, us[1..]);
    }
  }

  // ----- An element with the number 31 is never read back, wherever it is -----

  /** A tag number of 31 is read as such, but its second identifier octet is taken for a length. */
  lemma {:induction false} ThirtyOneMisread(t: StructureTag, tail: seq<byte>)
    requires t.id == 31
    ensures var b := EncodeTag(t) + tail;
            var after := LengthOctets(|Contents(t.payload)|) + Contents(t.payload) + tail;
            b[0] % 32 == 31 && b[1..] == [31] + after && ParseLength(b[1..]) == Done(31, after)
  {
    var after := LengthOctets(|Contents(t.payload)|) + Contents(t.payload) + tail;
    assert TypeOctets(t.cls, t.payload.C?, 31) == [TypeOctet(t.cls, t.payload.C?, 31), 31];
    assert EncodeTag(t) + tail == [TypeOctet(t.cls, t.payload.C?, 31), 31] + after;
    assert ([31] + after)[1..] == after;
  }

  /** What the parser takes for the contents. */
  lemma {:induction false} Misread(t: StructureTag, later: seq<byte>)
    requires t.id == 31 && ParseTag(EncodeTag(t) + later).Done? && ParseTag(EncodeTag(t) + later).value == t
    ensures var after := LengthOctets(|Contents(t.payload)|) + Contents(t.payload) + later;
            && |after| >= 31 && ParseTag(EncodeTag(t) + later).rest == after[31..]
            && (t.payload.P? ==> t.payload.bytes == after[..31])
            && (t.payload.C? ==> ParseAll(after[..31]) == Some(t.payload.tags))
  {
    ThirtyOneMisread(t, later);
    Unfold(EncodeTag(t) + later);
  }

  /** The misread contents are all 31, and one octet is left over. */
  lemma {:induction false} LeftOver(bytes: seq<byte>, later: seq<byte>)
    requires |bytes| == 31 && bytes == ([31] + bytes + later)[..31]
    ensures ([31] + bytes + later)[31..] == Run(1) + later
  {
    var after := [31] + bytes + later;
    var b := Run(0) + ([31, 31, 31] + bytes + later);
    assert b == [31, 31] + after;
    assert b[2..33] == after[..31] && b[33..] == after[31..];
    RunHeadBytes(0, bytes, later, b);
  }

  lemma {:induction false} PrimitiveFails(t: StructureTag, us: seq<StructureTag>)
    requires t.id == 31 && t.payload.P?
    ensures ParseAll(EncodeTag(t) + EncodeAll(us)) != Some([t] + us)
  {
    var later := EncodeAll(us);
    if ParseAll(EncodeTag(t) + later) == Some([t] + us) {
      ParseAllHead(EncodeTag(t) + later, [t] + us);
      assert ([t] + us)[1..] == us;
      Misread(t, later);
      LeftOver(t.payload.bytes, later);
      RunFails(1, us);
    }
  }

  /** The contents would start with their own length; cut at 31 octets they cannot be read as written. */
  lemma {:induction false} ConstructedContentFails(ts: seq<StructureTag>, later: seq<byte>)
    ensures var after := LengthOctets(|EncodeAll(ts)|) + EncodeAll(ts) + later;
            |after| >= 31 ==> ParseAll(after[..31]) != Some(ts)
  {
    var body := EncodeAll(ts);
    var m := |body|;
    var after := LengthOctets(m) + body + later;
    if |after| >= 31 {
      var content := after[..31];
      if m >= 128 {
        if ParseAll(content).Some? {
          Little(content);
        }
      } else if m <= 30 {
        assert content == [m] + body + later[..30 - m];
        ShiftedFails(ts, m, later[..30 - m]);
      } else {
        assert content == [m] + body[..30];
        CutContentFails(ts, m, content);
      }
    }
  }

  lemma {:induction false} CutContentFails(ts: seq<StructureTag>, m: byte, content: seq<byte>)
    requires m == |EncodeAll(ts)| && 31 <= m < 128 && content == [m] + EncodeAll(ts)[..30]
    ensures ParseAll(content) != Some(ts)
  {
    if ParseAll(content) == Some(ts) {
      ParseAllHead(content, ts);
      Unfold(content);
      ShortShape(ts, m, Contents(ts[0].payload));
    }
  }

  lemma {:induction false} ThirtyOneFails(t: StructureTag, us: seq<StructureTag>)
    requires t.id == 31
    ensures ParseAll(EncodeTag(t) + EncodeAll(us)) != Some([t] + us)
  {
    if t.payload.P? {
      PrimitiveFails(t, us);
    } else {
      var later := EncodeAll(us);
      ConstructedContentFails(t.payload.tags, later);
      if ParseAll(EncodeTag(t) + later) == Some([t] + us) {
        ParseAllHead(EncodeTag(t) + later, [t] + us);
        Misread(t, later);
      }
    }
  }

  // ----- The exact condition -----

  /** An element with a low number is read up to where it ends. */
  lemma {:induction false} LowHead(t: StructureTag, later: seq<byte>)
    requires t.id <= 30 && |Contents(t.payload)| < TWO_TO_THE_64 && ParseTag(EncodeTag(t) + later).Done?
    ensures ParseTag(EncodeTag(t) + later).rest == later
    ensures ParseTag(EncodeTag(t) + later).value == t && t.payload.C?
            ==> ParseAll(Contents(t.payload)) == Some(t.payload.tags)
  {
    BerCodec.HeaderRoundTrip(t, later);
    BerCodec.TakeAll(Contents(t.payload), later);
  }

  /** What the parser makes of the contents of an element with a low number decides what it makes of the element. */
  lemma {:induction false} LowConstructed(cls: TagClass, id: nat, tags: seq<StructureTag>, later: seq<byte>)
    requires id <= 30 && |EncodeAll(tags)| < TWO_TO_THE_64
    ensures ParseTag(EncodeTag(StructureTag(cls, id, C(tags))) + later)
            == match ParseAll(EncodeAll(tags))
               case None => Incomplete
               case Some(ts) => Done(StructureTag(cls, id, C(ts)), later)
  {
    var t := StructureTag(cls, id, C(tags));
    BerCodec.HeaderRoundTrip(t, later);
    BerCodec.TakeAll(Contents(t.payload), later);
  }

  /** The parser gives no number above 31. */
  lemma {:induction false} ParsedNumbers(content: seq<byte>, i: nat)
    requires ParseAll(content).Some? && i < |ParseAll(content).value|
    ensures ParseAll(content).value[i].id < 32
    decreases |content|
  {
    var ts := ParseAll(content).value;
    ParseAllHead(content, ts);
    Unfold(content);
    if i > 0 {
      ParsedNumbers(ParseTag(content).rest, i - 1);
      assert ts[1..][i - 1] == ts[i];
    }
  }

  lemma {:induction false} ReadBackIsLow(ts: seq<StructureTag>)
    requires |EncodeAll(ts)| < TWO_TO_THE_64 && ParseAll(EncodeAll(ts)) == Some(ts)
    ensures AllLowIds(ts)
    decreases ts
  {
    if ts != [] {
      var t, us := ts[0], ts[1..];
      assert [t] + us == ts;
      var b := EncodeTag(t) + EncodeAll(us);
      ParseAllHead(b, ts);
      Unfold(b);
      if t.id == 31 {
        ThirtyOneFails(t, us);
      } else {
        LowHead(t, EncodeAll(us));
        ReadBackIsLow(us);
        if t.payload.C? {
          ReadBackIsLow(t.payload.tags);
        }
      }
    }
  }

  lemma {:induction false} RootFails(t: StructureTag, tail: seq<byte>)
    requires t.id == 31
    ensures ParseTag(EncodeTag(t) + tail) != Done(t, tail)
  {
    if t.payload.C? {
      ConstructedContentFails(t.payload.tags, tail);
    }
    if ParseTag(EncodeTag(t) + tail) == Done(t, tail) {
      Misread(t, tail);
    }
  }

  /** Reading back what was written gives the tree, whatever follows, exactly when no tag number is above 30. */
  lemma {:induction false} RoundTripExactlyWhen(t: StructureTag, tail: seq<byte>)
    requires |EncodeTag(t)| < TWO_TO_THE_64
    ensures ParseTag(EncodeTag(t) + tail) == Done(t, tail) <==> LowIds(t)
  {
    if LowIds(t) {
      BerCodec.RoundTrip(t, tail);
    } else if t.id == 31 {
      RootFails(t, tail);
    } else if t.id <= 30 && ParseTag(EncodeTag(t) + tail) == Done(t, tail) {
      LowHead(t, tail);
      if t.payload.C? {
        ReadBackIsLow(t.payload.tags);
      }
    } else if t.id > 31 {
      assert ParseTypeHeader(EncodeTag(t) + tail).value.id < 32;
    }
  }
}
