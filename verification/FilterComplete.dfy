/** What every string of the grammar is compiled to, and exactly when that is its tag. */
module FilterComplete {
  import opened Bytes
  import opened Ber
  import opened FilterParser
  import opened FilterGrammar

  // ----- What may follow -----

  ghost predicate EndsAttr(tail: seq<byte>)
  {
    tail == [] || tail[0] == EQUAL || tail[0] == GREATER || tail[0] == LESS || tail[0] == TILDE || tail[0] == COLON
  }

  ghost predicate EndsType(tail: seq<byte>)
  {
    EndsAttr(tail) || tail[0] == SEMI
  }

  ghost predicate EndsItem(tail: seq<byte>)
  {
    tail == [] || tail[0] == RPAREN
  }

  ghost predicate EndsValue(tail: seq<byte>)
  {
    EndsItem(tail) || tail[0] == STAR
  }

  lemma {:induction false} RunStops(p: byte -> bool, s: seq<byte>, tail: seq<byte>)
    requires AllOf(p, s) && (tail == [] || !p(tail[0]))
    ensures RunLen(p, s + tail) == |s|
    decreases |s|
  {
    if s == [] {
      assert s + tail == tail;
    } else {
      assert (s + tail)[0] == s[0] && (s + tail)[1..] == s[1..] + tail;
      RunStops(p, s[1..], tail);
    }
  }

  // ----- Slices -----

  lemma {:induction false} Slices(a: seq<byte>, b: seq<byte>)
    ensures (a + b)[..|a|] == a && (a + b)[|a|..] == b
  {
  }

  lemma {:induction false} Assoc(a: seq<byte>, b: seq<byte>, c: seq<byte>)
    ensures a + b + c == a + (b + c)
  {
  }

  /** A separator, a part and the rest. */
  lemma {:induction false} SepSlices(c: byte, a: seq<byte>, b: seq<byte>)
    ensures ([c] + a + b)[0] == c && ([c] + a + b)[1..] == a + b && ([c] + a + b)[1 + |a|..] == b
  {
  }

  lemma {:induction false} PrefixedHead(sep: byte, parts: seq<seq<byte>>, tail: seq<byte>)
    requires parts != []
    ensures Prefixed(sep, parts) + tail == [sep] + parts[0] + (Prefixed(sep, parts[1..]) + tail)
    ensures |Prefixed(sep, parts)| == 1 + |parts[0]| + |Prefixed(sep, parts[1..])|
  {
  }

  // ----- Attribute descriptions -----

  lemma {:induction false} NumberPrinted(ds: seq<byte>, tail: seq<byte>)
    requires IsNumber(ds) && (tail == [] || !IsDigit(tail[0]))
    ensures NumberLen(ds + tail) == Some(|ds|)
  {
    RunStops(IsDigit, ds, tail);
    assert (ds + tail)[0] == ds[0];
  }

  /** What follows a part of a separated list. */
  lemma {:induction false} PrefixedFirst(sep: byte, parts: seq<seq<byte>>, tail: seq<byte>)
    ensures parts == [] ==> Prefixed(sep, parts) + tail == tail
    ensures parts != [] ==> Starts(Prefixed(sep, parts) + tail, sep)
  {
  }

  lemma {:induction false} DotStep(i: seq<byte>, n: nat)
    requires Starts(i, DOT) && NumberLen(i[1..]) == Some(n)
    ensures DotNumbersLen(i) == 1 + n + DotNumbersLen(i[1 + n..])
  {
  }

  lemma {:induction false} DotsPrinted(ns: seq<seq<byte>>, tail: seq<byte>)
    requires AreNumbers(ns) && EndsType(tail)
    ensures DotNumbersLen(Prefixed(DOT, ns) + tail) == |Prefixed(DOT, ns)|
  {
    PrefixedFirst(DOT, ns, tail);
    if ns != [] {
      var later := Prefixed(DOT, ns[1..]) + tail;
      PrefixedHead(DOT, ns, tail);
      SepSlices(DOT, ns[0], later);
      PrefixedFirst(DOT, ns[1..], tail);
      NumberPrinted(ns[0], later);
      DotStep([DOT] + ns[0] + later, |ns[0]|);
      DotsPrinted(ns[1..], tail);
    }
  }

  lemma {:induction false} OidStep(i: seq<byte>, n: nat)
    requires NumberLen(i) == Some(n)
    ensures NumericOidLen(i) == Some(n + DotNumbersLen(i[n..]))
  {
  }

  lemma {:induction false} FirstNumberPrinted(first: seq<byte>, later: seq<byte>)
    requires IsNumber(first) && (later == [] || !IsDigit(later[0]))
    ensures NumericOidLen(first + later) == Some(|first| + DotNumbersLen(later))
  {
    Slices(first, later);
    NumberPrinted(first, later);
    OidStep(first + later, |first|);
  }

  lemma {:induction false} OidText(first: seq<byte>, dots: seq<byte>, tail: seq<byte>, later: seq<byte>)
    requires later == dots + tail && IsNumber(first) && (later == [] || !IsDigit(later[0]))
    requires DotNumbersLen(later) == |dots|
    ensures NumericOidLen(first + dots + tail) == Some(|first| + |dots|)
  {
    Assoc(first, dots, tail);
    FirstNumberPrinted(first, later);
  }

  lemma {:induction false} DotsFirst(ns: seq<seq<byte>>, tail: seq<byte>)
    requires EndsType(tail)
    ensures var later := Prefixed(DOT, ns) + tail; later == [] || !IsDigit(later[0])
  {
    PrefixedFirst(DOT, ns, tail);
  }

  lemma {:induction false} OidPrinted(first: seq<byte>, ns: seq<seq<byte>>, tail: seq<byte>)
    requires IsNumber(first) && AreNumbers(ns) && EndsType(tail)
    ensures NumericOidLen(first + Prefixed(DOT, ns) + tail) == Some(|first + Prefixed(DOT, ns)|)
  {
    DotsFirst(ns, tail);
    DotsPrinted(ns, tail);
    OidText(first, Prefixed(DOT, ns), tail, Prefixed(DOT, ns) + tail);
  }

  lemma {:induction false} DescrPrinted(name: seq<byte>, tail: seq<byte>)
    requires ValidType(Descr(name)) && EndsType(tail)
    ensures AttributeTypeLen(name + tail) == Some(|name|)
  {
    assert (name + tail)[0] == name[0] && (name + tail)[1..] == name[1..] + tail;
    RunStops(IsKeyChar, name[1..], tail);
  }

  lemma {:induction false} TypePrinted(t: AttrType, tail: seq<byte>)
    requires ValidType(t) && EndsType(tail)
    ensures AttributeTypeLen(PrintType(t) + tail) == Some(|PrintType(t)|)
  {
    match t
    case Oid(ns) => OidPrinted(ns[0], ns[1..], tail);
    case Descr(name) => DescrPrinted(name, tail);
  }

  lemma {:induction false} OptionStep(i: seq<byte>, n: nat)
    requires Starts(i, SEMI) && RunLen(IsKeyChar, i[1..]) == n > 0
    ensures OptionsLen(i) == 1 + n + OptionsLen(i[1 + n..])
  {
  }

  lemma {:induction false} OptionPrinted(o: seq<byte>, later: seq<byte>)
    requires o != [] && AllOf(IsKeyChar, o) && (later == [] || !IsKeyChar(later[0]))
    ensures OptionsLen([SEMI] + o + later) == 1 + |o| + OptionsLen(later)
  {
    SepSlices(SEMI, o, later);
    RunStops(IsKeyChar, o, later);
    OptionStep([SEMI] + o + later, |o|);
  }

  lemma {:induction false} OptionsPrinted(os: seq<seq<byte>>, tail: seq<byte>)
    requires AreOptions(os) && EndsAttr(tail)
    ensures OptionsLen(Prefixed(SEMI, os) + tail) == |Prefixed(SEMI, os)|
  {
    PrefixedFirst(SEMI, os, tail);
    if os != [] {
      PrefixedHead(SEMI, os, tail);
      PrefixedFirst(SEMI, os[1..], tail);
      OptionPrinted(os[0], Prefixed(SEMI, os[1..]) + tail);
      OptionsPrinted(os[1..], tail);
    }
  }

  lemma {:induction false} AttrStep(i: seq<byte>, n: nat)
    requires AttributeTypeLen(i) == Some(n)
    ensures AttributeDescriptionLen(i) == Some(n + OptionsLen(i[n..]))
  {
  }

  lemma {:induction false} AttrLater(ty: seq<byte>, later: seq<byte>)
    requires AttributeTypeLen(ty + later) == Some(|ty|)
    ensures AttributeDescriptionLen(ty + later) == Some(|ty| + OptionsLen(later))
  {
    Slices(ty, later);
    AttrStep(ty + later, |ty|);
  }

  lemma {:induction false} AttrText(ty: seq<byte>, options: seq<byte>, tail: seq<byte>, later: seq<byte>)
    requires later == options + tail && AttributeTypeLen(ty + later) == Some(|ty|) && OptionsLen(later) == |options|
    ensures AttributeDescriptionLen(ty + options + tail) == Some(|ty| + |options|)
  {
    AttrLater(ty, later);
    Assoc(ty, options, tail);
  }

  lemma {:induction false} OptionsFirst(os: seq<seq<byte>>, tail: seq<byte>)
    requires EndsAttr(tail)
    ensures EndsType(Prefixed(SEMI, os) + tail)
  {
    PrefixedFirst(SEMI, os, tail);
  }

  lemma {:induction false} AttrPrinted(a: AttrDesc, tail: seq<byte>)
    requires ValidAttr(a) && EndsAttr(tail)
    ensures AttributeDescriptionLen(PrintAttr(a) + tail) == Some(|PrintAttr(a)|)
  {
    OptionsFirst(a.options, tail);
    TypePrinted(a.ty, Prefixed(SEMI, a.options) + tail);
    OptionsPrinted(a.options, tail);
    AttrText(PrintType(a.ty), Prefixed(SEMI, a.options), tail, Prefixed(SEMI, a.options) + tail);
  }

  lemma {:induction false} TypeNonEmpty(t: AttrType)
    requires ValidType(t)
    ensures PrintType(t) != [] && (IsDigit(PrintType(t)[0]) || IsAlpha(PrintType(t)[0]))
  {
    match t
    case Oid(ns) => assert IsNumber(ns[0]) && IsDigit(ns[0][0]);
    case Descr(name) =>
  }

  lemma {:induction false} AttrNonEmpty(a: AttrDesc)
    requires ValidAttr(a)
    ensures PrintAttr(a) != [] && (IsDigit(PrintAttr(a)[0]) || IsAlpha(PrintAttr(a)[0]))
  {
    TypeNonEmpty(a.ty);
  }

  // ----- Values -----

  lemma {:induction false} ValueIsRun(v: ValueText)
    requires ValidValue(v)
    ensures AllOf(IsValueChar, PrintValue(v))
  {
    if v != [] {
      assert ValidChar(v[0]);
      assert AllOf(IsValueChar, PrintChar(v[0]));
      ValueIsRun(v[1..]);
    }
  }

  lemma {:induction false} FeedAppend(u: Unescaper, a: seq<byte>, b: seq<byte>)
    ensures Feed(u, a + b) == (Feed(Feed(u, a).0, b).0, Feed(u, a).1 + Feed(Feed(u, a).0, b).1)
    decreases |a|
  {
    if a == [] {
      assert a + b == b && [] + Feed(u, b).1 == Feed(u, b).1;
    } else {
      assert (a + b)[0] == a[0] && (a + b)[1..] == a[1..] + b;
      var u' := Step(u, a[0]);
      FeedAppend(u', a[1..], b);
      var head := if u'.Value? then [u'.v] else [];
      Assoc(head, Feed(u', a[1..]).1, Feed(Feed(u', a[1..]).0, b).1);
    }
  }

  lemma {:induction false} FeedOne(u: Unescaper, c: byte)
    ensures Feed(u, [c]) == (Step(u, c), if Step(u, c).Value? then [Step(u, c).v] else [])
  {
    assert [c][1..] == [];
    assert Feed(Step(u, c), []) == (Step(u, c), []);
    assert forall s: seq<byte> :: s + [] == s;
  }

  lemma {:induction false} FeedChar(u: Unescaper, c: ValueChar)
    requires u.Value? && ValidChar(c)
    ensures Feed(u, PrintChar(c)) == (Value(CharOctet(c)), [CharOctet(c)])
  {
    match c
    case Plain(b) => FeedOne(u, b);
    case Escaped(hi, lo) =>
      assert PrintChar(c) == [BACKSLASH] + ([hi] + [lo]);
      assert forall s: seq<byte> :: [] + s == s;
      FeedAppend(u, [BACKSLASH], [hi] + [lo]);
      FeedOne(u, BACKSLASH);
      FeedAppend(WantFirst, [hi], [lo]);
      FeedOne(WantFirst, hi);
      FeedOne(WantSecond(HexValue(hi)), lo);
  }

  /** The automaton recovers the octets of a value from its text. */
  lemma {:induction false} FeedPrinted(u: Unescaper, v: ValueText)
    requires u.Value? && ValidValue(v)
    ensures Feed(u, PrintValue(v)).0.Value? && Feed(u, PrintValue(v)).1 == ValueOctets(v)
    decreases |v|
  {
    if v != [] {
      assert ValidChar(v[0]);
      FeedAppend(u, PrintChar(v[0]), PrintValue(v[1..]));
      FeedChar(u, v[0]);
      FeedPrinted(Value(CharOctet(v[0])), v[1..]);
    }
  }

  lemma {:induction false} UnescapedPrinted(v: ValueText, tail: seq<byte>)
    requires ValidValue(v) && EndsValue(tail)
    ensures Unescaped(PrintValue(v) + tail) == Ok(ValueOctets(v), tail)
  {
    var s := PrintValue(v);
    ValueIsRun(v);
    RunStops(IsValueChar, s, tail);
    assert (s + tail)[..|s|] == s && (s + tail)[|s|..] == tail;
    FeedPrinted(Value(0), v);
  }

  lemma {:induction false} TailValid(vs: seq<ValueText>)
    requires ValidValues(vs) && vs != []
    ensures ValidValue(vs[0]) && ValidValues(vs[1..])
  {
    assert forall k :: 0 <= k < |vs| - 1 ==> vs[1..][k] == vs[k + 1];
  }

  lemma {:induction false} StarsPrinted(vs: seq<ValueText>, tail: seq<byte>)
    requires ValidValues(vs) && EndsItem(tail)
    ensures StarParts(Prefixed(STAR, PrintValues(vs)) + tail) == (ValuesOctets(vs), tail)
  {
    if vs == [] {
      assert Prefixed(STAR, PrintValues(vs)) + tail == tail;
    } else {
      TailValid(vs);
      var later := Prefixed(STAR, PrintValues(vs[1..])) + tail;
      assert PrintValues(vs)[1..] == PrintValues(vs[1..]);
      PrefixedHead(STAR, PrintValues(vs), tail);
      SepSlices(STAR, PrintValue(vs[0]), later);
      UnescapedPrinted(vs[0], later);
      StarsPrinted(vs[1..], tail);
    }
  }

  // ----- Equality, presence, substrings -----

  lemma {:induction false} EqPrinted(a: AttrDesc, initial: ValueText, parts: seq<ValueText>, tail: seq<byte>)
    requires ValidAttr(a) && ValidValue(initial) && ValidValues(parts) && EndsItem(tail)
    requires !EmptyBeforeLast(ValuesOctets(parts))
    ensures Eq(PrintAttr(a) + [EQUAL] + PrintValue(initial) + Prefixed(STAR, PrintValues(parts)) + tail)
            == Ok(EqTag(PrintAttr(a), ValueOctets(initial), ValuesOctets(parts)), tail)
  {
    var s, stars := PrintAttr(a), Prefixed(STAR, PrintValues(parts)) + tail;
    var value := PrintValue(initial) + stars;
    EqRegroup(s, PrintValue(initial), Prefixed(STAR, PrintValues(parts)), tail);
    AttrPrinted(a, [EQUAL] + value);
    Slices(s, [EQUAL] + value);
    UnescapedPrinted(initial, stars);
    StarsPrinted(parts, tail);
    EqStep(s + ([EQUAL] + value), |s|, value, ValueOctets(initial), stars, ValuesOctets(parts), tail);
  }

  lemma {:induction false} EqRegroup(s: seq<byte>, initial: seq<byte>, stars: seq<byte>, tail: seq<byte>)
    ensures s + [EQUAL] + initial + stars + tail == s + ([EQUAL] + (initial + (stars + tail)))
  {
  }

  lemma {:induction false} AfterSign(i: seq<byte>, n: nat, value: seq<byte>)
    requires n <= |i| && i[n..] == [EQUAL] + value
    ensures n < |i| && i[n] == EQUAL && i[n + 1..] == value && Starts(i[n..], EQUAL)
  {
    assert i[n] == i[n..][0] && i[n + 1..] == i[n..][1..];
  }

  lemma {:induction false} EqStep(i: seq<byte>, n: nat, value: seq<byte>, initial: seq<byte>, stars: seq<byte>,
                                  parts: seq<seq<byte>>, rest: seq<byte>)
    requires AttributeDescriptionLen(i) == Some(n) && i[n..] == [EQUAL] + value
    requires Unescaped(value) == Ok(initial, stars) && StarParts(stars) == (parts, rest)
    requires !EmptyBeforeLast(parts)
    ensures Eq(i) == Ok(EqTag(i[..n], initial, parts), rest)
  {
    AfterSign(i, n, value);
  }

  lemma {:induction false} OctetsAt(vs: seq<ValueText>, k: nat)
    requires ValidValues(vs) && k < |vs|
    ensures ValuesOctets(vs)[k] == ValueOctets(vs[k])
  {
    if k > 0 {
      TailValid(vs);
      OctetsAt(vs[1..], k - 1);
    }
  }

  lemma {:induction false} JoinValid(middle: seq<ValueText>, final: ValueText)
    requires ValidValues(middle) && ValidValue(final)
    ensures ValidValues(middle + [final])
  {
    forall k | 0 <= k < |middle| + 1 ensures ValidValue((middle + [final])[k]) {
      assert k < |middle| ==> (middle + [final])[k] == middle[k];
    }
  }

  lemma {:induction false} NoEmptyMiddle(middle: seq<ValueText>, final: ValueText)
    requires ValidValues(middle + [final])
    requires forall k :: 0 <= k < |middle| ==> middle[k] != []
    ensures !EmptyBeforeLast(ValuesOctets(middle + [final]))
  {
    forall n | 0 <= n < |middle| ensures ValuesOctets(middle + [final])[n] != [] {
      OctetsAt(middle + [final], n);
      assert (middle + [final])[n] == middle[n];
    }
  }

  lemma {:induction false} PartTagsPrinted(middle: seq<ValueText>, final: ValueText)
    requires ValidValues(middle) && ValidValue(final) && ValidValues(middle + [final])
    requires forall k :: 0 <= k < |middle| ==> middle[k] != []
    ensures PartTags(ValuesOctets(middle + [final])) == AnyTags(middle) + OptionalTag(SUB_FINAL, final)
  {
    var vs := middle + [final];
    TailValid(vs);
    if middle == [] {
      assert vs[1..] == [] && ValuesOctets(vs) == [ValueOctets(final)];
      assert PartTags([]) == [];
    } else {
      TailValid(middle);
      assert vs[0] == middle[0] && vs[1..] == middle[1..] + [final];
      forall k | 0 <= k < |middle| - 1 ensures middle[1..][k] != [] {
        assert middle[1..][k] == middle[k + 1];
      }
      PartTagsPrinted(middle[1..], final);
      var rest := ValuesOctets(vs[1..]);
      assert ValuesOctets(vs) == [ValueOctets(middle[0])] + rest && |rest| >= 1;
      assert ValuesOctets(vs)[1..] == rest;
    }
  }

  lemma {:induction false} SubstringTags(a: AttrDesc, initial: ValueText, middle: seq<ValueText>, final: ValueText)
    requires ValidSimple(Substrings(a, initial, middle, final)) && ValidValues(middle + [final]) && !Hollow(middle)
    ensures EqTag(PrintAttr(a), ValueOctets(initial), ValuesOctets(middle + [final]))
            == SimpleTag(Substrings(a, initial, middle, final))
  {
    var parts := middle + [final];
    PartTagsPrinted(middle, final);
    OctetsAt(parts, 0);
    assert |middle| == 0 ==> parts[0] == final;
    assert InitialTags(ValueOctets(initial)) == OptionalTag(SUB_INITIAL, initial);
    assert InitialTags(ValueOctets(initial)) + (AnyTags(middle) + OptionalTag(SUB_FINAL, final))
        == OptionalTag(SUB_INITIAL, initial) + AnyTags(middle) + OptionalTag(SUB_FINAL, final);
  }

  lemma {:induction false} SubstringsPrinted(a: AttrDesc, initial: ValueText, middle: seq<ValueText>,
                                             final: ValueText, tail: seq<byte>)
    requires ValidSimple(Substrings(a, initial, middle, final)) && EndsItem(tail) && !Hollow(middle)
    ensures Eq(PrintSimple(Substrings(a, initial, middle, final)) + tail)
            == Ok(SimpleTag(Substrings(a, initial, middle, final)), tail)
  {
    JoinValid(middle, final);
    NoEmptyMiddle(middle, final);
    SubstringTags(a, initial, middle, final);
    EqPrinted(a, initial, middle + [final], tail);
  }

  /** Equality with any text that prints the value and the parts. */
  lemma {:induction false} EqText(a: AttrDesc, initial: ValueText, parts: seq<ValueText>, stars: seq<byte>,
                                  octets: seq<seq<byte>>, tail: seq<byte>)
    requires ValidAttr(a) && ValidValue(initial) && ValidValues(parts) && EndsItem(tail)
    requires octets == ValuesOctets(parts) && !EmptyBeforeLast(octets) && stars == Prefixed(STAR, PrintValues(parts))
    ensures Eq(PrintAttr(a) + [EQUAL] + PrintValue(initial) + stars + tail)
            == Ok(EqTag(PrintAttr(a), ValueOctets(initial), octets), tail)
  {
    EqPrinted(a, initial, parts, tail);
  }

  lemma {:induction false} NoStars(s: seq<byte>, v: seq<byte>, tail: seq<byte>)
    ensures s + [EQUAL] + v + [] + tail == s + [EQUAL] + v + tail
    ensures s + [EQUAL] + [] + [STAR] + tail == s + [EQUAL, STAR] + tail
  {
  }

  lemma {:induction false} EqualityPrinted(a: AttrDesc, v: ValueText, tail: seq<byte>)
    requires ValidAttr(a) && ValidValue(v) && EndsItem(tail)
    ensures Eq(PrintAttr(a) + [EQUAL] + PrintValue(v) + tail)
            == Ok(Assertion(EQ_MATCH, PrintAttr(a), ValueOctets(v)), tail)
  {
    EqText(a, v, [], [], [], tail);
    NoStars(PrintAttr(a), PrintValue(v), tail);
  }

  /** One part, and an empty one. */
  lemma {:induction false} LoneStar(none: ValueText)
    requires none == []
    ensures ValidValue(none) && ValidValues([none]) && ValueOctets(none) == [] && PrintValue(none) == []
    ensures ValuesOctets([none]) == [[]] && Prefixed(STAR, PrintValues([none])) == [STAR]
  {
    assert [none][1..] == [];
    assert PrintValues([none]) == [[]];
    assert PrintValues([none])[1..] == [];
  }

  lemma {:induction false} PresentPrinted(a: AttrDesc, tail: seq<byte>)
    requires ValidAttr(a) && EndsItem(tail)
    ensures Eq(PrintAttr(a) + [EQUAL, STAR] + tail) == Ok(ContextOctets(PRES_MATCH, PrintAttr(a)), tail)
  {
    LoneStar([]);
    EqText(a, [], [[]], [STAR], [[]], tail);
    NoStars(PrintAttr(a), [], tail);
  }

  // ----- The other comparisons -----

  /** Where the attribute is not followed by an equals sign, the first alternative fails. */
  lemma {:induction false} EqFails(a: AttrDesc, later: seq<byte>)
    requires ValidAttr(a) && later != [] && EndsAttr(later) && later[0] != EQUAL
    ensures Eq(PrintAttr(a) + later).Fail?
  {
    AttrPrinted(a, later);
    assert (PrintAttr(a) + later)[|PrintAttr(a)|..] == later;
  }

  lemma {:induction false} OrderingText(s: seq<byte>, op: Operator, text: seq<byte>, value: seq<byte>, rest: seq<byte>)
    requires AttributeDescriptionLen(s + ([op.Char(), EQUAL] + text)) == Some(|s|)
    requires Eq(s + ([op.Char(), EQUAL] + text)).Fail? && Unescaped(text) == Ok(value, rest)
    ensures Item(s + ([op.Char(), EQUAL] + text)) == Ok(Assertion(op.Id(), s, value), rest)
  {
    var later := [op.Char(), EQUAL] + text;
    Slices(s, later);
    AfterOperator(s + later, |s|, op.Char(), text);
    NonEqStep(s + later, |s|, op, text, value, rest);
  }

  lemma {:induction false} OrderingPrinted(a: AttrDesc, op: Operator, v: ValueText, tail: seq<byte>)
    requires ValidAttr(a) && ValidValue(v) && EndsItem(tail)
    ensures Item(PrintSimple(Ordering(a, op, v)) + tail) == Ok(SimpleTag(Ordering(a, op, v)), tail)
  {
    var s, text := PrintAttr(a), PrintValue(v) + tail;
    OrderingRegroup(s, op.Char(), PrintValue(v), tail);
    EqFails(a, [op.Char(), EQUAL] + text);
    AttrPrinted(a, [op.Char(), EQUAL] + text);
    UnescapedPrinted(v, tail);
    OrderingText(s, op, text, ValueOctets(v), tail);
  }

  lemma {:induction false} OrderingRegroup(s: seq<byte>, c: byte, value: seq<byte>, tail: seq<byte>)
    ensures s + [c, EQUAL] + value + tail == s + ([c, EQUAL] + (value + tail))
  {
  }

  lemma {:induction false} AfterOperator(i: seq<byte>, n: nat, c: byte, text: seq<byte>)
    requires n <= |i| && i[n..] == [c, EQUAL] + text
    ensures n + 1 < |i| && i[n] == c && i[n + 1] == EQUAL && i[n + 2..] == text
  {
    assert i[n] == i[n..][0] && i[n + 1] == i[n..][1] && i[n + 2..] == i[n..][2..];
  }

  lemma {:induction false} NonEqStep(i: seq<byte>, n: nat, op: Operator, text: seq<byte>, value: seq<byte>,
                                     rest: seq<byte>)
    requires AttributeDescriptionLen(i) == Some(n) && n + 1 < |i| && i[n] == op.Char() && i[n + 1] == EQUAL
    requires i[n + 2..] == text && Unescaped(text) == Ok(value, rest)
    ensures NonEq(i) == Ok(Assertion(op.Id(), i[..n], value), rest)
  {
    OperatorTagOf(op);
  }

  lemma {:induction false} OperatorTagOf(op: Operator)
    ensures OperatorTag(op.Char()) == Some(op.Id())
  {
  }

  // ----- Extensible matches -----

  lemma {:induction false} ColonValuePrinted(v: ValueText, tail: seq<byte>)
    requires ValidValue(v) && EndsItem(tail)
    ensures ColonValue([COLON, EQUAL] + PrintValue(v) + tail) == Ok(ValueOctets(v), tail)
  {
    var i := [COLON, EQUAL] + PrintValue(v) + tail;
    assert i[2..] == PrintValue(v) + tail;
    UnescapedPrinted(v, tail);
  }

  lemma {:induction false} NoTypeAt(i: seq<byte>)
    requires i == [] || !(IsDigit(i[0]) || IsAlpha(i[0]))
    ensures AttributeTypeLen(i).None? && AttributeDescriptionLen(i).None?
  {
  }

  lemma {:induction false} ColonRulePrinted(rule: AttrType, later: seq<byte>)
    requires ValidType(rule) && later != [] && later[0] == COLON
    ensures ColonRule([COLON] + PrintType(rule) + later) == Ok(PrintType(rule), later)
  {
    var i, r := [COLON] + PrintType(rule) + later, PrintType(rule);
    assert i[1..] == r + later && (r + later)[..|r|] == r && (r + later)[|r|..] == later;
    TypePrinted(rule, later);
  }

  lemma {:induction false} NoRule(v: ValueText, tail: seq<byte>)
    ensures ColonRule([COLON, EQUAL] + PrintValue(v) + tail).Fail?
  {
    var i := [COLON, EQUAL] + PrintValue(v) + tail;
    assert i[1..][0] == EQUAL;
    NoTypeAt(i[1..]);
  }

  function RuleText(rule: Option<AttrType>): seq<byte>
  {
    if rule.Some? then [COLON] + PrintType(rule.value) else []
  }

  /** What stands after the attribute and the flag. */
  function RuleAndValue(rule: Option<AttrType>, v: ValueText, tail: seq<byte>): seq<byte>
  {
    RuleText(rule) + ([COLON, EQUAL] + PrintValue(v) + tail)
  }

  /** The flag is seen exactly when the rule starts like it. */
  lemma {:induction false} FlagSeenExactlyWhen(rule: Option<AttrType>, v: ValueText, tail: seq<byte>)
    requires rule.Some? ==> ValidType(rule.value)
    ensures DN_FLAG <= RuleAndValue(rule, v, tail) <==> rule.Some? && [0x64, 0x6E] <= PrintType(rule.value)
  {
    var i := RuleAndValue(rule, v, tail);
    if rule.Some? {
      var r := PrintType(rule.value);
      TypeNonEmpty(rule.value);
      assert i == [COLON] + r + ([COLON, EQUAL] + PrintValue(v) + tail);
      assert i[1] == r[0] && i[2] == if |r| > 1 then r[1] else COLON;
    } else {
      assert i[1] == EQUAL;
    }
  }

  /** After a flag that was really there, or when none is seen, rule and value are read as written. */
  lemma {:induction false} RuleAndValueRead(rule: Option<AttrType>, v: ValueText, tail: seq<byte>)
    requires (rule.Some? ==> ValidType(rule.value)) && ValidValue(v) && EndsItem(tail)
    ensures var i := RuleAndValue(rule, v, tail);
            var later := [COLON, EQUAL] + PrintValue(v) + tail;
            && ColonValue(later) == Ok(ValueOctets(v), tail)
            && (rule.Some? ==> ColonRule(i) == Ok(PrintType(rule.value), later))
            && (rule.None? ==> ColonRule(i).Fail? && i == later)
  {
    ColonValuePrinted(v, tail);
    if rule.Some? {
      ColonRulePrinted(rule.value, [COLON, EQUAL] + PrintValue(v) + tail);
      assert [COLON] + PrintType(rule.value) + ([COLON, EQUAL] + PrintValue(v) + tail) == RuleAndValue(rule, v, tail);
    } else {
      NoRule(v, tail);
      assert RuleAndValue(rule, v, tail) == [COLON, EQUAL] + PrintValue(v) + tail;
    }
  }

  lemma {:induction false} OidStartsWithDigit(t: AttrType)
    requires ValidType(t)
    ensures PrintType(t) != [] && (t.Oid? ==> IsDigit(PrintType(t)[0]))
  {
    if t.Oid? {
      assert IsNumber(t.numbers[0]);
    }
  }

  /** After a flag that is really the start of a rule: only a rule named just "dn" leaves a value behind. */
  lemma {:induction false} AfterFalseFlag(rule: AttrType, v: ValueText, tail: seq<byte>)
    requires ValidType(rule) && [0x64, 0x6E] <= PrintType(rule)
    ensures var i := RuleAndValue(Some(rule), v, tail)[3..];
            if PrintType(rule) == [0x64, 0x6E] then i == RuleAndValue(None, v, tail)
            else ColonRule(i).Fail? && ColonValue(i).Fail?
  {
    var r := PrintType(rule);
    var later := [COLON, EQUAL] + PrintValue(v) + tail;
    assert RuleAndValue(Some(rule), v, tail) == [COLON] + r + later;
    assert ([COLON] + r + later)[3..] == r[2..] + later;
    if |r| == 2 {
      assert r[2..] + later == RuleAndValue(None, v, tail);
    } else {
      OidStartsWithDigit(rule);
      assert r[1..][1] == r[2] && IsKeyChar(r[1..][1]);
      assert (r[2..] + later)[0] == r[2] != COLON;
    }
  }

  /** The flag as the compiler knows it. */
  function FlagOf(dn: bool): DnFlag
  {
    if dn then Flag(false, false) else NoFlag
  }

  /**
   * What the compiler reads, where it reads anything: a rule named "dn" becomes the flag, and a flag with a
   * capital letter becomes a rule.
   */
  ghost function SimpleReads(s: SimpleFilter): (r: Option<StructureTag>)
    requires ValidSimple(s)
  {
    if ClearSimple(s) then Some(SimpleTag(s))
    else if s.Substrings? || s.target.None? then None
    else if Overlooked(s.flag) then
      if s.rule.Some? then None
      else Some(SimpleTag(Extended(s.target, NoFlag, Some(Descr(s.flag.Name())), s.value)))
    else if PrintType(s.rule.value) == [0x64, 0x6E] then
      Some(SimpleTag(Extended(s.target, FlagOf(true), None, s.value)))
    else None
  }

  function Targetless(dn: bool, rule: Option<AttrType>, v: ValueText, tail: seq<byte>): seq<byte>
  {
    (if dn then DN_FLAG else []) + RuleAndValue(rule, v, tail)
  }

  lemma {:induction false} FlagRead(dn: bool, rule: Option<AttrType>, v: ValueText, tail: seq<byte>)
    requires rule.Some? ==> ValidType(rule.value)
    ensures var seen := !dn && rule.Some? && [0x64, 0x6E] <= PrintType(rule.value);
            AfterDnFlag(Targetless(dn, rule, v, tail)) ==
            (dn || seen, if seen then RuleAndValue(rule, v, tail)[3..] else RuleAndValue(rule, v, tail))
  {
    var i := Targetless(dn, rule, v, tail);
    if dn {
      assert i[3..] == RuleAndValue(rule, v, tail);
    } else {
      assert i == RuleAndValue(rule, v, tail);
      FlagSeenExactlyWhen(rule, v, tail);
    }
  }

  lemma {:induction false} NoTargetStep(i: seq<byte>)
    requires Starts(i, COLON)
    ensures Item(i) == DnMrule(i)
  {
    NoTypeAt(i);
  }

  lemma {:induction false} DnMruleStep(i: seq<byte>, dn: bool, afterDn: seq<byte>, rule: seq<byte>,
                                       afterRule: seq<byte>,
                                       value: seq<byte>, rest: seq<byte>)
    requires AfterDnFlag(i) == (dn, afterDn) && ColonRule(afterDn) == Ok(rule, afterRule)
    requires ColonValue(afterRule) == Ok(value, rest)
    ensures DnMrule(i) == Ok(ExtensibleTag(Some(rule), None, value, dn), rest)
  {
  }

  lemma {:induction false} NoTargetClear(dn: bool, rule: AttrType, v: ValueText, tail: seq<byte>)
    requires ValidType(rule) && ValidValue(v) && EndsItem(tail) && !Mistaken(FlagOf(dn), Some(rule))
    ensures DnMrule(Targetless(dn, Some(rule), v, tail))
            == Ok(ExtensibleTag(Some(PrintType(rule)), None, ValueOctets(v), dn), tail)
  {
    FlagRead(dn, Some(rule), v, tail);
    RuleAndValueRead(Some(rule), v, tail);
    DnMruleStep(Targetless(dn, Some(rule), v, tail), dn, RuleAndValue(Some(rule), v, tail),
                PrintType(rule), [COLON, EQUAL] + PrintValue(v) + tail, ValueOctets(v), tail);
  }

  lemma {:induction false} NoTargetMistaken(rule: AttrType, v: ValueText, tail: seq<byte>)
    requires ValidType(rule) && ValidValue(v) && EndsItem(tail) && Mistaken(NoFlag, Some(rule))
    ensures DnMrule(Targetless(false, Some(rule), v, tail)).Fail?
  {
    FlagRead(false, Some(rule), v, tail);
    AfterFalseFlag(rule, v, tail);
    RuleAndValueRead(None, v, tail);
  }

  lemma {:induction false} OnlyTarget(i: seq<byte>, n: nat)
    requires AttributeDescriptionLen(i) == Some(n) && n < |i| && i[n] == COLON && i[0] != COLON && Eq(i).Fail?
    ensures Item(i) == AttrDnMrule(i)
  {
    assert NonEq(i).Fail? && DnMrule(i).Fail?;
  }

  lemma {:induction false} TargetStep(a: AttrDesc, later: seq<byte>)
    requires ValidAttr(a) && Starts(later, COLON)
    ensures Item(PrintAttr(a) + later) == AttrDnMrule(PrintAttr(a) + later)
  {
    EqFails(a, later);
    AttrPrinted(a, later);
    AttrNonEmpty(a);
    Joined(PrintAttr(a), later);
    OnlyTarget(PrintAttr(a) + later, |PrintAttr(a)|);
  }

  lemma {:induction false} Joined(s: seq<byte>, later: seq<byte>)
    requires s != [] && later != []
    ensures (s + later)[|s|] == later[0] && (s + later)[0] == s[0]
  {
  }

  lemma {:induction false} AfterTargetStep(a: AttrDesc, later: seq<byte>)
    requires ValidAttr(a) && Starts(later, COLON)
    ensures AttrDnMrule(PrintAttr(a) + later) == AfterTarget(PrintAttr(a), later)
  {
    AttrPrinted(a, later);
    Slices(PrintAttr(a), later);
  }

  lemma {:induction false} TargetClear(target: seq<byte>, dn: bool, rule: Option<AttrType>, v: ValueText,
                                       tail: seq<byte>)
    requires (rule.Some? ==> ValidType(rule.value)) && ValidValue(v) && EndsItem(tail) && !Mistaken(FlagOf(dn), rule)
    ensures AfterTarget(target, Targetless(dn, rule, v, tail))
            == Ok(ExtensibleTag(if rule.Some? then Some(PrintType(rule.value)) else None, Some(target), ValueOctets(v),
                                dn), tail)
  {
    FlagRead(dn, rule, v, tail);
    RuleAndValueRead(rule, v, tail);
  }

  lemma {:induction false} TargetMistaken(target: seq<byte>, rule: AttrType, v: ValueText, tail: seq<byte>)
    requires ValidType(rule) && ValidValue(v) && EndsItem(tail) && Mistaken(NoFlag, Some(rule))
    ensures AfterTarget(target, Targetless(false, Some(rule), v, tail))
            == if PrintType(rule) == [0x64, 0x6E] then Ok(ExtensibleTag(None, Some(target), ValueOctets(v), true), tail)
               else Fail
  {
    FlagRead(false, Some(rule), v, tail);
    AfterFalseFlag(rule, v, tail);
    RuleAndValueRead(None, v, tail);
  }

  // ----- An empty part between asterisks -----

  lemma {:induction false} NotEqAt(i: seq<byte>, n: nat)
    requires AttributeDescriptionLen(i) == Some(n) && n < |i| && i[n] == EQUAL && i[0] != COLON
    ensures NonEq(i).Fail? && Extensible(i).Fail?
  {
    NoTargetAt(i[..n], i[n..]);
  }

  lemma {:induction false} NoTargetAt(target: seq<byte>, later: seq<byte>)
    requires Starts(later, EQUAL)
    ensures AfterTarget(target, later).Fail?
  {
  }

  /** Where a part before the last is empty, all alternatives fail. */
  lemma {:induction false} EmptyPartFails(a: AttrDesc, initial: ValueText, parts: seq<ValueText>, tail: seq<byte>)
    requires ValidAttr(a) && ValidValue(initial) && ValidValues(parts) && EndsItem(tail)
    requires EmptyBeforeLast(ValuesOctets(parts))
    ensures Item(PrintAttr(a) + [EQUAL] + PrintValue(initial) + Prefixed(STAR, PrintValues(parts)) + tail).Fail?
  {
    var s, stars := PrintAttr(a), Prefixed(STAR, PrintValues(parts)) + tail;
    var value := PrintValue(initial) + stars;
    EqRegroup(s, PrintValue(initial), Prefixed(STAR, PrintValues(parts)), tail);
    AttrPrinted(a, [EQUAL] + value);
    AttrNonEmpty(a);
    UnescapedPrinted(initial, stars);
    StarsPrinted(parts, tail);
    EmptyItemFails(s, value);
  }

  lemma {:induction false} EmptyItemFails(s: seq<byte>, value: seq<byte>)
    requires s != [] && s[0] != COLON && AttributeDescriptionLen(s + ([EQUAL] + value)) == Some(|s|)
    requires Unescaped(value).Ok? && EmptyBeforeLast(StarParts(Unescaped(value).rest).0)
    ensures Item(s + ([EQUAL] + value)).Fail?
  {
    var i := s + ([EQUAL] + value);
    Slices(s, [EQUAL] + value);
    AfterSign(i, |s|, value);
    EqEmptyStep(i, |s|, value);
    NotEqAt(i, |s|);
  }

  lemma {:induction false} EqEmptyStep(i: seq<byte>, n: nat, value: seq<byte>)
    requires AttributeDescriptionLen(i) == Some(n) && i[n..] == [EQUAL] + value && Unescaped(value).Ok?
    requires EmptyBeforeLast(StarParts(Unescaped(value).rest).0)
    ensures Eq(i).Fail?
  {
    AfterSign(i, n, value);
  }

  lemma {:induction false} HollowPrinted(a: AttrDesc, initial: ValueText, middle: seq<ValueText>, final: ValueText,
                                         tail: seq<byte>)
    requires ValidSimple(Substrings(a, initial, middle, final)) && EndsItem(tail) && Hollow(middle)
    ensures Item(PrintSimple(Substrings(a, initial, middle, final)) + tail).Fail?
  {
    var k :| 0 <= k < |middle| && middle[k] == [];
    JoinValid(middle, final);
    OctetsAt(middle + [final], k);
    assert (middle + [final])[k] == middle[k] && ValuesOctets(middle + [final])[k] == [];
    EmptyPartFails(a, initial, middle + [final], tail);
  }

  // ----- Items -----

  lemma {:induction false} SimplePrinted(s: SimpleFilter, tail: seq<byte>)
    requires ValidSimple(s) && EndsItem(tail)
    ensures Item(PrintSimple(s) + tail)
            == if SimpleReads(s).Some? then Ok(SimpleReads(s).value, tail) else Fail
  {
    match s
    case Equality(a, v) => EqualityPrinted(a, v, tail);
    case Ordering(a, op, v) => OrderingPrinted(a, op, v, tail);
    case Present(a) => PresentPrinted(a, tail);
    case Substrings(a, initial, middle, final) =>
      if Hollow(middle) {
        HollowPrinted(a, initial, middle, final, tail);
      } else {
        SubstringsPrinted(a, initial, middle, final, tail);
      }
    case Extended(target, flag, rule, v) =>
      if Overlooked(flag) {
        OverlookedPrinted(target, flag, rule, v, tail);
      } else {
        assert flag == FlagOf(flag.Flag?);
        ExtendedRegroup(target, flag.Flag?, rule, v, tail);
        ExtendedPrinted(target, flag.Flag?, rule, v, tail);
      }
  }

  lemma {:induction false} ExtendedPrinted(target: Option<AttrDesc>, dn: bool, rule: Option<AttrType>, v: ValueText,
                                           tail: seq<byte>)
    requires ValidSimple(Extended(target, FlagOf(dn), rule, v)) && EndsItem(tail)
    ensures var s := Extended(target, FlagOf(dn), rule, v);
            var later := Targetless(dn, rule, v, tail);
            Item(if target.Some? then PrintAttr(target.value) + later else later)
            == if SimpleReads(s).Some? then Ok(SimpleReads(s).value, tail) else Fail
  {
    if target.Some? {
      TargetPrinted(target.value, dn, rule, v, tail);
    } else {
      NoTargetPrinted(dn, rule.value, v, tail);
    }
  }

  lemma {:induction false} TargetlessStarts(dn: bool, rule: Option<AttrType>, v: ValueText, tail: seq<byte>)
    ensures Starts(Targetless(dn, rule, v, tail), COLON)
  {
  }

  lemma {:induction false} TargetRead(a: AttrDesc, later: seq<byte>)
    requires ValidAttr(a) && Starts(later, COLON)
    ensures Item(PrintAttr(a) + later) == AfterTarget(PrintAttr(a), later)
  {
    TargetStep(a, later);
    AfterTargetStep(a, later);
  }

  lemma {:induction false} TargetPrinted(a: AttrDesc, dn: bool, rule: Option<AttrType>, v: ValueText, tail: seq<byte>)
    requires ValidSimple(Extended(Some(a), FlagOf(dn), rule, v)) && EndsItem(tail)
    ensures var s := Extended(Some(a), FlagOf(dn), rule, v);
            Item(PrintAttr(a) + Targetless(dn, rule, v, tail))
            == if SimpleReads(s).Some? then Ok(SimpleReads(s).value, tail) else Fail
  {
    TargetlessStarts(dn, rule, v, tail);
    TargetRead(a, Targetless(dn, rule, v, tail));
    if Mistaken(FlagOf(dn), rule) {
      TargetMistaken(PrintAttr(a), rule.value, v, tail);
    } else {
      TargetClear(PrintAttr(a), dn, rule, v, tail);
    }
  }

  lemma {:induction false} NoTargetPrinted(dn: bool, rule: AttrType, v: ValueText, tail: seq<byte>)
    requires ValidSimple(Extended(None, FlagOf(dn), Some(rule), v)) && EndsItem(tail)
    ensures var s := Extended(None, FlagOf(dn), Some(rule), v);
            Item(Targetless(dn, Some(rule), v, tail))
            == if SimpleReads(s).Some? then Ok(SimpleReads(s).value, tail) else Fail
  {
    TargetlessStarts(dn, Some(rule), v, tail);
    NoTargetStep(Targetless(dn, Some(rule), v, tail));
    if Mistaken(FlagOf(dn), Some(rule)) {
      NoTargetMistaken(rule, v, tail);
    } else {
      NoTargetClear(dn, rule, v, tail);
    }
  }

  /** An extensible match, part by part. */
  lemma {:induction false} PrintExtended(s: SimpleFilter, a: seq<byte>, d: seq<byte>, r: seq<byte>, text: seq<byte>)
    requires s.Extended? && a == (if s.target.Some? then PrintAttr(s.target.value) else [])
    requires d == s.flag.Text() && r == RuleText(s.rule) && text == PrintValue(s.value)
    ensures PrintSimple(s) == a + d + r + [COLON, EQUAL] + text
  {
  }

  lemma {:induction false} FlagText(dn: bool)
    ensures FlagOf(dn).Text() == if dn then DN_FLAG else []
  {
  }

  lemma {:induction false} ExtendedRegroup(target: Option<AttrDesc>, dn: bool, rule: Option<AttrType>, v: ValueText,
                                           tail: seq<byte>)
    ensures var later := Targetless(dn, rule, v, tail);
            PrintSimple(Extended(target, FlagOf(dn), rule, v)) + tail
            == if target.Some? then PrintAttr(target.value) + later else later
  {
    var a := if target.Some? then PrintAttr(target.value) else [];
    var d, r, text := FlagOf(dn).Text(), RuleText(rule), PrintValue(v);
    FlagText(dn);
    PrintExtended(Extended(target, FlagOf(dn), rule, v), a, d, r, text);
    Regroup(a, d, r, text, tail);
  }

  // ----- A flag with a capital letter -----

  lemma {:induction false} NameIsType(flag: DnFlag)
    requires flag.Flag?
    ensures ValidType(Descr(flag.Name())) && flag.Text() == [COLON] + PrintType(Descr(flag.Name()))
  {
    assert AllOf(IsKeyChar, flag.Name()[1..]);
  }

  /** Before another rule it is read as a rule, and then no value follows. */
  lemma {:induction false} OverlookedBeforeRule(flag: DnFlag, rule: AttrType, v: ValueText, tail: seq<byte>)
    requires Overlooked(flag) && ValidType(rule)
    ensures var i := flag.Text() + RuleAndValue(Some(rule), v, tail);
            && Starts(i, COLON) && AfterDnFlag(i) == (false, i)
            && ColonRule(i) == Ok(flag.Name(), RuleAndValue(Some(rule), v, tail))
            && ColonValue(RuleAndValue(Some(rule), v, tail)).Fail?
  {
    var later := RuleAndValue(Some(rule), v, tail);
    var i := flag.Text() + later;
    NameIsType(flag);
    TypeNonEmpty(rule);
    assert later[0] == COLON && later[1] == PrintType(rule)[0] != EQUAL;
    ColonRulePrinted(Descr(flag.Name()), later);
    assert i[1] == flag.Name()[0] && i[2] == flag.Name()[1];
  }

  lemma {:induction false} OverlookedPrinted(target: Option<AttrDesc>, flag: DnFlag, rule: Option<AttrType>,
                                             v: ValueText, tail: seq<byte>)
    requires ValidSimple(Extended(target, flag, rule, v)) && EndsItem(tail) && Overlooked(flag)
    ensures var s := Extended(target, flag, rule, v);
            Item(PrintSimple(s) + tail) == if SimpleReads(s).Some? then Ok(SimpleReads(s).value, tail) else Fail
  {
    var a := if target.Some? then PrintAttr(target.value) else [];
    NameIsType(flag);
    Regroup(a, flag.Text(), RuleText(rule), PrintValue(v), tail);
    if rule.Some? {
      var later := flag.Text() + RuleAndValue(rule, v, tail);
      OverlookedBeforeRule(flag, rule.value, v, tail);
      if target.Some? {
        TargetStep(target.value, later);
        AfterTargetStep(target.value, later);
      } else {
        NoTargetStep(later);
      }
    } else {
      OverlookedAsRule(target, flag, v, tail);
    }
  }

  lemma {:induction false} MovedText(a: seq<byte>, d: seq<byte>, v: seq<byte>)
    ensures a + d + [] + [COLON, EQUAL] + v == a + [] + d + [COLON, EQUAL] + v
  {
  }

  lemma {:induction false} SameText(target: Option<AttrDesc>, flag: DnFlag, v: ValueText)
    requires flag.Flag?
    ensures PrintSimple(Extended(target, flag, None, v))
            == PrintSimple(Extended(target, NoFlag, Some(Descr(flag.Name())), v))
  {
    var a := if target.Some? then PrintAttr(target.value) else [];
    MovedText(a, flag.Text(), PrintValue(v));
  }

  /** Alone after an attribute it is the text of a rule. */
  lemma {:induction false} OverlookedAsRule(target: Option<AttrDesc>, flag: DnFlag, v: ValueText, tail: seq<byte>)
    requires ValidSimple(Extended(target, flag, None, v)) && EndsItem(tail) && Overlooked(flag)
    ensures target.Some? && ValidType(Descr(flag.Name()))
    ensures Item(PrintSimple(Extended(target, flag, None, v)) + tail)
            == Ok(SimpleTag(Extended(target, NoFlag, Some(Descr(flag.Name())), v)), tail)
  {
    var rule := Descr(flag.Name());
    NameIsType(flag);
    SameText(target, flag, v);
    ExtendedRegroup(target, false, Some(rule), v, tail);
    ExtendedPrinted(target, false, Some(rule), v, tail);
    assert !([0x64, 0x6E] <= flag.Name());
  }

  lemma {:induction false} Regroup(a: seq<byte>, d: seq<byte>, r: seq<byte>, v: seq<byte>, tail: seq<byte>)
    ensures a + d + r + [COLON, EQUAL] + v + tail == a + (d + (r + ([COLON, EQUAL] + v + tail)))
    ensures a == [] ==> a + d + r + [COLON, EQUAL] + v + tail == d + (r + ([COLON, EQUAL] + v + tail))
  {
  }

  lemma {:induction false} SimpleFirst(s: SimpleFilter)
    requires ValidSimple(s)
    ensures PrintSimple(s) != []
    ensures PrintSimple(s)[0] == COLON || IsDigit(PrintSimple(s)[0]) || IsAlpha(PrintSimple(s)[0])
  {
    match s
    case Extended(target, dn, rule, v) =>
      if target.Some? {
        AttrNonEmpty(target.value);
      }
    case Equality(a, _) => AttrNonEmpty(a);
    case Ordering(a, _, _) => AttrNonEmpty(a);
    case Present(a) => AttrNonEmpty(a);
    case Substrings(a, _, _, _) => AttrNonEmpty(a);
  }

  // ----- Trees -----

  ghost function Reads(f: FilterTree): (r: Option<StructureTag>)
    requires Valid(f)
    decreases f, 1
  {
    match f
    case And(fs) => if ReadsAll(fs).Some? then Some(Constructed(0, ReadsAll(fs).value)) else None
    case Or(fs) => if ReadsAll(fs).Some? then Some(Constructed(1, ReadsAll(fs).value)) else None
    case Not(g) => if Reads(g).Some? then Some(Constructed(2, [Reads(g).value])) else None
    case Simple(s) => SimpleReads(s)
  }

  ghost function ReadsAll(fs: seq<FilterTree>): (r: Option<seq<StructureTag>>)
    requires ValidAll(fs)
    decreases fs, 0
  {
    if fs == [] then Some([])
    else if Reads(fs[0]).Some? && ReadsAll(fs[1..]).Some? then Some([Reads(fs[0]).value] + ReadsAll(fs[1..]).value)
    else None
  }

  /** The compiler on a printed filter, whatever follows it: it reads the filter and leaves what follows, or fails. */
  lemma {:induction false} FilterPrinted(f: FilterTree, tail: seq<byte>)
    requires Valid(f)
    ensures Filter(Print(f) + tail) == if Reads(f).Some? then Ok(Reads(f).value, tail) else Fail
    decreases f, 3
  {
    var close := [RPAREN] + tail;
    var i := Print(f) + tail;
    assert i[1..] == PrintComp(f) + close && close[1..] == tail;
    CompPrinted(f, close);
  }

  /** A component is read and followed by what closes it, or it fails, or it stops before an unread filter. */
  ghost predicate ReadsAs(r: Result<StructureTag>, expected: Option<StructureTag>, close: seq<byte>)
  {
    if expected.Some? then r == Ok(expected.value, close) else r.Ok? ==> Starts(r.rest, LPAREN)
  }

  lemma {:induction false} CompPrinted(f: FilterTree, close: seq<byte>)
    requires Valid(f) && Starts(close, RPAREN)
    ensures ReadsAs(FilterComp(PrintComp(f) + close), Reads(f), close)
    decreases f, 2
  {
    match f
    case And(fs) => ListPrinted(fs, close); ListComp(AMPERSAND, PrintAll(fs), close);
    case Or(fs) => ListPrinted(fs, close); ListComp(BAR, PrintAll(fs), close);
    case Not(g) => FilterPrinted(g, close); NotComp(Print(g), close);
    case Simple(s) => SimplePrinted(s, close); SimpleComp(s, close);
  }

  lemma {:induction false} ListComp(c: byte, text: seq<byte>, close: seq<byte>)
    requires c == AMPERSAND || c == BAR
    ensures var (ts, rest) := FilterList(text + close);
            FilterComp([c] + text + close) == Ok(ContextSeq(if c == AMPERSAND then AND_FILT else OR_FILT, ts), rest)
  {
    assert ([c] + text + close)[1..] == text + close;
  }

  lemma {:induction false} NotComp(text: seq<byte>, close: seq<byte>)
    ensures FilterComp([BANG] + text + close)
            == match Filter(text + close)
               case Fail => Fail
               case Ok(t, rest) => Ok(ContextSeq(NOT_FILT, [t]), rest)
  {
    var i := [BANG] + text + close;
    assert i[1..] == text + close;
    ItemFailsAt(i);
  }

  lemma {:induction false} SimpleComp(s: SimpleFilter, close: seq<byte>)
    requires ValidSimple(s)
    ensures FilterComp(PrintSimple(s) + close) == Item(PrintSimple(s) + close)
  {
    SimpleFirst(s);
    ItemComp(PrintSimple(s) + close);
  }

  lemma {:induction false} ItemComp(i: seq<byte>)
    requires i != [] && (i[0] == COLON || IsDigit(i[0]) || IsAlpha(i[0]))
    ensures FilterComp(i) == Item(i)
  {
    assert Negation(i).Fail?;
  }

  lemma {:induction false} ItemFailsAt(i: seq<byte>)
    requires i != [] && i[0] == BANG
    ensures Item(i).Fail?
  {
    NoTypeAt(i);
  }

  lemma {:induction false} ListPrinted(fs: seq<FilterTree>, close: seq<byte>)
    requires ValidAll(fs) && Starts(close, RPAREN)
    ensures ReadsAll(fs).Some? ==> FilterList(PrintAll(fs) + close) == (ReadsAll(fs).value, close)
    ensures ReadsAll(fs).None? ==> Starts(FilterList(PrintAll(fs) + close).1, LPAREN)
    decreases fs, 1
  {
    if fs == [] {
      assert PrintAll(fs) + close == close;
    } else {
      var later := PrintAll(fs[1..]) + close;
      assert PrintAll(fs) + close == Print(fs[0]) + later;
      FilterPrinted(fs[0], later);
      ListPrinted(fs[1..], close);
    }
  }

  /** The rule comes before the attribute, so that a rule too many or too few shows in the first place. */
  lemma {:induction false} MisreadDiffers(s: SimpleFilter)
    requires ValidSimple(s) && !ClearSimple(s) && SimpleReads(s).Some?
    ensures SimpleReads(s).value != SimpleTag(s)
  {
    var misread, written := SimpleReads(s).value.payload.tags, SimpleTag(s).payload.tags;
    assert misread[0].id == (if Overlooked(s.flag) then 1 else 2) && written[0].id == (if s.rule.Some? then 1 else 2);
  }

  /** Reading a filter as written is the same as it being free of the ambiguity. */
  lemma {:induction false} ReadsAsWrittenExactlyWhen(f: FilterTree)
    requires Valid(f)
    ensures Reads(f) == Some(TagOf(f)) <==> Clear(f)
    decreases f, 1
  {
    match f
    case And(fs) => ReadsAllAsWrittenExactlyWhen(fs);
    case Or(fs) => ReadsAllAsWrittenExactlyWhen(fs);
    case Not(g) => ReadsAsWrittenExactlyWhen(g);
    case Simple(s) =>
      if !ClearSimple(s) && SimpleReads(s).Some? {
        MisreadDiffers(s);
      }
  }

  lemma {:induction false} ReadsAllAsWrittenExactlyWhen(fs: seq<FilterTree>)
    requires ValidAll(fs)
    ensures ReadsAll(fs) == Some(TagsOf(fs)) <==> ClearAll(fs)
    decreases fs, 0
  {
    if fs != [] {
      ReadsAsWrittenExactlyWhen(fs[0]);
      ReadsAllAsWrittenExactlyWhen(fs[1..]);
      if ReadsAll(fs) == Some(TagsOf(fs)) {
        var ts := TagsOf(fs);
        assert ts[0] == TagOf(fs[0]) && ts[1..] == TagsOf(fs[1..]);
        assert ReadsAll(fs).value[0] == Reads(fs[0]).value && ReadsAll(fs).value[1..] == ReadsAll(fs[1..]).value;
      }
    }
  }

  /** For every filter of the grammar: what compiling its text gives. */
  lemma {:induction false} ParsePrinted(f: FilterTree)
    requires Valid(f)
    ensures Parse(Print(f)) == Reads(f)
  {
    FilterPrinted(f, []);
    assert Print(f) + [] == Print(f);
    NoTypeAt(Print(f));
    assert Reads(f).None? ==> Item(Print(f)).Fail?;
  }

  /** It gives the tag of the filter exactly when every flag is spelled ":dn" and no rule is taken for it. */
  lemma {:induction false} ParsePrintedExactlyWhen(f: FilterTree)
    requires Valid(f)
    ensures Parse(Print(f)) == Some(TagOf(f)) <==> Clear(f)
  {
    ParsePrinted(f);
    ReadsAsWrittenExactlyWhen(f);
  }

  lemma {:induction false} ParseItem(i: seq<byte>, t: Option<StructureTag>)
    requires i != [] && i[0] != LPAREN && Item(i) == if t.Some? then Ok(t.value, []) else Fail
    ensures Parse(i) == t
  {
  }

  /** The same for a bare item, without its parentheses. */
  lemma {:induction false} ParseBareItem(s: SimpleFilter)
    requires ValidSimple(s)
    ensures Parse(PrintSimple(s)) == SimpleReads(s)
    ensures Parse(PrintSimple(s)) == Some(SimpleTag(s)) <==> ClearSimple(s)
  {
    SimplePrinted(s, []);
    assert PrintSimple(s) + [] == PrintSimple(s);
    SimpleFirst(s);
    ParseItem(PrintSimple(s), SimpleReads(s));
    if !ClearSimple(s) && SimpleReads(s).Some? {
      MisreadDiffers(s);
    }
  }

  // ----- Departures from section 3 of RFC 4515 -----

  /** A flag with a capital letter before a rule is refused without an attribute, whatever the rule and the value. */
  lemma {:induction false} CapitalFlagRefused(flag: DnFlag, rule: AttrType, v: ValueText)
    requires Overlooked(flag) && ValidType(rule) && ValidValue(v)
    ensures Parse(Print(Simple(Extended(None, flag, Some(rule), v)))) == None
  {
    ParsePrinted(Simple(Extended(None, flag, Some(rule), v)));
  }

  /** ... and alone after an attribute it is compiled to a rule of that name, without the flag. */
  lemma {:induction false} CapitalFlagMisread(a: AttrDesc, flag: DnFlag, v: ValueText)
    requires Overlooked(flag) && ValidAttr(a) && ValidValue(v)
    ensures Parse(Print(Simple(Extended(Some(a), flag, None, v))))
            == Some(Constructed(9, [Primitive(1, flag.Name()), Primitive(2, PrintAttr(a)),
                                    Primitive(3, ValueOctets(v))]))
  {
    ParsePrinted(Simple(Extended(Some(a), flag, None, v)));
    assert SimpleTag(Extended(Some(a), NoFlag, Some(Descr(flag.Name())), v)).payload.tags
        == [Primitive(1, flag.Name()), Primitive(2, PrintAttr(a)), Primitive(3, ValueOctets(v))];
  }

  lemma {:induction false} PrefixedOnto(sep: byte, part: seq<byte>, later: seq<seq<byte>>, text: seq<byte>)
    requires Prefixed(sep, later) == text
    ensures Prefixed(sep, [part] + later) == [sep] + part + text
  {
    assert ([part] + later)[1..] == later;
  }

  /** 2.4.6.8.10 */
  lemma {:induction false} ExampleRule() returns (rule: AttrType)
    ensures ValidType(rule) && PrintType(rule) == [0x32, 0x2E, 0x34, 0x2E, 0x36, 0x2E, 0x38, 0x2E, 0x31, 0x30]
  {
    var none: seq<seq<byte>> := [];
    PrefixedOnto(0x2E, [0x31, 0x30], none, []);
    PrefixedOnto(0x2E, [0x38], [[0x31, 0x30]], [0x2E, 0x31, 0x30]);
    PrefixedOnto(0x2E, [0x36], [[0x38], [0x31, 0x30]], [0x2E, 0x38, 0x2E, 0x31, 0x30]);
    PrefixedOnto(0x2E, [0x34], [[0x36], [0x38], [0x31, 0x30]], [0x2E, 0x36, 0x2E, 0x38, 0x2E, 0x31, 0x30]);
    var later: seq<seq<byte>> := [[0x34], [0x36], [0x38], [0x31, 0x30]];
    rule := Oid([[0x32]] + later);
    assert rule.numbers[1..] == later;
    assert Prefixed(0x2E, later) == [0x2E, 0x34, 0x2E, 0x36, 0x2E, 0x38, 0x2E, 0x31, 0x30];
  }

  /** Dino */
  lemma {:induction false} ExampleValue() returns (v: ValueText)
    ensures ValidValue(v) && PrintValue(v) == [0x44, 0x69, 0x6E, 0x6F]
  {
    v := [Plain(0x44), Plain(0x69), Plain(0x6E), Plain(0x6F)];
    assert v[1..] == [Plain(0x69), Plain(0x6E), Plain(0x6F)];
    assert v[1..][1..] == [Plain(0x6E), Plain(0x6F)];
    assert v[1..][1..][1..] == [Plain(0x6F)];
    assert v[1..][1..][1..][1..] == [];
  }

  lemma {:induction false} ExampleText(r: seq<byte>, text: seq<byte>)
    requires r == [0x32, 0x2E, 0x34, 0x2E, 0x36, 0x2E, 0x38, 0x2E, 0x31, 0x30] && text == [0x44, 0x69, 0x6E, 0x6F]
    ensures [0x28, 0x3A, 0x44, 0x4E, 0x3A] + r + [0x3A, 0x3D] + text + [0x29]
            == [0x28, 0x3A, 0x44, 0x4E, 0x3A, 0x32, 0x2E, 0x34, 0x2E, 0x36, 0x2E, 0x38, 0x2E, 0x31, 0x30,
                0x3A, 0x3D, 0x44, 0x69, 0x6E, 0x6F, 0x29]
  {
  }

  /** "(:DN:2.4.6.8.10:=Dino)", an example of section 4 of RFC 4515, is refused. */
  lemma {:induction false} CapitalFlagExample()
    ensures Parse([0x28, 0x3A, 0x44, 0x4E, 0x3A, 0x32, 0x2E, 0x34, 0x2E, 0x36, 0x2E, 0x38, 0x2E, 0x31, 0x30,
                   0x3A, 0x3D, 0x44, 0x69, 0x6E, 0x6F, 0x29]) == None
  {
    var rule := ExampleRule();
    var v := ExampleValue();
    CapitalFlagRefused(Flag(true, true), rule, v);
    CapitalText(rule, v, PrintType(rule), PrintValue(v));
    ExampleText(PrintType(rule), PrintValue(v));
  }

  lemma {:induction false} CapitalText(rule: AttrType, v: ValueText, r: seq<byte>, text: seq<byte>)
    requires r == PrintType(rule) && text == PrintValue(v)
    ensures Print(Simple(Extended(None, Flag(true, true), Some(rule), v)))
            == [0x28, 0x3A, 0x44, 0x4E, 0x3A] + r + [0x3A, 0x3D] + text + [0x29]
  {
    assert PrintSimple(Extended(None, Flag(true, true), Some(rule), v))
        == [] + [0x3A, 0x44, 0x4E] + ([0x3A] + r) + [0x3A, 0x3D] + text;
  }

  /** Two asterisks in a row are refused, although the grammar lets a part be empty. */
  lemma {:induction false} EmptyPartRefused(a: AttrDesc, initial: ValueText, middle: seq<ValueText>, final: ValueText)
    requires ValidSimple(Substrings(a, initial, middle, final)) && Hollow(middle)
    ensures Parse(Print(Simple(Substrings(a, initial, middle, final)))) == None
    ensures Parse(PrintSimple(Substrings(a, initial, middle, final))) == None
  {
    ParsePrinted(Simple(Substrings(a, initial, middle, final)));
    ParseBareItem(Substrings(a, initial, middle, final));
  }
}
