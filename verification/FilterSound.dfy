/** Every string the compiler accepts is a string of the grammar, so that the two describe the same language. */
module FilterSound {
  import opened Bytes
  import opened Ber
  import opened FilterParser
  import opened FilterGrammar
  import opened FilterComplete

  lemma {:induction false} RunIsAllOf(p: byte -> bool, i: seq<byte>)
    ensures AllOf(p, i[..RunLen(p, i)])
  {
  }

  lemma {:induction false} NumberFound(i: seq<byte>, n: nat)
    requires NumberLen(i) == Some(n)
    ensures IsNumber(i[..n])
  {
    RunIsAllOf(IsDigit, i);
  }

  lemma {:induction false} ConsNumbers(n: seq<byte>, ns: seq<seq<byte>>)
    requires IsNumber(n) && AreNumbers(ns)
    ensures AreNumbers([n] + ns)
  {
  }

  lemma {:induction false} SplitAt(i: seq<byte>, m: nat, n: nat)
    requires m + n <= |i|
    ensures i[..m] + i[m..][..n] == i[..m + n]
  {
  }

  lemma {:induction false} PrefixedCons(sep: byte, part: seq<byte>, later: seq<seq<byte>>)
    ensures Prefixed(sep, [part] + later) == [sep] + part + Prefixed(sep, later)
  {
    assert ([part] + later)[1..] == later;
  }

  lemma {:induction false} HeadPart(i: seq<byte>, sep: byte, n: nat, m: nat)
    requires Starts(i, sep) && 1 + n + m <= |i|
    ensures [sep] + i[1..][..n] + i[1 + n..][..m] == i[..1 + n + m]
  {
  }

  lemma {:induction false} DotsFound(i: seq<byte>) returns (ns: seq<seq<byte>>)
    ensures AreNumbers(ns) && Prefixed(DOT, ns) == i[..DotNumbersLen(i)]
    decreases |i|
  {
    ns := [];
    if Starts(i, DOT) && NumberLen(i[1..]).Some? {
      var n := NumberLen(i[1..]).value;
      var number := i[1..][..n];
      var later := DotsFound(i[1 + n..]);
      NumberFound(i[1..], n);
      ConsNumbers(number, later);
      DotStep(i, n);
      PrefixedCons(DOT, number, later);
      HeadPart(i, DOT, n, DotNumbersLen(i[1 + n..]));
      ns := [number] + later;
    }
  }

  lemma {:induction false} OidFound(i: seq<byte>) returns (t: AttrType)
    requires NumericOidLen(i).Some?
    ensures ValidType(t) && PrintType(t) == i[..NumericOidLen(i).value]
  {
    var n := NumberLen(i).value;
    NumberFound(i, n);
    var ns := DotsFound(i[n..]);
    ConsNumbers(i[..n], ns);
    t := Oid([i[..n]] + ns);
    assert t.numbers[1..] == ns;
    SplitAt(i, n, DotNumbersLen(i[n..]));
  }

  lemma {:induction false} TypeFound(i: seq<byte>) returns (t: AttrType)
    requires AttributeTypeLen(i).Some?
    ensures ValidType(t) && PrintType(t) == i[..AttributeTypeLen(i).value]
  {
    if NumericOidLen(i).Some? {
      t := OidFound(i);
    } else {
      var name := i[..DescrLen(i).value];
      RunIsAllOf(IsKeyChar, i[1..]);
      assert name[1..] == i[1..][..RunLen(IsKeyChar, i[1..])];
      t := Descr(name);
    }
  }

  lemma {:induction false} ConsOptions(o: seq<byte>, os: seq<seq<byte>>)
    requires o != [] && AllOf(IsKeyChar, o) && AreOptions(os)
    ensures AreOptions([o] + os)
  {
  }

  lemma {:induction false} OptionsFound(i: seq<byte>) returns (os: seq<seq<byte>>)
    ensures AreOptions(os) && Prefixed(SEMI, os) == i[..OptionsLen(i)]
    decreases |i|
  {
    os := [];
    var n := if Starts(i, SEMI) then RunLen(IsKeyChar, i[1..]) else 0;
    if n > 0 {
      var option := i[1..][..n];
      RunIsAllOf(IsKeyChar, i[1..]);
      var later := OptionsFound(i[1 + n..]);
      ConsOptions(option, later);
      OptionStep(i, n);
      PrefixedCons(SEMI, option, later);
      HeadPart(i, SEMI, n, OptionsLen(i[1 + n..]));
      os := [option] + later;
    }
  }

  lemma {:induction false} AttrFound(i: seq<byte>) returns (a: AttrDesc)
    requires AttributeDescriptionLen(i).Some?
    ensures ValidAttr(a) && PrintAttr(a) == i[..AttributeDescriptionLen(i).value]
  {
    var n := AttributeTypeLen(i).value;
    var ty := TypeFound(i);
    var os := OptionsFound(i[n..]);
    a := AttrDesc(ty, os);
    SplitAt(i, n, OptionsLen(i[n..]));
  }

  // ----- Values -----

  lemma {:induction false} ErrorStays(s: seq<byte>)
    ensures Feed(Error, s).0 == Error
  {
    if s != [] {
      ErrorStays(s[1..]);
    }
  }

  /** An escape that is completed: two hexadecimal digits follow. */
  lemma {:induction false} EscapeFound(s: seq<byte>)
    requires Feed(WantFirst, s).0.Value?
    ensures |s| >= 2 && IsHexDigit(s[0]) && IsHexDigit(s[1])
    ensures var b := 16 * HexValue(s[0]) as int + HexValue(s[1]);
            Feed(WantFirst, s) == (Feed(Value(b), s[2..]).0, [b] + Feed(Value(b), s[2..]).1)
  {
    assert s != [];
    ErrorStays(s[1..]);
    var second := s[1..];
    assert second != [] && second[0] == s[1];
    ErrorStays(second[1..]);
    assert second[1..] == s[2..];
    var b := 16 * HexValue(s[0]) as int + HexValue(s[1]);
    assert Feed(WantSecond(HexValue(s[0])), second) == (Feed(Value(b), s[2..]).0, [b] + Feed(Value(b), s[2..]).1);
    assert [] + ([b] + Feed(Value(b), s[2..]).1) == [b] + Feed(Value(b), s[2..]).1;
  }

  lemma {:induction false} ConsValue(c: ValueChar, v: ValueText)
    requires ValidChar(c) && ValidValue(v)
    ensures ValidValue([c] + v) && ValueOctets([c] + v) == [CharOctet(c)] + ValueOctets(v)
    ensures PrintValue([c] + v) == PrintChar(c) + PrintValue(v)
  {
    assert ([c] + v)[1..] == v;
  }

  lemma {:induction false} ValueFound(u: Unescaper, s: seq<byte>) returns (v: ValueText)
    requires u.Value? && AllOf(IsValueChar, s) && Feed(u, s).0.Value?
    ensures ValidValue(v) && PrintValue(v) == s && ValueOctets(v) == Feed(u, s).1
    decreases |s|
  {
    v := [];
    if s != [] {
      if s[0] == BACKSLASH {
        var t := s[1..];
        EscapeFound(t);
        var c := Escaped(t[0], t[1]);
        var later := ValueFound(Value(CharOctet(c)), t[2..]);
        ConsValue(c, later);
        v := [c] + later;
        assert PrintChar(c) + t[2..] == s;
      } else {
        var c := Plain(s[0]);
        var later := ValueFound(Value(s[0]), s[1..]);
        ConsValue(c, later);
        v := [c] + later;
        assert PrintChar(c) + s[1..] == s;
      }
    }
  }

  lemma {:induction false} UnescapedFound(i: seq<byte>) returns (v: ValueText)
    requires Unescaped(i).Ok?
    ensures ValidValue(v) && i == PrintValue(v) + Unescaped(i).rest && ValueOctets(v) == Unescaped(i).value
  {
    var n := RunLen(IsValueChar, i);
    RunIsAllOf(IsValueChar, i);
    v := ValueFound(Value(0), i[..n]);
    assert i == i[..n] + i[n..];
  }

  lemma {:induction false} ConsValues(v: ValueText, vs: seq<ValueText>)
    requires ValidValue(v) && ValidValues(vs)
    ensures ValidValues([v] + vs) && ValuesOctets([v] + vs) == [ValueOctets(v)] + ValuesOctets(vs)
    ensures PrintValues([v] + vs) == [PrintValue(v)] + PrintValues(vs)
  {
    forall k | 0 <= k < |vs| + 1 ensures ValidValue(([v] + vs)[k]) {
      assert k > 0 ==> ([v] + vs)[k] == vs[k - 1];
    }
    assert ([v] + vs)[1..] == vs;
  }

  lemma {:induction false} StarsFound(i: seq<byte>) returns (vs: seq<ValueText>)
    ensures ValidValues(vs) && ValuesOctets(vs) == StarParts(i).0
    ensures i == Prefixed(STAR, PrintValues(vs)) + StarParts(i).1
    decreases |i|
  {
    vs := [];
    if Starts(i, STAR) && Unescaped(i[1..]).Ok? {
      var v := UnescapedFound(i[1..]);
      var rest := Unescaped(i[1..]).rest;
      var later := StarsFound(rest);
      ConsValues(v, later);
      StarStep(i);
      PrefixedCons(STAR, PrintValue(v), PrintValues(later));
      StarText(i, PrintValue(v), Prefixed(STAR, PrintValues(later)), StarParts(rest).1);
      vs := [v] + later;
    }
  }

  lemma {:induction false} StarStep(i: seq<byte>)
    requires Starts(i, STAR) && Unescaped(i[1..]).Ok?
    ensures var part := Unescaped(i[1..]);
            StarParts(i) == ([part.value] + StarParts(part.rest).0, StarParts(part.rest).1)
  {
  }

  lemma {:induction false} StarText(i: seq<byte>, v: seq<byte>, later: seq<byte>, end: seq<byte>)
    requires Starts(i, STAR) && i[1..] == v + (later + end)
    ensures i == [STAR] + v + later + end
  {
    assert i == [STAR] + i[1..];
  }

  // ----- Items -----

  ghost predicate Denotes(s: SimpleFilter, t: StructureTag)
  {
    ValidSimple(s) && ClearSimple(s) && SimpleTag(s) == t
  }

  /** The three readings of an equals sign. */
  lemma {:induction false} EqReading(a: AttrDesc, initial: ValueText, vs: seq<ValueText>) returns (s: SimpleFilter)
    requires ValidAttr(a) && ValidValue(initial) && ValidValues(vs) && !EmptyBeforeLast(ValuesOctets(vs))
    ensures Denotes(s, EqTag(PrintAttr(a), ValueOctets(initial), ValuesOctets(vs)))
    ensures PrintSimple(s) == PrintAttr(a) + [EQUAL] + PrintValue(initial) + Prefixed(STAR, PrintValues(vs))
  {
    if vs == [] {
      s := Equality(a, initial);
      assert Prefixed(STAR, PrintValues(vs)) == [];
    } else if initial == [] && ValuesOctets(vs) == [[]] {
      OctetsAt(vs, 0);
      s := Present(a);
      assert vs == [[]] && PrintValues(vs) == [[]] && Prefixed(STAR, [[]]) == [STAR];
    } else {
      s := SubstringReading(a, initial, vs);
    }
  }

  lemma {:induction false} SubstringReading(a: AttrDesc, initial: ValueText,
                                            vs: seq<ValueText>) returns (s: SimpleFilter)
    requires ValidAttr(a) && ValidValue(initial) && ValidValues(vs) && !EmptyBeforeLast(ValuesOctets(vs))
    requires vs != [] && !(initial == [] && ValuesOctets(vs) == [[]])
    ensures Denotes(s, EqTag(PrintAttr(a), ValueOctets(initial), ValuesOctets(vs)))
    ensures PrintSimple(s) == PrintAttr(a) + [EQUAL] + PrintValue(initial) + Prefixed(STAR, PrintValues(vs))
  {
    var middle, final := vs[..|vs| - 1], vs[|vs| - 1];
    assert vs == middle + [final];
    assert ValidValues(middle);
    forall k | 0 <= k < |middle| ensures middle[k] != [] {
      OctetsAt(vs, k);
      assert ValuesOctets(vs)[k] != [];
    }
    OctetsAt(vs, |vs| - 1);
    s := Substrings(a, initial, middle, final);
    PartTagsPrinted(middle, final);
    assert InitialTags(ValueOctets(initial)) == OptionalTag(SUB_INITIAL, initial);
    assert InitialTags(ValueOctets(initial)) + (AnyTags(middle) + OptionalTag(SUB_FINAL, final))
        == OptionalTag(SUB_INITIAL, initial) + AnyTags(middle) + OptionalTag(SUB_FINAL, final);
  }

  lemma {:induction false} EqUnfold(i: seq<byte>) returns (n: nat, value: seq<byte>, stars: seq<byte>)
    requires Eq(i).Ok?
    ensures AttributeDescriptionLen(i) == Some(n) && n <= |i| && i == i[..n] + ([EQUAL] + value)
    ensures Unescaped(value).Ok? && Unescaped(value).rest == stars
    ensures !EmptyBeforeLast(StarParts(stars).0)
    ensures Eq(i) == Ok(EqTag(i[..n], Unescaped(value).value, StarParts(stars).0), StarParts(stars).1)
  {
    n := AttributeDescriptionLen(i).value;
    value := i[n + 1..];
    stars := Unescaped(value).rest;
    SplitOne(i, n);
  }

  lemma {:induction false} SplitOne(i: seq<byte>, n: nat)
    requires n < |i|
    ensures i == i[..n] + ([i[n]] + i[n + 1..]) && i[n..] != [] && i[n] == i[n..][0]
  {
  }

  lemma {:induction false} EqFound(i: seq<byte>) returns (s: SimpleFilter)
    requires Eq(i).Ok?
    ensures Denotes(s, Eq(i).value) && i == PrintSimple(s) + Eq(i).rest
  {
    var n, value, stars := EqUnfold(i);
    var a := AttrFound(i);
    var initial := UnescapedFound(value);
    var vs := StarsFound(stars);
    s := EqReading(a, initial, vs);
    EqRegroup(PrintAttr(a), PrintValue(initial), Prefixed(STAR, PrintValues(vs)), StarParts(stars).1);
  }

  lemma {:induction false} NonEqUnfold(i: seq<byte>) returns (n: nat, op: Operator, text: seq<byte>)
    requires NonEq(i).Ok?
    ensures AttributeDescriptionLen(i) == Some(n) && n <= |i| && i == i[..n] + ([op.Char(), EQUAL] + text)
    ensures Unescaped(text).Ok?
    ensures NonEq(i) == Ok(Assertion(op.Id(), i[..n], Unescaped(text).value), Unescaped(text).rest)
  {
    n := AttributeDescriptionLen(i).value;
    op := OperatorOf(i[n]);
    text := i[n + 2..];
    SplitTwo(i, n);
  }

  lemma {:induction false} OperatorOf(c: byte) returns (op: Operator)
    requires OperatorTag(c).Some?
    ensures op.Char() == c && OperatorTag(c) == Some(op.Id())
  {
    op := if c == GREATER then Greater else if c == LESS then Less else Approx;
  }

  lemma {:induction false} SplitTwo(i: seq<byte>, n: nat)
    requires n + 2 <= |i|
    ensures i == i[..n] + ([i[n], i[n + 1]] + i[n + 2..])
  {
  }

  lemma {:induction false} NonEqFound(i: seq<byte>) returns (s: SimpleFilter)
    requires NonEq(i).Ok?
    ensures Denotes(s, NonEq(i).value) && i == PrintSimple(s) + NonEq(i).rest
  {
    var n, op, text := NonEqUnfold(i);
    var a := AttrFound(i);
    var v := UnescapedFound(text);
    s := Ordering(a, op, v);
    OrderingRegroup(PrintAttr(a), op.Char(), PrintValue(v), NonEq(i).rest);
  }

  lemma {:induction false} ColonValueFound(i: seq<byte>) returns (v: ValueText)
    requires ColonValue(i).Ok?
    ensures ValidValue(v) && ValueOctets(v) == ColonValue(i).value
    ensures i == [COLON, EQUAL] + PrintValue(v) + ColonValue(i).rest
  {
    v := UnescapedFound(i[2..]);
    assert i == [COLON, EQUAL] + i[2..];
    Assoc([COLON, EQUAL], PrintValue(v), ColonValue(i).rest);
  }

  lemma {:induction false} ColonRuleFound(i: seq<byte>) returns (t: AttrType)
    requires ColonRule(i).Ok?
    ensures ValidType(t) && PrintType(t) == ColonRule(i).value
    ensures i == [COLON] + PrintType(t) + ColonRule(i).rest
  {
    t := TypeFound(i[1..]);
    var n := |PrintType(t)|;
    assert i == [COLON] + (i[1..][..n] + i[1..][n..]);
    Assoc([COLON], i[1..][..n], i[1..][n..]);
  }

  /** A flag that was not taken means that the rule does not start like one. */
  lemma {:induction false} RuleIsClear(i: seq<byte>, rule: AttrType, rest: seq<byte>)
    requires i == [COLON] + PrintType(rule) + rest && !(DN_FLAG <= i)
    ensures !([0x64, 0x6E] <= PrintType(rule))
  {
    var r := PrintType(rule);
    assert |r| >= 2 ==> i[1] == r[0] && i[2] == r[1];
  }

  lemma {:induction false} FlagFound(i: seq<byte>)
    ensures i == (if AfterDnFlag(i).0 then DN_FLAG else []) + AfterDnFlag(i).1
  {
    if DN_FLAG <= i {
      assert i == i[..3] + i[3..] && i[..3] == DN_FLAG;
    }
  }

  /** What stands after the attribute: the flag, the rule and the value. */
  lemma {:induction false} AfterTargetFound(target: seq<byte>, later: seq<byte>)
    returns (dn: bool, rule: Option<AttrType>, v: ValueText)
    requires AfterTarget(target, later).Ok?
    ensures (rule.Some? ==> ValidType(rule.value)) && ValidValue(v) && !Mistaken(FlagOf(dn), rule)
    ensures later == Targetless(dn, rule, v, AfterTarget(target, later).rest)
    ensures AfterTarget(target, later).value
            == ExtensibleTag(if rule.Some? then Some(PrintType(rule.value)) else None, Some(target), ValueOctets(v), dn)
  {
    var afterDn := AfterDnFlag(later).1;
    dn := AfterDnFlag(later).0;
    FlagFound(later);
    var ruled := ColonRule(afterDn);
    if ruled.Ok? {
      v := ColonValueFound(ruled.rest);
      var t := ColonRuleFound(afterDn);
      rule := Some(t);
      if !dn {
        RuleIsClear(afterDn, t, ruled.rest);
      }
    } else {
      v := ColonValueFound(afterDn);
      rule := None;
    }
    assert afterDn == RuleAndValue(rule, v, AfterTarget(target, later).rest);
  }

  lemma {:induction false} TargetFound(a: AttrDesc, later: seq<byte>, r: Result<StructureTag>) returns (s: SimpleFilter)
    requires ValidAttr(a) && r == AfterTarget(PrintAttr(a), later) && r.Ok?
    ensures Denotes(s, r.value) && PrintAttr(a) + later == PrintSimple(s) + r.rest
  {
    var dn, rule, v := AfterTargetFound(PrintAttr(a), later);
    s := Extended(Some(a), FlagOf(dn), rule, v);
    ExtendedRegroup(Some(a), dn, rule, v, r.rest);
  }

  lemma {:induction false} AttrDnUnfold(i: seq<byte>) returns (n: nat)
    requires AttrDnMrule(i).Ok?
    ensures AttributeDescriptionLen(i) == Some(n) && n <= |i| && i == i[..n] + i[n..]
    ensures AttrDnMrule(i) == AfterTarget(i[..n], i[n..])
  {
    n := AttributeDescriptionLen(i).value;
  }

  lemma {:induction false} AttrDnFound(i: seq<byte>) returns (s: SimpleFilter)
    requires AttrDnMrule(i).Ok?
    ensures Denotes(s, AttrDnMrule(i).value) && i == PrintSimple(s) + AttrDnMrule(i).rest
  {
    var n := AttrDnUnfold(i);
    var a := AttrFound(i);
    s := TargetFound(a, i[n..], AttrDnMrule(i));
  }

  lemma {:induction false} DnUnfold(i: seq<byte>) returns (dn: bool, afterDn: seq<byte>, afterRule: seq<byte>)
    requires DnMrule(i).Ok?
    ensures AfterDnFlag(i) == (dn, afterDn)
    ensures ColonRule(afterDn).Ok? && ColonRule(afterDn).rest == afterRule && ColonValue(afterRule).Ok?
    ensures DnMrule(i) == Ok(ExtensibleTag(Some(ColonRule(afterDn).value), None, ColonValue(afterRule).value, dn),
                             ColonValue(afterRule).rest)
  {
    dn, afterDn := AfterDnFlag(i).0, AfterDnFlag(i).1;
    afterRule := ColonRule(afterDn).rest;
  }

  /** A rule and a value without an attribute, put together. */
  lemma {:induction false} RuleReading(dn: bool, t: AttrType, v: ValueText, rest: seq<byte>) returns (s: SimpleFilter)
    requires ValidType(t) && ValidValue(v) && !Mistaken(FlagOf(dn), Some(t))
    ensures Denotes(s, ExtensibleTag(Some(PrintType(t)), None, ValueOctets(v), dn))
    ensures PrintSimple(s) + rest == Targetless(dn, Some(t), v, rest)
  {
    s := Extended(None, FlagOf(dn), Some(t), v);
    ExtendedRegroup(None, dn, Some(t), v, rest);
  }

  lemma {:induction false} DnFound(i: seq<byte>) returns (s: SimpleFilter)
    requires DnMrule(i).Ok?
    ensures Denotes(s, DnMrule(i).value) && i == PrintSimple(s) + DnMrule(i).rest
  {
    var dn, afterDn, afterRule := DnUnfold(i);
    FlagFound(i);
    var t := ColonRuleFound(afterDn);
    var v := ColonValueFound(afterRule);
    if !dn {
      RuleIsClear(afterDn, t, afterRule);
    }
    s := RuleReading(dn, t, v, ColonValue(afterRule).rest);
    assert afterDn == RuleAndValue(Some(t), v, ColonValue(afterRule).rest);
  }

  lemma {:induction false} ItemFound(i: seq<byte>) returns (s: SimpleFilter)
    requires Item(i).Ok?
    ensures Denotes(s, Item(i).value) && i == PrintSimple(s) + Item(i).rest
  {
    if Eq(i).Ok? {
      s := EqFound(i);
    } else if NonEq(i).Ok? {
      s := NonEqFound(i);
    } else if AttrDnMrule(i).Ok? {
      s := AttrDnFound(i);
    } else {
      s := DnFound(i);
    }
  }

  // ----- Trees -----

  lemma {:induction false} FilterFound(i: seq<byte>) returns (f: FilterTree)
    requires Filter(i).Ok?
    ensures Valid(f) && Clear(f) && TagOf(f) == Filter(i).value && i == Print(f) + Filter(i).rest
    decreases |i|, 0
  {
    var comp := FilterComp(i[1..]);
    f := CompFound(i[1..]);
    Enclosed(i, PrintComp(f), comp.rest);
  }

  lemma {:induction false} Enclosed(i: seq<byte>, comp: seq<byte>, rest: seq<byte>)
    requires Starts(i, LPAREN) && Starts(rest, RPAREN) && i[1..] == comp + rest
    ensures i == [LPAREN] + comp + [RPAREN] + rest[1..]
  {
    assert i == [LPAREN] + i[1..] && rest == [RPAREN] + rest[1..];
  }

  lemma {:induction false} CompFound(i: seq<byte>) returns (f: FilterTree)
    requires FilterComp(i).Ok?
    ensures Valid(f) && Clear(f) && TagOf(f) == FilterComp(i).value && i == PrintComp(f) + FilterComp(i).rest
    decreases |i|, 1
  {
    if Starts(i, AMPERSAND) {
      var fs := ListFound(i[1..]);
      f := And(fs);
      assert i == [AMPERSAND] + (PrintAll(fs) + FilterComp(i).rest);
      Assoc([AMPERSAND], PrintAll(fs), FilterComp(i).rest);
    } else if Starts(i, BAR) {
      var fs := ListFound(i[1..]);
      f := Or(fs);
      assert i == [BAR] + (PrintAll(fs) + FilterComp(i).rest);
      Assoc([BAR], PrintAll(fs), FilterComp(i).rest);
    } else if Negation(i).Ok? {
      var g := FilterFound(i[1..]);
      f := Not(g);
      assert i == [BANG] + (Print(g) + FilterComp(i).rest);
      Assoc([BANG], Print(g), FilterComp(i).rest);
    } else {
      var s := ItemFound(i);
      f := Simple(s);
    }
  }

  lemma {:induction false} ListFound(i: seq<byte>) returns (fs: seq<FilterTree>)
    ensures ValidAll(fs) && ClearAll(fs) && TagsOf(fs) == FilterList(i).0 && i == PrintAll(fs) + FilterList(i).1
    decreases |i|, 2
  {
    fs := [];
    if Filter(i).Ok? {
      var f := FilterFound(i);
      var later := ListFound(Filter(i).rest);
      fs := [f] + later;
      assert fs[1..] == later;
      Assoc(Print(f), PrintAll(later), FilterList(i).1);
    }
  }

  // ----- The language -----

  /** The strings for a filter: in parentheses, or bare when it is a single item. */
  ghost predicate Spells(f: FilterTree, s: seq<byte>)
  {
    s == Print(f) || (f.Simple? && s == PrintSimple(f.s))
  }

  lemma {:induction false} Accepted(s: seq<byte>) returns (f: FilterTree)
    requires Parse(s).Some?
    ensures Valid(f) && Clear(f) && Spells(f, s) && TagOf(f) == Parse(s).value
  {
    if Filter(s).Ok? {
      f := FilterFound(s);
      assert Print(f) + [] == Print(f);
    } else {
      var item := ItemFound(s);
      f := Simple(item);
      assert PrintSimple(item) + [] == PrintSimple(item);
    }
  }

  /** The compiler accepts a string with a tag exactly when the string spells an unambiguous filter with that tag. */
  lemma {:induction false} AcceptsExactly(s: seq<byte>, t: StructureTag)
    ensures Parse(s) == Some(t) <==> exists f :: Valid(f) && Clear(f) && Spells(f, s) && TagOf(f) == t
  {
    if Parse(s) == Some(t) {
      var f := Accepted(s);
    }
    forall f | Valid(f) && Clear(f) && Spells(f, s) && TagOf(f) == t ensures Parse(s) == Some(t) {
      ParsePrintedExactlyWhen(f);
      if f.Simple? {
        ParseBareItem(f.s);
      }
    }
  }

  // ----- Well-formed tags (section 4.5.1.7 of RFC 4511) -----

  ghost predicate IsOctets(t: StructureTag)
  {
    t.cls == Universal && t.id == 4 && t.payload.P?
  }

  ghost predicate IsPart(t: StructureTag)
  {
    t.cls == Context && t.payload.P? && t.payload.bytes != [] && t.id <= 2
  }

  /** At least one part, none empty, an initial part only in the first place and a final part only in the last. */
  ghost predicate AreParts(ts: seq<StructureTag>)
  {
    && ts != []
    && (forall k :: 0 <= k < |ts| ==> IsPart(ts[k]))
    && (forall k :: 0 < k < |ts| ==> ts[k].id != 0)
    && (forall k :: 0 <= k < |ts| - 1 ==> ts[k].id != 2)
  }

  ghost predicate SimpleWellFormed(t: StructureTag)
  {
    && t.cls == Context
    && match t.payload
       case P(bytes) => t.id == 7
       case C(ts) =>
         || (t.id in {3, 5, 6, 8} && |ts| == 2 && IsOctets(ts[0]) && IsOctets(ts[1]))
         || (t.id == 4 && |ts| == 2 && IsOctets(ts[0])
             && ts[1].cls == Universal && ts[1].id == 16 && ts[1].payload.C? && AreParts(ts[1].payload.tags))
         || (t.id == 9 && ExtWellFormed(ts))
  }

  /** A rule or a type, then a value, then the flag when it is set. */
  ghost predicate ExtWellFormed(ts: seq<StructureTag>)
  {
    exists rule: Option<seq<byte>>, attr: Option<seq<byte>>, value, dn ::
      (rule.Some? || attr.Some?) && ts == ExtParts(rule, attr, value, dn)
  }

  function ExtParts(rule: Option<seq<byte>>, attr: Option<seq<byte>>, value: seq<byte>, dn: bool): seq<StructureTag>
  {
    (if rule.Some? then [Primitive(1, rule.value)] else [])
    + (if attr.Some? then [Primitive(2, attr.value)] else [])
    + [Primitive(3, value)]
    + (if dn then [Primitive(4, [0xFF])] else [])
  }

  ghost predicate WellFormed(t: StructureTag)
    decreases t, 1
  {
    || (t.cls == Context && (t.id == 0 || t.id == 1) && t.payload.C? && AllWellFormed(t.payload.tags))
    || (t.cls == Context && t.id == 2 && t.payload.C? && |t.payload.tags| == 1 && WellFormed(t.payload.tags[0]))
    || SimpleWellFormed(t)
  }

  ghost predicate AllWellFormed(ts: seq<StructureTag>)
    decreases ts, 0
  {
    ts == [] || (WellFormed(ts[0]) && AllWellFormed(ts[1..]))
  }

  lemma {:induction false} AnyTagsShape(vs: seq<ValueText>)
    requires ValidValues(vs) && forall k :: 0 <= k < |vs| ==> vs[k] != []
    ensures |AnyTags(vs)| == |vs|
    ensures forall k :: 0 <= k < |vs| ==> IsPart(AnyTags(vs)[k]) && AnyTags(vs)[k].id == SUB_ANY
  {
    if vs != [] {
      TailValid(vs);
      assert forall k :: 0 <= k < |vs| - 1 ==> vs[1..][k] == vs[k + 1];
      AnyTagsShape(vs[1..]);
      forall k | 0 <= k < |vs| ensures IsPart(AnyTags(vs)[k]) && AnyTags(vs)[k].id == SUB_ANY {
        assert k > 0 ==> AnyTags(vs)[k] == AnyTags(vs[1..])[k - 1];
      }
    }
  }

  lemma {:induction false} PartsWellFormed(initial: ValueText, middle: seq<ValueText>, final: ValueText)
    requires ValidValue(initial) && ValidValues(middle) && ValidValue(final)
    requires forall k :: 0 <= k < |middle| ==> middle[k] != []
    requires initial != [] || middle != [] || final != []
    ensures AreParts(OptionalTag(SUB_INITIAL, initial) + AnyTags(middle) + OptionalTag(SUB_FINAL, final))
  {
    AnyTagsShape(middle);
  }

  lemma {:induction false} SimpleTagWellFormed(s: SimpleFilter)
    requires ValidSimple(s) && ClearSimple(s)
    ensures SimpleWellFormed(SimpleTag(s))
  {
    match s
    case Equality(_, _) =>
    case Ordering(_, _, _) =>
    case Present(_) =>
    case Substrings(_, initial, middle, final) => PartsWellFormed(initial, middle, final);
    case Extended(target, flag, rule, v) =>
      var r := if rule.Some? then Some(PrintType(rule.value)) else None;
      var a := if target.Some? then Some(PrintAttr(target.value)) else None;
      assert SimpleTag(s).payload.tags == ExtParts(r, a, ValueOctets(v), flag.Flag?);
  }

  lemma {:induction false} TagOfWellFormed(f: FilterTree)
    requires Valid(f) && Clear(f)
    ensures WellFormed(TagOf(f))
    decreases f, 1
  {
    match f
    case And(fs) => TagsOfWellFormed(fs);
    case Or(fs) => TagsOfWellFormed(fs);
    case Not(g) => TagOfWellFormed(g);
    case Simple(s) => SimpleTagWellFormed(s);
  }

  lemma {:induction false} TagsOfWellFormed(fs: seq<FilterTree>)
    requires ValidAll(fs) && ClearAll(fs)
    ensures AllWellFormed(TagsOf(fs))
    decreases fs, 0
  {
    if fs != [] {
      TagOfWellFormed(fs[0]);
      TagsOfWellFormed(fs[1..]);
      assert TagsOf(fs)[1..] == TagsOf(fs[1..]);
    }
  }

  /** Whatever is accepted is well formed. */
  lemma {:induction false} AcceptedWellFormed(s: seq<byte>)
    requires Parse(s).Some?
    ensures WellFormed(Parse(s).value)
  {
    var f := Accepted(s);
    TagOfWellFormed(f);
  }
}
