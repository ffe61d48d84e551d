/** The filter compiler: ordered choice over byte strings, with backtracking on failure. */
module FilterParser {
  import opened Bytes
  import opened Ber

  datatype Result<+T> = Ok(value: T, rest: seq<byte>) | Fail

  // ----- Characters -----

  const LPAREN: byte := 0x28
  const RPAREN: byte := 0x29
  const STAR: byte := 0x2A
  const HYPHEN: byte := 0x2D
  const DOT: byte := 0x2E
  const ZERO: byte := 0x30
  const COLON: byte := 0x3A
  const SEMI: byte := 0x3B
  const LESS: byte := 0x3C
  const EQUAL: byte := 0x3D
  const GREATER: byte := 0x3E
  const BACKSLASH: byte := 0x5C
  const TILDE: byte := 0x7E
  const AMPERSAND: byte := 0x26
  const BAR: byte := 0x7C
  const BANG: byte := 0x21

  /** ":dn" */
  const DN_FLAG: seq<byte> := [COLON, 0x64, 0x6E]

  predicate IsDigit(c: byte) { 0x30 <= c <= 0x39 }

  predicate IsAlpha(c: byte) { 0x41 <= c <= 0x5A || 0x61 <= c <= 0x7A }

  predicate IsKeyChar(c: byte) { IsAlpha(c) || IsDigit(c) || c == HYPHEN }

  predicate IsHexDigit(c: byte) { IsDigit(c) || 0x41 <= c <= 0x46 || 0x61 <= c <= 0x66 }

  predicate IsValueChar(c: byte) { c != 0 && c != LPAREN && c != RPAREN && c != STAR }

  /** The length of the longest prefix of octets that satisfy p. */
  function RunLen(p: byte -> bool, i: seq<byte>): (n: nat)
    ensures n <= |i|
    ensures forall k :: 0 <= k < n ==> p(i[k])
    ensures n < |i| ==> !p(i[n])
  {
    if i == [] || !p(i[0]) then 0 else 1 + RunLen(p, i[1..])
  }

  predicate Starts(i: seq<byte>, c: byte)
  {
    i != [] && i[0] == c
  }

  // ----- Attribute descriptions: the length of what is recognized -----

  function NumberLen(i: seq<byte>): (r: Option<nat>)
    ensures r.Some? ==> 0 < r.value <= |i|
  {
    var d := RunLen(IsDigit, i);
    if d == 0 || (d > 1 && i[0] == ZERO) then None else Some(d)
  }

  function DotNumbersLen(i: seq<byte>): (n: nat)
    ensures n <= |i|
  {
    if Starts(i, DOT) && NumberLen(i[1..]).Some? then
      var n := 1 + NumberLen(i[1..]).value;
      n + DotNumbersLen(i[n..])
    else 0
  }

  function NumericOidLen(i: seq<byte>): (r: Option<nat>)
    ensures r.Some? ==> 0 < r.value <= |i|
  {
    match NumberLen(i)
    case None => None
    case Some(n) => Some(n + DotNumbersLen(i[n..]))
  }

  function DescrLen(i: seq<byte>): (r: Option<nat>)
    ensures r.Some? ==> 0 < r.value <= |i|
  {
    if i == [] || !IsAlpha(i[0]) then None else Some(1 + RunLen(IsKeyChar, i[1..]))
  }

  function AttributeTypeLen(i: seq<byte>): (r: Option<nat>)
    ensures r.Some? ==> 0 < r.value <= |i|
  {
    if NumericOidLen(i).Some? then NumericOidLen(i) else DescrLen(i)
  }

  function OptionsLen(i: seq<byte>): (n: nat)
    ensures n <= |i|
  {
    if Starts(i, SEMI) && RunLen(IsKeyChar, i[1..]) > 0 then
      var n := 1 + RunLen(IsKeyChar, i[1..]);
      n + OptionsLen(i[n..])
    else 0
  }

  function AttributeDescriptionLen(i: seq<byte>): (r: Option<nat>)
    ensures r.Some? ==> 0 < r.value <= |i|
  {
    match AttributeTypeLen(i)
    case None => None
    case Some(n) => Some(n + OptionsLen(i[n..]))
  }

  // ----- Assertion values -----

  type nibble = x: int | 0 <= x < 16

  datatype Unescaper = WantFirst | WantSecond(partial: nibble) | Value(v: byte) | Error

  function HexValue(c: byte): (v: nibble)
    requires IsHexDigit(c)
  {
    c - (if c <= 0x39 then ZERO else (if c >= 0x60 then 0x20 else 0) + 0x41 - 10)
  }

  /** One step of the automaton. */
  function Step(u: Unescaper, c: byte): (r: Unescaper)
  {
    match u
    case Error => Error
    case WantFirst => if IsHexDigit(c) then WantSecond(HexValue(c)) else Error
    case WantSecond(partial) => if IsHexDigit(c) then Value(16 * partial as int + HexValue(c)) else Error
    case Value(_) => if c != BACKSLASH then Value(c) else WantFirst
  }

  /** The automaton over a string: the final state and the octets it has put out. */
  function Feed(u: Unescaper, s: seq<byte>): (r: (Unescaper, seq<byte>))
    decreases |s|
  {
    if s == [] then (u, [])
    else
      var u' := Step(u, s[0]);
      var (last, out) := Feed(u', s[1..]);
      (last, (if u'.Value? then [u'.v] else []) + out)
  }

  function Unescaped(i: seq<byte>): (r: Result<seq<byte>>)
    ensures r.Ok? ==> |r.rest| <= |i|
  {
    var n := RunLen(IsValueChar, i);
    var (u, out) := Feed(Value(0), i[..n]);
    if u.Value? then Ok(out, i[n..]) else Fail
  }

  // ----- Tags -----

  const AND_FILT: nat := 0
  const OR_FILT: nat := 1
  const NOT_FILT: nat := 2
  const EQ_MATCH: nat := 3
  const SUBSTR_MATCH: nat := 4
  const GTE_MATCH: nat := 5
  const LTE_MATCH: nat := 6
  const PRES_MATCH: nat := 7
  const APPROX_MATCH: nat := 8
  const EXT_MATCH: nat := 9
  const SUB_INITIAL: nat := 0
  const SUB_ANY: nat := 1
  const SUB_FINAL: nat := 2

  function Octets(bs: seq<byte>): StructureTag { StructureTag(Universal, OCTET_STRING, P(bs)) }

  function ContextOctets(id: nat, bs: seq<byte>): StructureTag { StructureTag(Context, id, P(bs)) }

  function ContextSeq(id: nat, ts: seq<StructureTag>): StructureTag { StructureTag(Context, id, C(ts)) }

  function Assertion(id: nat, attr: seq<byte>, value: seq<byte>): StructureTag
  {
    ContextSeq(id, [Octets(attr), Octets(value)])
  }

  // ----- Items -----

  /** Every "*value" that follows. */
  function StarParts(i: seq<byte>): (r: (seq<seq<byte>>, seq<byte>))
    ensures |r.1| <= |i|
  {
    if Starts(i, STAR) && Unescaped(i[1..]).Ok? then
      var part := Unescaped(i[1..]);
      var (parts, rest) := StarParts(part.rest);
      ([part.value] + parts, rest)
    else ([], i)
  }

  /** An empty part is allowed in the last place only. */
  predicate EmptyBeforeLast(parts: seq<seq<byte>>)
  {
    exists n :: 0 <= n < |parts| - 1 && parts[n] == []
  }

  function PartTags(parts: seq<seq<byte>>): (ts: seq<StructureTag>)
  {
    if parts == [] || parts[0] == [] then []
    else [ContextOctets(if |parts| > 1 then SUB_ANY else SUB_FINAL, parts[0])] + PartTags(parts[1..])
  }

  function InitialTags(initial: seq<byte>): (ts: seq<StructureTag>)
  {
    if initial == [] then [] else [ContextOctets(SUB_INITIAL, initial)]
  }

  function EqTag(attr: seq<byte>, initial: seq<byte>, parts: seq<seq<byte>>): StructureTag
  {
    if parts == [] then Assertion(EQ_MATCH, attr, initial)
    else if initial == [] && parts == [[]] then ContextOctets(PRES_MATCH, attr)
    else
      var inner := InitialTags(initial) + PartTags(parts);
      ContextSeq(SUBSTR_MATCH, [Octets(attr), StructureTag(Universal, SEQUENCE, C(inner))])
  }

  function Eq(i: seq<byte>): (r: Result<StructureTag>)
    ensures r.Ok? ==> |r.rest| < |i|
  {
    match AttributeDescriptionLen(i)
    case None => Fail
    case Some(n) =>
      if !Starts(i[n..], EQUAL) then Fail
      else
        match Unescaped(i[n + 1..])
        case Fail => Fail
        case Ok(initial, afterInitial) =>
          var (parts, rest) := StarParts(afterInitial);
          if EmptyBeforeLast(parts) then Fail else Ok(EqTag(i[..n], initial, parts), rest)
  }

  function OperatorTag(c: byte): (id: Option<nat>)
  {
    if c == GREATER then Some(GTE_MATCH)
    else if c == LESS then Some(LTE_MATCH)
    else if c == TILDE then Some(APPROX_MATCH)
    else None
  }

  function NonEq(i: seq<byte>): (r: Result<StructureTag>)
    ensures r.Ok? ==> |r.rest| < |i|
  {
    match AttributeDescriptionLen(i)
    case None => Fail
    case Some(n) =>
      if n + 1 < |i| && OperatorTag(i[n]).Some? && i[n + 1] == EQUAL then
        match Unescaped(i[n + 2..])
        case Fail => Fail
        case Ok(value, rest) => Ok(Assertion(OperatorTag(i[n]).value, i[..n], value), rest)
      else Fail
  }

  function ExtensibleTag(rule: Option<seq<byte>>, attr: Option<seq<byte>>, value: seq<byte>, dn: bool): StructureTag
  {
    ContextSeq(EXT_MATCH,
               (if rule.Some? then [ContextOctets(1, rule.value)] else [])
               + (if attr.Some? then [ContextOctets(2, attr.value)] else [])
               + [ContextOctets(3, value)]
               + (if dn then [ContextOctets(4, [0xFF])] else []))
  }

  /** opt(":dn"), which takes what it can. */
  function AfterDnFlag(i: seq<byte>): (r: (bool, seq<byte>))
    ensures |r.1| <= |i|
  {
    if DN_FLAG <= i then (true, i[3..]) else (false, i)
  }

  /** ":=" and the value. */
  function ColonValue(i: seq<byte>): (r: Result<seq<byte>>)
    ensures r.Ok? ==> |r.rest| < |i|
  {
    if [COLON, EQUAL] <= i then Unescaped(i[2..]) else Fail
  }

  /** ":" and an attribute type: the type and what follows. */
  function ColonRule(i: seq<byte>): (r: Result<seq<byte>>)
    ensures r.Ok? ==> |r.rest| < |i|
  {
    if Starts(i, COLON) && AttributeTypeLen(i[1..]).Some? then
      var n := AttributeTypeLen(i[1..]).value;
      Ok(i[1..][..n], i[1..][n..])
    else Fail
  }

  /** What follows the attribute: the flag, perhaps a rule, the value. */
  function AfterTarget(target: seq<byte>, later: seq<byte>): (r: Result<StructureTag>)
    ensures r.Ok? ==> |r.rest| < |later|
  {
    var (dn, afterDn) := AfterDnFlag(later);
    var rule := ColonRule(afterDn);
    match ColonValue(if rule.Ok? then rule.rest else afterDn)
    case Fail => Fail
    case Ok(value, rest) =>
      Ok(ExtensibleTag(if rule.Ok? then Some(rule.value) else None, Some(target), value, dn), rest)
  }

  function AttrDnMrule(i: seq<byte>): (r: Result<StructureTag>)
    ensures r.Ok? ==> |r.rest| < |i|
  {
    match AttributeDescriptionLen(i)
    case None => Fail
    case Some(n) => AfterTarget(i[..n], i[n..])
  }

  function DnMrule(i: seq<byte>): (r: Result<StructureTag>)
    ensures r.Ok? ==> |r.rest| < |i|
  {
    var (dn, afterDn) := AfterDnFlag(i);
    match ColonRule(afterDn)
    case Fail => Fail
    case Ok(rule, afterRule) =>
      match ColonValue(afterRule)
      case Fail => Fail
      case Ok(value, rest) => Ok(ExtensibleTag(Some(rule), None, value, dn), rest)
  }

  function Extensible(i: seq<byte>): (r: Result<StructureTag>)
    ensures r.Ok? ==> |r.rest| < |i|
  {
    if AttrDnMrule(i).Ok? then AttrDnMrule(i) else DnMrule(i)
  }

  function Item(i: seq<byte>): (r: Result<StructureTag>)
    ensures r.Ok? ==> |r.rest| < |i|
  {
    if Eq(i).Ok? then Eq(i) else if NonEq(i).Ok? then NonEq(i) else Extensible(i)
  }

  // ----- Filters -----

  function Filter(i: seq<byte>): (r: Result<StructureTag>)
    ensures r.Ok? ==> |r.rest| < |i|
    decreases |i|, 0
  {
    if !Starts(i, LPAREN) then Fail
    else
      match FilterComp(i[1..])
      case Fail => Fail
      case Ok(t, rest) => if Starts(rest, RPAREN) then Ok(t, rest[1..]) else Fail
  }

  function FilterComp(i: seq<byte>): (r: Result<StructureTag>)
    ensures r.Ok? ==> |r.rest| < |i|
    decreases |i|, 1
  {
    if Starts(i, AMPERSAND) then
      var (ts, rest) := FilterList(i[1..]);
      Ok(ContextSeq(AND_FILT, ts), rest)
    else if Starts(i, BAR) then
      var (ts, rest) := FilterList(i[1..]);
      Ok(ContextSeq(OR_FILT, ts), rest)
    else
      var negated := Negation(i);
      if negated.Ok? then negated else Item(i)
  }

  function Negation(i: seq<byte>): (r: Result<StructureTag>)
    ensures r.Ok? ==> |r.rest| < |i|
    decreases |i|, 0
  {
    if !Starts(i, BANG) then Fail
    else
      match Filter(i[1..])
      case Fail => Fail
      case Ok(t, rest) => Ok(ContextSeq(NOT_FILT, [t]), rest)
  }

  /** many0(filter) */
  function FilterList(i: seq<byte>): (r: (seq<StructureTag>, seq<byte>))
    ensures |r.1| <= |i|
    decreases |i|, 2
  {
    match Filter(i)
    case Fail => ([], i)
    case Ok(t, rest) =>
      var (ts, last) := FilterList(rest);
      ([t] + ts, last)
  }

  function FiltExpr(i: seq<byte>): (r: Result<StructureTag>)
  {
    if Filter(i).Ok? then Filter(i) else Item(i)
  }

  /** parse: the whole input, or an error. */
  function Parse(i: seq<byte>): (r: Option<StructureTag>)
  {
    match FiltExpr(i)
    case Fail => None
    case Ok(t, rest) => if rest == [] then Some(t) else None
  }

  // ----- The steps that run as loops and pushes -----

  /** The fold of unescaped: octets are pushed as the automaton puts them out. */
  method ReadUnescaped(i: seq<byte>) returns (r: Result<seq<byte>>)
    ensures r == Unescaped(i)
  {
    var u, out, k := Value(0), [], 0;
    ghost var n := RunLen(IsValueChar, i);
    assert i[0..n] == i[..n];
    while k < |i| && IsValueChar(i[k])
      invariant k <= n
      invariant Resume(out, u, i[k..n]) == Resume([], Value(0), i[..n])
    {
      assert i[k..n][0] == i[k] && i[k..n][1..] == i[k + 1..n];
      ResumeStep(out, u, i[k..n]);
      u := Step(u, i[k]);
      if u.Value? {
        out := out + [u.v];
      }
      k := k + 1;
    }
    assert i[k..n] == [] && out + [] == out;
    assert [] + Feed(Value(0), i[..n]).1 == Feed(Value(0), i[..n]).1;
    if u.Value? {
      r := Ok(out, i[k..]);
    } else {
      r := Fail;
    }
  }

  ghost function Resume(out: seq<byte>, u: Unescaper, s: seq<byte>): (Unescaper, seq<byte>)
  {
    (Feed(u, s).0, out + Feed(u, s).1)
  }

  lemma {:induction false} ResumeStep(out: seq<byte>, u: Unescaper, s: seq<byte>)
    requires s != []
    ensures var u' := Step(u, s[0]);
            Resume(out, u, s) == Resume(if u'.Value? then out + [u'.v] else out, u', s[1..])
  {
    var u' := Step(u, s[0]);
    var later := Feed(u', s[1..]).1;
    if u'.Value? {
      assert out + ([u'.v] + later) == out + [u'.v] + later;
    } else {
      assert [] + later == later;
    }
  }

  /** The loop of eq over the parts; it breaks at the first empty one. */
  method BuildParts(initial: seq<byte>, parts: seq<seq<byte>>) returns (inner: seq<StructureTag>)
    ensures inner == InitialTags(initial) + PartTags(parts)
  {
    inner := [];
    if initial != [] {
      inner := inner + [ContextOctets(SUB_INITIAL, initial)];
    }
    var k := 0;
    assert parts[0..] == parts;
    while k < |parts| && parts[k] != []
      invariant k <= |parts|
      invariant inner + PartTags(parts[k..]) == InitialTags(initial) + PartTags(parts)
    {
      assert parts[k..][0] == parts[k] && parts[k..][1..] == parts[k + 1..];
      inner := inner + [ContextOctets(if k + 1 != |parts| then SUB_ANY else SUB_FINAL, parts[k])];
      k := k + 1;
    }
    assert PartTags(parts[k..]) == [];
  }

  /** extensible_tag: the components present are pushed in order. */
  method BuildExtensible(rule: Option<seq<byte>>, attr: Option<seq<byte>>, value: seq<byte>, dn: bool)
    returns (t: StructureTag)
    ensures t == ExtensibleTag(rule, attr, value, dn)
  {
    var inner: seq<StructureTag> := [];
    if rule.Some? {
      inner := inner + [ContextOctets(1, rule.value)];
    }
    if attr.Some? {
      inner := inner + [ContextOctets(2, attr.value)];
    }
    inner := inner + [ContextOctets(3, value)];
    if dn {
      inner := inner + [ContextOctets(4, [0xFF])];
    }
    assert inner == ExtensibleTag(rule, attr, value, dn).payload.tags;
    t := ContextSeq(EXT_MATCH, inner);
  }
}
