/** Escaping of filter literals and of attribute values in a relative distinguished name. */
module Escape {
  import opened Bytes
  import opened FilterParser
  import opened FilterGrammar
  import opened FilterComplete
  import Utf8

  const SPACE: byte := 0x20
  const HASH: byte := 0x23

  /** The two escapers differ in the octets they escape. */
  datatype Kind = FilterLiteral | RdnValue

  predicate AlwaysInDn(c: byte)
  {
    || c == 0x22 || c == 0x2B || c == 0x2C || c == SEMI || c == LESS || c == EQUAL || c == GREATER
    || c == BACKSLASH || c == 0
  }

  predicate NeedsEscape(kind: Kind, c: byte, first: bool, last: bool)
  {
    match kind
    case FilterLiteral => c == BACKSLASH || c == STAR || c == LPAREN || c == RPAREN || c == 0
    case RdnValue => AlwaysInDn(c) || (first && (c == SPACE || c == HASH)) || (last && c == SPACE)
  }

  function XDigit(d: nibble): (c: byte)
    ensures IsHexDigit(c) && HexValue(c) == d
  {
    d as int + if d < 10 then ZERO else 0x61 - 10
  }

  function EscapeOctet(c: byte): (s: seq<byte>)
  {
    [BACKSLASH, XDigit(c / 16), XDigit(c % 16)]
  }

  function Token(kind: Kind, v: seq<byte>, first: bool): (s: seq<byte>)
    requires v != []
    ensures s != []
  {
    if NeedsEscape(kind, v[0], first, |v| == 1) then EscapeOctet(v[0]) else [v[0]]
  }

  /** The plain per-octet map; first says whether v starts at the beginning of the whole value. */
  function EscapeFrom(kind: Kind, v: seq<byte>, first: bool): (s: seq<byte>)
    decreases |v|
  {
    if v == [] then [] else Token(kind, v, first) + EscapeFrom(kind, v[1..], false)
  }

  function LdapEscape(v: seq<byte>): seq<byte> { EscapeFrom(FilterLiteral, v, true) }

  function DnEscape(v: seq<byte>): seq<byte> { EscapeFrom(RdnValue, v, true) }

  /** None is an error. */
  function LdapUnescape(s: seq<byte>): (r: Option<seq<byte>>)
  {
    var (u, out) := Feed(Value(0), s);
    if u.Value? && Utf8.Valid(out) then Some(out) else None
  }

  /** What the loop has copied, or would have. */
  function Copied(output: Option<seq<byte>>, before: seq<byte>): seq<byte>
  {
    if output.None? then before else output.value
  }

  /** The loop of both escapers: nothing is copied until an octet has to be escaped. None is a panic. */
  method EscapeLazily(kind: Kind, lit: seq<byte>) returns (r: Option<seq<byte>>)
    requires Utf8.Valid(lit)
    ensures r == Some(EscapeFrom(kind, lit, true))
  {
    var output: Option<seq<byte>> := None;
    EscapeBegin(kind, lit);
    for i := 0 to |lit|
      invariant Copied(output, lit[..i]) + EscapeFrom(kind, lit[i..], i == 0) == EscapeFrom(kind, lit, true)
    {
      var c := lit[i];
      EscapeNext(kind, lit, i, Copied(output, lit[..i]));
      assert lit[..i + 1] == lit[..i] + [c];
      if NeedsEscape(kind, c, i == 0, i + 1 == |lit|) {
        if output.None? {
          output := Utf8.SliceTo(lit, i);
          if output.None? {
            return None;
          }
        }
        output := Some(output.value + EscapeOctet(c));
      } else if output.Some? {
        output := Some(output.value + [c]);
      }
    }
    assert lit[..|lit|] == lit;
    EscapeEnd(kind, lit, Copied(output, lit));
    match output
    case None => r := Some(lit);
    case Some(o) => r := if Utf8.Valid(o) then Some(o) else None;
  }

  lemma {:induction false} EscapeBegin(kind: Kind, lit: seq<byte>)
    ensures lit[..0] + EscapeFrom(kind, lit[0..], true) == EscapeFrom(kind, lit, true)
  {
    assert lit[0..] == lit;
  }

  lemma {:induction false} EscapeNext(kind: Kind, lit: seq<byte>, i: nat, before: seq<byte>)
    requires i < |lit|
    ensures before + EscapeFrom(kind, lit[i..], i == 0)
            == before + (if NeedsEscape(kind, lit[i], i == 0, i + 1 == |lit|) then EscapeOctet(lit[i]) else [lit[i]])
               + EscapeFrom(kind, lit[i + 1..], false)
  {
    assert lit[i..][0] == lit[i] && lit[i..][1..] == lit[i + 1..];
    Assoc(before, Token(kind, lit[i..], i == 0), EscapeFrom(kind, lit[i + 1..], false));
  }

  lemma {:induction false} EscapeEnd(kind: Kind, lit: seq<byte>, out: seq<byte>)
    requires Utf8.Valid(lit)
    requires out + EscapeFrom(kind, lit[|lit|..], |lit| == 0) == EscapeFrom(kind, lit, true)
    ensures out == EscapeFrom(kind, lit, true) && Utf8.Valid(out)
  {
    assert lit[|lit|..] == [] && out + [] == out;
    EscapeKeepsUtf8(kind, lit, true);
  }

  lemma {:induction false} FeedNext(s: seq<byte>, i: nat)
    requires i < |s|
    ensures var (u, out) := Feed(Value(0), s[..i]);
            var u' := Step(u, s[i]);
            Feed(Value(0), s[..i + 1]) == (u', out + if u'.Value? then [u'.v] else [])
  {
    assert s[..i + 1] == s[..i] + [s[i]];
    FeedAppend(Value(0), s[..i], [s[i]]);
    FeedOne(Feed(Value(0), s[..i]).0, s[i]);
  }

  datatype Unescaping = Text(text: seq<byte>) | DecodingUtf8 | Panicked

  /** ldap_unescape as it runs: nothing is copied until a backslash is met. */
  method UnescapeLazily(val: seq<byte>) returns (r: Unescaping)
    requires Utf8.Valid(val)
    ensures r == if LdapUnescape(val).Some? then Text(LdapUnescape(val).value) else DecodingUtf8
  {
    var output: Option<seq<byte>> := None;
    var esc := Value(0);
    for i := 0 to |val|
      invariant output.None? ==> esc.Value?
      invariant Feed(Value(0), val[..i]) == (esc, if output.None? then val[..i] else output.value)
    {
      FeedNext(val, i);
      assert val[..i + 1] == val[..i] + [val[i]];
      assert forall s: seq<byte> :: s + [] == s;
      esc := Step(esc, val[i]);
      match esc
      case WantFirst =>
        if output.None? {
          output := Utf8.SliceTo(val, i);
          if output.None? {
            return Panicked;
          }
        }
      case Value(c) =>
        if output.Some? {
          output := Some(output.value + [c]);
        }
      case _ =>
    }
    assert val[..|val|] == val;
    if output.Some? {
      if esc.Value? && Utf8.Valid(output.value) {
        return Text(output.value);
      } else {
        return DecodingUtf8;
      }
    }
    return Text(val);
  }

  // ----- Unescaping undoes both escapers -----

  lemma {:induction false} FeedEscaped(u: Unescaper, c: byte)
    requires u.Value?
    ensures Feed(u, EscapeOctet(c)) == (Value(c), [c])
  {
    FeedChar(u, Escaped(XDigit(c / 16), XDigit(c % 16)));
  }

  lemma {:induction false} FeedToken(kind: Kind, u: Unescaper, v: seq<byte>, first: bool)
    requires v != [] && u.Value?
    ensures Feed(u, Token(kind, v, first)) == (Value(v[0]), [v[0]])
  {
    FeedEscaped(u, v[0]);
    FeedOne(u, v[0]);
  }

  lemma {:induction false} FeedInverts(kind: Kind, u: Unescaper, v: seq<byte>, first: bool)
    requires u.Value?
    ensures Feed(u, EscapeFrom(kind, v, first)).0.Value? && Feed(u, EscapeFrom(kind, v, first)).1 == v
    decreases |v|
  {
    if v != [] {
      FeedAppend(u, Token(kind, v, first), EscapeFrom(kind, v[1..], false));
      FeedToken(kind, u, v, first);
      FeedInverts(kind, Value(v[0]), v[1..], false);
    }
  }

  lemma {:induction false} UnescapeInverts(v: seq<byte>)
    requires Utf8.Valid(v)
    ensures LdapUnescape(LdapEscape(v)) == Some(v) && LdapUnescape(DnEscape(v)) == Some(v)
  {
    FeedInverts(FilterLiteral, Value(0), v, true);
    FeedInverts(RdnValue, Value(0), v, true);
  }

  // ----- Escaping keeps strings well-formed UTF-8, so that the conversion cannot panic -----

  lemma {:induction false} AsciiHead(a: byte, x: seq<byte>)
    requires a < 0x80 && Utf8.Valid(x)
    ensures Utf8.Valid([a] + x)
  {
    assert ([a] + x)[1..] == x;
  }

  lemma {:induction false} AsciiToken(c: byte, x: seq<byte>)
    requires Utf8.Valid(x)
    ensures Utf8.Valid(EscapeOctet(c) + x)
  {
    var hi, lo := XDigit(c / 16), XDigit(c % 16);
    AsciiHead(lo, x);
    AsciiHead(hi, [lo] + x);
    AsciiHead(BACKSLASH, [hi] + ([lo] + x));
    assert EscapeOctet(c) + x == [BACKSLASH] + ([hi] + ([lo] + x));
  }

  lemma {:induction false} CharHead(v: seq<byte>, x: seq<byte>)
    requires Utf8.CharLen(v) > 1 && Utf8.Valid(x)
    ensures Utf8.Valid(v[..Utf8.CharLen(v)] + x)
  {
    var n := Utf8.CharLen(v);
    var w := v[..n] + x;
    assert w[0] == v[0] && w[1] == v[1] && (n > 2 ==> w[2] == v[2]) && (n > 3 ==> w[3] == v[3]);
    assert w[n..] == x;
  }

  lemma {:induction false} HighOctetsKept(kind: Kind, v: seq<byte>, first: bool, n: nat)
    requires 0 < n <= |v| && forall k :: 0 <= k < n ==> v[k] >= 0x80
    ensures EscapeFrom(kind, v, first) == v[..n] + EscapeFrom(kind, v[n..], false)
    decreases n
  {
    assert Token(kind, v, first) == [v[0]];
    if n > 1 {
      HighOctetsKept(kind, v[1..], false, n - 1);
      assert v[1..][n - 1..] == v[n..] && [v[0]] + v[1..][..n - 1] == v[..n];
    }
  }

  lemma {:induction false} EscapeKeepsUtf8(kind: Kind, v: seq<byte>, first: bool)
    requires Utf8.Valid(v)
    ensures Utf8.Valid(EscapeFrom(kind, v, first))
    decreases |v|
  {
    if v != [] {
      var n := Utf8.CharLen(v);
      EscapeKeepsUtf8(kind, v[n..], false);
      if n == 1 {
        var x := EscapeFrom(kind, v[1..], false);
        AsciiToken(v[0], x);
        AsciiHead(v[0], x);
      } else {
        HighOctetsKept(kind, v, first, n);
        CharHead(v, EscapeFrom(kind, v[n..], false));
      }
    }
  }

  // ----- What an escaped value is safe for -----

  /** A value as the grammar of filters writes it. */
  ghost function LiteralText(v: seq<byte>): ValueText
  {
    if v == [] then []
    else
      [if NeedsEscape(FilterLiteral, v[0], false, false) then Escaped(XDigit(v[0] / 16), XDigit(v[0] % 16))
       else Plain(v[0])]
      + LiteralText(v[1..])
  }

  lemma {:induction false} LiteralTextIs(v: seq<byte>, first: bool)
    ensures ValidValue(LiteralText(v)) && ValueOctets(LiteralText(v)) == v
    ensures PrintValue(LiteralText(v)) == EscapeFrom(FilterLiteral, v, first)
    decreases |v|
  {
    if v != [] {
      LiteralTextIs(v[1..], false);
      var c := LiteralText(v)[0];
      assert ValidChar(c) && LiteralText(v)[1..] == LiteralText(v[1..]);
    }
  }

  lemma {:induction false} PrintEquality(a: AttrDesc, v: ValueText, text: seq<byte>)
    requires PrintValue(v) == text
    ensures Print(Simple(Equality(a, v))) == [LPAREN] + PrintAttr(a) + [EQUAL] + text + [RPAREN]
  {
    Regrouped(PrintAttr(a), text);
  }

  lemma {:induction false} Regrouped(s: seq<byte>, text: seq<byte>)
    ensures [LPAREN] + (s + [EQUAL] + text) + [RPAREN] == [LPAREN] + s + [EQUAL] + text + [RPAREN]
  {
  }

  /** An escaped literal is matched for equality with exactly the original octets, whatever they are. */
  lemma {:induction false} EscapedLiteralMatches(a: AttrDesc, v: seq<byte>)
    requires ValidAttr(a)
    ensures Parse([0x28] + PrintAttr(a) + [0x3D] + LdapEscape(v) + [0x29])
            == Some(Constructed(3, [OctetString(PrintAttr(a)), OctetString(v)]))
  {
    LiteralTextIs(v, true);
    PrintEquality(a, LiteralText(v), LdapEscape(v));
    ParsePrintedExactlyWhen(Simple(Equality(a, LiteralText(v))));
  }

  // ----- The escapers, octet by octet -----

  function LowerHex(d: nat): (c: byte)
    requires d < 16
  {
    if d < 10 then 0x30 + d else 0x61 + d - 10
  }

  function HexPair(c: byte): (s: seq<byte>)
  {
    [0x5C, LowerHex(c / 16), LowerHex(c % 16)]
  }

  /** Section 3 of RFC 4515: NUL, parentheses, asterisk and backslash. */
  function FilterMap(v: seq<byte>): (s: seq<byte>)
  {
    if v == [] then []
    else
      var c := v[0];
      (if c == 0x00 || c == 0x28 || c == 0x29 || c == 0x2A || c == 0x5C then HexPair(c) else [c]) + FilterMap(v[1..])
  }

  /** Section 2.4 of RFC 4514: the double quote, plus, comma, semicolon, angle brackets, equals sign, backslash, NUL. */
  predicate Special(c: byte)
  {
    c == 0x22 || c == 0x2B || c == 0x2C || c == 0x3B || c == 0x3C || c == 0x3D || c == 0x3E || c == 0x5C || c == 0x00
  }

  /** ... and a space or sharp at the beginning, and a space at the end. */
  function RdnMap(v: seq<byte>, first: bool): (s: seq<byte>)
    decreases |v|
  {
    if v == [] then []
    else
      var c := v[0];
      (if Special(c) || (first && (c == 0x20 || c == 0x23)) || (|v| == 1 && c == 0x20) then HexPair(c) else [c])
      + RdnMap(v[1..], false)
  }

  lemma {:induction false} EscapeFromIs(v: seq<byte>, first: bool)
    ensures EscapeFrom(FilterLiteral, v, first) == FilterMap(v) && EscapeFrom(RdnValue, v, first) == RdnMap(v, first)
    decreases |v|
  {
    if v != [] {
      EscapeFromIs(v[1..], false);
      assert EscapeOctet(v[0]) == HexPair(v[0]);
    }
  }

  /** Both escapers are these maps. */
  lemma {:induction false} EscapersAre(v: seq<byte>)
    ensures LdapEscape(v) == FilterMap(v) && DnEscape(v) == RdnMap(v, true)
  {
    EscapeFromIs(v, true);
  }

  // ----- Unescaping, octet by octet -----

  /** A backslash and two hexadecimal digits stand for an octet, and a backslash must not stand otherwise. */
  function Plainly(s: seq<byte>): (r: Option<seq<byte>>)
  {
    if s == [] then Some([])
    else if s[0] != 0x5C then
      (match Plainly(s[1..])
       case None => None
       case Some(v) => Some([s[0]] + v))
    else if |s| < 3 || !HexDigit(s[1]) || !HexDigit(s[2]) then None
    else
      match Plainly(s[3..])
      case None => None
      case Some(v) => Some([16 * HexOf(s[1]) + HexOf(s[2])] + v)
  }

  lemma {:induction false} ErrorStays(s: seq<byte>)
    ensures Feed(Error, s).0 == Error
  {
    if s != [] {
      ErrorStays(s[1..]);
    }
  }

  lemma {:induction false} FeedFirst(u: Unescaper, s: seq<byte>)
    requires s != []
    ensures var u' := Step(u, s[0]);
            Feed(u, s) == (Feed(u', s[1..]).0, (if u'.Value? then [u'.v] else []) + Feed(u', s[1..]).1)
  {
  }

  lemma {:induction false} FeedPlainly(u: Unescaper, s: seq<byte>)
    requires u.Value?
    ensures Feed(u, s).0.Value? <==> Plainly(s).Some?
    ensures Plainly(s).Some? ==> Feed(u, s).1 == Plainly(s).value
    decreases |s|
  {
    if s != [] {
      FeedFirst(u, s);
      if s[0] != 0x5C {
        FeedPlainly(Value(s[0]), s[1..]);
      } else if |s| > 1 {
        FeedFirst(WantFirst, s[1..]);
        if !HexDigit(s[1]) {
          ErrorStays(s[1..][1..]);
        } else if |s| > 2 {
          FeedPair(s);
        }
      }
    }
  }

  lemma {:induction false} FeedPair(s: seq<byte>)
    requires |s| > 2 && HexDigit(s[1])
    ensures var u := WantSecond(HexValue(s[1]));
            && (!HexDigit(s[2]) ==> Feed(u, s[1..][1..]).0 == Error)
            && (HexDigit(s[2]) && Plainly(s[3..]).None? ==> !Feed(u, s[1..][1..]).0.Value?)
            && (HexDigit(s[2]) && Plainly(s[3..]).Some? ==>
                  && Feed(u, s[1..][1..]).0.Value?
                  && Feed(u, s[1..][1..]).1 == [16 * HexOf(s[1]) + HexOf(s[2])] + Plainly(s[3..]).value)
    decreases |s| - 1
  {
    var rest := s[1..][1..];
    assert rest[0] == s[2] && rest[1..] == s[3..];
    FeedFirst(WantSecond(HexValue(s[1])), rest);
    if HexDigit(s[2]) {
      FeedPlainly(Value(16 * HexOf(s[1]) + HexOf(s[2])), s[3..]);
    } else {
      ErrorStays(s[3..]);
    }
  }

  /** Unescaping gives the octets a string stands for, if its escapes are well formed and they are UTF-8. */
  lemma {:induction false} UnescapeIs(s: seq<byte>)
    ensures LdapUnescape(s)
            == match Plainly(s)
               case None => None
               case Some(v) => if Utf8.Valid(v) then Some(v) else None
  {
    FeedPlainly(Value(0), s);
  }

  /**
   * The string form of an attribute value (section 3 of RFC 4514, restricted to hexadecimal escapes): no
   * special character, leading space or sharp, or trailing space stands bare.
   */
  ghost predicate DnString(s: seq<byte>, first: bool)
    decreases |s|
  {
    || s == []
    || (|s| >= 3 && s[0] == 0x5C && HexDigit(s[1]) && HexDigit(s[2]) && DnString(s[3..], false))
    || (!Special(s[0]) && !(first && (s[0] == 0x20 || s[0] == 0x23)) && !(|s| == 1 && s[0] == 0x20)
        && DnString(s[1..], false))
  }

  lemma {:induction false} DnEscapeLeavesNothingBare(v: seq<byte>, first: bool)
    ensures DnString(EscapeFrom(RdnValue, v, first), first)
    decreases |v|
  {
    if v != [] {
      DnEscapeLeavesNothingBare(v[1..], false);
      var x := EscapeFrom(RdnValue, v[1..], false);
      var s := Token(RdnValue, v, first) + x;
      if NeedsEscape(RdnValue, v[0], first, |v| == 1) {
        assert s[3..] == x;
      } else {
        assert s[1..] == x;
        assert |v| > 1 ==> |x| > 0;
      }
    }
  }
}
