/**
 * The specification of the filter compiler: the concrete syntax of section 3 of RFC 4515 as a tree, its
 * string form, and the tag that section 4.5.1.7 of RFC 4511 gives it. The tree departs from that grammar as the
 * compiler does: a list of filters may be empty, the octets of a value need not be UTF-8, and an object
 * identifier may be a single number. Nothing here is taken from the compiler: octets and tag numbers are written out.
 */
module FilterGrammar {
  import opened Bytes
  import opened Ber

  // ----- Characters -----

  predicate Digit(c: byte) { 0x30 <= c <= 0x39 }

  predicate Letter(c: byte) { 0x41 <= c <= 0x5A || 0x61 <= c <= 0x7A }

  /** What follows the leading letter of a name: letters, digits and hyphens. */
  predicate KeyOctet(c: byte) { Letter(c) || Digit(c) || c == 0x2D }

  predicate HexDigit(c: byte) { Digit(c) || 0x41 <= c <= 0x46 || 0x61 <= c <= 0x66 }

  function HexOf(c: byte): (v: nat)
    requires HexDigit(c)
    ensures v < 16
  {
    if c <= 0x39 then c - 0x30 else if c <= 0x46 then c - 0x41 + 10 else c - 0x61 + 10
  }

  /** Anything but NUL, parentheses, asterisk and backslash. */
  predicate PlainOctet(c: byte) { c != 0x00 && c != 0x28 && c != 0x29 && c != 0x2A && c != 0x5C }

  // ----- Attribute descriptions -----

  datatype AttrType = Oid(numbers: seq<seq<byte>>) | Descr(name: seq<byte>)

  datatype AttrDesc = AttrDesc(ty: AttrType, options: seq<seq<byte>>)

  ghost predicate AllOf(p: byte -> bool, s: seq<byte>)
  {
    forall k :: 0 <= k < |s| ==> p(s[k])
  }

  ghost predicate IsNumber(ds: seq<byte>)
  {
    ds != [] && AllOf(Digit, ds) && (|ds| == 1 || ds[0] != 0x30)
  }

  ghost predicate AreNumbers(ns: seq<seq<byte>>)
  {
    forall k :: 0 <= k < |ns| ==> IsNumber(ns[k])
  }

  ghost predicate ValidType(t: AttrType)
  {
    match t
    case Oid(ns) => ns != [] && AreNumbers(ns)
    case Descr(name) => name != [] && Letter(name[0]) && AllOf(KeyOctet, name[1..])
  }

  ghost predicate AreOptions(os: seq<seq<byte>>)
  {
    forall k :: 0 <= k < |os| ==> os[k] != [] && AllOf(KeyOctet, os[k])
  }

  ghost predicate ValidAttr(a: AttrDesc)
  {
    ValidType(a.ty) && AreOptions(a.options)
  }

  /** Every string with the separator before it. */
  function Prefixed(sep: byte, parts: seq<seq<byte>>): (s: seq<byte>)
  {
    if parts == [] then [] else [sep] + parts[0] + Prefixed(sep, parts[1..])
  }

  function PrintType(t: AttrType): (s: seq<byte>)
  {
    match t
    case Oid(ns) => if ns == [] then [] else ns[0] + Prefixed(0x2E, ns[1..])
    case Descr(name) => name
  }

  function PrintAttr(a: AttrDesc): (s: seq<byte>)
  {
    PrintType(a.ty) + Prefixed(0x3B, a.options)
  }

  // ----- Values -----

  /** One octet of a value: itself, or a backslash and two hexadecimal digits of either case. */
  datatype ValueChar = Plain(b: byte) | Escaped(hi: byte, lo: byte)

  type ValueText = seq<ValueChar>

  ghost predicate ValidChar(c: ValueChar)
  {
    match c
    case Plain(b) => PlainOctet(b)
    case Escaped(hi, lo) => HexDigit(hi) && HexDigit(lo)
  }

  ghost predicate ValidValue(v: ValueText)
  {
    forall k :: 0 <= k < |v| ==> ValidChar(v[k])
  }

  ghost predicate ValidValues(vs: seq<ValueText>)
  {
    forall k :: 0 <= k < |vs| ==> ValidValue(vs[k])
  }

  function PrintChar(c: ValueChar): (s: seq<byte>)
    ensures s != []
  {
    match c
    case Plain(b) => [b]
    case Escaped(hi, lo) => [0x5C, hi, lo]
  }

  function PrintValue(v: ValueText): (s: seq<byte>)
  {
    if v == [] then [] else PrintChar(v[0]) + PrintValue(v[1..])
  }

  function PrintValues(vs: seq<ValueText>): (ss: seq<seq<byte>>)
    ensures |ss| == |vs|
  {
    if vs == [] then [] else [PrintValue(vs[0])] + PrintValues(vs[1..])
  }

  ghost function CharOctet(c: ValueChar): (b: byte)
    requires ValidChar(c)
  {
    match c
    case Plain(b) => b
    case Escaped(hi, lo) => 16 * HexOf(hi) + HexOf(lo)
  }

  /** The octets a value stands for. */
  ghost function ValueOctets(v: ValueText): (bs: seq<byte>)
    requires ValidValue(v)
    ensures |bs| == |v|
  {
    if v == [] then []
    else
      assert ValidChar(v[0]);
      [CharOctet(v[0])] + ValueOctets(v[1..])
  }

  ghost function ValuesOctets(vs: seq<ValueText>): (bss: seq<seq<byte>>)
    requires ValidValues(vs)
    ensures |bss| == |vs|
  {
    if vs == [] then []
    else
      assert ValidValue(vs[0]);
      assert ValidValues(vs[1..]) by { assert forall k :: 0 <= k < |vs| - 1 ==> vs[1..][k] == vs[k + 1]; }
      [ValueOctets(vs[0])] + ValuesOctets(vs[1..])
  }

  // ----- Filters -----

  datatype Operator = Greater | Less | Approx {
    function Char(): byte { match this case Greater => 0x3E case Less => 0x3C case Approx => 0x7E }
    function Id(): nat { match this case Greater => 5 case Less => 6 case Approx => 8 }
  }

  /** The flag ":dn", in capitals or not: a literal of the grammar is case-insensitive. */
  datatype DnFlag = NoFlag | Flag(upperD: bool, upperN: bool) {
    function Name(): (s: seq<byte>)
      requires Flag?
    {
      [if upperD then 0x44 else 0x64, if upperN then 0x4E else 0x6E]
    }

    function Text(): (s: seq<byte>)
    {
      if NoFlag? then [] else [0x3A] + Name()
    }
  }

  /** A substring filter has its middle parts, and an initial and a final part that may be absent (empty). */
  datatype SimpleFilter =
    | Equality(attr: AttrDesc, value: ValueText)
    | Ordering(attr: AttrDesc, op: Operator, value: ValueText)
    | Present(attr: AttrDesc)
    | Substrings(attr: AttrDesc, initial: ValueText, middle: seq<ValueText>, final: ValueText)
    | Extended(target: Option<AttrDesc>, flag: DnFlag, rule: Option<AttrType>, value: ValueText)

  datatype FilterTree =
    | And(fs: seq<FilterTree>)
    | Or(fs: seq<FilterTree>)
    | Not(f: FilterTree)
    | Simple(s: SimpleFilter)

  ghost predicate ValidSimple(s: SimpleFilter)
  {
    match s
    case Equality(a, v) => ValidAttr(a) && ValidValue(v)
    case Ordering(a, _, v) => ValidAttr(a) && ValidValue(v)
    case Present(a) => ValidAttr(a)
    case Substrings(a, initial, middle, final) =>
      && ValidAttr(a) && ValidValue(initial) && ValidValues(middle) && ValidValue(final)
      && (initial != [] || middle != [] || final != [])
    case Extended(target, _, rule, v) =>
      && (target.Some? ==> ValidAttr(target.value))
      && (rule.Some? ==> ValidType(rule.value))
      && (target.Some? || rule.Some?)
      && ValidValue(v)
  }

  ghost predicate Valid(f: FilterTree)
    decreases f, 1
  {
    match f
    case And(fs) => ValidAll(fs)
    case Or(fs) => ValidAll(fs)
    case Not(g) => Valid(g)
    case Simple(s) => ValidSimple(s)
  }

  ghost predicate ValidAll(fs: seq<FilterTree>)
    decreases fs, 0
  {
    fs == [] || (Valid(fs[0]) && ValidAll(fs[1..]))
  }

  function PrintSimple(s: SimpleFilter): (r: seq<byte>)
  {
    match s
    case Equality(a, v) => PrintAttr(a) + [0x3D] + PrintValue(v)
    case Ordering(a, op, v) => PrintAttr(a) + [op.Char(), 0x3D] + PrintValue(v)
    case Present(a) => PrintAttr(a) + [0x3D, 0x2A]
    case Substrings(a, initial, middle, final) =>
      PrintAttr(a) + [0x3D] + PrintValue(initial) + Prefixed(0x2A, PrintValues(middle + [final]))
    case Extended(target, flag, rule, v) =>
      (if target.Some? then PrintAttr(target.value) else [])
      + flag.Text()
      + (if rule.Some? then [0x3A] + PrintType(rule.value) else [])
      + [0x3A, 0x3D] + PrintValue(v)
  }

  function PrintComp(f: FilterTree): (r: seq<byte>)
    decreases f, 1
  {
    match f
    case And(fs) => [0x26] + PrintAll(fs)
    case Or(fs) => [0x7C] + PrintAll(fs)
    case Not(g) => [0x21] + Print(g)
    case Simple(s) => PrintSimple(s)
  }

  function Print(f: FilterTree): (r: seq<byte>)
    decreases f, 2
  {
    [0x28] + PrintComp(f) + [0x29]
  }

  function PrintAll(fs: seq<FilterTree>): (r: seq<byte>)
    decreases fs, 0
  {
    if fs == [] then [] else Print(fs[0]) + PrintAll(fs[1..])
  }

  // ----- Tags -----

  /** An octet string with a context number, or with the universal one. */
  function Primitive(id: nat, bs: seq<byte>): StructureTag { StructureTag(Context, id, P(bs)) }

  function Constructed(id: nat, ts: seq<StructureTag>): StructureTag { StructureTag(Context, id, C(ts)) }

  function OctetString(bs: seq<byte>): StructureTag { StructureTag(Universal, 4, P(bs)) }

  ghost function AnyTags(vs: seq<ValueText>): seq<StructureTag>
    requires ValidValues(vs)
  {
    if vs == [] then []
    else
      assert ValidValue(vs[0]);
      assert ValidValues(vs[1..]) by { assert forall k :: 0 <= k < |vs| - 1 ==> vs[1..][k] == vs[k + 1]; }
      [Primitive(1, ValueOctets(vs[0]))] + AnyTags(vs[1..])
  }

  ghost function OptionalTag(id: nat, v: ValueText): seq<StructureTag>
    requires ValidValue(v)
  {
    if v == [] then [] else [Primitive(id, ValueOctets(v))]
  }

  ghost function SimpleTag(s: SimpleFilter): StructureTag
    requires ValidSimple(s)
  {
    match s
    case Equality(a, v) => Constructed(3, [OctetString(PrintAttr(a)), OctetString(ValueOctets(v))])
    case Ordering(a, op, v) => Constructed(op.Id(), [OctetString(PrintAttr(a)), OctetString(ValueOctets(v))])
    case Present(a) => Primitive(7, PrintAttr(a))
    case Substrings(a, initial, middle, final) =>
      var parts := OptionalTag(0, initial) + AnyTags(middle) + OptionalTag(2, final);
      Constructed(4, [OctetString(PrintAttr(a)), StructureTag(Universal, 16, C(parts))])
    case Extended(target, flag, rule, v) =>
      Constructed(9, (if rule.Some? then [Primitive(1, PrintType(rule.value))] else [])
                     + (if target.Some? then [Primitive(2, PrintAttr(target.value))] else [])
                     + [Primitive(3, ValueOctets(v))]
                     + (if flag.Flag? then [Primitive(4, [0xFF])] else []))
  }

  ghost function TagOf(f: FilterTree): StructureTag
    requires Valid(f)
    decreases f, 1
  {
    match f
    case And(fs) => Constructed(0, TagsOf(fs))
    case Or(fs) => Constructed(1, TagsOf(fs))
    case Not(g) => Constructed(2, [TagOf(g)])
    case Simple(s) => SimpleTag(s)
  }

  ghost function TagsOf(fs: seq<FilterTree>): (ts: seq<StructureTag>)
    requires ValidAll(fs)
    ensures |ts| == |fs|
    decreases fs, 0
  {
    if fs == [] then [] else [TagOf(fs[0])] + TagsOf(fs[1..])
  }

  // ----- What the compiler does not read as written -----

  /** A rule whose name starts with "dn" is taken for the flag where there is none. */
  ghost predicate Mistaken(flag: DnFlag, rule: Option<AttrType>)
  {
    flag.NoFlag? && rule.Some? && [0x64, 0x6E] <= PrintType(rule.value)
  }

  /** A flag with a capital letter is not seen as the flag. */
  predicate Overlooked(flag: DnFlag)
  {
    flag.Flag? && (flag.upperD || flag.upperN)
  }

  /** A substring filter with an empty part between two asterisks is refused. */
  ghost predicate Hollow(middle: seq<ValueText>)
  {
    exists k :: 0 <= k < |middle| && middle[k] == []
  }

  ghost predicate ClearSimple(s: SimpleFilter)
  {
    match s
    case Substrings(_, _, middle, _) => !Hollow(middle)
    case Extended(_, flag, rule, _) => !Mistaken(flag, rule) && !Overlooked(flag)
    case _ => true
  }

  ghost predicate Clear(f: FilterTree)
    decreases f, 1
  {
    match f
    case And(fs) => ClearAll(fs)
    case Or(fs) => ClearAll(fs)
    case Not(g) => Clear(g)
    case Simple(s) => ClearSimple(s)
  }

  ghost predicate ClearAll(fs: seq<FilterTree>)
    decreases fs, 0
  {
    fs == [] || (Clear(fs[0]) && ClearAll(fs[1..]))
  }
}
