/** Parsed search entries: text attributes and binary ones. */
module SearchEntry {
  import opened Bytes
  import opened Ber
  import Utf8

  datatype Attribute = Attribute(name: seq<byte>, values: seq<seq<byte>>)

  datatype Entry = Entry(dn: seq<byte>, attrs: map<seq<byte>, seq<seq<byte>>>, binAttrs: map<seq<byte>, seq<seq<byte>>>)

  // ----- Taking the tag apart; None where the source panics -----

  function Primitives(ts: seq<StructureTag>): (r: Option<seq<seq<byte>>>)
    ensures r.Some? ==> |r.value| == |ts|
  {
    if ts == [] then Some([])
    else if ts[0].payload.C? then None
    else
      match Primitives(ts[1..])
      case None => None
      case Some(rest) => Some([ts[0].payload.bytes] + rest)
  }

  function Text(t: StructureTag): (r: Option<seq<byte>>)
  {
    if t.payload.P? && Utf8.Valid(t.payload.bytes) then Some(t.payload.bytes) else None
  }

  /** The URIs of a search result reference. */
  function ParseRefs(t: StructureTag): (r: Option<seq<seq<byte>>>)
  {
    if t.payload.P? then None
    else
      match Primitives(t.payload.tags)
      case None => None
      case Some(uris) => if forall k :: 0 <= k < |uris| ==> Utf8.Valid(uris[k]) then Some(uris) else None
  }

  function AttributeOf(t: StructureTag): (r: Option<Attribute>)
  {
    if t.payload.P? || |t.payload.tags| < 2 || t.payload.tags[1].payload.P? then None
    else
      match (Text(t.payload.tags[0]), Primitives(t.payload.tags[1].payload.tags))
      case (Some(name), Some(values)) => Some(Attribute(name, values))
      case _ => None
  }

  function AttributesOf(ts: seq<StructureTag>): (r: Option<seq<Attribute>>)
  {
    if ts == [] then Some([])
    else
      match (AttributeOf(ts[0]), AttributesOf(ts[1..]))
      case (Some(a), Some(rest)) => Some([a] + rest)
      case _ => None
  }

  // ----- Filling the two maps; valid tells text, and is Utf8.Valid -----

  function Texts(valid: seq<byte> -> bool, values: seq<seq<byte>>): (r: seq<seq<byte>>)
  {
    if values == [] then []
    else Texts(valid, values[..|values| - 1]) + if valid(values[|values| - 1]) then [values[|values| - 1]] else []
  }

  function Binaries(valid: seq<byte> -> bool, values: seq<seq<byte>>): (r: seq<seq<byte>>)
  {
    if values == [] then []
    else Binaries(valid, values[..|values| - 1]) + if valid(values[|values| - 1]) then [] else [values[|values| - 1]]
  }

  function Get(m: map<seq<byte>, seq<seq<byte>>>, name: seq<byte>): seq<seq<byte>>
  {
    if name in m then m[name] else []
  }

  function Absorb(valid: seq<byte> -> bool, e: Entry, a: Attribute): Entry
  {
    if Binaries(valid, a.values) == [] then e.(attrs := e.attrs[a.name := Texts(valid, a.values)])
    else
      var before := Get(e.binAttrs, a.name);
      e.(binAttrs := e.binAttrs[a.name := before + Binaries(valid, a.values) + Texts(valid, a.values)])
  }

  function Fill(valid: seq<byte> -> bool, dn: seq<byte>, attributes: seq<Attribute>): Entry
  {
    if attributes == [] then Entry(dn, map[], map[])
    else Absorb(valid, Fill(valid, dn, attributes[..|attributes| - 1]), attributes[|attributes| - 1])
  }

  function ConstructEntry(t: StructureTag): (r: Option<Entry>)
  {
    if t.id != 4 || t.payload.P? || |t.payload.tags| < 2 || t.payload.tags[1].payload.P? then None
    else
      match (Text(t.payload.tags[0]), AttributesOf(t.payload.tags[1].payload.tags))
      case (Some(dn), Some(attributes)) => Some(Fill(Utf8.Valid, dn, attributes))
      case _ => None
  }

  /** The inner pass: valid strings are collected, the rest goes to the binary map as it is met. */
  method AbsorbAttribute(valid: seq<byte> -> bool, e: Entry, a: Attribute) returns (r: Entry)
    ensures r == Absorb(valid, e, a)
  {
    var bin, values, anyBinary := e.binAttrs, [], false;
    for k := 0 to |a.values|
      invariant values == Texts(valid, a.values[..k])
      invariant anyBinary <==> Binaries(valid, a.values[..k]) != []
      invariant !anyBinary ==> bin == e.binAttrs
      invariant anyBinary ==> bin == e.binAttrs[a.name := Get(e.binAttrs, a.name) + Binaries(valid, a.values[..k])]
    {
      assert a.values[..k + 1][..k] == a.values[..k];
      var s := a.values[k];
      assert Binaries(valid, a.values[..k + 1]) == Binaries(valid, a.values[..k]) + if valid(s) then [] else [s];
      assert Binaries(valid, a.values[..k]) + [] == Binaries(valid, a.values[..k]);
      if valid(s) {
        values := values + [s];
      } else {
        assert Get(e.binAttrs, a.name) + Binaries(valid, a.values[..k]) + [s]
            == Get(e.binAttrs, a.name) + (Binaries(valid, a.values[..k]) + [s]);
        assert !anyBinary ==> Get(e.binAttrs, a.name) + [] == Get(e.binAttrs, a.name);
        bin := bin[a.name := Get(bin, a.name) + [s]];
        anyBinary := true;
      }
    }
    assert a.values[..|a.values|] == a.values;
    if anyBinary {
      r := e.(binAttrs := bin[a.name := bin[a.name] + values]);
    } else {
      r := e.(attrs := e.attrs[a.name := values]);
    }
  }

  /** SearchEntry::construct. */
  method Construct(t: StructureTag) returns (r: Option<Entry>)
    ensures r == ConstructEntry(t)
  {
    if t.id != 4 || t.payload.P? || |t.payload.tags| < 2 || t.payload.tags[1].payload.P? {
      return None;
    }
    var dn := Text(t.payload.tags[0]);
    if dn.None? {
      return None;
    }
    var tags := t.payload.tags[1].payload.tags;
    var e := Entry(dn.value, map[], map[]);
    ghost var done: seq<Attribute> := [];
    assert tags[0..] == tags && forall s: seq<Attribute> :: [] + s == s;
    for k := 0 to |tags|
      invariant AttributesOf(tags) == Prepend(done, AttributesOf(tags[k..]))
      invariant e == Fill(Utf8.Valid, dn.value, done)
    {
      assert tags[k..][0] == tags[k] && tags[k..][1..] == tags[k + 1..];
      var a := AttributeOf(tags[k]);
      if a.None? {
        return None;
      }
      PrependStep(done, a.value, AttributesOf(tags[k + 1..]));
      e := AbsorbAttribute(Utf8.Valid, e, a.value);
      done := done + [a.value];
      assert done[..|done| - 1] + [a.value] == done;
    }
    assert done + [] == done;
    return Some(e);
  }

  ghost function Prepend(done: seq<Attribute>, rest: Option<seq<Attribute>>): Option<seq<Attribute>>
  {
    if rest.Some? then Some(done + rest.value) else None
  }

  lemma {:induction false} PrependStep(done: seq<Attribute>, a: Attribute, rest: Option<seq<Attribute>>)
    ensures Prepend(done + [a], rest) == Prepend(done, if rest.Some? then Some([a] + rest.value) else None)
  {
    if rest.Some? {
      assert done + [a] + rest.value == done + ([a] + rest.value);
    }
  }

  // ----- Conservation -----

  ghost predicate AllText(valid: seq<byte> -> bool, values: seq<seq<byte>>)
  {
    forall k :: 0 <= k < |values| ==> valid(values[k])
  }

  lemma {:induction false} TextExactlyWhen(valid: seq<byte> -> bool, values: seq<seq<byte>>)
    ensures Binaries(valid, values) == [] <==> AllText(valid, values)
    ensures AllText(valid, values) ==> Texts(valid, values) == values
  {
    if values != [] {
      var front, last := values[..|values| - 1], values[|values| - 1];
      TextExactlyWhen(valid, front);
      assert values == front + [last];
      assert AllText(valid, values) <==> AllText(valid, front) && valid(last);
    }
  }

  lemma {:induction false} Separated(valid: seq<byte> -> bool, values: seq<seq<byte>>)
    ensures multiset(Binaries(valid, values) + Texts(valid, values)) == multiset(values)
  {
    if values != [] {
      var front, last := values[..|values| - 1], values[|values| - 1];
      Separated(valid, front);
      assert values == front + [last];
      assert multiset(values) == multiset(front) + multiset{last};
    }
  }

  ghost predicate Distinct(attributes: seq<Attribute>)
  {
    forall i, j :: 0 <= i < j < |attributes| ==> attributes[i].name != attributes[j].name
  }

  /** The values that are text, or those that are not, in their order. */
  ghost function Select(valid: seq<byte> -> bool, text: bool, values: seq<seq<byte>>): seq<seq<byte>>
  {
    if values == [] then []
    else (if valid(values[0]) == text then [values[0]] else []) + Select(valid, text, values[1..])
  }

  lemma {:induction false} SelectLast(valid: seq<byte> -> bool, text: bool, values: seq<seq<byte>>, v: seq<byte>)
    ensures Select(valid, text, values + [v]) == Select(valid, text, values) + if valid(v) == text then [v] else []
  {
    if values == [] {
      assert values + [v] == [v] && [v][1..] == [];
    } else {
      assert (values + [v])[1..] == values[1..] + [v];
      SelectLast(valid, text, values[1..], v);
    }
  }

  lemma {:induction false} Selected(valid: seq<byte> -> bool, values: seq<seq<byte>>)
    ensures Texts(valid, values) == Select(valid, true, values)
    ensures Binaries(valid, values) == Select(valid, false, values)
  {
    if values != [] {
      var front, last := values[..|values| - 1], values[|values| - 1];
      Selected(valid, front);
      assert values == front + [last];
      SelectLast(valid, true, front, last);
      SelectLast(valid, false, front, last);
    }
  }

  /** Where an attribute is, and with what: text in order, or binary values in order and then text in order. */
  ghost predicate Placed(valid: seq<byte> -> bool, e: Entry, a: Attribute)
  {
    if AllText(valid, a.values) then a.name in e.attrs && a.name !in e.binAttrs && e.attrs[a.name] == a.values
    else
      && a.name in e.binAttrs && a.name !in e.attrs && multiset(e.binAttrs[a.name]) == multiset(a.values)
      && e.binAttrs[a.name] == Select(valid, false, a.values) + Select(valid, true, a.values)
  }

  ghost function Names(attributes: seq<Attribute>): set<seq<byte>>
  {
    set i | 0 <= i < |attributes| :: attributes[i].name
  }

  lemma {:induction false} AbsorbKeys(valid: seq<byte> -> bool, e: Entry, a: Attribute)
    ensures Absorb(valid, e, a).attrs.Keys + Absorb(valid, e, a).binAttrs.Keys
            == e.attrs.Keys + e.binAttrs.Keys + {a.name}
  {
  }

  lemma {:induction false} AbsorbNew(valid: seq<byte> -> bool, e: Entry, a: Attribute)
    requires a.name !in e.attrs && a.name !in e.binAttrs
    ensures Placed(valid, Absorb(valid, e, a), a)
  {
    TextExactlyWhen(valid, a.values);
    if !AllText(valid, a.values) {
      Separated(valid, a.values);
      Selected(valid, a.values);
      assert [] + Binaries(valid, a.values) == Binaries(valid, a.values);
    }
  }

  lemma {:induction false} AbsorbOther(valid: seq<byte> -> bool, e: Entry, a: Attribute, b: Attribute)
    requires a.name != b.name && Placed(valid, e, b)
    ensures Placed(valid, Absorb(valid, e, a), b)
  {
  }

  lemma {:induction false} KeysAreNames(valid: seq<byte> -> bool, dn: seq<byte>, attributes: seq<Attribute>)
    ensures Fill(valid, dn, attributes).attrs.Keys + Fill(valid, dn, attributes).binAttrs.Keys == Names(attributes)
    ensures Fill(valid, dn, attributes).dn == dn
  {
    if attributes != [] {
      var n := |attributes| - 1;
      KeysAreNames(valid, dn, attributes[..n]);
      AbsorbKeys(valid, Fill(valid, dn, attributes[..n]), attributes[n]);
      assert Names(attributes) == Names(attributes[..n]) + {attributes[n].name};
    }
  }

  lemma {:induction false} AllPlaced(valid: seq<byte> -> bool, dn: seq<byte>, attributes: seq<Attribute>, i: nat)
    requires Distinct(attributes) && i < |attributes|
    ensures Placed(valid, Fill(valid, dn, attributes), attributes[i])
  {
    var n := |attributes| - 1;
    var before := Fill(valid, dn, attributes[..n]);
    if i < n {
      AllPlaced(valid, dn, attributes[..n], i);
      AbsorbOther(valid, before, attributes[n], attributes[i]);
    } else {
      KeysAreNames(valid, dn, attributes[..n]);
      assert attributes[n].name !in Names(attributes[..n]);
      AbsorbNew(valid, before, attributes[n]);
    }
  }

  /**
   * With distinct attribute names nothing is lost or invented: the keys of the two maps partition the names,
   * a name is binary exactly when one of its values is not text, and every attribute keeps its values - in
   * order when they are text, as a multiset otherwise.
   */
  lemma {:induction false} ValuesConserved(valid: seq<byte> -> bool, dn: seq<byte>, attributes: seq<Attribute>)
    requires Distinct(attributes)
    ensures var e := Fill(valid, dn, attributes);
            && e.dn == dn
            && e.attrs.Keys + e.binAttrs.Keys == Names(attributes)
            && e.attrs.Keys !! e.binAttrs.Keys
            && forall i :: 0 <= i < |attributes| ==> Placed(valid, e, attributes[i])
  {
    var e := Fill(valid, dn, attributes);
    KeysAreNames(valid, dn, attributes);
    forall i | 0 <= i < |attributes| ensures Placed(valid, e, attributes[i]) {
      AllPlaced(valid, dn, attributes, i);
    }
    forall name | name in Names(attributes) ensures !(name in e.attrs && name in e.binAttrs) {
      var i :| 0 <= i < |attributes| && attributes[i].name == name;
      assert Placed(valid, e, attributes[i]);
    }
  }

  // ----- Any list of attributes: what is lost -----

  /** All the values an entry gives for a name. */
  function Given(attributes: seq<Attribute>, name: seq<byte>): multiset<seq<byte>>
  {
    if attributes == [] then multiset{}
    else
      Given(attributes[..|attributes| - 1], name) + GivenBy(attributes[|attributes| - 1], name)
  }

  /** All the values the two maps keep for it. */
  function Kept(e: Entry, name: seq<byte>): multiset<seq<byte>>
  {
    multiset(Get(e.attrs, name)) + multiset(Get(e.binAttrs, name))
  }

  /** The values of the last occurrence that is all text. */
  ghost function LastText(valid: seq<byte> -> bool, attributes: seq<Attribute>, name: seq<byte>): seq<seq<byte>>
  {
    if attributes == [] then []
    else
      var a := attributes[|attributes| - 1];
      if a.name == name && AllText(valid, a.values) then a.values
      else LastText(valid, attributes[..|attributes| - 1], name)
  }

  /** The values that a later occurrence, all text, takes the place of. */
  ghost function Lost(valid: seq<byte> -> bool, attributes: seq<Attribute>, name: seq<byte>): multiset<seq<byte>>
  {
    if attributes == [] then multiset{}
    else
      var front := attributes[..|attributes| - 1];
      Lost(valid, front, name) + LostBy(valid, attributes[|attributes| - 1], name, LastText(valid, front, name))
  }

  /** One more attribute, seen from its own name. */
  lemma {:induction false} AbsorbText(valid: seq<byte> -> bool, e: Entry, a: Attribute)
    requires AllText(valid, a.values)
    ensures var e' := Absorb(valid, e, a);
            Get(e'.attrs, a.name) == a.values && Get(e'.binAttrs, a.name) == Get(e.binAttrs, a.name)
  {
    TextExactlyWhen(valid, a.values);
  }

  lemma {:induction false} AbsorbBinary(valid: seq<byte> -> bool, e: Entry, a: Attribute)
    requires !AllText(valid, a.values)
    ensures var e' := Absorb(valid, e, a);
            && Get(e'.attrs, a.name) == Get(e.attrs, a.name)
            && multiset(Get(e'.binAttrs, a.name)) == multiset(Get(e.binAttrs, a.name)) + multiset(a.values)
  {
    TextExactlyWhen(valid, a.values);
    Separated(valid, a.values);
    var before, bin, text := Get(e.binAttrs, a.name), Binaries(valid, a.values), Texts(valid, a.values);
    assert before + bin + text == before + (bin + text);
  }

  /** ... and from another. */
  lemma {:induction false} AbsorbElsewhere(valid: seq<byte> -> bool, e: Entry, a: Attribute, name: seq<byte>)
    requires a.name != name
    ensures var e' := Absorb(valid, e, a);
            Get(e'.attrs, name) == Get(e.attrs, name) && Get(e'.binAttrs, name) == Get(e.binAttrs, name)
  {
  }

  /** The values given with one attribute for a name. */
  function GivenBy(a: Attribute, name: seq<byte>): multiset<seq<byte>>
  {
    if a.name == name then multiset(a.values) else multiset{}
  }

  /** The values that are lost when it is absorbed after others whose last text is given. */
  ghost function LostBy(valid: seq<byte> -> bool, a: Attribute, name: seq<byte>,
                        text: seq<seq<byte>>): multiset<seq<byte>>
  {
    if a.name == name && AllText(valid, a.values) then multiset(text) else multiset{}
  }

  lemma {:induction false} AbsorbAccount(valid: seq<byte> -> bool, e: Entry, a: Attribute, name: seq<byte>)
    ensures Kept(Absorb(valid, e, a), name) + LostBy(valid, a, name, Get(e.attrs, name))
            == Kept(e, name) + GivenBy(a, name)
  {
    var text, bin, values := multiset(Get(e.attrs, name)), multiset(Get(e.binAttrs, name)), multiset(a.values);
    if a.name != name {
      AbsorbElsewhere(valid, e, a, name);
    } else if AllText(valid, a.values) {
      AbsorbText(valid, e, a);
      Exchange(values, bin, text);
    } else {
      AbsorbBinary(valid, e, a);
      Exchange(text, bin, values);
    }
  }

  lemma {:induction false} Exchange<T>(a: multiset<T>, b: multiset<T>, c: multiset<T>)
    ensures a + b + c == c + b + a && a + (b + c) == a + b + c && a + b + multiset{} == a + b
  {
  }

  lemma {:induction false} LastTextKept(valid: seq<byte> -> bool, dn: seq<byte>, attributes: seq<Attribute>,
                                        name: seq<byte>)
    ensures Get(Fill(valid, dn, attributes).attrs, name) == LastText(valid, attributes, name)
  {
    if attributes != [] {
      var n := |attributes| - 1;
      LastTextKept(valid, dn, attributes[..n], name);
      var e, a := Fill(valid, dn, attributes[..n]), attributes[n];
      if a.name != name {
        AbsorbElsewhere(valid, e, a, name);
      } else if AllText(valid, a.values) {
        AbsorbText(valid, e, a);
      } else {
        AbsorbBinary(valid, e, a);
      }
    }
  }

  lemma {:induction false} Carry<T>(g: multiset<T>, k: multiset<T>, l: multiset<T>, gb: multiset<T>, k': multiset<T>,
                                    lb: multiset<T>)
    requires g == k + l && k' + lb == k + gb
    ensures g + gb == k' + (l + lb)
  {
    assert g + gb == (k + gb) + l;
  }

  /** Nothing is invented, and exactly the values of text occurrences that are taken the place of are lost. */
  lemma {:induction false} KeptAndLost(valid: seq<byte> -> bool, dn: seq<byte>, attributes: seq<Attribute>,
                                       name: seq<byte>)
    ensures Given(attributes, name) == Kept(Fill(valid, dn, attributes), name) + Lost(valid, attributes, name)
  {
    if attributes == [] {
      assert Kept(Fill(valid, dn, attributes), name) == multiset{};
    } else {
      var n := |attributes| - 1;
      var front, a := attributes[..n], attributes[n];
      var e := Fill(valid, dn, front);
      KeptAndLost(valid, dn, front, name);
      LastTextKept(valid, dn, front, name);
      AbsorbAccount(valid, e, a, name);
      Carry(Given(front, name), Kept(e, name), Lost(valid, front, name), GivenBy(a, name),
            Kept(Absorb(valid, e, a), name), LostBy(valid, a, name, LastText(valid, front, name)));
    }
  }

  /** Of the occurrences of the name that are all text, only the last has values. */
  ghost predicate OnlyLastText(valid: seq<byte> -> bool, attributes: seq<Attribute>, name: seq<byte>)
  {
    forall i, j :: 0 <= i < j < |attributes| && attributes[i].name == name && attributes[j].name == name
                   && AllText(valid, attributes[i].values) && AllText(valid, attributes[j].values)
      ==> attributes[i].values == []
  }

  ghost predicate NoText(valid: seq<byte> -> bool, attributes: seq<Attribute>, name: seq<byte>)
  {
    forall i :: 0 <= i < |attributes| && attributes[i].name == name && AllText(valid, attributes[i].values)
      ==> attributes[i].values == []
  }

  lemma {:induction false} LastTextEmpty(valid: seq<byte> -> bool, attributes: seq<Attribute>, name: seq<byte>)
    requires OnlyLastText(valid, attributes, name)
    ensures LastText(valid, attributes, name) == [] <==> NoText(valid, attributes, name)
  {
    if attributes != [] {
      var n := |attributes| - 1;
      var front := attributes[..n];
      LastTextEmpty(valid, front, name);
      if attributes[n].name == name && AllText(valid, attributes[n].values) {
        assert NoText(valid, front, name);
      }
      assert NoText(valid, attributes, name) ==> NoText(valid, front, name);
    }
  }

  lemma {:induction false} NothingLost(valid: seq<byte> -> bool, attributes: seq<Attribute>, name: seq<byte>)
    ensures Lost(valid, attributes, name) == multiset{} <==> OnlyLastText(valid, attributes, name)
  {
    if attributes != [] {
      var n := |attributes| - 1;
      var front, a := attributes[..n], attributes[n];
      NothingLost(valid, front, name);
      assert OnlyLastText(valid, attributes, name) ==> OnlyLastText(valid, front, name);
      if OnlyLastText(valid, front, name) {
        LastTextEmpty(valid, front, name);
        if a.name == name && AllText(valid, a.values) {
          LastOverFront(valid, attributes, name);
          EmptyMultiset(LastText(valid, front, name));
          assert LostBy(valid, a, name, LastText(valid, front, name)) == multiset(LastText(valid, front, name));
        }
      }
    }
  }

  lemma {:induction false} LastOverFront(valid: seq<byte> -> bool, attributes: seq<Attribute>, name: seq<byte>)
    requires attributes != [] && var a := attributes[|attributes| - 1]; a.name == name && AllText(valid, a.values)
    requires OnlyLastText(valid, attributes[..|attributes| - 1], name)
    ensures OnlyLastText(valid, attributes, name) <==> NoText(valid, attributes[..|attributes| - 1], name)
  {
    var n := |attributes| - 1;
    var front := attributes[..n];
    if OnlyLastText(valid, attributes, name) {
      forall i | 0 <= i < n && front[i].name == name && AllText(valid, front[i].values) ensures front[i].values == [] {
        assert attributes[i] == front[i] && attributes[n].name == name;
      }
    }
    if NoText(valid, front, name) {
      forall i, j | 0 <= i < j < |attributes| && attributes[i].name == name && attributes[j].name == name
                    && AllText(valid, attributes[i].values) && AllText(valid, attributes[j].values)
        ensures attributes[i].values == []
      {
        assert front[i] == attributes[i];
      }
    }
  }

  lemma {:induction false} EmptyMultiset<T>(xs: seq<T>)
    ensures multiset(xs) == multiset{} <==> xs == []
  {
    if xs != [] {
      assert xs[0] in multiset(xs);
    }
  }

  /**
   * For every list of attributes and every name: the values kept are some of the values given, and they are all
   * of them exactly when, of the occurrences of the name that are all text, only the last has values.
   */
  lemma {:induction false} ValuesKeptExactlyWhen(valid: seq<byte> -> bool, dn: seq<byte>, attributes: seq<Attribute>,
                                                 name: seq<byte>)
    ensures var kept, given := Kept(Fill(valid, dn, attributes), name), Given(attributes, name);
            kept <= given && (kept == given <==> OnlyLastText(valid, attributes, name))
  {
    KeptAndLost(valid, dn, attributes, name);
    NothingLost(valid, attributes, name);
    var kept, lost := Kept(Fill(valid, dn, attributes), name), Lost(valid, attributes, name);
    assert kept + lost == kept <==> lost == multiset{} by {
      if kept + lost == kept {
        forall x ensures lost[x] == 0 {
          assert (kept + lost)[x] == kept[x];
        }
      }
    }
  }

  /** A repeated name loses the values of its first occurrence. */
  lemma {:induction false} RepeatedNameLosesValues(valid: seq<byte> -> bool, dn: seq<byte>, a: Attribute, b: Attribute)
    requires a.name == b.name && AllText(valid, a.values) && AllText(valid, b.values)
    ensures Fill(valid, dn, [a, b]).attrs == map[a.name := b.values]
  {
    assert [a, b][..1] == [a] && [a][..0] == [];
    assert Fill(valid, dn, [a]) == Absorb(valid, Fill(valid, dn, []), a);
    TextExactlyWhen(valid, a.values);
    TextExactlyWhen(valid, b.values);
  }

  // ----- Entries and references as a server sends them (section 4.5.2 of RFC 4511) -----

  function OctetTag(bs: seq<byte>): StructureTag { StructureTag(Universal, 4, P(bs)) }

  function OctetTags(values: seq<seq<byte>>): (ts: seq<StructureTag>)
    ensures |ts| == |values|
  {
    if values == [] then [] else [OctetTag(values[0])] + OctetTags(values[1..])
  }

  /** A name and a set of values. */
  function AttributeTag(a: Attribute): StructureTag
  {
    StructureTag(Universal, 16, C([OctetTag(a.name), StructureTag(Universal, 17, C(OctetTags(a.values)))]))
  }

  function AttributeTags(attributes: seq<Attribute>): (ts: seq<StructureTag>)
    ensures |ts| == |attributes|
  {
    if attributes == [] then [] else [AttributeTag(attributes[0])] + AttributeTags(attributes[1..])
  }

  function EntryTag(dn: seq<byte>, attributes: seq<Attribute>): StructureTag
  {
    StructureTag(Application, 4, C([OctetTag(dn), StructureTag(Universal, 16, C(AttributeTags(attributes)))]))
  }

  function ReferenceTag(uris: seq<seq<byte>>): StructureTag
  {
    StructureTag(Application, 19, C(OctetTags(uris)))
  }

  lemma {:induction false} PrimitivesBack(values: seq<seq<byte>>)
    ensures Primitives(OctetTags(values)) == Some(values)
  {
    if values != [] {
      PrimitivesBack(values[1..]);
      assert OctetTags(values)[1..] == OctetTags(values[1..]);
      assert [values[0]] + values[1..] == values;
    }
  }

  lemma {:induction false} AttributeBack(a: Attribute)
    ensures AttributeOf(AttributeTag(a)) == if Utf8.Valid(a.name) then Some(a) else None
  {
    PrimitivesBack(a.values);
  }

  ghost predicate TextNames(attributes: seq<Attribute>)
  {
    forall i :: 0 <= i < |attributes| ==> Utf8.Valid(attributes[i].name)
  }

  lemma {:induction false} AttributesBack(attributes: seq<Attribute>)
    requires TextNames(attributes)
    ensures AttributesOf(AttributeTags(attributes)) == Some(attributes)
  {
    if attributes != [] {
      var rest := attributes[1..];
      assert forall i :: 0 <= i < |rest| ==> rest[i] == attributes[i + 1];
      AttributesBack(rest);
      AttributeBack(attributes[0]);
      assert AttributeTags(attributes)[1..] == AttributeTags(rest);
      assert [attributes[0]] + rest == attributes;
    }
  }

  /** An entry as sent is taken apart into its name and all its attributes with all their values. */
  lemma {:induction false} EntryBack(dn: seq<byte>, attributes: seq<Attribute>)
    requires Utf8.Valid(dn) && TextNames(attributes)
    ensures ConstructEntry(EntryTag(dn, attributes)) == Some(Fill(Utf8.Valid, dn, attributes))
  {
    AttributesBack(attributes);
  }

  /** The references of a search result reference are its URIs; one that is no string is a panic. */
  lemma {:induction false} ReferencesBack(uris: seq<seq<byte>>)
    ensures ParseRefs(ReferenceTag(uris))
            == if forall k :: 0 <= k < |uris| ==> Utf8.Valid(uris[k]) then Some(uris) else None
  {
    PrimitivesBack(uris);
  }

  /** What construct promises of an entry with distinct attribute names. */
  lemma {:induction false} EntryConserved(dn: seq<byte>, attributes: seq<Attribute>)
    requires Utf8.Valid(dn) && TextNames(attributes) && Distinct(attributes)
    ensures var r := ConstructEntry(EntryTag(dn, attributes));
            && r.Some? && r.value.dn == dn
            && r.value.attrs.Keys + r.value.binAttrs.Keys == Names(attributes)
            && r.value.attrs.Keys !! r.value.binAttrs.Keys
            && forall i :: 0 <= i < |attributes| ==> Placed(Utf8.Valid, r.value, attributes[i])
  {
    EntryBack(dn, attributes);
    ValuesConserved(Utf8.Valid, dn, attributes);
  }

  /** ... and of any entry: which values it keeps. */
  lemma {:induction false} EntryKeptExactlyWhen(dn: seq<byte>, attributes: seq<Attribute>, name: seq<byte>)
    requires Utf8.Valid(dn) && TextNames(attributes)
    ensures var r := ConstructEntry(EntryTag(dn, attributes));
            && r.Some? && Kept(r.value, name) <= Given(attributes, name)
            && (Kept(r.value, name) == Given(attributes, name) <==> OnlyLastText(Utf8.Valid, attributes, name))
  {
    EntryBack(dn, attributes);
    ValuesKeptExactlyWhen(Utf8.Valid, dn, attributes, name);
  }

  /** Anything but an entry is a panic. */
  lemma {:induction false} OnlyEntries(t: StructureTag)
    ensures t.id != 4 || t.payload.P? || |t.payload.tags| < 2 ==> ConstructEntry(t) == None
    ensures t.payload.C? && |t.payload.tags| >= 1
            && (t.payload.tags[0].payload.C? || !Utf8.Valid(t.payload.tags[0].payload.bytes))
            ==> ConstructEntry(t) == None
    ensures t.payload.C? && |t.payload.tags| >= 2 && t.payload.tags[1].payload.P? ==> ConstructEntry(t) == None
  {
  }
}
