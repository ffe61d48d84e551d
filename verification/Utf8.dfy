/** Well-formed UTF-8, as String::from_utf8 decides it (table 3-7 of the Unicode standard). */
module Utf8 {
  import opened Bytes

  predicate Continuation(b: byte)
  {
    0x80 <= b <= 0xBF
  }

  predicate TripleStart(a: byte, b: byte)
  {
    || (a == 0xE0 && 0xA0 <= b <= 0xBF)
    || (0xE1 <= a <= 0xEC && Continuation(b))
    || (a == 0xED && 0x80 <= b <= 0x9F)
    || (0xEE <= a <= 0xEF && Continuation(b))
  }

  predicate QuadStart(a: byte, b: byte)
  {
    || (a == 0xF0 && 0x90 <= b <= 0xBF)
    || (0xF1 <= a <= 0xF3 && Continuation(b))
    || (a == 0xF4 && 0x80 <= b <= 0x8F)
  }

  /** The number of octets of the well-formed character at the head, or zero. */
  function CharLen(s: seq<byte>): (n: nat)
    ensures n <= |s|
  {
    if s == [] then 0
    else if s[0] < 0x80 then 1
    else if |s| >= 2 && 0xC2 <= s[0] <= 0xDF && Continuation(s[1]) then 2
    else if |s| >= 3 && TripleStart(s[0], s[1]) && Continuation(s[2]) then 3
    else if |s| >= 4 && QuadStart(s[0], s[1]) && Continuation(s[2]) && Continuation(s[3]) then 4
    else 0
  }

  predicate Valid(s: seq<byte>)
  {
    s == [] || (CharLen(s) > 0 && Valid(s[CharLen(s)..]))
  }

  /** Where a string may be cut: not before a continuation octet. */
  predicate Boundary(s: seq<byte>, i: nat)
  {
    i <= |s| && (i < |s| ==> !Continuation(s[i]))
  }

  /** A slice of a string; None is the panic of a cut within a character. */
  function SliceTo(s: seq<byte>, i: nat): (r: Option<seq<byte>>)
    ensures r.Some? ==> i <= |s| && r.value == s[..i]
  {
    if Boundary(s, i) then Some(s[..i]) else None
  }

  // ----- The encoding itself (section 3 of RFC 3629) -----

  /** A Unicode scalar value: any code point but a surrogate. */
  type scalar = c: int | 0 <= c <= 0x10FFFF && !(0xD800 <= c <= 0xDFFF)

  function EncodeScalar(c: scalar): (s: seq<byte>)
  {
    if c < 0x80 then [c]
    else if c < 0x800 then [0xC0 + c / 0x40, 0x80 + c % 0x40]
    else if c < 0x1_0000 then [0xE0 + c / 0x1000, 0x80 + c / 0x40 % 0x40, 0x80 + c % 0x40]
    else [0xF0 + c / 0x4_0000, 0x80 + c / 0x1000 % 0x40, 0x80 + c / 0x40 % 0x40, 0x80 + c % 0x40]
  }

  function EncodeScalars(cs: seq<scalar>): (s: seq<byte>)
  {
    if cs == [] then [] else EncodeScalar(cs[0]) + EncodeScalars(cs[1..])
  }

  lemma {:induction false} ScalarHead(c: scalar, x: seq<byte>)
    ensures CharLen(EncodeScalar(c) + x) == |EncodeScalar(c)| > 0
    ensures (EncodeScalar(c) + x)[|EncodeScalar(c)|..] == x
  {
  }

  lemma {:induction false} EncodedIsValid(cs: seq<scalar>)
    ensures Valid(EncodeScalars(cs))
  {
    if cs != [] {
      EncodedIsValid(cs[1..]);
      ScalarHead(cs[0], EncodeScalars(cs[1..]));
    }
  }

  lemma {:induction false} PairOf(a: byte, b: byte) returns (c: scalar)
    requires 0xC2 <= a <= 0xDF && Continuation(b)
    ensures EncodeScalar(c) == [a, b]
  {
    c := (a - 0xC0) * 0x40 + (b - 0x80);
  }

  lemma {:induction false} TripleOf(a: byte, b: byte, d: byte) returns (c: scalar)
    requires TripleStart(a, b) && Continuation(d)
    ensures EncodeScalar(c) == [a, b, d]
  {
    c := (a - 0xE0) * 0x1000 + (b - 0x80) * 0x40 + (d - 0x80);
  }

  lemma {:induction false} QuadOf(a: byte, b: byte, d: byte, e: byte) returns (c: scalar)
    requires QuadStart(a, b) && Continuation(d) && Continuation(e)
    ensures EncodeScalar(c) == [a, b, d, e]
  {
    Digits(a - 0xF0, b - 0x80, d - 0x80, e - 0x80);
    c := (a - 0xF0) * 0x4_0000 + (b - 0x80) * 0x1000 + (d - 0x80) * 0x40 + (e - 0x80);
  }

  /** The six-bit digits of a number. */
  lemma {:induction false} Digits(h: int, x: int, y: int, z: int)
    requires 0 <= h < 8 && 0 <= x < 0x40 && 0 <= y < 0x40 && 0 <= z < 0x40
    ensures var c := h * 0x4_0000 + x * 0x1000 + y * 0x40 + z;
            c / 0x4_0000 == h && c / 0x1000 % 0x40 == x && c / 0x40 % 0x40 == y && c % 0x40 == z
  {
    var c := h * 0x4_0000 + x * 0x1000 + y * 0x40 + z;
    assert c / 0x40 == h * 0x1000 + x * 0x40 + y;
    assert c / 0x1000 == h * 0x40 + x;
  }

  lemma {:induction false} FirstScalar(s: seq<byte>) returns (c: scalar)
    requires CharLen(s) > 0
    ensures EncodeScalar(c) == s[..CharLen(s)]
  {
    var n := CharLen(s);
    if n == 1 {
      c := s[0];
    } else if n == 2 {
      c := PairOf(s[0], s[1]);
    } else if n == 3 {
      c := TripleOf(s[0], s[1], s[2]);
    } else {
      c := QuadOf(s[0], s[1], s[2], s[3]);
    }
  }

  lemma {:induction false} ValidIsEncoded(s: seq<byte>) returns (cs: seq<scalar>)
    requires Valid(s)
    ensures EncodeScalars(cs) == s
  {
    cs := [];
    if s != [] {
      var n := CharLen(s);
      var c := FirstScalar(s);
      var rest := ValidIsEncoded(s[n..]);
      cs := [c] + rest;
      assert cs[1..] == rest && s[..n] + s[n..] == s;
    }
  }

  /** The well-formed strings are exactly the encodings of sequences of scalar values. */
  lemma {:induction false} ValidExactlyWhen(s: seq<byte>)
    ensures Valid(s) <==> exists cs: seq<scalar> :: EncodeScalars(cs) == s
  {
    if Valid(s) {
      var cs := ValidIsEncoded(s);
    } else if cs: seq<scalar> :| EncodeScalars(cs) == s {
      EncodedIsValid(cs);
    }
  }
}
