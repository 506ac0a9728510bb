/** UTF-8, section 3 of RFC 3629: how Rust strings are laid out as bytes. */
module Utf8 {
  type Byte = b: int | 0 <= b < 256

  function EncodeChar(c: char): seq<Byte> {
    var n := c as int;
    if n < 0x80 then [n]
    else if n < 0x800 then [0xC0 + n / 64, 0x80 + n % 64]
    else if n < 0x10000 then [0xE0 + n / 4096, 0x80 + n / 64 % 64, 0x80 + n % 64]
    else [0xF0 + n / 262144, 0x80 + n / 4096 % 64, 0x80 + n / 64 % 64, 0x80 + n % 64]
  }

  function Encode(s: string): seq<Byte> {
    if s == [] then [] else EncodeChar(s[0]) + Encode(s[1..])
  }

  /** The length of a character's encoding can be read off its first byte. */
  function Width(lead: Byte): nat {
    if lead < 0x80 then 1 else if lead < 0xE0 then 2 else if lead < 0xF0 then 3 else 4
  }

  lemma {:induction false} EncodeCharShape(c: char)
    ensures EncodeChar(c) != [] && |EncodeChar(c)| == Width(EncodeChar(c)[0])
    ensures forall i :: 0 <= i < |EncodeChar(c)| ==> EncodeChar(c)[i] < 0xF8
  {
  }

  /** The six bits that a byte after the first one carries. */
  function Rest(b: Byte): int {
    b - 0x80
  }

  /**
   * The table of section 3 of RFC 3629, read the other way: the first byte tells the length, every
   * other byte lies in 80-BF, and the payload bits make up the code point, in the shortest form.
   */
  lemma {:induction false} CodePointOf(c: char)
    ensures var e, n := EncodeChar(c), c as int;
      && 1 <= |e| <= 4 && (forall i :: 1 <= i < |e| ==> 0x80 <= e[i] <= 0xBF)
      && (|e| == 1 ==> n == e[0] <= 0x7F)
      && (|e| == 2 ==> 0xC2 <= e[0] <= 0xDF && n == (e[0] - 0xC0) * 64 + Rest(e[1]))
      && (|e| == 3 ==> 0xE0 <= e[0] <= 0xEF && n >= 0x800
                       && n == ((e[0] - 0xE0) * 64 + Rest(e[1])) * 64 + Rest(e[2]))
      && (|e| == 4 ==> 0xF0 <= e[0] <= 0xF4 && n >= 0x10000
                       && n == (((e[0] - 0xF0) * 64 + Rest(e[1])) * 64 + Rest(e[2])) * 64 + Rest(e[3]))
  {
    var n := c as int;
    assert n / 64 / 64 == n / 4096 && n / 4096 / 64 == n / 262144;
  }

  lemma {:induction false} EncodeCharInjective(c: char, d: char)
    requires EncodeChar(c) == EncodeChar(d)
    ensures c == d
  {
    var n, m := c as int, d as int;
    EncodeCharShape(c);
    EncodeCharShape(d);
    var e, f := EncodeChar(c), EncodeChar(d);
    assert e[0] == f[0];
    if n < 0x80 {
    } else if n < 0x800 {
      assert e[1] == f[1];
    } else if n < 0x10000 {
      assert e[1] == f[1] && e[2] == f[2];
      assert n / 64 / 64 == n / 4096 && m / 64 / 64 == m / 4096;
    } else {
      assert e[1] == f[1] && e[2] == f[2] && e[3] == f[3];
      assert n / 64 / 64 == n / 4096 && m / 64 / 64 == m / 4096;
      assert n / 4096 / 64 == n / 262144 && m / 4096 / 64 == m / 262144;
    }
  }

  /** No character's encoding is a prefix of another's. */
  lemma {:induction false} EncodeCharPrefixFree(c: char, d: char, s: seq<Byte>, t: seq<Byte>)
    requires EncodeChar(c) + s == EncodeChar(d) + t
    ensures c == d && s == t
  {
    EncodeCharShape(c);
    EncodeCharShape(d);
    var e, f := EncodeChar(c), EncodeChar(d);
    assert e[0] == (e + s)[0] == (f + t)[0] == f[0];
    assert e == (e + s)[..|e|] && f == (f + t)[..|f|];
    assert s == (e + s)[|e|..] && t == (f + t)[|f|..];
    EncodeCharInjective(c, d);
  }

  /** The byte 0xFF ends the encoding of a string unambiguously, since UTF-8 never uses it. */
  lemma {:induction false} TerminatedInjective(a: string, b: string, s: seq<Byte>, t: seq<Byte>)
    requires Encode(a) + [0xFF] + s == Encode(b) + [0xFF] + t
    ensures a == b && s == t
    decreases |a|
  {
    TerminatedHead(a, s);
    TerminatedHead(b, t);
    if a == [] {
      assert s == (Encode(a) + [0xFF] + s)[1..] && t == (Encode(b) + [0xFF] + t)[1..];
    } else {
      var a', b' := Encode(a[1..]) + [0xFF] + s, Encode(b[1..]) + [0xFF] + t;
      TerminatedStep(a, s);
      TerminatedStep(b, t);
      EncodeCharPrefixFree(a[0], b[0], a', b');
      TerminatedInjective(a[1..], b[1..], s, t);
      assert a == [a[0]] + a[1..] && b == [b[0]] + b[1..];
    }
  }

  lemma {:induction false} TerminatedStep(a: string, s: seq<Byte>)
    requires a != []
    ensures Encode(a) + [0xFF] + s == EncodeChar(a[0]) + (Encode(a[1..]) + [0xFF] + s)
  {
    assert EncodeChar(a[0]) + Encode(a[1..]) + [0xFF] + s == EncodeChar(a[0]) + (Encode(a[1..]) + [0xFF] + s);
  }

  lemma {:induction false} TerminatedHead(a: string, s: seq<Byte>)
    ensures (Encode(a) + [0xFF] + s)[0] == 0xFF <==> a == []
  {
    if a != [] {
      EncodeCharShape(a[0]);
      assert (Encode(a) + [0xFF] + s)[0] == EncodeChar(a[0])[0];
    }
  }

  lemma {:induction false} EncodeInjective(a: string, b: string)
    requires Encode(a) == Encode(b)
    ensures a == b
  {
    TerminatedInjective(a, b, [], []);
  }

  lemma {:induction false} EncodeConcat(a: string, b: string)
    ensures Encode(a + b) == Encode(a) + Encode(b)
    decreases |a|
  {
    if a == [] {
      assert a + b == b;
    } else {
      assert (a + b)[1..] == a[1..] + b;
      EncodeConcat(a[1..], b);
    }
  }

  /** `String::from_utf8`: the string a byte sequence encodes, if there is one. */
  ghost predicate IsUtf8(bytes: seq<Byte>) {
    exists s :: Encode(s) == bytes
  }

  ghost function Decode(bytes: seq<Byte>): (s: string)
    requires IsUtf8(bytes)
    ensures Encode(s) == bytes
  {
    var s :| Encode(s) == bytes; s
  }

  lemma {:induction false} DecodeEncode(s: string)
    ensures IsUtf8(Encode(s)) && Decode(Encode(s)) == s
  {
    EncodeInjective(s, Decode(Encode(s)));
  }
}
