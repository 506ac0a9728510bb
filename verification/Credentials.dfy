/** Sequences of bits, most significant first, regrouped into units of a fixed width. */
module Bits {

  function Power(w: nat): nat {
    if w == 0 then 1 else 2 * Power(w - 1)
  }

  function ToBits(n: nat, w: nat): (r: seq<bool>)
    ensures |r| == w
  {
    if w == 0 then [] else ToBits(n / 2, w - 1) + [n % 2 == 1]
  }

  function FromBits(bits: seq<bool>): nat {
    if bits == [] then 0
    else 2 * FromBits(bits[..|bits| - 1]) + if bits[|bits| - 1] then 1 else 0
  }

  lemma {:induction false} FromToBits(n: nat, w: nat)
    requires n < Power(w)
    ensures FromBits(ToBits(n, w)) == n
    decreases w
  {
    if w > 0 {
      assert ToBits(n, w)[..w - 1] == ToBits(n / 2, w - 1);
      FromToBits(n / 2, w - 1);
    }
  }

  lemma {:induction false} ToFromBits(bits: seq<bool>)
    ensures FromBits(bits) < Power(|bits|) && ToBits(FromBits(bits), |bits|) == bits
    decreases |bits|
  {
    if bits != [] {
      ToFromBits(bits[..|bits| - 1]);
    }
  }

  predicate Below(xs: seq<nat>, w: nat) {
    forall i :: 0 <= i < |xs| ==> xs[i] < Power(w)
  }

  /** The bits of all units, one after the other. */
  function Flatten(xs: seq<nat>, w: nat): seq<bool> {
    if xs == [] then [] else ToBits(xs[0], w) + Flatten(xs[1..], w)
  }

  /** The units that fit into a sequence of bits; an incomplete unit at the end is dropped. */
  function Units(bits: seq<bool>, w: nat): seq<nat>
    requires w > 0
  {
    if |bits| < w then [] else [FromBits(bits[..w])] + Units(bits[w..], w)
  }

  lemma {:induction false} FlattenLength(xs: seq<nat>, w: nat)
    ensures |Flatten(xs, w)| == |xs| * w
    decreases |xs|
  {
    if xs != [] {
      FlattenLength(xs[1..], w);
    }
  }

  lemma {:induction false} UnitsOfFlatten(xs: seq<nat>, w: nat, tail: seq<bool>)
    requires |tail| < w && Below(xs, w)
    ensures Units(Flatten(xs, w) + tail, w) == xs
    decreases |xs|
  {
    var bits := Flatten(xs, w) + tail;
    if xs == [] {
      assert bits == tail;
    } else {
      assert bits[..w] == ToBits(xs[0], w) && bits[w..] == Flatten(xs[1..], w) + tail;
      FromToBits(xs[0], w);
      UnitsOfFlatten(xs[1..], w, tail);
    }
  }

  lemma {:induction false} FlattenOfUnits(bits: seq<bool>, w: nat) returns (tail: seq<bool>)
    requires w > 0
    ensures Below(Units(bits, w), w)
    ensures bits == Flatten(Units(bits, w), w) + tail && |tail| < w
    decreases |bits|
  {
    if |bits| < w {
      tail := bits;
    } else {
      tail := FlattenOfUnits(bits[w..], w);
      ToFromBits(bits[..w]);
      OneMoreUnit(bits, w, Units(bits[w..], w), tail, FromBits(bits[..w]));
    }
  }

  lemma {:induction false} OneMoreUnit(bits: seq<bool>, w: nat, units: seq<nat>, tail: seq<bool>, unit: nat)
    requires w <= |bits| && bits[w..] == Flatten(units, w) + tail && ToBits(unit, w) == bits[..w]
    requires Below(units, w) && unit < Power(w)
    ensures bits == Flatten([unit] + units, w) + tail && Below([unit] + units, w)
  {
    assert ([unit] + units)[1..] == units;
    assert bits == bits[..w] + bits[w..];
  }
}

/** Base64 with padding, section 4 of RFC 4648, as the strict decoder of the source reads it. */
module Base64 {
  import opened Wrappers
  import opened Utf8
  import opened Bits

  const PAD: Byte := 61

  type Six = v: int | 0 <= v < 64

  /** The symbol of a six-bit value: `A`-`Z`, `a`-`z`, `0`-`9`, `+`, `/`. */
  function Symbol(v: Six): Byte {
    if v < 26 then 65 + v else if v < 52 then 71 + v else if v < 62 then v - 4 else if v == 62 then 43 else 47
  }

  function Sextet(b: Byte): (v: int)
    ensures v < 64
  {
    if 65 <= b <= 90 then b - 65
    else if 97 <= b <= 122 then b - 71
    else if 48 <= b <= 57 then b + 4
    else if b == 43 then 62
    else if b == 47 then 63
    else -1
  }

  lemma {:induction false} SymbolSextet(v: Six)
    ensures Sextet(Symbol(v)) == v && Symbol(v) != PAD
  {
  }

  lemma {:induction false} SextetSymbol(b: Byte)
    ensures Sextet(b) >= 0 ==> Symbol(Sextet(b)) == b && b != PAD
  {
  }

  function Zeros(n: nat): seq<bool> {
    seq(n, _ => false)
  }

  /** The zero bits that complete the last six-bit value. */
  function Filler(length: nat): seq<bool> {
    Zeros((6 - length % 6) % 6)
  }

  lemma {:induction false} UnitsAreSextets(bits: seq<bool>)
    ensures forall i :: 0 <= i < |Units(bits, 6)| ==> 0 <= Units(bits, 6)[i] < 64
  {
    assert Power(6) == 64;
    var _ := FlattenOfUnits(bits, 6);
  }

  lemma {:induction false} UnitsAreBytes(bits: seq<bool>)
    ensures forall i :: 0 <= i < |Units(bits, 8)| ==> 0 <= Units(bits, 8)[i] < 256
  {
    assert Power(2) == 4 && Power(4) == 4 * Power(2) && Power(6) == 4 * Power(4) && Power(8) == 4 * Power(6);
    var _ := FlattenOfUnits(bits, 8);
  }

  /** The six-bit values of a byte sequence; missing bits at the end are zero. */
  function Sextets(bytes: seq<Byte>): seq<Six> {
    var bits := Flatten(bytes, 8);
    UnitsAreSextets(bits + Filler(|bits|));
    Units(bits + Filler(|bits|), 6)
  }

  /** The bytes that six-bit values stand for, provided that the bits left over are few and zero. */
  function Bytes(six: seq<Six>): Option<seq<Byte>> {
    var bits := Flatten(six, 6);
    var left := |bits| % 8;
    if left < 6 && bits[|bits| - left..] == Zeros(left) then
      UnitsAreBytes(bits);
      Some(Units(bits, 8))
    else None
  }

  lemma {:induction false} FillerLength(k: nat)
    ensures |Filler(8 * k)| < 6 && (8 * k + |Filler(8 * k)|) % 6 == 0
    ensures (8 * k + |Filler(8 * k)|) % 8 == |Filler(8 * k)|
    ensures (8 * k + |Filler(8 * k)|) / 6 % 4 != 1
  {
    var f := (6 - 8 * k % 6) % 6;
    assert f == 0 || f == 2 || f == 4;
  }

  lemma {:induction false} FilledBits(bytes: seq<Byte>)
    ensures Flatten(Sextets(bytes), 6) == Flatten(bytes, 8) + Filler(8 * |bytes|)
    ensures |Flatten(bytes, 8)| == 8 * |bytes|
  {
    FlattenLength(bytes, 8);
    FillerLength(|bytes|);
    WholeUnits(Flatten(bytes, 8) + Filler(8 * |bytes|));
  }

  /** A whole number of six-bit units leaves no tail. */
  lemma {:induction false} WholeUnits(bits: seq<bool>)
    requires |bits| % 6 == 0
    ensures Flatten(Units(bits, 6), 6) == bits
  {
    var tail := FlattenOfUnits(bits, 6);
    FlattenLength(Units(bits, 6), 6);
    NoTail(|Units(bits, 6)|, |tail|, |bits|);
    assert tail == [] && Flatten(Units(bits, 6), 6) + [] == Flatten(Units(bits, 6), 6);
  }

  lemma {:induction false} NoTail(n: nat, t: nat, total: nat)
    requires total == 6 * n + t && t < 6 && total % 6 == 0
    ensures t == 0
  {
  }

  lemma {:induction false} BytesIf(six: seq<Six>, bits: seq<bool>, left: nat, bytes: seq<Byte>)
    requires bits == Flatten(six, 6) && left == |bits| % 8 < 6 && bits[|bits| - left..] == Zeros(left)
    requires Units(bits, 8) == bytes
    ensures Bytes(six) == Some(bytes)
  {
  }

  lemma {:induction false} BytesOfSextets(bytes: seq<Byte>)
    ensures Bytes(Sextets(bytes)) == Some(bytes) && |Sextets(bytes)| % 4 != 1
  {
    var bits, filler := Flatten(bytes, 8), Filler(8 * |bytes|);
    FilledBits(bytes);
    FillerLength(|bytes|);
    BytesBelow(bytes);
    UnitsOfFlatten(bytes, 8, filler);
    assert (bits + filler)[|bits|..] == filler;
    BytesIf(Sextets(bytes), bits + filler, |filler|, bytes);
    FlattenLength(Sextets(bytes), 6);
    SextetCount(|Sextets(bytes)|, 8 * |bytes| + |filler|);
  }

  lemma {:induction false} SextetCount(n: nat, total: nat)
    requires 6 * n == total && total / 6 % 4 != 1
    ensures n % 4 != 1
  {
  }

  lemma {:induction false} BytesBelow(bytes: seq<Byte>)
    ensures Below(bytes, 8)
  {
    assert Power(2) == 4 && Power(4) == 4 * Power(2) && Power(6) == 4 * Power(4) && Power(8) == 4 * Power(6);
  }

  lemma {:induction false} SextetsOfBytes(six: seq<Six>)
    requires Bytes(six).Some?
    ensures Sextets(Bytes(six).value) == six
  {
    var bits, bytes := Flatten(six, 6), Bytes(six).value;
    var tail := FlattenOfUnits(bits, 8);
    FlattenLength(six, 6);
    FlattenLength(bytes, 8);
    TailIsLeft(|bits|, |bytes|, |tail|);
    assert tail == bits[|bits| - |tail|..];
    TailIsFiller(|six|, |bytes|, bits, tail);
    SextetsIf(six, bytes, bits, tail);
  }

  lemma {:induction false} TailIsLeft(total: nat, k: nat, t: nat)
    requires total == 8 * k + t && t < 8
    ensures t == total % 8
  {
  }

  lemma {:induction false} SextetsIf(six: seq<Six>, bytes: seq<Byte>, bits: seq<bool>, tail: seq<bool>)
    requires bits == Flatten(six, 6) == Flatten(bytes, 8) + tail && tail == Filler(|Flatten(bytes, 8)|)
    ensures Sextets(bytes) == six
  {
    SextetsBelow(six);
    UnitsOfFlatten(six, 6, []);
    assert bits + [] == bits;
  }

  lemma {:induction false} SextetsBelow(six: seq<Six>)
    ensures Below(six, 6)
  {
    assert Power(6) == 64;
  }

  lemma {:induction false} TailIsFiller(n: nat, k: nat, bits: seq<bool>, tail: seq<bool>)
    requires |bits| == 6 * n == 8 * k + |tail| && |tail| < 6
    requires tail == bits[|bits| - |tail|..] == Zeros(|tail|)
    ensures tail == Filler(8 * k)
  {
    FillerLength(k);
  }

  function Symbols(six: seq<Six>): seq<Byte> {
    seq(|six|, i requires 0 <= i < |six| => Symbol(six[i]))
  }

  function Padding(n: nat): seq<Byte> {
    if n % 4 == 2 then [PAD, PAD] else if n % 4 == 3 then [PAD] else []
  }

  function Encode(bytes: seq<Byte>): seq<Byte> {
    Symbols(Sextets(bytes)) + Padding(|Sextets(bytes)|)
  }

  /** The text without the one or two padding characters it may end in. */
  function Body(text: seq<Byte>): seq<Byte> {
    var n := |text|;
    if n >= 2 && text[n - 1] == PAD && text[n - 2] == PAD then text[..n - 2]
    else if n >= 1 && text[n - 1] == PAD then text[..n - 1]
    else text
  }

  predicate InAlphabet(text: seq<Byte>) {
    forall i :: 0 <= i < |text| ==> Sextet(text[i]) >= 0
  }

  function Values(text: seq<Byte>): seq<Six>
    requires InAlphabet(text)
  {
    seq(|text|, i requires 0 <= i < |text| => Sextet(text[i]))
  }

  function Decode(text: seq<Byte>): Option<seq<Byte>> {
    if |text| % 4 != 0 || !InAlphabet(Body(text)) then None else Bytes(Values(Body(text)))
  }

  lemma {:induction false} BodyOfPadded(body: seq<Byte>)
    requires InAlphabet(body) && |body| % 4 != 1
    ensures Body(body + Padding(|body|)) == body && |body + Padding(|body|)| % 4 == 0
  {
    if body != [] {
      SextetSymbol(body[|body| - 1]);
    }
  }

  lemma {:induction false} PaddedBody(text: seq<Byte>)
    requires |text| % 4 == 0 && InAlphabet(Body(text))
    ensures text == Body(text) + Padding(|Body(text)|)
  {
  }

  lemma {:induction false} SymbolsRoundTrip(six: seq<Six>)
    ensures InAlphabet(Symbols(six)) && Values(Symbols(six)) == six
  {
    forall i | 0 <= i < |six| ensures Sextet(Symbols(six)[i]) == six[i] {
      SymbolSextet(six[i]);
    }
  }

  /** Decoding inverts encoding for every sequence of bytes. */
  lemma {:induction false} DecodeEncode(bytes: seq<Byte>)
    ensures Decode(Encode(bytes)) == Some(bytes)
  {
    BytesOfSextets(bytes);
    SymbolsRoundTrip(Sextets(bytes));
    BodyOfPadded(Symbols(Sextets(bytes)));
  }

  /** The decoder accepts nothing but the encodings. */
  lemma {:induction false} DecodeIsCanonical(text: seq<Byte>)
    requires Decode(text).Some?
    ensures Encode(Decode(text).value) == text
  {
    var body := Body(text);
    SextetsOfBytes(Values(body));
    forall i | 0 <= i < |body| ensures Symbols(Values(body))[i] == body[i] {
      SextetSymbol(body[i]);
    }
    assert Symbols(Values(body)) == body;
    PaddedBody(text);
  }
}

/**
 * Models crates/uv-auth/src/credentials.rs: Basic and Bearer credentials and their translation to
 * and from the `Authorization` header, section 2 of RFC 7617 and section 2.1 of RFC 6750.
 */
module Credentials {
  import opened Wrappers
  import opened Utf8
  import Base64

  datatype Credentials =
    | Basic(username: Option<string>, password: Option<string>)
    | Bearer(token: seq<Byte>)

  /** `Username::new` turns the empty string into an absent username. */
  function NewUsername(value: Option<string>): Option<string> {
    if value == Some("") then None else value
  }

  predicate ValidUsername(c: Credentials) {
    c.Basic? ==> c.username != Some("")
  }

  const BASIC: seq<Byte> := [66, 97, 115, 105, 99, 32]
  const BEARER: seq<Byte> := [66, 101, 97, 114, 101, 114, 32]

  /** The names of the schemes, section 2 of RFC 7617 and section 2.1 of RFC 6750. */
  lemma {:induction false} SchemeNames()
    ensures |BASIC| == 6 && forall i :: 0 <= i < 6 ==> BASIC[i] == "Basic "[i] as int
    ensures |BEARER| == 7 && forall i :: 0 <= i < 7 ==> BEARER[i] == "Bearer "[i] as int
  {
  }

  /** The bytes that an HTTP header value may hold. */
  predicate IsHeaderValue(bytes: seq<Byte>) {
    forall i :: 0 <= i < |bytes| ==> (bytes[i] >= 32 && bytes[i] != 127) || bytes[i] == 9
  }

  function OrEmpty(s: Option<string>): string {
    if s.Some? then s.value else ""
  }

  function Plain(c: Credentials): string
    requires c.Basic?
  {
    OrEmpty(c.username) + ":" + OrEmpty(c.password)
  }

  /** `to_header_value`; `None` stands for its panic on bytes that no header may hold. */
  function ToHeader(c: Credentials): Option<seq<Byte>> {
    var bytes := if c.Basic? then BASIC + Base64.Encode(Utf8.Encode(Plain(c))) else BEARER + c.token;
    if IsHeaderValue(bytes) then Some(bytes) else None
  }

  datatype Parsed = Panics | Unrecognised | Parsed(credentials: Credentials)

  function IndexOf(s: string, c: char): (i: nat)
    ensures i <= |s| && (forall j :: 0 <= j < i ==> s[j] != c)
    ensures i < |s| ==> s[i] == c
  {
    if s == [] || s[0] == c then 0 else 1 + IndexOf(s[1..], c)
  }

  function NonEmpty(s: string): Option<string> {
    if s == "" then None else Some(s)
  }

  ghost function ParsePlain(bytes: seq<Byte>): Parsed {
    if !IsUtf8(bytes) then Panics else
      var plain := Utf8.Decode(bytes);
      var i := IndexOf(plain, ':');
      if i == |plain| then Panics
      else Parsed(Basic(NonEmpty(plain[..i]), NonEmpty(plain[i + 1..])))
  }

  ghost function ParseBasic(text: seq<Byte>): Parsed {
    var bytes := Base64.Decode(text);
    if bytes.None? then Panics else ParsePlain(bytes.value)
  }

  /** `from_header_value`. */
  ghost function FromHeader(header: seq<Byte>): Parsed {
    if BASIC <= header then ParseBasic(header[|BASIC|..])
    else if BEARER <= header then Parsed(Bearer(header[|BEARER|..]))
    else Unrecognised
  }

  lemma {:induction false} SymbolsAreVisible(bytes: seq<Byte>)
    ensures IsHeaderValue(Base64.Encode(bytes))
  {
    var symbols := Base64.Symbols(Base64.Sextets(bytes));
    assert forall i :: 0 <= i < |symbols| ==> 32 <= symbols[i] < 127;
  }

  lemma {:induction false} ParsePlainText(plain: string)
    requires ':' in plain
    ensures var i := IndexOf(plain, ':');
      i < |plain|
      && ParsePlain(Utf8.Encode(plain)) == Parsed(Basic(NonEmpty(plain[..i]), NonEmpty(plain[i + 1..])))
  {
    Utf8.DecodeEncode(plain);
  }

  lemma {:induction false} ParseEncoded(bytes: seq<Byte>)
    ensures ParseBasic(Base64.Encode(bytes)) == ParsePlain(bytes)
  {
    Base64.DecodeEncode(bytes);
  }

  lemma {:induction false} StripBasic(text: seq<Byte>)
    ensures FromHeader(BASIC + text) == ParseBasic(text)
  {
    assert (BASIC + text)[|BASIC|..] == text;
  }

  lemma {:induction false} BasicHeader(c: Credentials)
    requires c.Basic?
    ensures ToHeader(c) == Some(BASIC + Base64.Encode(Utf8.Encode(Plain(c))))
  {
    SymbolsAreVisible(Utf8.Encode(Plain(c)));
  }

  lemma {:induction false} FromBasicHeader(bytes: seq<Byte>)
    ensures FromHeader(BASIC + Base64.Encode(bytes)) == ParsePlain(bytes)
  {
    StripBasic(Base64.Encode(bytes));
    ParseEncoded(bytes);
  }

  /** What the text between username and password splits into, compared with what it was made of. */
  lemma {:induction false} SplitPlain(c: Credentials)
    requires c.Basic? && ValidUsername(c)
    ensures var plain := Plain(c); var i := IndexOf(plain, ':');
      i < |plain| && (Basic(NonEmpty(plain[..i]), NonEmpty(plain[i + 1..])) == c <==> IsFaithful(c))
  {
    var plain, u := Plain(c), OrEmpty(c.username);
    var i := IndexOf(plain, ':');
    assert plain[|u|] == ':';
    assert forall j :: 0 <= j < |u| ==> plain[j] == u[j];
    assert ':' !in u <==> i == |u|;
    assert i == |u| ==> plain[..i] == u && plain[i + 1..] == OrEmpty(c.password);
    assert i < |u| ==> |plain[..i]| < |u|;
  }

  lemma {:induction false} BasicRoundTrip(c: Credentials)
    requires c.Basic? && ValidUsername(c)
    ensures ToHeader(c).Some? && (FromHeader(ToHeader(c).value) == Parsed(c) <==> IsFaithful(c))
  {
    BasicHeader(c);
    FromBasicHeader(Utf8.Encode(Plain(c)));
    SplitPlain(c);
    ParsePlainText(Plain(c));
  }

  /** The credentials whose header says everything about them. */
  predicate IsFaithful(c: Credentials) {
    match c
    case Basic(username, password) => ':' !in OrEmpty(username) && password != Some("")
    case Bearer(token) => IsHeaderValue(token)
  }

  /**
   * Decoding the header of valid credentials gives them back exactly when the username has no
   * colon and the password is not the empty string, or the token is a legal header value.
   */
  lemma {:induction false} HeaderRoundTrip(c: Credentials)
    requires ValidUsername(c)
    ensures (ToHeader(c).Some? && FromHeader(ToHeader(c).value) == Parsed(c)) <==> IsFaithful(c)
  {
    if c.Basic? {
      BasicRoundTrip(c);
    } else {
      var header := BEARER + c.token;
      assert header[1] == 101 && header[|BEARER|..] == c.token;
      assert forall i :: 0 <= i < |c.token| ==> c.token[i] == header[i + |BEARER|];
    }
  }

  /** The header of a username and a password, separated by the first colon. */
  ghost predicate IsBasicHeader(header: seq<Byte>, plain: string) {
    ':' in plain && header == BASIC + Base64.Encode(Utf8.Encode(plain))
  }

  /** Exactly which headers are read as credentials, which are not recognised, and so which panic. */
  lemma {:induction false} WhatIsRead(header: seq<Byte>)
    ensures FromHeader(header).Parsed? <==> BEARER <= header || exists plain :: IsBasicHeader(header, plain)
    ensures FromHeader(header).Unrecognised? <==> !(BASIC <= header) && !(BEARER <= header)
  {
    assert BASIC[1] != BEARER[1];
    if BASIC <= header && FromHeader(header).Parsed? {
      var text := header[|BASIC|..];
      Base64.DecodeIsCanonical(text);
      var bytes := Base64.Decode(text).value;
      assert header == BASIC + text;
      assert IsBasicHeader(header, Utf8.Decode(bytes));
    }
    if plain :| IsBasicHeader(header, plain) {
      FromBasicHeader(Utf8.Encode(plain));
      ParsePlainText(plain);
    }
  }
}
