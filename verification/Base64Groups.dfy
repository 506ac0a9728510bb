/**
 * Base64 as section 4 of RFC 4648 describes it, group by group. The encoding of all bits at once is
 * the same.
 */
module Base64Groups {
  import opened Utf8
  import opened Bits
  import opened Base64

  /** The symbol of a six-bit value, table 1 of RFC 4648. */
  function Letter(v: Six): Byte {
    if v < 26 then 'A' as int + v
    else if v < 52 then 'a' as int + (v - 26)
    else if v < 62 then '0' as int + (v - 52)
    else if v == 62 then '+' as int
    else '/' as int
  }

  /** Three bytes make four symbols; one or two bytes that are left over make two or three and are padded. */
  function Grouped(bytes: seq<Byte>): seq<Byte> {
    var pad := '=' as int;
    if bytes == [] then [] else
      var x := bytes[0];
      if |bytes| == 1 then [Letter(x / 4), Letter(x % 4 * 16), pad, pad] else
        var y := bytes[1];
        if |bytes| == 2 then [Letter(x / 4), Letter(x % 4 * 16 + y / 16), Letter(y % 16 * 4), pad] else
          var z := bytes[2];
          [Letter(x / 4), Letter(x % 4 * 16 + y / 16), Letter(y % 16 * 4 + z / 64), Letter(z % 64)]
          + Grouped(bytes[3..])
  }

  // ---------------------------------------------------------------------------------------------
  // Numbers and their bits

  lemma {:induction false} JoinFrom(s: seq<bool>, t: seq<bool>)
    ensures FromBits(s + t) == FromBits(s) * Power(|t|) + FromBits(t)
    decreases |t|
  {
    if t == [] {
      assert s + t == s;
    } else {
      var n := |t| - 1;
      JoinFrom(s, t[..n]);
      assert (s + t)[..|s| + n] == s + t[..n] && (s + t)[|s| + n] == t[n];
      Doubled(FromBits(s), Power(n));
    }
  }

  lemma {:induction false} Doubled(f: nat, p: nat)
    ensures f * (2 * p) == 2 * (f * p)
  {
  }

  lemma {:induction false} Powers()
    ensures Power(2) == 4 && Power(4) == 16 && Power(6) == 64
  {
    assert Power(4) == 4 * Power(2) && Power(6) == 4 * Power(4);
  }

  /** The bits of a byte, cut in two. */
  lemma {:induction false} PartsOf(t: seq<bool>, k: nat, p: nat)
    requires |t| == 8 && ((k == 2 && p == 64) || (k == 4 && p == 16) || (k == 6 && p == 4))
    ensures FromBits(t[..k]) == FromBits(t) / p && FromBits(t[k..]) == FromBits(t) % p
  {
    Powers();
    assert p == Power(|t[k..]|) && t == t[..k] + t[k..];
    JoinFrom(t[..k], t[k..]);
    ToFromBits(t[k..]);
    QuotientIs(FromBits(t), FromBits(t[..k]), FromBits(t[k..]), p);
  }

  lemma {:induction false} QuotientIs(n: nat, q: nat, r: nat, p: nat)
    requires n == q * p + r && r < p && (p == 4 || p == 16 || p == 64)
    ensures n / p == q && n % p == r
  {
    if p == 4 {
      assert n == q * 4 + r;
    } else if p == 16 {
      assert n == q * 16 + r;
    } else {
      assert n == q * 64 + r;
    }
  }

  lemma {:induction false} BitsOfByte(x: Byte, rest: seq<Byte>) returns (t: seq<bool>)
    ensures |t| == 8 && FromBits(t) == x && Flatten([x] + rest, 8) == t + Flatten(rest, 8)
  {
    t := ToBits(x, 8);
    Powers();
    assert Power(8) == 4 * Power(6);
    FromToBits(x, 8);
    assert ([x] + rest)[1..] == rest;
  }

  // ---------------------------------------------------------------------------------------------
  // Groups

  lemma {:induction false} NextUnit(unit: seq<bool>, rest: seq<bool>)
    requires |unit| == 6
    ensures Units(unit + rest, 6) == [FromBits(unit)] + Units(rest, 6)
  {
    assert (unit + rest)[..6] == unit && (unit + rest)[6..] == rest;
  }

  lemma {:induction false} FourUnits(a: seq<bool>, b: seq<bool>, c: seq<bool>, d: seq<bool>, rest: seq<bool>)
    requires |a| == |b| == |c| == |d| == 6
    ensures Units(a + (b + (c + (d + rest))), 6) ==
      [FromBits(a), FromBits(b), FromBits(c), FromBits(d)] + Units(rest, 6)
  {
    NextUnit(a, b + (c + (d + rest)));
    NextUnit(b, c + (d + rest));
    NextUnit(c, d + rest);
    NextUnit(d, rest);
  }

  lemma {:induction false} Regroup(x: seq<bool>, y: seq<bool>, z: seq<bool>, rest: seq<bool>)
    requires |x| == |y| == |z| == 8
    ensures x + (y + (z + rest)) == x[..6] + ((x[6..] + y[..4]) + ((y[4..] + z[..2]) + (z[2..] + rest)))
  {
  }

  /** The second and third value of a group take bits from two bytes each. */
  lemma {:induction false} MiddleOf(x: seq<bool>, y: seq<bool>, z: seq<bool>)
    requires |x| == |y| == |z| == 8
    ensures FromBits(x[6..] + y[..4]) == FromBits(x) % 4 * 16 + FromBits(y) / 16
    ensures FromBits(y[4..] + z[..2]) == FromBits(y) % 16 * 4 + FromBits(z) / 64
  {
    Powers();
    JoinFrom(x[6..], y[..4]);
    JoinFrom(y[4..], z[..2]);
    PartsOf(x, 6, 4);
    PartsOf(y, 4, 16);
    PartsOf(z, 2, 64);
  }

  lemma {:induction false} UnitsOfThree(x: seq<bool>, y: seq<bool>, z: seq<bool>, rest: seq<bool>)
    requires |x| == |y| == |z| == 8
    ensures Units(x + (y + (z + rest)), 6) ==
      [FromBits(x) / 4, FromBits(x) % 4 * 16 + FromBits(y) / 16, FromBits(y) % 16 * 4 + FromBits(z) / 64,
       FromBits(z) % 64] + Units(rest, 6)
  {
    Regroup(x, y, z, rest);
    FourUnits(x[..6], x[6..] + y[..4], y[4..] + z[..2], z[2..], rest);
    MiddleOf(x, y, z);
    PartsOf(x, 6, 4);
    PartsOf(z, 2, 64);
  }

  lemma {:induction false} Associates(a: seq<bool>, b: seq<bool>, c: seq<bool>, d: seq<bool>, e: seq<bool>)
    ensures (a + (b + (c + d))) + e == a + (b + (c + (d + e)))
  {
  }

  lemma {:induction false} SextetsOfBits(bytes: seq<Byte>, a: seq<bool>, b: seq<bool>, c: seq<bool>, rest: seq<bool>)
    requires Flatten(bytes, 8) == a + (b + (c + rest)) && |a| == |b| == |c| == 8
    ensures Sextets(bytes) == Units(a + (b + (c + (rest + Filler(|rest|)))), 6)
  {
    Associates(a, b, c, rest, Filler(|rest|));
    assert |Flatten(bytes, 8)| == 24 + |rest|;
  }

  lemma {:induction false} SextetsOfThree(x: Byte, y: Byte, z: Byte, rest: seq<Byte>)
    ensures Sextets([x] + ([y] + ([z] + rest))) ==
      [x / 4, x % 4 * 16 + y / 16, y % 16 * 4 + z / 64, z % 64] + Sextets(rest)
  {
    var c := BitsOfByte(z, rest);
    var b := BitsOfByte(y, [z] + rest);
    var a := BitsOfByte(x, [y] + ([z] + rest));
    SextetsOfBits([x] + ([y] + ([z] + rest)), a, b, c, Flatten(rest, 8));
    UnitsOfThree(a, b, c, Flatten(rest, 8) + Filler(|Flatten(rest, 8)|));
  }

  // ---------------------------------------------------------------------------------------------
  // The last group

  lemma {:induction false} ZerosAreZero(n: nat)
    ensures FromBits(Zeros(n)) == 0
  {
    if n > 0 {
      assert Zeros(n)[..n - 1] == Zeros(n - 1);
      ZerosAreZero(n - 1);
    }
  }

  lemma {:induction false} SextetsOfOne(x: Byte)
    ensures Sextets([x]) == [x / 4, x % 4 * 16]
  {
    var t := BitsOfByte(x, []);
    var zeros := Zeros(8);
    ZerosAreZero(8);
    assert [x] + [] == [x] && t + [] == t;
    assert t + Filler(8) == t[..6] + ((t[6..] + zeros[..4]) + []);
    NextUnit(t[..6], (t[6..] + zeros[..4]) + []);
    NextUnit(t[6..] + zeros[..4], []);
    MiddleOf(t, zeros, zeros);
    PartsOf(t, 6, 4);
  }

  lemma {:induction false} SextetsOfTwo(x: Byte, y: Byte)
    ensures Sextets([x, y]) == [x / 4, x % 4 * 16 + y / 16, y % 16 * 4]
  {
    var b := BitsOfByte(y, []);
    var a := BitsOfByte(x, [y]);
    assert [x] + [y] == [x, y] && [y] + [] == [y] && b + [] == b;
    UnitsOfTwo(a, b);
  }

  lemma {:induction false} UnitsOfTwo(a: seq<bool>, b: seq<bool>)
    requires |a| == |b| == 8
    ensures Units((a + b) + Filler(16), 6) ==
      [FromBits(a) / 4, FromBits(a) % 4 * 16 + FromBits(b) / 16, FromBits(b) % 16 * 4]
  {
    var zeros := Zeros(8);
    ZerosAreZero(8);
    ThreeUnits(a[..6], a[6..] + b[..4], b[4..] + zeros[..2]);
    assert (a + b) + Filler(16) == a[..6] + ((a[6..] + b[..4]) + ((b[4..] + zeros[..2]) + []));
    MiddleOf(a, b, zeros);
    PartsOf(a, 6, 4);
  }

  lemma {:induction false} ThreeUnits(a: seq<bool>, b: seq<bool>, c: seq<bool>)
    requires |a| == |b| == |c| == 6
    ensures Units(a + (b + (c + [])), 6) == [FromBits(a), FromBits(b), FromBits(c)]
  {
    NextUnit(a, b + (c + []));
    NextUnit(b, c + []);
    NextUnit(c, []);
  }

  // ---------------------------------------------------------------------------------------------
  // Both forms agree

  lemma {:induction false} SymbolsOfFour(six: seq<Six>, rest: seq<Six>)
    requires |six| == 4 + |rest| && six[4..] == rest
    ensures Symbols(six) + Padding(|six|) ==
      [Letter(six[0]), Letter(six[1]), Letter(six[2]), Letter(six[3])] + (Symbols(rest) + Padding(|rest|))
  {
    assert forall i :: 0 <= i < |rest| ==> six[4 + i] == rest[i];
  }

  lemma {:induction false} EncodeThree(x: Byte, y: Byte, z: Byte, rest: seq<Byte>)
    ensures Base64.Encode([x] + ([y] + ([z] + rest))) ==
      [Letter(x / 4), Letter(x % 4 * 16 + y / 16), Letter(y % 16 * 4 + z / 64), Letter(z % 64)] + Base64.Encode(rest)
  {
    SextetsOfThree(x, y, z, rest);
    SymbolsOfFour(Sextets([x] + ([y] + ([z] + rest))), Sextets(rest));
  }

  lemma {:induction false} EncodeOne(x: Byte)
    ensures Base64.Encode([x]) == [Letter(x / 4), Letter(x % 4 * 16), '=' as int, '=' as int]
  {
    SextetsOfOne(x);
  }

  lemma {:induction false} EncodeTwo(x: Byte, y: Byte)
    ensures Base64.Encode([x, y]) ==
      [Letter(x / 4), Letter(x % 4 * 16 + y / 16), Letter(y % 16 * 4), '=' as int]
  {
    SextetsOfTwo(x, y);
  }

  lemma {:induction false} EncodeRest(bytes: seq<Byte>)
    requires |bytes| < 3
    ensures Base64.Encode(bytes) == Grouped(bytes)
  {
    if |bytes| == 2 {
      EncodeTwo(bytes[0], bytes[1]);
      assert bytes == [bytes[0], bytes[1]];
    } else if |bytes| == 1 {
      EncodeOne(bytes[0]);
      assert bytes == [bytes[0]];
    } else {
      assert Sextets([]) == [];
    }
  }

  /** Encoding all bits at once is encoding group by group. */
  lemma {:induction false} EncodeIsGrouped(bytes: seq<Byte>)
    ensures Base64.Encode(bytes) == Grouped(bytes)
  {
    if |bytes| < 3 {
      EncodeRest(bytes);
    } else {
      assert bytes == [bytes[0]] + ([bytes[1]] + ([bytes[2]] + bytes[3..]));
      EncodeThree(bytes[0], bytes[1], bytes[2], bytes[3..]);
      EncodeIsGrouped(bytes[3..]);
    }
  }
}
