/**
 * Models crates/uv-cache-key/src/cache_key.rs: the type-directed stream of bytes that a value
 * feeds to the hasher. Integers are written little-endian and `usize` takes eight bytes.
 */
module CacheKey {
  import opened Utf8

  /** The entries of a map are pairs: `entry` is the type of a tuple of a key and a value. */
  datatype Type =
    | Bool
    | Char
    | Int(width: nat, signed: bool)
    | Str
    | Option(of: Type)
    | Slice(of: Type)
    | Tuple(parts: seq<Type>)
    | BTreeSet(of: Type)
    | BTreeMap(entry: Type)

  /** A set or map is held as the sequence of its items in ascending order. */
  datatype Value =
    | B(b: bool)
    | C(c: char)
    | I(n: int)
    | S(s: string)
    | Absent
    | Present(v: Value)
    | Items(items: seq<Value>)

  const USIZE_LIMIT := 0x1_0000_0000_0000_0000

  function Power(width: nat): (r: nat)
    ensures r > 0
  {
    if width == 0 then 1 else 256 * Power(width - 1)
  }

  predicate InRange(n: int, width: nat, signed: bool) {
    if signed then 0 <= 2 * n + Power(width) < 2 * Power(width) else 0 <= n < Power(width)
  }

  predicate Ascending(items: seq<Value>, less: (Value, Value) -> bool) {
    forall i, j :: 0 <= i < j < |items| ==> less(items[i], items[j])
  }

  /** The first component of a map entry. */
  function Key(entry: Value): Value {
    if entry.Items? && entry.items != [] then entry.items[0] else entry
  }

  /** `v` is a value of type `ty`, whose sets and maps are ordered by `less`. */
  predicate HasType(v: Value, ty: Type, less: (Value, Value) -> bool)
    decreases ty, 0
  {
    match ty
    case Bool => v.B?
    case Char => v.C?
    case Int(width, signed) => v.I? && InRange(v.n, width, signed)
    case Str => v.S?
    case Option(of) => v.Absent? || (v.Present? && HasType(v.v, of, less))
    case Slice(of) => v.Items? && |v.items| < USIZE_LIMIT && AllHaveType(v.items, of, less)
    case Tuple(parts) =>
      v.Items? && |v.items| == |parts| && forall i :: 0 <= i < |parts| ==> HasType(v.items[i], parts[i], less)
    case BTreeSet(of) =>
      v.Items? && |v.items| < USIZE_LIMIT && AllHaveType(v.items, of, less) && Ascending(v.items, less)
    case BTreeMap(entry) =>
      && entry.Tuple? && |entry.parts| == 2
      && v.Items? && |v.items| < USIZE_LIMIT && AllHaveType(v.items, entry, less)
      && forall i, j :: 0 <= i < j < |v.items| ==> less(Key(v.items[i]), Key(v.items[j]))
  }

  predicate AllHaveType(items: seq<Value>, of: Type, less: (Value, Value) -> bool)
    decreases of, 1
  {
    forall i :: 0 <= i < |items| ==> HasType(items[i], of, less)
  }

  // ---------------------------------------------------------------------------------------------
  // The stream of a value

  function LittleEndian(n: nat, width: nat): (r: seq<Byte>)
    ensures |r| == width
  {
    if width == 0 then [] else [n % 256] + LittleEndian(n / 256, width - 1)
  }

  /** Two's complement. */
  function Unsigned(n: int, width: nat): nat
    requires 0 <= n + Power(width)
  {
    if n < 0 then n + Power(width) else n
  }

  function Usize(n: nat): seq<Byte> {
    LittleEndian(n, 8)
  }

  function Stream(v: Value, ty: Type, less: (Value, Value) -> bool): seq<Byte>
    requires HasType(v, ty, less)
    decreases ty, 2
  {
    match ty
    case Bool => [if v.b then 1 else 0]
    case Char => LittleEndian(v.c as int, 4)
    case Int(width, signed) => LittleEndian(Unsigned(v.n, width), width)
    case Str => Utf8.Encode(v.s) + [0xFF]
    case Option(of) => if v.Absent? then Usize(0) else Usize(1) + Stream(v.v, of, less)
    case Slice(of) => Usize(|v.items|) + StreamAll(v.items, of, less)
    case Tuple(parts) => StreamParts(v.items, parts, less)
    case BTreeSet(of) => Usize(|v.items|) + StreamAll(v.items, of, less)
    case BTreeMap(entry) => Usize(|v.items|) + StreamAll(v.items, entry, less)
  }

  function StreamAll(items: seq<Value>, of: Type, less: (Value, Value) -> bool): seq<Byte>
    requires AllHaveType(items, of, less)
    decreases of, 3, |items|
  {
    if items == [] then [] else Stream(items[0], of, less) + StreamAll(items[1..], of, less)
  }

  function StreamParts(items: seq<Value>, parts: seq<Type>, less: (Value, Value) -> bool): seq<Byte>
    requires |items| == |parts| && forall i :: 0 <= i < |parts| ==> HasType(items[i], parts[i], less)
    decreases parts, 1
  {
    if parts == [] then [] else Stream(items[0], parts[0], less) + StreamParts(items[1..], parts[1..], less)
  }

  /** The number whose digits to the base 256 are given, the least significant first. */
  function NumberOf(digits: seq<Byte>): nat {
    if digits == [] then 0 else digits[0] + 256 * NumberOf(digits[1..])
  }

  lemma {:induction false} LittleEndianDigits(n: nat, width: nat)
    requires n < Power(width)
    ensures NumberOf(LittleEndian(n, width)) == n
    decreases width
  {
    if width > 0 {
      LittleEndianDigits(n / 256, width - 1);
      assert LittleEndian(n, width)[1..] == LittleEndian(n / 256, width - 1);
    }
  }

  /** One value of each kind of type, and the bytes that it writes. */
  lemma {:induction false} StreamExamples(less: (Value, Value) -> bool)
    ensures Stream(B(true), Bool, less) == [1] && Stream(B(false), Bool, less) == [0]
    ensures Stream(C('a'), Char, less) == [97, 0, 0, 0] && Stream(I(0x0102), Int(2, false), less) == [2, 1]
    ensures Stream(I(-2), Int(1, true), less) == [254] && Stream(S("a"), Str, less) == [97, 255]
    ensures Stream(Absent, Option(Bool), less) == [0, 0, 0, 0, 0, 0, 0, 0]
    ensures Stream(Present(B(true)), Option(Bool), less) == [1, 0, 0, 0, 0, 0, 0, 0, 1]
    ensures Stream(Items([B(true), B(false)]), Slice(Bool), less) == [2, 0, 0, 0, 0, 0, 0, 0, 1, 0]
    ensures Stream(Items([B(true), B(false)]), Tuple([Bool, Bool]), less) == [1, 0]
  {
    var items, types := [B(true), B(false)], [Bool, Bool];
    assert items[1..] == [B(false)] && items[1..][1..] == [] && types[1..] == [Bool] && types[1..][1..] == [];
    assert Usize(0) == [0, 0, 0, 0, 0, 0, 0, 0] && Usize(1) == [1, 0, 0, 0, 0, 0, 0, 0];
    assert Usize(2) == [2, 0, 0, 0, 0, 0, 0, 0];
    assert Utf8.Encode("a") == [97] by {
      assert "a"[1..] == "";
    }
    assert Power(1) == 256;
  }

  // ---------------------------------------------------------------------------------------------
  // Streams are prefix-free

  lemma {:induction false} LittleEndianInjective(n: nat, m: nat, width: nat)
    requires n < Power(width) && m < Power(width) && LittleEndian(n, width) == LittleEndian(m, width)
    ensures n == m
    decreases width
  {
    if width > 0 {
      var a, b := LittleEndian(n, width), LittleEndian(m, width);
      assert a[0] == b[0] && a[1..] == b[1..];
      LittleEndianInjective(n / 256, m / 256, width - 1);
    }
  }

  /** Two concatenations whose first parts are equally long agree part by part. */
  lemma {:induction false} SplitEqual<T>(a: seq<T>, b: seq<T>, s: seq<T>, t: seq<T>)
    requires a + s == b + t && |a| == |b|
    ensures a == b && s == t
  {
    assert a == (a + s)[..|a|] && b == (b + t)[..|b|];
    assert s == (a + s)[|a|..] && t == (b + t)[|b|..];
  }

  lemma {:induction false} Regroup<T>(a: seq<T>, b: seq<T>, s: seq<T>)
    ensures a + b + s == a + (b + s)
  {
  }

  lemma {:induction false} UsizeInjective(n: nat, m: nat, s: seq<Byte>, t: seq<Byte>)
    requires n < USIZE_LIMIT && m < USIZE_LIMIT && Usize(n) + s == Usize(m) + t
    ensures n == m && s == t
  {
    SplitEqual(Usize(n), Usize(m), s, t);
    assert Power(8) == USIZE_LIMIT by {
      assert Power(4) == 0x1_0000_0000;
      assert Power(6) == 256 * 256 * Power(4);
      assert Power(8) == 256 * 256 * Power(6);
    }
    LittleEndianInjective(n, m, 8);
  }

  lemma {:induction false} UnsignedInjective(n: int, m: int, width: nat, signed: bool)
    requires InRange(n, width, signed) && InRange(m, width, signed)
    requires LittleEndian(Unsigned(n, width), width) == LittleEndian(Unsigned(m, width), width)
    ensures n == m
  {
    LittleEndianInjective(Unsigned(n, width), Unsigned(m, width), width);
  }

  lemma {:induction false} CharInjective(c: char, d: char)
    requires LittleEndian(c as int, 4) == LittleEndian(d as int, 4)
    ensures c == d
  {
    assert Power(4) == 0x1_0000_0000;
    LittleEndianInjective(c as int, d as int, 4);
  }

  /**
   * For two values of one type, equal streams followed by anything come from equal values followed
   * by the same thing: the stream identifies the value, and sequences of streams do not run together.
   */
  lemma {:induction false} StreamPrefixFree(
    v: Value, w: Value, ty: Type, less: (Value, Value) -> bool, s: seq<Byte>, t: seq<Byte>)
    requires HasType(v, ty, less) && HasType(w, ty, less)
    requires Stream(v, ty, less) + s == Stream(w, ty, less) + t
    ensures v == w && s == t
    decreases ty, 2
  {
    match ty
    case Bool =>
      SplitEqual(Stream(v, ty, less), Stream(w, ty, less), s, t);
    case Char =>
      SplitEqual(Stream(v, ty, less), Stream(w, ty, less), s, t);
      CharInjective(v.c, w.c);
    case Int(width, signed) =>
      SplitEqual(Stream(v, ty, less), Stream(w, ty, less), s, t);
      UnsignedInjective(v.n, w.n, width, signed);
    case Str =>
      TerminatedInjective(v.s, w.s, s, t);
    case Option(of) =>
      OptionPrefixFree(v, w, ty, less, s, t);
    case Slice(of) =>
      ItemsPrefixFree(v.items, w.items, of, less, s, t);
    case Tuple(parts) =>
      PartsPrefixFree(v.items, w.items, parts, less, s, t);
    case BTreeSet(of) =>
      ItemsPrefixFree(v.items, w.items, of, less, s, t);
    case BTreeMap(entry) =>
      ItemsPrefixFree(v.items, w.items, entry, less, s, t);
  }

  lemma {:induction false} OptionPrefixFree(
    v: Value, w: Value, ty: Type, less: (Value, Value) -> bool, s: seq<Byte>, t: seq<Byte>)
    requires ty.Option? && HasType(v, ty, less) && HasType(w, ty, less)
    requires Stream(v, ty, less) + s == Stream(w, ty, less) + t
    ensures v == w && s == t
    decreases ty, 1
  {
    var x := OptionTail(v, ty, less, s);
    var y := OptionTail(w, ty, less, t);
    UsizeInjective(if v.Absent? then 0 else 1, if w.Absent? then 0 else 1, x, y);
    if v.Present? {
      StreamPrefixFree(v.v, w.v, ty.of, less, s, t);
    }
  }

  lemma {:induction false} OptionTail(v: Value, ty: Type, less: (Value, Value) -> bool, s: seq<Byte>)
    returns (tail: seq<Byte>)
    requires ty.Option? && HasType(v, ty, less)
    ensures Stream(v, ty, less) + s == Usize(if v.Absent? then 0 else 1) + tail
    ensures tail == if v.Absent? then s else Stream(v.v, ty.of, less) + s
  {
    tail := if v.Absent? then s else Stream(v.v, ty.of, less) + s;
    if v.Present? {
      Regroup(Usize(1), Stream(v.v, ty.of, less), s);
    }
  }

  lemma {:induction false} ItemsPrefixFree(
    a: seq<Value>, b: seq<Value>, of: Type, less: (Value, Value) -> bool, s: seq<Byte>, t: seq<Byte>)
    requires |a| < USIZE_LIMIT && |b| < USIZE_LIMIT && AllHaveType(a, of, less) && AllHaveType(b, of, less)
    requires Usize(|a|) + StreamAll(a, of, less) + s == Usize(|b|) + StreamAll(b, of, less) + t
    ensures a == b && s == t
    decreases of, 4
  {
    var x, y := StreamAll(a, of, less) + s, StreamAll(b, of, less) + t;
    Regroup(Usize(|a|), StreamAll(a, of, less), s);
    Regroup(Usize(|b|), StreamAll(b, of, less), t);
    UsizeInjective(|a|, |b|, x, y);
    AllPrefixFree(a, b, of, less, s, t);
  }

  lemma {:induction false} AllPrefixFree(
    a: seq<Value>, b: seq<Value>, of: Type, less: (Value, Value) -> bool, s: seq<Byte>, t: seq<Byte>)
    requires |a| == |b| && AllHaveType(a, of, less) && AllHaveType(b, of, less)
    requires StreamAll(a, of, less) + s == StreamAll(b, of, less) + t
    ensures a == b && s == t
    decreases of, 3, |a|
  {
    if a == [] {
      assert s == [] + s && t == [] + t;
    } else {
      var x, y := StreamAll(a[1..], of, less) + s, StreamAll(b[1..], of, less) + t;
      Regroup(Stream(a[0], of, less), StreamAll(a[1..], of, less), s);
      Regroup(Stream(b[0], of, less), StreamAll(b[1..], of, less), t);
      StreamPrefixFree(a[0], b[0], of, less, x, y);
      AllPrefixFree(a[1..], b[1..], of, less, s, t);
      assert a == [a[0]] + a[1..] && b == [b[0]] + b[1..];
    }
  }

  lemma {:induction false} PartsPrefixFree(
    a: seq<Value>, b: seq<Value>, parts: seq<Type>, less: (Value, Value) -> bool, s: seq<Byte>, t: seq<Byte>)
    requires |a| == |b| == |parts|
    requires forall i :: 0 <= i < |parts| ==> HasType(a[i], parts[i], less) && HasType(b[i], parts[i], less)
    requires StreamParts(a, parts, less) + s == StreamParts(b, parts, less) + t
    ensures a == b && s == t
    decreases parts, 1
  {
    if parts == [] {
      assert s == [] + s && t == [] + t;
    } else {
      var x, y := StreamParts(a[1..], parts[1..], less) + s, StreamParts(b[1..], parts[1..], less) + t;
      Regroup(Stream(a[0], parts[0], less), StreamParts(a[1..], parts[1..], less), s);
      Regroup(Stream(b[0], parts[0], less), StreamParts(b[1..], parts[1..], less), t);
      StreamPrefixFree(a[0], b[0], parts[0], less, x, y);
      PartsPrefixFree(a[1..], b[1..], parts[1..], less, s, t);
      assert a == [a[0]] + a[1..] && b == [b[0]] + b[1..];
    }
  }

  // ---------------------------------------------------------------------------------------------
  // Sets

  ghost predicate StrictOrder(less: (Value, Value) -> bool) {
    && (forall x :: !less(x, x))
    && (forall x, y, z :: less(x, y) && less(y, z) ==> less(x, z))
  }

  /** The ascending sequence of a set is determined by its elements. */
  lemma {:induction false} AscendingIsCanonical(a: seq<Value>, b: seq<Value>, less: (Value, Value) -> bool)
    requires StrictOrder(less) && Ascending(a, less) && Ascending(b, less)
    requires forall x :: x in a <==> x in b
    ensures a == b
    decreases |a|
  {
    assert a != [] ==> a[0] in b;
    assert b != [] ==> b[0] in a;
    if a != [] {
      SameHead(a, b, less);
      TailElements(a, less);
      TailElements(b, less);
      AscendingIsCanonical(a[1..], b[1..], less);
      assert a == [a[0]] + a[1..] && b == [b[0]] + b[1..];
    }
  }

  lemma {:induction false} SameHead(a: seq<Value>, b: seq<Value>, less: (Value, Value) -> bool)
    requires StrictOrder(less) && Ascending(a, less) && Ascending(b, less) && a != [] && b != []
    requires forall x :: x in a <==> x in b
    ensures a[0] == b[0]
  {
    assert a[0] in b && b[0] in a;
    var j :| 0 <= j < |b| && b[j] == a[0];
    var i :| 0 <= i < |a| && a[i] == b[0];
    Asymmetric(less, a[0], b[0]);
  }

  lemma {:induction false} Asymmetric(less: (Value, Value) -> bool, x: Value, y: Value)
    requires StrictOrder(less)
    ensures !(less(x, y) && less(y, x))
  {
    assert less(x, y) && less(y, x) ==> less(x, x);
  }

  lemma {:induction false} TailElements(a: seq<Value>, less: (Value, Value) -> bool)
    requires StrictOrder(less) && Ascending(a, less) && a != []
    ensures forall x :: x in a[1..] <==> x in a && x != a[0]
  {
    assert a == [a[0]] + a[1..];
    assert forall i :: 0 < i < |a| ==> less(a[0], a[i]);
    assert forall i :: 0 <= i < |a[1..]| ==> a[1..][i] == a[i + 1];
  }

  /** Two sets have the same stream exactly when they have the same elements. */
  lemma {:induction false} SetStreamsAgree(a: Value, b: Value, of: Type, less: (Value, Value) -> bool)
    requires StrictOrder(less) && HasType(a, BTreeSet(of), less) && HasType(b, BTreeSet(of), less)
    ensures Stream(a, BTreeSet(of), less) == Stream(b, BTreeSet(of), less)
       <==> (forall x :: x in a.items <==> x in b.items)
  {
    if Stream(a, BTreeSet(of), less) == Stream(b, BTreeSet(of), less) {
      StreamPrefixFree(a, b, BTreeSet(of), less, [], []);
    }
    if forall x :: x in a.items <==> x in b.items {
      AscendingIsCanonical(a.items, b.items, less);
    }
  }

  // ---------------------------------------------------------------------------------------------
  // The hasher

  /** Collects what is written to it; the hash function applied to the bytes is not modelled. */
  class CacheKeyHasher {
    var stream: seq<Byte>

    constructor ()
      ensures stream == []
    {
      stream := [];
    }

    method Write(bytes: seq<Byte>)
      modifies this
      ensures stream == old(stream) + bytes
    {
      stream := stream + bytes;
    }
  }

  /** Feeds a value to the hasher, as its `cache_key` implementation does. */
  method Feed(v: Value, ty: Type, less: (Value, Value) -> bool, state: CacheKeyHasher)
    requires HasType(v, ty, less)
    modifies state
    ensures state.stream == old(state.stream) + Stream(v, ty, less)
    decreases ty, 2
  {
    match ty
    case Bool =>
      state.Write([if v.b then 1 else 0]);
    case Char =>
      state.Write(LittleEndian(v.c as int, 4));
    case Int(width, signed) =>
      state.Write(LittleEndian(Unsigned(v.n, width), width));
    case Str =>
      FeedStr(v.s, state);
    case Option(of) =>
      FeedOption(v, ty, less, state);
    case Slice(of) =>
      FeedSlice(v.items, of, less, state);
    case Tuple(parts) =>
      FeedParts(v.items, parts, less, state);
    case BTreeSet(of) =>
      FeedSlice(v.items, of, less, state);
    case BTreeMap(entry) =>
      FeedSlice(v.items, entry, less, state);
  }

  method FeedStr(s: string, state: CacheKeyHasher)
    modifies state
    ensures state.stream == old(state.stream) + (Utf8.Encode(s) + [0xFF])
  {
    state.Write(Utf8.Encode(s));
    state.Write([0xFF]);
    Regroup(old(state.stream), Utf8.Encode(s), [0xFF]);
  }

  method FeedOption(v: Value, ty: Type, less: (Value, Value) -> bool, state: CacheKeyHasher)
    requires ty.Option? && HasType(v, ty, less)
    modifies state
    ensures state.stream == old(state.stream) + Stream(v, ty, less)
    decreases ty, 1
  {
    if v.Absent? {
      state.Write(Usize(0));
    } else {
      state.Write(Usize(1));
      Feed(v.v, ty.of, less, state);
      Regroup(old(state.stream), Usize(1), Stream(v.v, ty.of, less));
    }
  }

  method FeedSlice(items: seq<Value>, of: Type, less: (Value, Value) -> bool, state: CacheKeyHasher)
    requires AllHaveType(items, of, less)
    modifies state
    ensures state.stream == old(state.stream) + (Usize(|items|) + StreamAll(items, of, less))
    decreases of, 4
  {
    state.Write(Usize(|items|));
    FeedAll(items, of, less, state);
    Regroup(old(state.stream), Usize(|items|), StreamAll(items, of, less));
  }

  method FeedAll(items: seq<Value>, of: Type, less: (Value, Value) -> bool, state: CacheKeyHasher)
    requires AllHaveType(items, of, less)
    modifies state
    ensures state.stream == old(state.stream) + StreamAll(items, of, less)
    decreases of, 3
  {
    for i := 0 to |items|
      invariant state.stream == old(state.stream) + StreamAll(items[..i], of, less)
    {
      StreamAllStep(old(state.stream), items, i, of, less);
      Feed(items[i], of, less, state);
    }
    assert items[..|items|] == items;
  }

  method FeedParts(items: seq<Value>, parts: seq<Type>, less: (Value, Value) -> bool, state: CacheKeyHasher)
    requires |items| == |parts| && forall i :: 0 <= i < |parts| ==> HasType(items[i], parts[i], less)
    modifies state
    ensures state.stream == old(state.stream) + StreamParts(items, parts, less)
    decreases parts, 1
  {
    if parts != [] {
      Feed(items[0], parts[0], less, state);
      FeedParts(items[1..], parts[1..], less, state);
      Regroup(old(state.stream), Stream(items[0], parts[0], less), StreamParts(items[1..], parts[1..], less));
    }
  }

  lemma {:induction false} StreamAllStep(before: seq<Byte>, items: seq<Value>, i: nat, of: Type,
                                         less: (Value, Value) -> bool)
    requires AllHaveType(items, of, less) && i < |items|
    ensures before + StreamAll(items[..i + 1], of, less)
         == before + StreamAll(items[..i], of, less) + Stream(items[i], of, less)
    decreases i
  {
    if i == 0 {
      assert StreamAll(items[..1], of, less) == Stream(items[0], of, less) + StreamAll([], of, less);
      assert StreamAll(items[..0], of, less) == [];
    } else {
      assert items[..i + 1][1..] == items[1..][..i] && items[..i][1..] == items[1..][..i - 1];
      StreamAllStep(before + Stream(items[0], of, less), items[1..], i - 1, of, less);
      Regroup(before, Stream(items[0], of, less), StreamAll(items[1..][..i], of, less));
      Regroup(before, Stream(items[0], of, less), StreamAll(items[1..][..i - 1], of, less));
    }
  }
}
