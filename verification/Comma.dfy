/**
 * Models crates/uv-cli/src/comma.rs: requirements separated by commas, where commas inside brackets
 * and commas before a version operator do not separate.
 */
module Comma {
  import opened Wrappers

  const USIZE_MAX := 0xFFFF_FFFF_FFFF_FFFF

  /** The Unicode property White_Space, which `char::is_whitespace` and `str::trim` use. */
  predicate IsBlank(c: char) {
    var n := c as int;
    || 9 <= n <= 13 || n == 32 || n == 0x85 || n == 0xA0 || n == 0x1680
    || 0x2000 <= n <= 0x200A || n == 0x2028 || n == 0x2029 || n == 0x202F || n == 0x205F || n == 0x3000
  }

  predicate IsOperator(c: Option<char>) {
    c.Some? && c.value in "!=<>~"
  }

  function NextNonBlank(s: string): Option<char> {
    if s == [] then None else if IsBlank(s[0]) then NextNonBlank(s[1..]) else Some(s[0])
  }

  /** The bracket depth after one more character, saturating at both ends. */
  function Deeper(depth: nat, c: char): nat {
    if c == '[' then (if depth < USIZE_MAX then depth + 1 else depth)
    else if c == ']' then (if depth > 0 then depth - 1 else 0)
    else depth
  }

  function DepthFrom(depth: nat, s: string): nat {
    if s == [] then depth else Deeper(DepthFrom(depth, s[..|s| - 1]), s[|s| - 1])
  }

  function Depth(s: string): nat {
    DepthFrom(0, s)
  }

  /** A separating comma: outside brackets and not followed by a version operator. */
  predicate IsCut(s: string, i: nat)
    requires i < |s|
  {
    s[i] == ',' && Depth(s[..i]) == 0 && !IsOperator(NextNonBlank(s[i + 1..]))
  }

  /** How many more brackets the text opens than it closes. */
  function Excess(s: string): int {
    if s == [] then 0
    else Excess(s[..|s| - 1]) + if s[|s| - 1] == '[' then 1 else if s[|s| - 1] == ']' then -1 else 0
  }

  /** Wherever one starts to read, no bracket is open at the position. */
  ghost predicate IsOutside(s: string, i: nat)
    requires i <= |s|
  {
    forall j :: 0 <= j <= i ==> Excess(s[j..i]) <= 0
  }

  /** The first character after the position that is not blank begins a version operator. */
  ghost predicate HasOperatorAfter(s: string, i: nat)
    requires i < |s|
  {
    exists j :: i < j < |s| && s[j] in {'!', '=', '<', '>', '~'} && forall k :: i < k < j ==> IsBlank(s[k])
  }

  /** What a separating comma is, without counting depth. */
  ghost predicate IsSeparator(s: string, i: nat)
    requires i < |s|
  {
    s[i] == ',' && IsOutside(s, i) && !HasOperatorAfter(s, i)
  }

  lemma {:induction false} ExcessLast(s: string, j: nat)
    requires j < |s|
    ensures var n := |s| - 1;
      Excess(s[j..]) == Excess(s[j..n]) + if s[n] == '[' then 1 else if s[n] == ']' then -1 else 0
  {
    assert s[j..][..|s| - 1 - j] == s[j..|s| - 1];
  }

  /** The depth is the greatest excess of any part of the text that reaches to its end. */
  lemma {:induction false} DepthIsGreatest(s: string) returns (k: nat)
    requires |s| <= USIZE_MAX
    ensures Depth(s) <= |s| && k <= |s| && Excess(s[k..]) == Depth(s)
    ensures forall j :: 0 <= j <= |s| ==> Excess(s[j..]) <= Depth(s)
  {
    if s == [] {
      k := 0;
    } else {
      var n := |s| - 1;
      var before := s[..n];
      k := DepthIsGreatest(before);
      forall j: nat | j <= n
        ensures Excess(s[j..]) == Excess(before[j..]) + if s[n] == '[' then 1 else if s[n] == ']' then -1 else 0
      {
        ExcessLast(s, j);
        assert before[j..] == s[j..n];
      }
      if s[n] == ']' && Depth(before) == 0 {
        k := |s|;
      }
    }
  }

  lemma {:induction false} DepthIsZero(s: string, i: nat)
    requires |s| <= USIZE_MAX && i <= |s|
    ensures Depth(s[..i]) == 0 <==> IsOutside(s, i)
  {
    var k := DepthIsGreatest(s[..i]);
    assert forall j :: 0 <= j <= i ==> s[..i][j..] == s[j..i];
  }

  lemma {:induction false} NextIs(s: string) returns (j: nat)
    ensures j <= |s| && (forall k :: 0 <= k < j ==> IsBlank(s[k])) && (j < |s| ==> !IsBlank(s[j]))
    ensures NextNonBlank(s) == if j < |s| then Some(s[j]) else None
  {
    if s == [] || !IsBlank(s[0]) {
      j := 0;
    } else {
      var rest := NextIs(s[1..]);
      j := rest + 1;
      assert forall k :: 0 < k < j ==> s[k] == s[1..][k - 1];
    }
  }

  lemma {:induction false} OperatorIsNext(s: string, i: nat)
    requires i < |s|
    ensures IsOperator(NextNonBlank(s[i + 1..])) <==> HasOperatorAfter(s, i)
  {
    var rest := s[i + 1..];
    var j := NextIs(rest);
    assert forall k :: i < k < |s| ==> s[k] == rest[k - i - 1];
    assert j < |rest| ==> s[i + 1 + j] == rest[j];
  }

  /** The cuts that the code finds by counting are the separators. */
  lemma {:induction false} CutIsSeparator(s: string, i: nat)
    requires i < |s| <= USIZE_MAX
    ensures IsCut(s, i) <==> IsSeparator(s, i)
  {
    DepthIsZero(s, i);
    OperatorIsNext(s, i);
  }

  /** The positions of the separating commas among the first `n` characters, ascending. */
  function Cuts(s: string, n: nat): (r: seq<nat>)
    requires n <= |s|
    ensures forall k :: 0 <= k < |r| ==> r[k] < n
  {
    if n == 0 then [] else Cuts(s, n - 1) + (if IsCut(s, n - 1) then [n - 1] else [])
  }

  /** The pieces before each separating comma. */
  function Before(s: string, cuts: seq<nat>): seq<string>
    requires forall k :: 0 <= k < |cuts| ==> cuts[k] < |s|
  {
    if cuts == [] then [] else
      var n := |cuts| - 1;
      Before(s, cuts[..n]) + [Slice(s, Start(cuts[..n]), cuts[n])]
  }

  /** Where the piece after the last separating comma starts. */
  function Start(cuts: seq<nat>): nat {
    if cuts == [] then 0 else cuts[|cuts| - 1] + 1
  }

  function Slice(s: string, i: nat, j: nat): string {
    if i <= j <= |s| then s[i..j] else ""
  }

  function PiecesAt(s: string, cuts: seq<nat>): seq<string>
    requires forall k :: 0 <= k < |cuts| ==> cuts[k] < |s|
  {
    Before(s, cuts) + [Slice(s, Start(cuts), |s|)]
  }

  function Pieces(s: string): seq<string> {
    PiecesAt(s, Cuts(s, |s|))
  }

  function TrimStart(s: string): string {
    if s != [] && IsBlank(s[0]) then TrimStart(s[1..]) else s
  }

  function TrimEnd(s: string): string {
    if s != [] && IsBlank(s[|s| - 1]) then TrimEnd(s[..|s| - 1]) else s
  }

  function Trim(s: string): string {
    TrimEnd(TrimStart(s))
  }

  /** The pieces without surrounding blanks, leaving out those that are empty then. */
  function Cleaned(pieces: seq<string>): seq<string> {
    if pieces == [] then [] else
      var n := |pieces| - 1;
      var last := Trim(pieces[n]);
      Cleaned(pieces[..n]) + (if last == "" then [] else [last])
  }

  predicate AllBlank(s: string) {
    forall i :: 0 <= i < |s| ==> IsBlank(s[i])
  }

  /** `t` is `s` without the blanks around it. */
  ghost predicate IsTrimmed(s: string, t: string) {
    && (exists a, b :: IsAround(s, a, t, b))
    && (t != "" ==> !IsBlank(t[0]) && !IsBlank(t[|t| - 1]))
  }

  predicate IsAround(s: string, a: string, t: string, b: string) {
    s == a + t + b && AllBlank(a) && AllBlank(b)
  }

  predicate IsAscending(at: seq<nat>, n: nat) {
    (forall k :: 0 <= k < |at| ==> at[k] < n) && forall j, k :: 0 <= j < k < |at| ==> at[j] < at[k]
  }

  /** `at` are the positions of the pieces that are not blank, and the requirements are these pieces, trimmed. */
  ghost predicate AreAt(pieces: seq<string>, requirements: seq<string>, at: seq<nat>) {
    && |at| == |requirements| && IsAscending(at, |pieces|)
    && (forall k :: 0 <= k < |at| ==> requirements[k] != "" && IsTrimmed(pieces[at[k]], requirements[k]))
    && (forall i :: 0 <= i < |pieces| && i !in at ==> AllBlank(pieces[i]))
  }

  /** The requirements are, in order, the trimmed pieces that are not blank. */
  ghost predicate AreTrimmedPieces(pieces: seq<string>, requirements: seq<string>) {
    exists at :: AreAt(pieces, requirements, at)
  }

  /**
   * Besides the separating commas, only blanks around the pieces are lost: the pieces are the input
   * cut at exactly these commas, and the requirements are the pieces that are not blank, trimmed.
   */
  method FromStr(input: string) returns (requirements: seq<string>)
    ensures requirements == Cleaned(Pieces(input))
    ensures AreTrimmedPieces(Pieces(input), requirements)
    ensures Join(Pieces(input)) == input
    ensures forall i: nat :: |input| <= USIZE_MAX ==>
              (i in Cuts(input, |input|) <==> i < |input| && IsSeparator(input, i))
  {
    JoinPieces(input);
    CutsAreExact(input, |input|);
    forall i: nat | i < |input| <= USIZE_MAX ensures IsCut(input, i) <==> IsSeparator(input, i) {
      CutIsSeparator(input, i);
    }
    CleanedAreTrimmed(Pieces(input));
    requirements := Split(input);
  }

  method Split(input: string) returns (requirements: seq<string>)
    ensures requirements == Cleaned(Pieces(input))
  {
    requirements := [];
    var depth, start := 0, 0;
    ghost var cuts: seq<nat> := [];
    for i := 0 to |input|
      invariant depth == Depth(input[..i]) && start == Start(cuts) <= i
      invariant cuts == Cuts(input, i)
      invariant requirements == Cleaned(Before(input, cuts))
    {
      NextDepth(input, i);
      if input[i] == ',' && depth == 0 && !IsOperator(NextNonBlank(input[i + 1..])) {
        requirements := Push(requirements, input[start..i], Before(input, cuts));
        BeforeStep(input, cuts, i);
        cuts, start := cuts + [i], i + 1;
      }
      depth := Deeper(depth, input[i]);
    }
    assert input[start..] == Slice(input, Start(cuts), |input|);
    requirements := Push(requirements, input[start..], Before(input, cuts));
  }

  lemma {:induction false} NextDepth(s: string, i: nat)
    requires i < |s|
    ensures Depth(s[..i + 1]) == Deeper(Depth(s[..i]), s[i])
  {
    assert s[..i + 1][..i] == s[..i];
  }

  lemma {:induction false} BeforeStep(s: string, cuts: seq<nat>, i: nat)
    requires Start(cuts) <= i < |s| && forall k :: 0 <= k < |cuts| ==> cuts[k] < |s|
    ensures Before(s, cuts + [i]) == Before(s, cuts) + [s[Start(cuts)..i]]
  {
    assert (cuts + [i])[..|cuts|] == cuts;
  }

  method Push(requirements: seq<string>, piece: string, ghost before: seq<string>) returns (r: seq<string>)
    requires requirements == Cleaned(before)
    ensures r == Cleaned(before + [piece])
  {
    r := requirements;
    var requirement := Trim(piece);
    assert (before + [piece])[..|before|] == before;
    if requirement != "" {
      r := r + [requirement];
    }
  }

  // ---------------------------------------------------------------------------------------------
  // Trimming

  lemma {:induction false} TrimStartCuts(s: string) returns (a: string)
    ensures s == a + TrimStart(s) && AllBlank(a)
    ensures TrimStart(s) != "" ==> !IsBlank(TrimStart(s)[0])
  {
    if s != [] && IsBlank(s[0]) {
      var rest := TrimStartCuts(s[1..]);
      a := [s[0]] + rest;
      assert s == [s[0]] + s[1..];
    } else {
      a := "";
    }
  }

  lemma {:induction false} TrimEndCuts(s: string) returns (b: string)
    ensures s == TrimEnd(s) + b && AllBlank(b)
    ensures TrimEnd(s) != "" ==> !IsBlank(TrimEnd(s)[|TrimEnd(s)| - 1]) && TrimEnd(s)[0] == s[0]
  {
    if s != [] && IsBlank(s[|s| - 1]) {
      var n := |s| - 1;
      var rest := TrimEndCuts(s[..n]);
      b := rest + [s[n]];
      assert s == s[..n] + [s[n]];
    } else {
      b := "";
    }
  }

  /** Trimming takes away blanks at both ends, and all of them. */
  lemma {:induction false} TrimIsTrimmed(s: string)
    ensures IsTrimmed(s, Trim(s))
  {
    var a := TrimStartCuts(s);
    var b := TrimEndCuts(TrimStart(s));
    assert a + (Trim(s) + b) == a + Trim(s) + b;
    assert IsAround(s, a, Trim(s), b);
  }

  lemma {:induction false} BlankIfEmpty(s: string)
    requires Trim(s) == ""
    ensures AllBlank(s)
  {
    var a := TrimStartCuts(s);
    var b := TrimEndCuts(TrimStart(s));
    assert s == a + b;
  }

  lemma {:induction false} CleanedAreTrimmed(pieces: seq<string>)
    ensures AreTrimmedPieces(pieces, Cleaned(pieces))
  {
    var at := PositionsOfCleaned(pieces);
  }

  lemma {:induction false} PositionsOfCleaned(pieces: seq<string>) returns (at: seq<nat>)
    ensures AreAt(pieces, Cleaned(pieces), at)
    decreases |pieces|
  {
    if pieces == [] {
      at := [];
    } else {
      var n := |pieces| - 1;
      var before := PositionsOfCleaned(pieces[..n]);
      at := OneMorePiece(pieces, pieces[..n], Cleaned(pieces[..n]), before);
    }
  }

  lemma {:induction false} OneMorePiece(pieces: seq<string>, before: seq<string>, requirements: seq<string>,
                                        at: seq<nat>)
    returns (at': seq<nat>)
    requires AreAt(before, requirements, at) && |pieces| == |before| + 1 && before == pieces[..|before|]
    ensures var last := Trim(pieces[|before|]);
      AreAt(pieces, requirements + (if last == "" then [] else [last]), at')
  {
    var piece := pieces[|before|];
    TrimIsTrimmed(piece);
    if Trim(piece) == "" {
      BlankIfEmpty(piece);
      assert requirements + [] == requirements;
      at' := at;
    } else {
      NextPosition(before, piece, at);
      at' := at + [|before|];
    }
  }

  lemma {:induction false} NextPosition(pieces: seq<string>, piece: string, at: seq<nat>)
    requires IsAscending(at, |pieces|)
    ensures IsAscending(at + [|pieces|], |pieces| + 1)
    ensures forall i :: 0 <= i < |pieces| ==> (i in at + [|pieces|] <==> i in at)
  {
  }

  /** The cuts are the positions of all separating commas. */
  lemma {:induction false} CutsAreExact(s: string, n: nat)
    requires n <= |s|
    ensures forall i: nat :: i in Cuts(s, n) <==> i < n && IsCut(s, i)
  {
    if n > 0 {
      CutsAreExact(s, n - 1);
    }
  }

  // ---------------------------------------------------------------------------------------------
  // Nothing is lost

  function Join(pieces: seq<string>): string {
    if pieces == [] then ""
    else if |pieces| == 1 then pieces[0]
    else Join(pieces[..|pieces| - 1]) + "," + pieces[|pieces| - 1]
  }

  lemma {:induction false} JoinSnoc(before: seq<string>, piece: string)
    ensures Join(before + [piece]) == if before == [] then piece else Join(before) + "," + piece
  {
    assert (before + [piece])[..|before|] == before;
  }

  lemma {:induction false} JoinExtend(before: seq<string>, piece: string, c: char)
    ensures Join(before + [piece + [c]]) == Join(before + [piece]) + [c]
  {
    JoinSnoc(before, piece);
    JoinSnoc(before, piece + [c]);
    assert Join(before) + "," + (piece + [c]) == Join(before) + "," + piece + [c];
  }

  /** The text up to position `n`, rebuilt from the pieces that end there. */
  function Rejoined(s: string, cuts: seq<nat>, n: nat): string
    requires forall k :: 0 <= k < |cuts| ==> cuts[k] < |s|
  {
    Join(Before(s, cuts) + [Slice(s, Start(cuts), n)])
  }

  lemma {:induction false} RejoinBetween(s: string, cuts: seq<nat>, n: nat)
    requires Start(cuts) <= n < |s| && forall k :: 0 <= k < |cuts| ==> cuts[k] < |s|
    ensures Rejoined(s, cuts, n + 1) == Rejoined(s, cuts, n) + [s[n]]
  {
    assert s[Start(cuts)..n + 1] == s[Start(cuts)..n] + [s[n]];
    JoinExtend(Before(s, cuts), s[Start(cuts)..n], s[n]);
  }

  lemma {:induction false} RejoinCut(s: string, cuts: seq<nat>, n: nat)
    requires Start(cuts) <= n < |s| && s[n] == ',' && forall k :: 0 <= k < |cuts| ==> cuts[k] < |s|
    ensures Rejoined(s, cuts + [n], n + 1) == Rejoined(s, cuts, n) + ","
  {
    BeforeStep(s, cuts, n);
    var pieces := Before(s, cuts) + [s[Start(cuts)..n]];
    JoinSnoc(pieces, "");
    assert Join(pieces) + "," + "" == Join(pieces) + ",";
  }

  lemma {:induction false} CutsStart(s: string, n: nat)
    requires n <= |s|
    ensures Start(Cuts(s, n)) <= n
  {
  }

  lemma {:induction false} CutsStep(s: string, n: nat)
    requires n < |s|
    ensures Cuts(s, n + 1) == if IsCut(s, n) then Cuts(s, n) + [n] else Cuts(s, n)
  {
  }

  lemma {:induction false} RejoinStep(s: string, n: nat)
    requires n < |s|
    ensures Rejoined(s, Cuts(s, n + 1), n + 1) == Rejoined(s, Cuts(s, n), n) + [s[n]]
  {
    CutsStart(s, n);
    CutsStep(s, n);
    if IsCut(s, n) {
      RejoinCut(s, Cuts(s, n), n);
    } else {
      RejoinBetween(s, Cuts(s, n), n);
    }
  }

  /** A text that grows by the characters of `s`, one by one, is `s`. */
  lemma {:induction false} Telescopes(s: string, f: nat -> string, n: nat)
    requires f(0) == "" && n <= |s| && forall k: nat :: k < |s| ==> f(k + 1) == f(k) + [s[k]]
    ensures f(n) == s[..n]
  {
    if n > 0 {
      Telescopes(s, f, n - 1);
      assert f(n - 1 + 1) == f(n - 1) + [s[n - 1]];
      assert s[..n] == s[..n - 1] + [s[n - 1]];
    }
  }

  /** The input is its pieces joined by the separating commas: nothing else is dropped by the cuts. */
  lemma {:induction false} JoinPieces(s: string)
    ensures Join(Pieces(s)) == s
  {
    var f := (k: nat) => if k <= |s| then Rejoined(s, Cuts(s, k), k) else "";
    RejoinedGrows(s, f);
    Telescopes(s, f, |s|);
    assert s[..|s|] == s;
  }

  lemma {:induction false} RejoinedGrows(s: string, f: nat -> string)
    requires forall k: nat :: k <= |s| ==> f(k) == Rejoined(s, Cuts(s, k), k)
    ensures f(0) == "" && forall k: nat :: k < |s| ==> f(k + 1) == f(k) + [s[k]]
  {
    NothingRejoined(s);
    assert f(0) == "";
    forall k: nat | k < |s| ensures f(k + 1) == f(k) + [s[k]] {
      RejoinStep(s, k);
    }
  }

  lemma {:induction false} NothingRejoined(s: string)
    ensures Rejoined(s, Cuts(s, 0), 0) == ""
  {
    assert [] + [""] == [""];
  }

  // ---------------------------------------------------------------------------------------------
  // Splitting inverts joining

  predicate NoCut(s: string) {
    forall i :: 0 <= i < |s| ==> !IsCut(s, i)
  }

  /** A piece that joining with commas leaves alone: see `PiecesOfJoin`. */
  predicate IsPiece(s: string) {
    NoCut(s) && Depth(s) == 0 && !IsOperator(NextNonBlank(s))
  }

  predicate ArePieces(pieces: seq<string>) {
    forall k :: 0 <= k < |pieces| ==> IsPiece(pieces[k])
  }

  lemma {:induction false} DepthConcat(depth: nat, a: string, b: string)
    ensures DepthFrom(depth, a + b) == DepthFrom(DepthFrom(depth, a), b)
    decreases |b|
  {
    if b == [] {
      assert a + b == a;
    } else {
      var n := |b| - 1;
      assert (a + b)[..|a| + n] == a + b[..n];
      DepthConcat(depth, a, b[..n]);
    }
  }

  lemma {:induction false} NextNonBlankConcat(a: string, b: string)
    ensures NextNonBlank(a + b) == if NextNonBlank(a).Some? then NextNonBlank(a) else NextNonBlank(b)
    decreases |a|
  {
    if a == [] {
      assert a + b == b;
    } else {
      assert (a + b)[1..] == a[1..] + b;
      NextNonBlankConcat(a[1..], b);
    }
  }

  /** Appending a comma and another piece keeps the cuts of a text. */
  lemma {:induction false} CutsToTheLeft(a: string, b: string, i: nat)
    requires i < |a|
    ensures IsCut(a + "," + b, i) <==> IsCut(a, i)
  {
    var s := a + "," + b;
    assert s[..i] == a[..i] && s[i + 1..] == a[i + 1..] + ("," + b);
    NextNonBlankConcat(a[i + 1..], "," + b);
  }

  lemma {:induction false} TakeDrop(x: string, y: string, i: nat)
    requires i < |y|
    ensures (x + y)[..|x| + i] == x + y[..i] && (x + y)[|x| + i + 1..] == y[i + 1..]
  {
  }

  /** After a comma outside brackets the text is cut as if it stood alone. */
  lemma {:induction false} CutsToTheRight(a: string, b: string, i: nat)
    requires Depth(a) == 0 && i < |b|
    ensures IsCut(a + "," + b, |a| + 1 + i) <==> IsCut(b, i)
  {
    TakeDrop(a + ",", b, i);
    DepthConcat(0, a + ",", b[..i]);
    DepthConcat(0, a, ",");
    assert ","[..0] == "";
  }

  lemma {:induction false} CutInBetween(a: string, b: string)
    requires Depth(a) == 0
    ensures IsCut(a + "," + b, |a|) <==> !IsOperator(NextNonBlank(b))
  {
    var s := a + "," + b;
    assert s[..|a|] == a && s[|a| + 1..] == b;
  }

  lemma {:induction false} CutsOfPrefix(a: string, b: string, n: nat)
    requires n <= |a|
    ensures Cuts(a + "," + b, n) == Cuts(a, n)
    decreases n
  {
    if n > 0 {
      CutsOfPrefix(a, b, n - 1);
      CutsToTheLeft(a, b, n - 1);
    }
  }

  lemma {:induction false} CutsOfSuffix(a: string, b: string, n: nat)
    requires Depth(a) == 0 && IsPiece(b) && n <= |b|
    ensures Cuts(a + "," + b, |a| + 1 + n) == Cuts(a, |a|) + [|a|]
    decreases n
  {
    if n == 0 {
      CutsOfPrefix(a, b, |a|);
      CutInBetween(a, b);
    } else {
      CutsOfSuffix(a, b, n - 1);
      CutsToTheRight(a, b, n - 1);
    }
  }

  lemma {:induction false} SliceOfPrefix(a: string, t: string, i: nat, j: nat)
    requires j <= |a|
    ensures Slice(a + t, i, j) == Slice(a, i, j)
  {
  }

  lemma {:induction false} BeforeOfPrefix(a: string, t: string, cuts: seq<nat>)
    requires forall k :: 0 <= k < |cuts| ==> cuts[k] < |a|
    ensures Before(a + t, cuts) == Before(a, cuts)
    decreases |cuts|
  {
    if cuts != [] {
      var n := |cuts| - 1;
      BeforeOfPrefix(a, t, cuts[..n]);
      SliceOfPrefix(a, t, Start(cuts[..n]), cuts[n]);
    }
  }

  /** One more piece behind a comma is one more piece of the text. */
  lemma {:induction false} PiecesSnoc(a: string, b: string, s: string)
    requires s == a + "," + b && Depth(a) == 0 && IsPiece(b)
    ensures Pieces(s) == Pieces(a) + [b]
  {
    CutsSnoc(a, b, s);
    PiecesWithOneMoreCut(a, b, s);
  }

  lemma {:induction false} CutsSnoc(a: string, b: string, s: string)
    requires s == a + "," + b && Depth(a) == 0 && IsPiece(b)
    ensures Cuts(s, |s|) == Cuts(a, |a|) + [|a|]
  {
    CutsOfSuffix(a, b, |b|);
  }

  lemma {:induction false} PiecesWithOneMoreCut(a: string, b: string, s: string)
    requires s == a + "," + b && Cuts(s, |s|) == Cuts(a, |a|) + [|a|]
    ensures Pieces(s) == Pieces(a) + [b]
  {
    PiecesAfterCut(a, b, s, Cuts(a, |a|));
  }

  lemma {:induction false} PiecesAfterCut(a: string, b: string, s: string, cuts: seq<nat>)
    requires s == a + "," + b && Start(cuts) <= |a| && forall k :: 0 <= k < |cuts| ==> cuts[k] < |a|
    ensures PiecesAt(s, cuts + [|a|]) == PiecesAt(a, cuts) + [b]
  {
    var t := "," + b;
    assert s == a + t;
    BeforeOfPrefix(a, t, cuts);
    BeforeStep(s, cuts, |a|);
    SliceOfPrefix(a, t, Start(cuts), |a|);
    assert Slice(s, |a| + 1, |s|) == b;
  }

  lemma {:induction false} JoinDepth(pieces: seq<string>)
    requires ArePieces(pieces)
    ensures Depth(Join(pieces)) == 0
    decreases |pieces|
  {
    if |pieces| > 1 {
      var n := |pieces| - 1;
      JoinDepth(pieces[..n]);
      DepthConcat(0, Join(pieces[..n]) + ",", pieces[n]);
      DepthConcat(0, Join(pieces[..n]), ",");
      assert ","[..0] == "";
    }
  }

  lemma {:induction false} NoCuts(s: string, n: nat)
    requires NoCut(s) && n <= |s|
    ensures Cuts(s, n) == []
    decreases n
  {
    if n > 0 {
      NoCuts(s, n - 1);
    }
  }

  lemma {:induction false} PiecesOfOne(s: string)
    requires NoCut(s)
    ensures Pieces(s) == [s]
  {
    NoCuts(s, |s|);
    assert s[0..|s|] == s;
  }

  /** Splitting gives back any pieces that are whole, balanced and do not start with an operator. */
  lemma {:induction false} PiecesOfJoin(pieces: seq<string>)
    requires pieces != [] && ArePieces(pieces)
    ensures Pieces(Join(pieces)) == pieces
    decreases |pieces|
  {
    var n := |pieces| - 1;
    if n == 0 {
      PiecesOfOne(pieces[0]);
      assert pieces == [pieces[0]];
    } else {
      PiecesOfJoin(pieces[..n]);
      JoinDepth(pieces[..n]);
      JoinedSnoc(pieces, n, Join(pieces[..n]));
    }
  }

  lemma {:induction false} JoinedSnoc(pieces: seq<string>, n: nat, before: string)
    requires 0 < n == |pieces| - 1 && IsPiece(pieces[n]) && before == Join(pieces[..n])
    requires Pieces(before) == pieces[..n] && Depth(before) == 0
    ensures Pieces(Join(pieces)) == pieces
  {
    assert Join(pieces) == before + "," + pieces[n];
    PiecesSnoc(before, pieces[n], before + "," + pieces[n]);
    assert pieces == pieces[..n] + [pieces[n]];
  }

  /** A requirement as a user would write it: not empty, without surrounding blanks, and a piece. */
  predicate IsRequirement(s: string) {
    s != "" && !IsBlank(s[0]) && !IsBlank(s[|s| - 1]) && IsPiece(s)
  }

  predicate AreTidy(rs: seq<string>) {
    forall k :: 0 <= k < |rs| ==> rs[k] != "" && !IsBlank(rs[k][0]) && !IsBlank(rs[k][|rs[k]| - 1])
  }

  lemma {:induction false} CleanedRequirements(rs: seq<string>)
    requires AreTidy(rs)
    ensures Cleaned(rs) == rs
    decreases |rs|
  {
    if rs != [] {
      CleanedRequirements(rs[..|rs| - 1]);
      TrimKeeps(rs[|rs| - 1]);
      assert rs == rs[..|rs| - 1] + [rs[|rs| - 1]];
    }
  }

  lemma {:induction false} TrimKeeps(s: string)
    requires s != "" && !IsBlank(s[0]) && !IsBlank(s[|s| - 1])
    ensures Trim(s) == s
  {
  }

  /** `FromStr` inverts joining with commas on every list of well-formed requirements. */
  lemma {:induction false} JoinThenSplit(rs: seq<string>)
    requires forall k :: 0 <= k < |rs| ==> IsRequirement(rs[k])
    ensures Cleaned(Pieces(Join(rs))) == rs
  {
    CleanedRequirements(rs);
    if rs == [] {
      PiecesOfOne("");
      assert [""][..0] == [];
    } else {
      assert ArePieces(rs);
      PiecesOfJoin(rs);
    }
  }
}
