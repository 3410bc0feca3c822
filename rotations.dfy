/**
 * The rotation tokens of the puzzle ("R1", "U3", ...), what each one does to
 * the facelets, what `rotate` appends to the move log, and the filter that
 * keeps the tokens on other faces.
 */
module Rotations {
  import opened Wrappers
  import opened Facelets
  import opened Turns

  /** `valid_rotates`: face letter, then the number of clockwise quarter turns. */
  const ValidRotates: seq<string> :=
    ["R1", "R2", "R3", "L1", "L2", "L3",
     "U1", "U2", "U3", "D1", "D2", "D3",
     "F1", "F2", "F3", "B1", "B2", "B3"]

  /** `faces`: the letter of each face number. */
  const FaceLetters: seq<char> := ['U', 'L', 'F', 'R', 'B', 'D']

  /** A token read as a face number and a number of quarter turns. */
  datatype Rotation = Rotation(face: nat, quarters: nat)

  predicate ValidRotation(x: Rotation) {
    x.face < 6 && 1 <= x.quarters <= 3
  }

  function FaceNumber(c: char): (f: Option<nat>)
    ensures f.Some? <==> c in FaceLetters
    ensures f.Some? ==> f.value < 6 && FaceLetters[f.value] == c
  {
    if c == 'U' then Some(0)
    else if c == 'L' then Some(1)
    else if c == 'F' then Some(2)
    else if c == 'R' then Some(3)
    else if c == 'B' then Some(4)
    else if c == 'D' then Some(5)
    else None
  }

  /** The rotation a token names, if it is one of the 18 tokens `rotate` accepts. */
  function Parse(r: string): (x: Option<Rotation>)
    ensures x.Some? ==> ValidRotation(x.value)
  {
    if |r| == 2 && FaceNumber(r[0]).Some? && '1' <= r[1] <= '3' then
      Some(Rotation(FaceNumber(r[0]).value, r[1] as int - '0' as int))
    else
      None
  }

  function Token(x: Rotation): (r: string)
    requires ValidRotation(x)
    ensures |r| == 2 && r[0] == FaceLetters[x.face]
  {
    [FaceLetters[x.face], (x.quarters + '0' as int) as char]
  }

  lemma ParseToken(x: Rotation)
    requires ValidRotation(x)
    ensures Parse(Token(x)) == Some(x)
  {
  }

  lemma TokenParse(r: string)
    requires Parse(r).Some?
    ensures Token(Parse(r).value) == r
  {
    assert Token(Parse(r).value) == [r[0], r[1]];
  }

  /** Where the token of x sits in `valid_rotates`. */
  function Rank(x: Rotation): (n: nat)
    requires ValidRotation(x)
    ensures n < 18 && ValidRotates[n] == Token(x)
  {
    var n := [2, 1, 4, 0, 5, 3][x.face] * 3 + x.quarters - 1;
    assert ValidRotates[n] == Token(x) by {
      if x.face == 0 {} else if x.face == 1 {} else if x.face == 2 {}
      else if x.face == 3 {} else if x.face == 4 {} else {}
    }
    n
  }

  /** The tokens `rotate` accepts are exactly the entries of `valid_rotates`. */
  lemma ParseValidRotates(r: string)
    ensures Parse(r).Some? <==> r in ValidRotates
  {
    if Parse(r).Some? {
      TokenParse(r);
      assert ValidRotates[Rank(Parse(r).value)] == r;
    }
    if r in ValidRotates {
      var n :| 0 <= n < 18 && ValidRotates[n] == r;
      assert Parse(ValidRotates[n]).Some? by {
        if n < 6 {} else if n < 12 {} else {}
      }
    }
  }

  /** What `rotate(r)` does to the facelets: an unknown token changes nothing. */
  function ApplyToken(s: seq<int>, r: string): (t: seq<int>)
    requires |s| == 54
    ensures |t| == 54
  {
    match Parse(r)
    case None => s
    case Some(x) => TurnQuarters(s, x.face, x.quarters)
  }

  /** The token that undoes a rotation: the same face, 4 - n quarter turns. */
  function Inverse(r: string): (u: string)
    requires Parse(r).Some?
    ensures Parse(u).Some? && Parse(u).value.face == Parse(r).value.face
  {
    var x := Parse(r).value;
    ParseToken(Rotation(x.face, 4 - x.quarters));
    Token(Rotation(x.face, 4 - x.quarters))
  }

  /** `X1` then `X3`, `X2` then `X2` and `X3` then `X1` restore the cube. */
  lemma InverseRestores(s: seq<int>, r: string)
    requires |s| == 54 && Parse(r).Some?
    ensures ApplyToken(ApplyToken(s, r), Inverse(r)) == s
  {
    var x := Parse(r).value;
    TurnQuartersInverse(s, x.face, x.quarters);
  }

  lemma InverseInvolution(r: string)
    requires Parse(r).Some?
    ensures Inverse(Inverse(r)) == r
  {
    TokenParse(r);
  }

  /** A valid token only permutes the facelets. */
  lemma TokenColours(s: seq<int>, r: string)
    requires |s| == 54
    ensures multiset(ApplyToken(s, r)) == multiset(s)
  {
    if Parse(r).Some? {
      TurnQuartersColours(s, Parse(r).value.face, Parse(r).value.quarters);
    }
  }

  /** The `X1` token of the face a valid token turns. */
  function Single(r: string): (r1: string)
    requires Parse(r).Some?
    ensures Parse(r1) == Some(Rotation(Parse(r).value.face, 1))
  {
    ParseToken(Rotation(Parse(r).value.face, 1));
    Token(Rotation(Parse(r).value.face, 1))
  }

  /**
   * The `X1` token `rotate` repeats for each `X2` and `X3` token is the one
   * the source calls by name: "R1" for "R2" and "R3", and so on.
   */
  lemma NestedTokens()
    ensures Single("R2") == "R1" && Single("R3") == "R1"
    ensures Single("L2") == "L1" && Single("L3") == "L1"
    ensures Single("U2") == "U1" && Single("U3") == "U1"
    ensures Single("D2") == "D1" && Single("D3") == "D1"
    ensures Single("F2") == "F1" && Single("F3") == "F1"
    ensures Single("B2") == "B1" && Single("B3") == "B1"
  {
  }

  /** `X2` and `X3` are `X1` applied two and three times. */
  lemma RepeatSingle(s: seq<int>, r: string)
    requires |s| == 54 && Parse(r).Some?
    ensures var r1, q := Single(r), Parse(r).value.quarters;
      ApplyToken(s, r) ==
        if q == 1 then ApplyToken(s, r1)
        else if q == 2 then ApplyToken(ApplyToken(s, r1), r1)
        else ApplyToken(ApplyToken(ApplyToken(s, r1), r1), r1)
  {
    var x := Parse(r).value;
    var r1 := Single(r);
    var s1 := ApplyToken(s, r1);
    var s2 := ApplyToken(s1, r1);
    TurnQuartersUnrolled(s, x.face);
    TurnQuartersUnrolled(s1, x.face);
    TurnQuartersUnrolled(s2, x.face);
  }

  // ---------------------------------------------------------------------
  // Sequences of tokens: `move`.

  /** The tokens of m applied in order, as `move(m)` does. */
  function ApplyMove(s: seq<int>, m: seq<string>): (t: seq<int>)
    requires |s| == 54
    ensures |t| == 54
    decreases |m|
  {
    if m == [] then s else ApplyToken(ApplyMove(s, m[..|m| - 1]), m[|m| - 1])
  }

  lemma {:induction false} ApplyMoveAppend(s: seq<int>, a: seq<string>, b: seq<string>)
    requires |s| == 54
    ensures ApplyMove(s, a + b) == ApplyMove(ApplyMove(s, a), b)
    decreases |b|
  {
    if b == [] {
      assert a + b == a;
    } else {
      var b' := b[..|b| - 1];
      assert (a + b)[..|a + b| - 1] == a + b';
      ApplyMoveAppend(s, a, b');
    }
  }

  lemma {:induction false} MoveColours(s: seq<int>, m: seq<string>)
    requires WellColoured(s)
    ensures WellColoured(ApplyMove(s, m))
    decreases |m|
  {
    if m != [] {
      var t := ApplyMove(s, m[..|m| - 1]);
      MoveColours(s, m[..|m| - 1]);
      TokenColours(t, m[|m| - 1]);
      PermutationWellColoured(t, ApplyMove(s, m));
    }
  }

  /** No move changes a face centre. */
  lemma {:induction false} MoveKeepsCentres(s: seq<int>, m: seq<string>, g: nat)
    requires |s| == 54 && g < 6
    ensures ApplyMove(s, m)[Index(Pos(g, 1, 1))] == s[Index(Pos(g, 1, 1))]
    decreases |m|
  {
    if m != [] {
      var t := ApplyMove(s, m[..|m| - 1]);
      MoveKeepsCentres(s, m[..|m| - 1], g);
      var r := m[|m| - 1];
      if Parse(r).Some? {
        TurnQuartersKeepCentres(t, Parse(r).value.face, Parse(r).value.quarters, g);
      }
    }
  }

  predicate AllValid(m: seq<string>) {
    forall n :: 0 <= n < |m| ==> Parse(m[n]).Some?
  }

  /** The move that undoes m: the inverse tokens in reverse order. */
  function InverseMove(m: seq<string>): (u: seq<string>)
    requires AllValid(m)
    ensures |u| == |m| && AllValid(u)
    ensures forall n :: 0 <= n < |m| ==> u[n] == Inverse(m[|m| - 1 - n])
    decreases |m|
  {
    if m == [] then [] else [Inverse(m[|m| - 1])] + InverseMove(m[..|m| - 1])
  }

  lemma {:induction false} InverseMoveRestores(s: seq<int>, m: seq<string>)
    requires |s| == 54 && AllValid(m)
    ensures ApplyMove(ApplyMove(s, m), InverseMove(m)) == s
    decreases |m|
  {
    if m != [] {
      var init := m[..|m| - 1];
      var r := m[|m| - 1];
      var t := ApplyMove(s, init);
      assert ApplyMove(s, m) == ApplyToken(t, r);
      ApplyMoveAppend(ApplyToken(t, r), [Inverse(r)], InverseMove(init));
      assert ApplyMove(ApplyToken(t, r), [Inverse(r)]) == ApplyToken(ApplyToken(t, r), Inverse(r)) by {
        assert [Inverse(r)][..0] == [];
      }
      InverseRestores(t, r);
      InverseMoveRestores(s, init);
    }
  }

  /** `moves[::-1]`: the tokens of m in reverse order, each left as it is. */
  function Reversed(m: seq<string>): (u: seq<string>)
    ensures |u| == |m| && forall n :: 0 <= n < |m| ==> u[n] == m[|m| - 1 - n]
    decreases |m|
  {
    if m == [] then [] else [m[|m| - 1]] + Reversed(m[..|m| - 1])
  }

  /** Two `R1` bring the down face's colour to the up face's top-right facelet. */
  lemma HalfTurnR()
    ensures Quarter(Quarter(Solved(), 3), 3)[2] == 5
  {
    var s1 := Quarter(Solved(), 3);
    QuarterAt(s1, 3, 2);
    QuarterAt(Solved(), 3, 20);
    SourcesR();
    SolvedAt(Pos(5, 0, 2));
  }

  lemma SourcesR()
    ensures QuarterSource(3, 2) == 20 && QuarterSource(3, 20) == 47
  {
    TableR();
  }

  /**
   * Reversing the log does not undo it: `R1` reversed is `R1`, and two `R1`
   * leave the up face's top-right facelet yellow (colour 5) instead of white.
   */
  lemma ReversedDoesNotUndo()
    ensures ApplyMove(ApplyMove(Solved(), ["R1"]), Reversed(["R1"]))[2] == 5
  {
    var s1 := ApplyMove(Solved(), ["R1"]);
    assert ["R1"][..0] == [];
    assert Reversed(["R1"]) == ["R1"];
    assert Parse("R1") == Some(Rotation(3, 1));
    TurnQuartersUnrolled(Solved(), 3);
    assert s1 == Quarter(Solved(), 3);
    TurnQuartersUnrolled(s1, 3);
    HalfTurnR();
  }

  // ---------------------------------------------------------------------
  // The move log.

  /**
   * The entries `rotate(r, level)` appends to `moves`. The nested `X1` calls
   * of an `X2` or `X3` run at level + 1 and so log only when level is 0; the
   * token itself is logged only at level 1.
   */
  function LogEntries(r: string, level: int): (log: seq<string>)
    ensures Parse(r).None? ==> log == []
    ensures level != 0 && level != 1 ==> log == []
  {
    match Parse(r)
    case None => []
    case Some(x) =>
      (if x.quarters > 1 && level == 0 then Repeat(Token(Rotation(x.face, 1)), x.quarters) else []) +
      (if level == 1 then [r] else [])
  }

  /**
   * What `rotate(r, level)` logs after a log m0, built from what its nested
   * `X1` calls log: each runs at level + 1, then r itself is logged at level 1.
   */
  lemma LogNested(m0: seq<string>, r: string, level: int)
    requires Parse(r).Some? && Parse(r).value.quarters > 1
    ensures var nested, own := LogEntries(Single(r), level + 1), if level == 1 then [r] else [];
      m0 + LogEntries(r, level) ==
        if Parse(r).value.quarters == 2 then m0 + nested + nested + own
        else m0 + nested + nested + nested + own
  {
    var r1 := Single(r);
    assert LogEntries(r1, level + 1) == if level == 0 then [r1] else [];
    if Parse(r).value.quarters == 2 {
      assert Repeat(r1, 2) == [r1, r1];
    } else {
      assert Repeat(r1, 3) == [r1, r1, r1];
    }
  }

  /** At the default level a valid token is logged exactly once and an unknown one not at all. */
  lemma LogAtTopLevel(r: string)
    ensures LogEntries(r, 1) == if r in ValidRotates then [r] else []
  {
    ParseValidRotates(r);
  }

  /** The log `move(m)` leaves: the valid tokens of m, in order. */
  function MoveLog(m: seq<string>): (log: seq<string>)
    ensures |log| <= |m|
    ensures forall r :: r in log ==> r in m && r in ValidRotates
    decreases |m|
  {
    if m == [] then []
    else
      var r := m[|m| - 1];
      ParseValidRotates(r);
      MoveLog(m[..|m| - 1]) + LogEntries(r, 1)
  }

  lemma {:induction false} MoveLogAllValid(m: seq<string>)
    requires AllValid(m)
    ensures MoveLog(m) == m
    decreases |m|
  {
    if m != [] {
      var init, r := m[..|m| - 1], m[|m| - 1];
      assert AllValid(init) by {
        forall n | 0 <= n < |init| ensures Parse(init[n]).Some? {
          assert init[n] == m[n];
        }
      }
      MoveLogAllValid(init);
      assert Parse(r).Some?;
      assert LogEntries(r, 1) == [r];
      assert m == init + [r];
    }
  }

  // ---------------------------------------------------------------------
  // The face filter of `get_possible_actions` and `rand_move`.

  predicate NonEmptyTokens(rs: seq<string>) {
    forall n :: 0 <= n < |rs| ==> |rs[n]| > 0
  }

  /** The entries of rs whose first letter is not c, in their order in rs. */
  function WithoutFace(rs: seq<string>, c: char): (kept: seq<string>)
    requires NonEmptyTokens(rs)
    ensures |kept| <= |rs|
    decreases |rs|
  {
    if rs == [] then []
    else
      var v := rs[|rs| - 1];
      WithoutFace(rs[..|rs| - 1], c) + (if v[0] != c then [v] else [])
  }

  /** The filtering loop of `get_possible_actions` and `rand_move`. */
  method KeepOtherFaces(rs: seq<string>, c: char) returns (kept: seq<string>)
    requires NonEmptyTokens(rs)
    ensures kept == WithoutFace(rs, c)
  {
    kept := [];
    for n := 0 to |rs|
      invariant kept == WithoutFace(rs[..n], c)
    {
      assert rs[..n + 1][..n] == rs[..n];
      if rs[n][0] != c {
        kept := kept + [rs[n]];
      }
    }
    assert rs[..|rs|] == rs;
  }

  /** Every token of `valid_rotates` is a letter and a digit. */
  lemma TokenLength(v: string)
    requires v in ValidRotates
    ensures |v| == 2
  {
    ParseValidRotates(v);
  }

  /** No two consecutive entries of m start with the same face letter. */
  predicate FacesAlternate(m: seq<string>)
    requires NonEmptyTokens(m)
  {
    forall n :: 0 < n < |m| ==> m[n][0] != m[n - 1][0]
  }

  /** Appending a token on another face than the last one keeps the faces alternating. */
  lemma ExtendAlternating(m: seq<string>, v: string)
    requires NonEmptyTokens(m) && FacesAlternate(m) && |v| > 0
    requires m != [] ==> v[0] != m[|m| - 1][0]
    ensures NonEmptyTokens(m + [v]) && FacesAlternate(m + [v])
  {
  }

  lemma {:induction false} WithoutFaceMembers(rs: seq<string>, c: char, v: string)
    requires NonEmptyTokens(rs)
    ensures v in WithoutFace(rs, c) <==> v in rs && v[0] != c
    decreases |rs|
  {
    if rs != [] {
      var init := rs[..|rs| - 1];
      WithoutFaceMembers(init, c, v);
      assert rs == init + [rs[|rs| - 1]];
    }
  }

  predicate Distinct(rs: seq<string>) {
    forall m, n :: 0 <= m < n < |rs| ==> rs[m] != rs[n]
  }

  lemma {:induction false} WithoutFaceDistinct(rs: seq<string>, c: char)
    requires NonEmptyTokens(rs) && Distinct(rs)
    ensures Distinct(WithoutFace(rs, c))
    decreases |rs|
  {
    if rs != [] {
      var init := rs[..|rs| - 1];
      var v := rs[|rs| - 1];
      WithoutFaceDistinct(init, c);
      if v[0] != c {
        WithoutFaceMembers(init, c, v);
      }
    }
  }

  /** Removing a face letter that no entry starts with keeps every entry. */
  lemma {:induction false} WithoutAbsentFace(rs: seq<string>, c: char)
    requires NonEmptyTokens(rs) && forall n :: 0 <= n < |rs| ==> rs[n][0] != c
    ensures WithoutFace(rs, c) == rs
    decreases |rs|
  {
    if rs != [] {
      WithoutAbsentFace(rs[..|rs| - 1], c);
    }
  }

  /** Each entry of `valid_rotates` parses back to the rotation ranked at its place. */
  lemma RankOfEntry(n: nat)
    requires n < 18
    ensures Parse(ValidRotates[n]).Some? && Rank(Parse(ValidRotates[n]).value) == n
  {
    if n < 3 {} else if n < 6 {} else if n < 9 {}
    else if n < 12 {} else if n < 15 {} else {}
  }

  lemma ValidRotatesDistinct()
    ensures NonEmptyTokens(ValidRotates) && Distinct(ValidRotates)
  {
    forall m, n | 0 <= m < n < 18 ensures ValidRotates[m] != ValidRotates[n] {
      RankOfEntry(m);
      RankOfEntry(n);
    }
  }

  lemma {:induction false} WithoutFaceAppend(a: seq<string>, b: seq<string>, c: char)
    requires NonEmptyTokens(a) && NonEmptyTokens(b)
    ensures NonEmptyTokens(a + b)
    ensures WithoutFace(a + b, c) == WithoutFace(a, c) + WithoutFace(b, c)
    decreases |b|
  {
    if b != [] {
      var b' := b[..|b| - 1];
      assert (a + b)[..|a + b| - 1] == a + b';
      WithoutFaceAppend(a, b', c);
    } else {
      assert a + b == a;
    }
  }

  /** The three tokens of the face with letter ch. */
  function Block(ch: char): (rs: seq<string>)
    ensures |rs| == 3 && NonEmptyTokens(rs)
  {
    [[ch, '1'], [ch, '2'], [ch, '3']]
  }

  lemma WithoutFaceBlock(ch: char, c: char)
    ensures WithoutFace(Block(ch), c) == if ch == c then [] else Block(ch)
  {
    var rs := Block(ch);
    assert rs[..2][..1][..0] == [];
    assert WithoutFace(rs[..1], c) == WithoutFace(rs[..1][..0], c) + (if ch != c then [rs[0]] else []);
    assert WithoutFace(rs[..2], c) == WithoutFace(rs[..2][..1], c) + (if ch != c then [rs[1]] else []);
  }

  lemma ValidRotatesBlocks()
    ensures ValidRotates == Block('R') + Block('L') + Block('U') + Block('D') + Block('F') + Block('B')
  {
  }

  lemma WithoutFaceByBlocks(c: char)
    ensures WithoutFace(ValidRotates, c) ==
      WithoutFace(Block('R'), c) + WithoutFace(Block('L'), c) + WithoutFace(Block('U'), c) +
      WithoutFace(Block('D'), c) + WithoutFace(Block('F'), c) + WithoutFace(Block('B'), c)
  {
    var b0, b1, b2, b3, b4, b5 := Block('R'), Block('L'), Block('U'), Block('D'), Block('F'), Block('B');
    ValidRotatesBlocks();
    WithoutFaceAppend(b0, b1, c);
    WithoutFaceAppend(b0 + b1, b2, c);
    WithoutFaceAppend(b0 + b1 + b2, b3, c);
    WithoutFaceAppend(b0 + b1 + b2 + b3, b4, c);
    WithoutFaceAppend(b0 + b1 + b2 + b3 + b4, b5, c);
  }

  /**
   * Filtering `valid_rotates` by a face letter leaves 15 tokens; any other
   * first letter (the 'X' of 'XX') leaves all 18.
   */
  lemma WithoutFaceCount(c: char)
    ensures |WithoutFace(ValidRotates, c)| == if c in FaceLetters then 15 else 18
  {
    WithoutFaceByBlocks(c);
    BlockCount('R', c);
    BlockCount('L', c);
    BlockCount('U', c);
    BlockCount('D', c);
    BlockCount('F', c);
    BlockCount('B', c);
    assert c in FaceLetters <==> c == 'U' || c == 'L' || c == 'F' || c == 'R' || c == 'B' || c == 'D';
  }

  lemma BlockCount(ch: char, c: char)
    ensures |WithoutFace(Block(ch), c)| == if ch == c then 0 else 3
  {
    WithoutFaceBlock(ch, c);
  }
}
