/**
 * The puzzle state engine: a 6x3x3 array of colours (stored flat, facelet
 * (f, i, j) at 9 * f + 3 * i + j), the log of rotations applied to it and
 * its last computed entropy.
 */
module CubeEngine {
  import opened Wrappers
  import opened Facelets
  import opened Turns
  import opened Rotations
  import opened Entropy

  /** `np.flip` of a row or column of three facelets. */
  function Flip(v: seq<int>): (r: seq<int>)
    requires |v| == 3
    ensures |r| == 3 && r[0] == v[2] && r[1] == v[1] && r[2] == v[0]
  {
    [v[2], v[1], v[0]]
  }

  /** `not parent_action` falls back to 'XX', whose letter is on no face. */
  function LastFace(parentAction: Option<string>): (c: char)
    ensures parentAction.Some? && |parentAction.value| > 0 ==> c == parentAction.value[0]
    ensures parentAction.None? || |parentAction.value| == 0 ==> c !in FaceLetters
  {
    if parentAction.None? || |parentAction.value| == 0 then 'X' else parentAction.value[0]
  }

  // Slices of a 54-facelet state. A read yields the three values at once,
  // as numpy evaluates the whole right-hand side before writing.

  function RowOf(s: seq<int>, f: nat, i: nat): (v: seq<int>)
    requires |s| == 54 && f < 6 && i < 3
    ensures |v| == 3
  {
    [s[9 * f + 3 * i], s[9 * f + 3 * i + 1], s[9 * f + 3 * i + 2]]
  }

  function ColOf(s: seq<int>, f: nat, j: nat): (v: seq<int>)
    requires |s| == 54 && f < 6 && j < 3
    ensures |v| == 3
  {
    [s[9 * f + j], s[9 * f + 3 + j], s[9 * f + 6 + j]]
  }

  function WriteRow(s: seq<int>, f: nat, i: nat, v: seq<int>): (t: seq<int>)
    requires |s| == 54 && f < 6 && i < 3 && |v| == 3
    ensures |t| == 54
  {
    s[9 * f + 3 * i := v[0]][9 * f + 3 * i + 1 := v[1]][9 * f + 3 * i + 2 := v[2]]
  }

  function WriteCol(s: seq<int>, f: nat, j: nat, v: seq<int>): (t: seq<int>)
    requires |s| == 54 && f < 6 && j < 3 && |v| == 3
    ensures |t| == 54
  {
    s[9 * f + j := v[0]][9 * f + 3 + j := v[1]][9 * f + 6 + j := v[2]]
  }

  /** `np.copy`: a fresh array with the same contents. */
  method CopyOf(a: array<int>) returns (b: array<int>)
    ensures fresh(b) && b.Length == a.Length && b[..] == a[..]
  {
    b := new int[a.Length](k requires 0 <= k < a.Length reads a => a[k]);
  }

  /** The four slice writes of `rotate_face(f)` perform its two 4-cycles. */
  lemma SpinWrites(s: seq<int>, f: nat)
    requires |s| == 54 && f < 6
    ensures SpinFace(s, f) ==
      var s2 := WriteRow(s, f, 0, Flip(ColOf(s, f, 0)));
      var s3 := WriteCol(s2, f, 0, RowOf(s2, f, 2));
      var s4 := WriteRow(s3, f, 2, Flip(ColOf(s3, f, 2)));
      WriteCol(s4, f, 2, RowOf(s, f, 0))
  {
    ApplyTwoCycles(s, SpinCycles(f));
  }

  /** The four strip writes of the `R1` case perform its three strip cycles. */
  lemma R1Writes(s1: seq<int>)
    requires |s1| == 54
    ensures Strips(s1, 3) ==
      var s2 := WriteCol(s1, 0, 2, ColOf(s1, 2, 2));
      var s3 := WriteCol(s2, 2, 2, ColOf(s2, 5, 2));
      var s4 := WriteCol(s3, 5, 2, Flip(ColOf(s3, 4, 0)));
      WriteCol(s4, 4, 0, Flip(ColOf(s1, 0, 2)))
  {
    ApplyThreeCycles(s1, StripCycles(3));
  }

  /** The four strip writes of the `L1` case perform its three strip cycles. */
  lemma L1Writes(s1: seq<int>)
    requires |s1| == 54
    ensures Strips(s1, 1) ==
      var s2 := WriteCol(s1, 0, 0, Flip(ColOf(s1, 4, 2)));
      var s3 := WriteCol(s2, 4, 2, Flip(ColOf(s2, 5, 0)));
      var s4 := WriteCol(s3, 5, 0, ColOf(s3, 2, 0));
      WriteCol(s4, 2, 0, ColOf(s1, 0, 0))
  {
    ApplyThreeCycles(s1, StripCycles(1));
  }

  /** The four strip writes of the `U1` case perform its three strip cycles. */
  lemma U1Writes(s1: seq<int>)
    requires |s1| == 54
    ensures Strips(s1, 0) ==
      var s2 := WriteRow(s1, 1, 0, RowOf(s1, 2, 0));
      var s3 := WriteRow(s2, 2, 0, RowOf(s2, 3, 0));
      var s4 := WriteRow(s3, 3, 0, RowOf(s3, 4, 0));
      WriteRow(s4, 4, 0, RowOf(s1, 1, 0))
  {
    ApplyThreeCycles(s1, StripCycles(0));
  }

  /** The four strip writes of the `D1` case perform its three strip cycles. */
  lemma D1Writes(s1: seq<int>)
    requires |s1| == 54
    ensures Strips(s1, 5) ==
      var s2 := WriteRow(s1, 2, 2, RowOf(s1, 1, 2));
      var s3 := WriteRow(s2, 1, 2, RowOf(s2, 4, 2));
      var s4 := WriteRow(s3, 4, 2, RowOf(s3, 3, 2));
      WriteRow(s4, 3, 2, RowOf(s1, 2, 2))
  {
    ApplyThreeCycles(s1, StripCycles(5));
  }

  /** The four strip writes of the `F1` case perform its three strip cycles. */
  lemma F1Writes(s1: seq<int>)
    requires |s1| == 54
    ensures Strips(s1, 2) ==
      var s2 := WriteRow(s1, 0, 2, Flip(ColOf(s1, 1, 2)));
      var s3 := WriteCol(s2, 1, 2, RowOf(s2, 5, 0));
      var s4 := WriteRow(s3, 5, 0, Flip(ColOf(s3, 3, 0)));
      WriteCol(s4, 3, 0, RowOf(s1, 0, 2))
  {
    ApplyThreeCycles(s1, StripCycles(2));
  }

  /** The four strip writes of the `B1` case perform its three strip cycles. */
  lemma B1Writes(s1: seq<int>)
    requires |s1| == 54
    ensures Strips(s1, 4) ==
      var s2 := WriteRow(s1, 0, 0, ColOf(s1, 3, 2));
      var s3 := WriteCol(s2, 3, 2, Flip(RowOf(s2, 5, 2)));
      var s4 := WriteRow(s3, 5, 2, ColOf(s3, 1, 0));
      WriteCol(s4, 1, 0, Flip(RowOf(s1, 0, 0)))
  {
    ApplyThreeCycles(s1, StripCycles(4));
  }

  class Cube {
    const colours: seq<string>
    const faces: seq<char>
    const solvedCube: array<int>
    var cube: array<int>
    var entropy: int
    const validRotates: seq<string>
    var moves: seq<string>

    /**
     * The solved array never changes and is not shared with the working
     * array, and the working array always holds nine facelets of each colour.
     */
    ghost predicate Valid()
      reads this, cube, solvedCube
    {
      solvedCube.Length == 54 && cube.Length == 54 && cube != solvedCube &&
      solvedCube[..] == Solved() && WellColoured(cube[..]) &&
      faces == FaceLetters && validRotates == ValidRotates
    }

    constructor()
      ensures Valid() && fresh(cube) && fresh(solvedCube)
      ensures cube[..] == Solved() && entropy == 0 && moves == []
      ensures colours == ["white", "orange", "green", "red", "blue", "yellow"]
    {
      colours := ["white", "orange", "green", "red", "blue", "yellow"];
      faces := FaceLetters;
      var solved := new int[54](k => 0);
      for f := 0 to 6
        invariant forall k :: 0 <= k < 9 * f ==> solved[k] == k / 9
      {
        forall k | 9 * f <= k < 9 * f + 9 {
          solved[k] := f;
        }
      }
      var working := CopyOf(solved);
      solvedCube := solved;
      cube := working;
      entropy := 0;
      validRotates := ValidRotates;
      moves := [];
      new;
      assert solved[..] == Solved();
      SolvedWellColoured();
    }

    /** `reset`: a fresh copy of the solved array; the move log is kept. */
    method Reset()
      requires Valid()
      modifies this
      ensures Valid() && fresh(cube)
      ensures cube[..] == Solved() && entropy == 0 && moves == old(moves)
    {
      cube := CopyOf(solvedCube);
      entropy := 0;
      SolvedWellColoured();
    }

    predicate IsSolved()
      reads this, cube, solvedCube
      requires Valid()
      ensures IsSolved() <==> cube[..] == Solved()
    {
      cube[..] == solvedCube[..]
    }

    /**
     * `vector_cube`: the working array flattened in row-major order, which
     * is the layout the model keeps it in; it holds a legal colouring and
     * equals the solved vector exactly when the cube is solved.
     */
    function VectorCube(): (v: seq<int>)
      reads this, cube, solvedCube
      requires Valid()
      ensures |v| == 54 && WellColoured(v)
      ensures v == Solved() <==> IsSolved()
    {
      cube[..]
    }

    function NaiveEntropy(): (e: nat)
      reads this, cube, solvedCube
      requires Valid()
      ensures e <= 54 && (e == 0 <==> IsSolved())
      ensures e == NaiveEntropyOf(cube[..])
    {
      Mismatches(cube[..], solvedCube[..])
    }

    function AlignEntropy(): (e: int)
      reads this, cube, solvedCube
      requires Valid()
      ensures 0 <= e <= 32
      ensures IsSolved() ==> e == 0
      ensures e == AlignEntropyOf(cube[..])
    {
      AlignSolved();
      AlignEntropyOf(cube[..])
    }

    /**
     * `update_entropy`: 'off' and unknown styles leave the entropy as it
     * was; the floating-point 'matrix' style is outside the model.
     */
    method UpdateEntropy(style: string) returns (e: int)
      requires Valid() && style != "matrix"
      modifies this
      ensures Valid() && cube == old(cube) && moves == old(moves)
      ensures entropy == if style == "align" then AlignEntropyOf(cube[..])
                         else if style == "naive" then NaiveEntropyOf(cube[..])
                         else old(entropy)
      ensures e == entropy
    {
      ghost var s := cube[..];
      var score := entropy;
      if style == "off" {
      } else if style == "align" {
        score := AlignEntropy();
      } else if style == "naive" {
        score := NaiveEntropy();
      }
      entropy := score;
      assert cube[..] == s;
      e := entropy;
    }

    // -------------------------------------------------------------------
    // Slice reads and writes on the working array.

    function Row(f: nat, i: nat): (v: seq<int>)
      reads this, cube
      requires cube.Length == 54 && f < 6 && i < 3
    {
      RowOf(cube[..], f, i)
    }

    function Col(f: nat, j: nat): (v: seq<int>)
      reads this, cube
      requires cube.Length == 54 && f < 6 && j < 3
    {
      ColOf(cube[..], f, j)
    }

    method SetRow(f: nat, i: nat, v: seq<int>)
      requires cube.Length == 54 && f < 6 && i < 3 && |v| == 3
      modifies cube
      ensures cube[..] == WriteRow(old(cube[..]), f, i, v)
    {
      cube[9 * f + 3 * i] := v[0];
      cube[9 * f + 3 * i + 1] := v[1];
      cube[9 * f + 3 * i + 2] := v[2];
    }

    method SetCol(f: nat, j: nat, v: seq<int>)
      requires cube.Length == 54 && f < 6 && j < 3 && |v| == 3
      modifies cube
      ensures cube[..] == WriteCol(old(cube[..]), f, j, v)
    {
      cube[9 * f + j] := v[0];
      cube[9 * f + 3 + j] := v[1];
      cube[9 * f + 6 + j] := v[2];
    }

    /** `rotate_face(f)`: new[i][j] = old[2 - j][i] on face f, nothing else moves. */
    method RotateFace(f: nat)
      requires cube.Length == 54 && f < 6
      modifies cube
      ensures cube[..] == SpinFace(old(cube[..]), f)
    {
      ghost var s := cube[..];
      var save := Row(f, 0);
      SetRow(f, 0, Flip(Col(f, 0)));
      SetCol(f, 0, Row(f, 2));
      SetRow(f, 2, Flip(Col(f, 2)));
      SetCol(f, 2, save);
      SpinWrites(s, f);
    }

    // -------------------------------------------------------------------
    // The six `X1` cases of `rotate`.

    method TurnR1()
      requires Valid()
      modifies cube
      ensures Valid() && cube[..] == Quarter(old(cube[..]), 3)
    {
      ghost var s := cube[..];
      RotateFace(3);
      ghost var s1 := cube[..];
      var save := Col(0, 2);
      SetCol(0, 2, Col(2, 2));
      SetCol(2, 2, Col(5, 2));
      SetCol(5, 2, Flip(Col(4, 0)));
      SetCol(4, 0, Flip(save));
      R1Writes(s1);
      QuarterColours(s, 3);
      PermutationWellColoured(s, cube[..]);
    }

    method TurnL1()
      requires Valid()
      modifies cube
      ensures Valid() && cube[..] == Quarter(old(cube[..]), 1)
    {
      ghost var s := cube[..];
      RotateFace(1);
      ghost var s1 := cube[..];
      var save := Col(0, 0);
      SetCol(0, 0, Flip(Col(4, 2)));
      SetCol(4, 2, Flip(Col(5, 0)));
      SetCol(5, 0, Col(2, 0));
      SetCol(2, 0, save);
      L1Writes(s1);
      QuarterColours(s, 1);
      PermutationWellColoured(s, cube[..]);
    }

    method TurnU1()
      requires Valid()
      modifies cube
      ensures Valid() && cube[..] == Quarter(old(cube[..]), 0)
    {
      ghost var s := cube[..];
      RotateFace(0);
      ghost var s1 := cube[..];
      var save := Row(1, 0);
      SetRow(1, 0, Row(2, 0));
      SetRow(2, 0, Row(3, 0));
      SetRow(3, 0, Row(4, 0));
      SetRow(4, 0, save);
      U1Writes(s1);
      QuarterColours(s, 0);
      PermutationWellColoured(s, cube[..]);
    }

    method TurnD1()
      requires Valid()
      modifies cube
      ensures Valid() && cube[..] == Quarter(old(cube[..]), 5)
    {
      ghost var s := cube[..];
      RotateFace(5);
      ghost var s1 := cube[..];
      var save := Row(2, 2);
      SetRow(2, 2, Row(1, 2));
      SetRow(1, 2, Row(4, 2));
      SetRow(4, 2, Row(3, 2));
      SetRow(3, 2, save);
      D1Writes(s1);
      QuarterColours(s, 5);
      PermutationWellColoured(s, cube[..]);
    }

    method TurnF1()
      requires Valid()
      modifies cube
      ensures Valid() && cube[..] == Quarter(old(cube[..]), 2)
    {
      ghost var s := cube[..];
      RotateFace(2);
      ghost var s1 := cube[..];
      var save := Row(0, 2);
      SetRow(0, 2, Flip(Col(1, 2)));
      SetCol(1, 2, Row(5, 0));
      SetRow(5, 0, Flip(Col(3, 0)));
      SetCol(3, 0, save);
      F1Writes(s1);
      QuarterColours(s, 2);
      PermutationWellColoured(s, cube[..]);
    }

    method TurnB1()
      requires Valid()
      modifies cube
      ensures Valid() && cube[..] == Quarter(old(cube[..]), 4)
    {
      ghost var s := cube[..];
      RotateFace(4);
      ghost var s1 := cube[..];
      var save := Row(0, 0);
      SetRow(0, 0, Col(3, 2));
      SetCol(3, 2, Flip(Row(5, 2)));
      SetRow(5, 2, Col(1, 0));
      SetCol(1, 0, Flip(save));
      B1Writes(s1);
      QuarterColours(s, 4);
      PermutationWellColoured(s, cube[..]);
    }

    // -------------------------------------------------------------------
    // Rotations and moves.

    /** The `X1` case of `rotate` for the face numbered f. */
    method QuarterTurn(f: nat)
      requires Valid() && f < 6
      modifies cube
      ensures Valid() && cube[..] == Quarter(old(cube[..]), f)
    {
      if f == 0 {
        TurnU1();
      } else if f == 1 {
        TurnL1();
      } else if f == 2 {
        TurnF1();
      } else if f == 3 {
        TurnR1();
      } else if f == 4 {
        TurnB1();
      } else {
        TurnD1();
      }
    }

    /**
     * `rotate(r, level)`: the `X1` tokens turn the array in place, `X2` and
     * `X3` repeat `X1` two or three times at level + 1, and an unknown token
     * returns 1 and changes nothing. The token is appended to the log only at
     * level 1. The source spells out all 18 tokens; here the token is parsed
     * into its face and quarter count, and `Parse` accepts exactly the 18
     * tokens of `valid_rotates` (`ParseValidRotates`).
     */
    method Rotate(r: string, level: int) returns (status: Option<int>)
      requires Valid()
      modifies this, cube
      ensures Valid() && cube == old(cube) && entropy == old(entropy)
      ensures cube[..] == ApplyToken(old(cube[..]), r)
      ensures moves == old(moves) + LogEntries(r, level)
      ensures status == if Parse(r).Some? then None else Some(1)
      decreases if Parse(r).Some? && Parse(r).value.quarters > 1 then 1 else 0
    {
      ghost var s, m0 := cube[..], moves;
      match Parse(r) {
        case None =>
          return Some(1);
        case Some(x) =>
          if x.quarters == 1 {
            QuarterTurn(x.face);
            TurnQuartersUnrolled(s, x.face);
          } else {
            var r1 := Single(r);
            status := Rotate(r1, level + 1);
            status := Rotate(r1, level + 1);
            if x.quarters == 3 {
              status := Rotate(r1, level + 1);
            }
            RepeatSingle(s, r);
            LogNested(m0, r, level);
          }
      }
      if level == 1 {
        moves := moves + [r];
      }
      status := None;
    }

    // -------------------------------------------------------------------
    // Sequences of rotations.

    /**
     * `move(m)`: each token of m is rotated at the default level 1, so the
     * valid ones are applied and logged and the unknown ones skipped, then
     * the entropy is refreshed with the default 'naive' style.
     */
    method Move(m: seq<string>)
      requires Valid()
      modifies this, cube
      ensures Valid() && cube == old(cube)
      ensures cube[..] == ApplyMove(old(cube[..]), m)
      ensures moves == old(moves) + MoveLog(m)
      ensures entropy == NaiveEntropyOf(cube[..])
    {
      ghost var s, m0 := cube[..], moves;
      for n := 0 to |m|
        invariant Valid() && cube == old(cube)
        invariant cube[..] == ApplyMove(s, m[..n])
        invariant moves == m0 + MoveLog(m[..n])
      {
        ghost var log := moves;
        var status := Rotate(m[n], 1);
        assert m[..n + 1][..n] == m[..n];
        assert moves == m0 + (MoveLog(m[..n]) + LogEntries(m[n], 1)) by {
          assert moves == log + LogEntries(m[n], 1);
        }
      }
      assert m[..|m|] == m;
      var e := UpdateEntropy("naive");
    }

    /**
     * `rand_move(k)`: k tokens of `valid_rotates` (none when k <= 0), each on
     * a different face from the one before it. Which token is drawn among
     * the allowed ones is left open.
     */
    method RandMove(k: int) returns (move: seq<string>)
      requires Valid()
      ensures |move| == if k > 0 then k else 0
      ensures forall n :: 0 <= n < |move| ==> move[n] in ValidRotates
      ensures NonEmptyTokens(move) && FacesAlternate(move)
    {
      ValidRotatesDistinct();
      move := [];
      while |move| < k
        invariant |move| <= if k > 0 then k else 0
        invariant forall n :: 0 <= n < |move| ==> move[n] in ValidRotates
        invariant NonEmptyTokens(move) && FacesAlternate(move)
        decreases k - |move|
      {
        var nextValids: seq<string>;
        if |move| > 0 {
          var lastR := move[|move| - 1];
          nextValids := KeepOtherFaces(validRotates, lastR[0]);
          WithoutFaceCount(lastR[0]);
        } else {
          nextValids := validRotates;
        }
        assert nextValids[0] in nextValids;
        var choice :| choice in nextValids;
        if |move| > 0 {
          WithoutFaceMembers(validRotates, move[|move| - 1][0], choice);
        }
        TokenLength(choice);
        ExtendAlternating(move, choice);
        move := move + [choice];
      }
    }

    /**
     * `get_possible_actions(parent_action)`: the tokens of `valid_rotates`
     * on another face than the parent action's, in their order; a missing or
     * empty parent action keeps all 18.
     */
    method GetPossibleActions(parentAction: Option<string>) returns (possibleActions: seq<string>)
      requires Valid()
      ensures possibleActions == WithoutFace(ValidRotates, LastFace(parentAction))
      ensures forall v :: v in possibleActions <==> v in ValidRotates && v[0] != LastFace(parentAction)
      ensures Distinct(possibleActions)
      ensures |possibleActions| == if LastFace(parentAction) in FaceLetters then 15 else 18
    {
      ValidRotatesDistinct();
      var lastFace := LastFace(parentAction);
      possibleActions := KeepOtherFaces(validRotates, lastFace);
      forall v ensures v in possibleActions <==> v in ValidRotates && v[0] != lastFace {
        WithoutFaceMembers(ValidRotates, lastFace, v);
      }
      WithoutFaceDistinct(ValidRotates, lastFace);
      WithoutFaceCount(lastFace);
    }
  }
}
