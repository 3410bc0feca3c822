/**
 * The two integer scrambledness scores of a facelet state: the count of
 * facelets that differ from the solved state, and 32 minus the number of
 * corner alignment checks that hold.
 */
module Entropy {
  import opened Facelets
  import opened Rotations

  /** The number of positions at which s and t differ. */
  function Mismatches(s: seq<int>, t: seq<int>): (n: nat)
    requires |s| == |t|
    ensures n <= |s|
    ensures n == 0 <==> s == t
    decreases |s|
  {
    if s == [] then 0
    else
      var k := |s| - 1;
      assert s == s[..k] + [s[k]] && t == t[..k] + [t[k]];
      Mismatches(s[..k], t[..k]) + (if s[k] != t[k] then 1 else 0)
  }

  /** `naive_entropy`: how many facelets are not the colour of the solved state. */
  function NaiveEntropyOf(s: seq<int>): (e: nat)
    requires |s| == 54
    ensures e <= 54
    ensures e == 0 <==> s == Solved()
  {
    Mismatches(s, Solved())
  }

  function At(s: seq<int>, f: nat, i: nat, j: nat): int
    requires |s| == 54 && f < 6 && i < 3 && j < 3
  {
    s[9 * f + 3 * i + j]
  }

  function Score(b: bool): nat {
    if b then 1 else 0
  }

  /**
   * `align_entropy`: 32 minus the number of the 32 checks that hold. Each
   * of the eight corners is compared with its three adjacent edges and
   * with two face centres.
   */
  function AlignEntropyOf(s: seq<int>): (e: int)
    requires |s| == 54
    ensures 0 <= e <= 32
  {
    var UFL := (At(s, 0, 2, 0), At(s, 2, 0, 0), At(s, 1, 0, 2));
    var URF := (At(s, 0, 2, 2), At(s, 3, 0, 0), At(s, 2, 0, 2));
    var ULB := (At(s, 0, 0, 0), At(s, 1, 0, 0), At(s, 4, 0, 2));
    var UBR := (At(s, 0, 0, 2), At(s, 4, 0, 0), At(s, 3, 0, 2));
    var DLF := (At(s, 5, 0, 0), At(s, 1, 2, 2), At(s, 2, 2, 0));
    var DFR := (At(s, 5, 0, 2), At(s, 2, 2, 2), At(s, 3, 2, 0));
    var DLB := (At(s, 5, 2, 0), At(s, 1, 2, 0), At(s, 4, 2, 2));
    var DBR := (At(s, 5, 2, 2), At(s, 4, 2, 0), At(s, 3, 2, 2));

    var UF := (At(s, 0, 2, 1), At(s, 2, 0, 1));
    var UL := (At(s, 0, 1, 0), At(s, 1, 0, 1));
    var UB := (At(s, 0, 0, 1), At(s, 4, 0, 1));
    var UR := (At(s, 0, 1, 2), At(s, 3, 0, 1));

    var LF := (At(s, 1, 1, 2), At(s, 2, 1, 0));
    var LB := (At(s, 1, 1, 0), At(s, 4, 1, 2));
    var RF := (At(s, 3, 1, 0), At(s, 2, 1, 2));
    var BR := (At(s, 4, 1, 0), At(s, 3, 1, 2));

    var DF := (At(s, 5, 0, 1), At(s, 2, 2, 1));
    var DL := (At(s, 5, 1, 0), At(s, 1, 2, 1));
    var DB := (At(s, 5, 2, 1), At(s, 4, 2, 1));
    var DR := (At(s, 5, 1, 2), At(s, 3, 2, 1));

    var U, L, F, R, B, D := At(s, 0, 1, 1), At(s, 1, 1, 1), At(s, 2, 1, 1), At(s, 3, 1, 1), At(s, 4, 1, 1), At(s, 5, 1, 1);

    var align :=
      Score(UFL.0 == UF.0 && UFL.1 == UF.1) + Score(UFL.2 == LF.0 && UFL.1 == LF.1) +
      Score(UFL.0 == UL.0 && UFL.2 == UL.1) + Score(UFL.0 == U && UFL.1 == F) +

      Score(URF.0 == UR.0 && URF.1 == UR.1) + Score(URF.1 == RF.0 && URF.2 == RF.1) +
      Score(URF.0 == UF.0 && URF.2 == UF.1) + Score(URF.0 == U && URF.1 == R) +

      Score(ULB.0 == UL.0 && ULB.1 == UL.1) + Score(ULB.1 == LB.0 && ULB.2 == LB.1) +
      Score(ULB.0 == UB.0 && ULB.2 == UB.1) + Score(ULB.0 == U && ULB.1 == L) +

      Score(UBR.0 == UB.0 && UBR.1 == UB.1) + Score(UBR.1 == BR.0 && UBR.2 == BR.1) +
      Score(UBR.0 == UR.0 && UBR.2 == UR.1) + Score(UBR.0 == U && UBR.1 == B) +

      Score(DLF.0 == DL.0 && DLF.1 == DL.1) + Score(DLF.1 == LF.0 && DLF.2 == LF.1) +
      Score(DLF.0 == DF.0 && DLF.2 == DF.1) + Score(DLF.0 == D && DLF.1 == L) +

      Score(DFR.0 == DF.0 && DFR.1 == DF.1) + Score(DFR.1 == RF.1 && DFR.2 == RF.0) +
      Score(DFR.0 == DR.0 && DFR.2 == DR.1) + Score(DFR.0 == D && DFR.1 == F) +

      Score(DLB.0 == DL.0 && DLB.1 == DL.1) + Score(DLB.1 == LB.0 && DLB.2 == LB.1) +
      Score(DLB.0 == DB.0 && DLB.2 == DB.1) + Score(DLB.0 == D && DLB.1 == L) +

      Score(DBR.0 == DB.0 && DBR.1 == DB.1) + Score(DBR.1 == BR.0 && DBR.2 == BR.1) +
      Score(DBR.0 == DR.0 && DBR.2 == DR.1) + Score(DBR.0 == D && DBR.1 == B);
    32 - align
  }

  /** When every face is a single colour, every check holds. */
  lemma UniformAligned(s: seq<int>, c: seq<int>)
    requires |s| == 54 && |c| == 6
    requires forall f: nat, i: nat, j: nat :: f < 6 && i < 3 && j < 3 ==> At(s, f, i, j) == c[f]
    ensures AlignEntropyOf(s) == 0
  {
  }

  /** Every check holds on the solved state. */
  lemma AlignSolved()
    ensures AlignEntropyOf(Solved()) == 0
  {
    var s := Solved();
    forall f: nat, i: nat, j: nat | f < 6 && i < 3 && j < 3 ensures At(s, f, i, j) == [0, 1, 2, 3, 4, 5][f] {
      SolvedAt(Pos(f, i, j));
    }
    UniformAligned(s, [0, 1, 2, 3, 4, 5]);
  }

  /** The solved state with white (0) and yellow (5) exchanged. */
  function Swapped(): (s: seq<int>)
    ensures |s| == 54
  {
    seq(54, k => if k < 9 then 5 else if k < 45 then k / 9 else 0)
  }

  lemma SwappedBlocks()
    ensures Swapped() == Repeat(5, 9) + Repeat(1, 9) + Repeat(2, 9) + Repeat(3, 9) + Repeat(4, 9) + Repeat(0, 9)
  {
    var blocks := Repeat(5, 9) + Repeat(1, 9) + Repeat(2, 9) + Repeat(3, 9) + Repeat(4, 9) + Repeat(0, 9);
    forall k | 0 <= k < 54 ensures Swapped()[k] == blocks[k] {
      if k < 9 {} else if k < 18 {} else if k < 27 {} else if k < 36 {} else if k < 45 {} else {}
    }
  }

  lemma SwappedWellColoured()
    ensures WellColoured(Swapped()) && Swapped() != Solved()
  {
    assert Swapped()[0] != Solved()[0];
    assert multiset(Swapped()) == multiset(Solved()) by {
      SwappedBlocks();
      SolvedBlocks();
    }
    SolvedWellColoured();
    PermutationWellColoured(Solved(), Swapped());
  }

  /**
   * A zero alignment score does not mean the cube is solved: the checks
   * only compare facelets with each other, so the solved state with two
   * colours exchanged scores 0 too.
   */
  lemma AlignZeroNotSolved()
    ensures WellColoured(Swapped()) && Swapped() != Solved() && AlignEntropyOf(Swapped()) == 0
  {
    var s := Swapped();
    forall f: nat, i: nat, j: nat | f < 6 && i < 3 && j < 3 ensures At(s, f, i, j) == [5, 1, 2, 3, 4, 0][f] {
      if f == 0 {} else if f == 1 {} else if f == 2 {} else if f == 3 {} else if f == 4 {} else {}
    }
    UniformAligned(s, [5, 1, 2, 3, 4, 0]);
    SwappedWellColoured();
  }

  /**
   * The colouring of `AlignZeroNotSolved` cannot be reached from the solved
   * cube: its up centre is yellow, and no move changes a centre.
   */
  lemma SwappedUnreachable(m: seq<string>)
    ensures ApplyMove(Solved(), m) != Swapped()
  {
    MoveKeepsCentres(Solved(), m, 0);
    SolvedAt(Pos(0, 1, 1));
    assert Swapped()[4] == 5;
  }
}
