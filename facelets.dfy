/**
 * Layout of the puzzle state. The source keeps six 3x3 faces in a (6,3,3)
 * integer array; here the same cells are kept in row-major order in one
 * vector of 54 facelets, so face f, row i, column j lives at 9*f + 3*i + j
 * (the order in which `flatten` lists them). Faces are numbered
 * U=0, L=1, F=2, R=3, B=4, D=5 and each facelet holds a colour 0..5.
 */
module Facelets {

  /** A facelet position: face, row, column. */
  datatype Pos = Pos(f: int, i: int, j: int)

  predicate ValidPos(p: Pos) {
    0 <= p.f < 6 && 0 <= p.i < 3 && 0 <= p.j < 3
  }

  /** Row-major offset of a position in the 54-facelet vector. */
  function Index(p: Pos): (k: nat)
    requires ValidPos(p)
    ensures k < 54
  {
    9 * p.f + 3 * p.i + p.j
  }

  /** The position stored at offset k; the inverse of Index. */
  function PosAt(k: nat): (p: Pos)
    requires k < 54
    ensures ValidPos(p) && Index(p) == k
  {
    Pos(k / 9, k % 9 / 3, k % 3)
  }

  lemma PosAtIndex(p: Pos)
    requires ValidPos(p)
    ensures PosAt(Index(p)) == p
  {
  }

  /** The solved configuration: every facelet on face f has colour f. */
  function Solved(): (s: seq<int>)
    ensures |s| == 54
  {
    seq(54, k => k / 9)
  }

  lemma SolvedAt(p: Pos)
    requires ValidPos(p)
    ensures Solved()[Index(p)] == p.f
  {
  }

  /**
   * A legal colouring: every facelet holds a colour in 0..5 and each colour
   * occurs on exactly nine facelets.
   */
  predicate WellColoured(s: seq<int>) {
    |s| == 54 &&
    (forall k :: 0 <= k < 54 ==> 0 <= s[k] < 6) &&
    (forall c :: 0 <= c < 6 ==> multiset(s)[c] == 9)
  }

  /** n copies of c. */
  function Repeat<T>(c: T, n: nat): (r: seq<T>)
    ensures |r| == n && forall k :: 0 <= k < n ==> r[k] == c
  {
    if n == 0 then [] else Repeat(c, n - 1) + [c]
  }

  lemma {:induction false} RepeatCount<T>(c: T, n: nat)
    ensures multiset(Repeat(c, n)) == multiset{}[c := n]
  {
    if n > 0 {
      RepeatCount(c, n - 1);
      assert Repeat(c, n) == Repeat(c, n - 1) + [c];
    }
  }

  /** The solved state is six blocks of nine facelets, block f holding colour f. */
  lemma SolvedBlocks()
    ensures Solved() == Repeat(0, 9) + Repeat(1, 9) + Repeat(2, 9) + Repeat(3, 9) + Repeat(4, 9) + Repeat(5, 9)
  {
    var blocks := Repeat(0, 9) + Repeat(1, 9) + Repeat(2, 9) + Repeat(3, 9) + Repeat(4, 9) + Repeat(5, 9);
    forall k | 0 <= k < 54 ensures Solved()[k] == blocks[k] {
      if k < 9 {} else if k < 18 {} else if k < 27 {} else if k < 36 {} else if k < 45 {} else {}
    }
  }

  /** The solved state is well coloured. */
  lemma SolvedWellColoured()
    ensures WellColoured(Solved())
  {
    var m := multiset{}[0 := 9] + multiset{}[1 := 9] + multiset{}[2 := 9]
           + multiset{}[3 := 9] + multiset{}[4 := 9] + multiset{}[5 := 9];
    assert multiset(Solved()) == m by {
      SolvedBlocks();
      RepeatCount(0, 9);
      RepeatCount(1, 9);
      RepeatCount(2, 9);
      RepeatCount(3, 9);
      RepeatCount(4, 9);
      RepeatCount(5, 9);
    }
    forall c | 0 <= c < 6 ensures multiset(Solved())[c] == 9 {
      if c == 0 {} else if c == 1 {} else if c == 2 {} else if c == 3 {} else if c == 4 {} else {}
    }
  }

  /** A permutation of a well-coloured state is well coloured. */
  lemma PermutationWellColoured(s: seq<int>, t: seq<int>)
    requires WellColoured(s) && |t| == 54 && multiset(t) == multiset(s)
    ensures WellColoured(t)
  {
    forall k | 0 <= k < 54 ensures 0 <= t[k] < 6 {
      assert t[k] in multiset(s);
    }
  }
}
