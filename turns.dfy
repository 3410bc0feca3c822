/**
 * The quarter-turn primitive `X1` of `Cube.rotate`, as a function on the
 * 54-facelet vector. A quarter turn of face X is written as five disjoint
 * 4-cycles of facelets: two spin the 3x3 grid of X (corners, then edges)
 * and three carry the bordering strips of the four neighbouring faces.
 * `QuarterAt` says where each facelet comes from; the per-face lemmas
 * relate that to face/row/column coordinates: the grid of the turned face
 * spins, exactly its border strips move, and four turns restore every
 * facelet.
 */
module Turns {
  import opened Facelets

  /**
   * A 4-cycle of facelet offsets: the facelet at b moves to a, the one at c
   * to b, the one at d to c and the one at a to d.
   */
  datatype Cyc = Cyc(a: nat, b: nat, c: nat, d: nat)

  predicate ValidCycle(x: Cyc) {
    x.a < 54 && x.b < 54 && x.c < 54 && x.d < 54 &&
    x.a != x.b && x.a != x.c && x.a != x.d && x.b != x.c && x.b != x.d && x.c != x.d
  }

  predicate ValidCycles(cs: seq<Cyc>) {
    forall n :: 0 <= n < |cs| ==> ValidCycle(cs[n])
  }

  function Cycle(s: seq<int>, x: Cyc): (t: seq<int>)
    requires |s| == 54 && ValidCycle(x)
    ensures |t| == 54
  {
    s[x.a := s[x.b]][x.b := s[x.c]][x.c := s[x.d]][x.d := s[x.a]]
  }

  /** The cycles of cs applied in order, first to last. */
  function ApplyCycles(s: seq<int>, cs: seq<Cyc>): (t: seq<int>)
    requires |s| == 54 && ValidCycles(cs)
    ensures |t| == 54
    decreases |cs|
  {
    if cs == [] then s else ApplyCycles(Cycle(s, cs[0]), cs[1..])
  }

  lemma ApplyTwoCycles(s: seq<int>, cs: seq<Cyc>)
    requires |s| == 54 && ValidCycles(cs) && |cs| == 2
    ensures ApplyCycles(s, cs) == Cycle(Cycle(s, cs[0]), cs[1])
  {
    assert ApplyCycles(s, cs) == ApplyCycles(Cycle(s, cs[0]), cs[1..]);
    assert ApplyCycles(Cycle(s, cs[0]), cs[1..]) == ApplyCycles(Cycle(Cycle(s, cs[0]), cs[1]), cs[2..]);
  }

  lemma ApplyThreeCycles(s: seq<int>, cs: seq<Cyc>)
    requires |s| == 54 && ValidCycles(cs) && |cs| == 3
    ensures ApplyCycles(s, cs) == Cycle(Cycle(Cycle(s, cs[0]), cs[1]), cs[2])
  {
    assert ApplyCycles(s, cs) == ApplyCycles(Cycle(s, cs[0]), cs[1..]);
    ApplyTwoCycles(Cycle(s, cs[0]), cs[1..]);
  }

  lemma CycleColours(s: seq<int>, x: Cyc)
    requires |s| == 54 && ValidCycle(x)
    ensures multiset(Cycle(s, x)) == multiset(s)
  {
  }

  /** Applying 4-cycles only permutes the facelets. */
  lemma {:induction false} ApplyCyclesColours(s: seq<int>, cs: seq<Cyc>)
    requires |s| == 54 && ValidCycles(cs)
    ensures multiset(ApplyCycles(s, cs)) == multiset(s)
    decreases |cs|
  {
    if cs != [] {
      CycleColours(s, cs[0]);
      ApplyCyclesColours(Cycle(s, cs[0]), cs[1..]);
    }
  }

  /** The offset whose facelet `Cycle(s, x)` leaves at offset k. */
  function CycleSource(x: Cyc, k: nat): nat {
    if k == x.a then x.b
    else if k == x.b then x.c
    else if k == x.c then x.d
    else if k == x.d then x.a
    else k
  }

  lemma CycleAt(s: seq<int>, x: Cyc, k: nat)
    requires |s| == 54 && ValidCycle(x) && k < 54
    ensures CycleSource(x, k) < 54 && Cycle(s, x)[k] == s[CycleSource(x, k)]
  {
  }

  /** The offset whose facelet `ApplyCycles(s, cs)` leaves at offset k. */
  function CyclesSource(cs: seq<Cyc>, k: nat): (src: nat)
    requires ValidCycles(cs) && k < 54
    ensures src < 54
    decreases |cs|
  {
    if cs == [] then k else CycleSource(cs[0], CyclesSource(cs[1..], k))
  }

  lemma {:induction false} ApplyCyclesAt(s: seq<int>, cs: seq<Cyc>, k: nat)
    requires |s| == 54 && ValidCycles(cs) && k < 54
    ensures ApplyCycles(s, cs)[k] == s[CyclesSource(cs, k)]
    decreases |cs|
  {
    if cs != [] {
      ApplyCyclesAt(Cycle(s, cs[0]), cs[1..], k);
      CycleAt(s, cs[0], CyclesSource(cs[1..], k));
    }
  }

  lemma TwoSources(cs: seq<Cyc>, k: nat)
    requires ValidCycles(cs) && |cs| == 2 && k < 54
    ensures CyclesSource(cs, k) == CycleSource(cs[0], CycleSource(cs[1], k))
  {
    assert CyclesSource(cs[1..], k) == CycleSource(cs[1], CyclesSource(cs[2..], k));
  }

  lemma ThreeSources(cs: seq<Cyc>, k: nat)
    requires ValidCycles(cs) && |cs| == 3 && k < 54
    ensures CyclesSource(cs, k) == CycleSource(cs[0], CycleSource(cs[1], CycleSource(cs[2], k)))
  {
    TwoSources(cs[1..], k);
  }

  /**
   * The cycles of `rotate_face(f)`, which turns the grid of face f a quarter
   * clockwise: corners (0,0) <- (2,0) <- (2,2) <- (0,2) and edges
   * (0,1) <- (1,0) <- (2,1) <- (1,2).
   */
  function SpinCycles(f: nat): (cs: seq<Cyc>)
    requires f < 6
    ensures |cs| == 2 && ValidCycles(cs)
  {
    var b := 9 * f;
    [Cyc(b, b + 6, b + 8, b + 2), Cyc(b + 1, b + 3, b + 7, b + 5)]
  }

  function SpinFace(s: seq<int>, f: nat): (t: seq<int>)
    requires |s| == 54 && f < 6
    ensures |t| == 54
  {
    ApplyCycles(s, SpinCycles(f))
  }

  /**
   * The strip cycles of the `X1` case for face number `face`. Each comment
   * lists the positions (face,row,col) of one cycle: the facelet written
   * at the first comes from the second, and so on round the cycle.
   */
  function StripCycles(face: nat): (cs: seq<Cyc>)
    requires face < 6
    ensures |cs| == 3 && ValidCycles(cs)
  {
    match face
    case 0 =>
      [ Cyc(9, 18, 27, 36),     // (1,0,0) <- (2,0,0) <- (3,0,0) <- (4,0,0)
        Cyc(10, 19, 28, 37),    // (1,0,1) <- (2,0,1) <- (3,0,1) <- (4,0,1)
        Cyc(11, 20, 29, 38) ]   // (1,0,2) <- (2,0,2) <- (3,0,2) <- (4,0,2)
    case 1 =>
      [ Cyc(0, 44, 45, 18),     // (0,0,0) <- (4,2,2) <- (5,0,0) <- (2,0,0)
        Cyc(3, 41, 48, 21),     // (0,1,0) <- (4,1,2) <- (5,1,0) <- (2,1,0)
        Cyc(6, 38, 51, 24) ]    // (0,2,0) <- (4,0,2) <- (5,2,0) <- (2,2,0)
    case 2 =>
      [ Cyc(6, 17, 47, 27),     // (0,2,0) <- (1,2,2) <- (5,0,2) <- (3,0,0)
        Cyc(7, 14, 46, 30),     // (0,2,1) <- (1,1,2) <- (5,0,1) <- (3,1,0)
        Cyc(8, 11, 45, 33) ]    // (0,2,2) <- (1,0,2) <- (5,0,0) <- (3,2,0)
    case 3 =>
      [ Cyc(2, 20, 47, 42),     // (0,0,2) <- (2,0,2) <- (5,0,2) <- (4,2,0)
        Cyc(5, 23, 50, 39),     // (0,1,2) <- (2,1,2) <- (5,1,2) <- (4,1,0)
        Cyc(8, 26, 53, 36) ]    // (0,2,2) <- (2,2,2) <- (5,2,2) <- (4,0,0)
    case 4 =>
      [ Cyc(0, 29, 53, 15),     // (0,0,0) <- (3,0,2) <- (5,2,2) <- (1,2,0)
        Cyc(1, 32, 52, 12),     // (0,0,1) <- (3,1,2) <- (5,2,1) <- (1,1,0)
        Cyc(2, 35, 51, 9) ]     // (0,0,2) <- (3,2,2) <- (5,2,0) <- (1,0,0)
    case 5 =>
      [ Cyc(24, 15, 42, 33),    // (2,2,0) <- (1,2,0) <- (4,2,0) <- (3,2,0)
        Cyc(25, 16, 43, 34),    // (2,2,1) <- (1,2,1) <- (4,2,1) <- (3,2,1)
        Cyc(26, 17, 44, 35) ]   // (2,2,2) <- (1,2,2) <- (4,2,2) <- (3,2,2)
  }

  function Strips(s: seq<int>, face: nat): (t: seq<int>)
    requires |s| == 54 && face < 6
    ensures |t| == 54
  {
    ApplyCycles(s, StripCycles(face))
  }

  /** The `X1` primitive: spin the face, then cycle its four border strips. */
  function Quarter(s: seq<int>, face: nat): (t: seq<int>)
    requires |s| == 54 && face < 6
    ensures |t| == 54
  {
    Strips(SpinFace(s, face), face)
  }

  // ---------------------------------------------------------------------
  // Where each facelet comes from.

  predicate InCycle(x: Cyc, k: nat) {
    k == x.a || k == x.b || k == x.c || k == x.d
  }

  /** No offset of x is an offset of y. */
  predicate Apart(x: Cyc, y: Cyc) {
    !InCycle(y, x.a) && !InCycle(y, x.b) && !InCycle(y, x.c) && !InCycle(y, x.d)
  }

  /** A 4-cycle moves exactly its own four offsets, within the cycle, and has order four. */
  lemma CycleSourceStays(x: Cyc, k: nat)
    requires ValidCycle(x)
    ensures InCycle(x, k) ==> InCycle(x, CycleSource(x, k)) && CycleSource(x, k) != k
    ensures !InCycle(x, k) ==> CycleSource(x, k) == k
    ensures CycleSource(x, CycleSource(x, CycleSource(x, CycleSource(x, k)))) == k
  {
  }

  /** Five cycles applied in the order of a quarter turn: y2, y1, y0 (strips), then x1, x0 (spin). */
  function Chain(x0: Cyc, x1: Cyc, y0: Cyc, y1: Cyc, y2: Cyc, k: nat): nat {
    CycleSource(x0, CycleSource(x1, CycleSource(y0, CycleSource(y1, CycleSource(y2, k)))))
  }

  predicate AllApart(x0: Cyc, x1: Cyc, y0: Cyc, y1: Cyc, y2: Cyc) {
    ValidCycle(x0) && ValidCycle(x1) && ValidCycle(y0) && ValidCycle(y1) && ValidCycle(y2) &&
    Apart(x0, x1) && Apart(x0, y0) && Apart(x0, y1) && Apart(x0, y2) &&
    Apart(x1, y0) && Apart(x1, y1) && Apart(x1, y2) &&
    Apart(y0, y1) && Apart(y0, y2) && Apart(y1, y2)
  }

  /** For disjoint cycles only the cycle holding k moves it. */
  lemma ChainAt(x0: Cyc, x1: Cyc, y0: Cyc, y1: Cyc, y2: Cyc, k: nat)
    requires AllApart(x0, x1, y0, y1, y2)
    ensures Chain(x0, x1, y0, y1, y2, k) ==
      if InCycle(y2, k) then CycleSource(y2, k)
      else if InCycle(y1, k) then CycleSource(y1, k)
      else if InCycle(y0, k) then CycleSource(y0, k)
      else if InCycle(x1, k) then CycleSource(x1, k)
      else if InCycle(x0, k) then CycleSource(x0, k)
      else k
  {
  }

  /** A product of disjoint 4-cycles has order four. */
  lemma ChainOrderFour(x0: Cyc, x1: Cyc, y0: Cyc, y1: Cyc, y2: Cyc, k: nat)
    requires AllApart(x0, x1, y0, y1, y2)
    ensures Chain(x0, x1, y0, y1, y2, Chain(x0, x1, y0, y1, y2, Chain(x0, x1, y0, y1, y2, Chain(x0, x1, y0, y1, y2, k)))) == k
  {
    ChainAt(x0, x1, y0, y1, y2, k);
    if InCycle(y2, k) {
      var k1 := CycleSource(y2, k);
      var k2 := CycleSource(y2, k1);
      CycleSourceStays(y2, k);
      CycleSourceStays(y2, k1);
      CycleSourceStays(y2, k2);
      ChainAt(x0, x1, y0, y1, y2, k1);
      ChainAt(x0, x1, y0, y1, y2, k2);
      ChainAt(x0, x1, y0, y1, y2, CycleSource(y2, k2));
    } else if InCycle(y1, k) {
      var k1 := CycleSource(y1, k);
      var k2 := CycleSource(y1, k1);
      CycleSourceStays(y1, k);
      CycleSourceStays(y1, k1);
      CycleSourceStays(y1, k2);
      ChainAt(x0, x1, y0, y1, y2, k1);
      ChainAt(x0, x1, y0, y1, y2, k2);
      ChainAt(x0, x1, y0, y1, y2, CycleSource(y1, k2));
    } else if InCycle(y0, k) {
      var k1 := CycleSource(y0, k);
      var k2 := CycleSource(y0, k1);
      CycleSourceStays(y0, k);
      CycleSourceStays(y0, k1);
      CycleSourceStays(y0, k2);
      ChainAt(x0, x1, y0, y1, y2, k1);
      ChainAt(x0, x1, y0, y1, y2, k2);
      ChainAt(x0, x1, y0, y1, y2, CycleSource(y0, k2));
    } else if InCycle(x1, k) {
      var k1 := CycleSource(x1, k);
      var k2 := CycleSource(x1, k1);
      CycleSourceStays(x1, k);
      CycleSourceStays(x1, k1);
      CycleSourceStays(x1, k2);
      ChainAt(x0, x1, y0, y1, y2, k1);
      ChainAt(x0, x1, y0, y1, y2, k2);
      ChainAt(x0, x1, y0, y1, y2, CycleSource(x1, k2));
    } else if InCycle(x0, k) {
      var k1 := CycleSource(x0, k);
      var k2 := CycleSource(x0, k1);
      CycleSourceStays(x0, k);
      CycleSourceStays(x0, k1);
      CycleSourceStays(x0, k2);
      ChainAt(x0, x1, y0, y1, y2, k1);
      ChainAt(x0, x1, y0, y1, y2, k2);
      ChainAt(x0, x1, y0, y1, y2, CycleSource(x0, k2));
    }
  }

  /**
   * The offset whose facelet a quarter turn of `face` leaves at offset k:
   * back through the three strip cycles, then the two spin cycles.
   */
  function QuarterSource(face: nat, k: nat): nat
    requires face < 6
  {
    Chain(SpinCycles(face)[0], SpinCycles(face)[1], StripCycles(face)[0], StripCycles(face)[1], StripCycles(face)[2], k)
  }

  lemma QuarterAt(s: seq<int>, face: nat, k: nat)
    requires |s| == 54 && face < 6 && k < 54
    ensures QuarterSource(face, k) == CyclesSource(SpinCycles(face), CyclesSource(StripCycles(face), k))
    ensures Quarter(s, face)[k] == s[QuarterSource(face, k)]
  {
    var k1 := CyclesSource(StripCycles(face), k);
    ApplyCyclesAt(SpinFace(s, face), StripCycles(face), k);
    ApplyCyclesAt(s, SpinCycles(face), k1);
    ThreeSources(StripCycles(face), k);
    TwoSources(SpinCycles(face), k1);
  }

  /** A clockwise quarter turn of a face grid: new[i][j] = old[2-j][i]. */
  function Spin(f: int, p: Pos): Pos {
    Pos(f, 2 - p.j, p.i)
  }

  /** The turned face itself and the four strips the `X1` case writes. */
  predicate Touched(face: nat, p: Pos) {
    p.f == face ||
    match face
    case 0 => p.i == 0 && 1 <= p.f <= 4
    case 1 => (p.f == 0 && p.j == 0) || (p.f == 4 && p.j == 2) || (p.f == 5 && p.j == 0) || (p.f == 2 && p.j == 0)
    case 2 => (p.f == 0 && p.i == 2) || (p.f == 1 && p.j == 2) || (p.f == 5 && p.i == 0) || (p.f == 3 && p.j == 0)
    case 3 => (p.f == 0 && p.j == 2) || (p.f == 2 && p.j == 2) || (p.f == 5 && p.j == 2) || (p.f == 4 && p.j == 0)
    case 4 => (p.f == 0 && p.i == 0) || (p.f == 3 && p.j == 2) || (p.f == 5 && p.i == 2) || (p.f == 1 && p.j == 0)
    case 5 => p.i == 2 && 1 <= p.f <= 4
    case _ => false
  }

  /** The face opposite each face: U-D, L-R, F-B. */
  function Opposite(face: nat): (g: nat)
    requires face < 6
    ensures g < 6 && g != face
  {
    [5, 3, 4, 1, 2, 0][face]
  }

  /** The offsets a quarter turn of `face` moves. */
  predicate Moved(face: nat, k: nat)
    requires face < 6
  {
    InCycle(SpinCycles(face)[0], k) || InCycle(SpinCycles(face)[1], k) ||
    InCycle(StripCycles(face)[0], k) || InCycle(StripCycles(face)[1], k) || InCycle(StripCycles(face)[2], k)
  }

  // Facts read off the literal cycle tables of each face.

  lemma TableU()
    ensures StripCycles(0)[0] == Cyc(9, 18, 27, 36) && StripCycles(0)[1] == Cyc(10, 19, 28, 37)
    ensures StripCycles(0)[2] == Cyc(11, 20, 29, 38)
    ensures SpinCycles(0)[0] == Cyc(0, 6, 8, 2) && SpinCycles(0)[1] == Cyc(1, 3, 7, 5)
  {
  }

  lemma MovedU(p: Pos)
    requires ValidPos(p)
    ensures Moved(0, Index(p)) <==> Touched(0, p) && p != Pos(0, 1, 1)
  {
    TableU();
  }

  lemma TableL()
    ensures StripCycles(1)[0] == Cyc(0, 44, 45, 18) && StripCycles(1)[1] == Cyc(3, 41, 48, 21)
    ensures StripCycles(1)[2] == Cyc(6, 38, 51, 24)
    ensures SpinCycles(1)[0] == Cyc(9, 15, 17, 11) && SpinCycles(1)[1] == Cyc(10, 12, 16, 14)
  {
  }

  lemma MovedL(p: Pos)
    requires ValidPos(p)
    ensures Moved(1, Index(p)) <==> Touched(1, p) && p != Pos(1, 1, 1)
  {
    TableL();
  }

  lemma TableF()
    ensures StripCycles(2)[0] == Cyc(6, 17, 47, 27) && StripCycles(2)[1] == Cyc(7, 14, 46, 30)
    ensures StripCycles(2)[2] == Cyc(8, 11, 45, 33)
    ensures SpinCycles(2)[0] == Cyc(18, 24, 26, 20) && SpinCycles(2)[1] == Cyc(19, 21, 25, 23)
  {
  }

  lemma MovedF(p: Pos)
    requires ValidPos(p)
    ensures Moved(2, Index(p)) <==> Touched(2, p) && p != Pos(2, 1, 1)
  {
    TableF();
  }

  lemma TableR()
    ensures StripCycles(3)[0] == Cyc(2, 20, 47, 42) && StripCycles(3)[1] == Cyc(5, 23, 50, 39)
    ensures StripCycles(3)[2] == Cyc(8, 26, 53, 36)
    ensures SpinCycles(3)[0] == Cyc(27, 33, 35, 29) && SpinCycles(3)[1] == Cyc(28, 30, 34, 32)
  {
  }

  lemma MovedR(p: Pos)
    requires ValidPos(p)
    ensures Moved(3, Index(p)) <==> Touched(3, p) && p != Pos(3, 1, 1)
  {
    TableR();
  }

  lemma TableB()
    ensures StripCycles(4)[0] == Cyc(0, 29, 53, 15) && StripCycles(4)[1] == Cyc(1, 32, 52, 12)
    ensures StripCycles(4)[2] == Cyc(2, 35, 51, 9)
    ensures SpinCycles(4)[0] == Cyc(36, 42, 44, 38) && SpinCycles(4)[1] == Cyc(37, 39, 43, 41)
  {
  }

  lemma MovedB(p: Pos)
    requires ValidPos(p)
    ensures Moved(4, Index(p)) <==> Touched(4, p) && p != Pos(4, 1, 1)
  {
    TableB();
  }

  lemma TableD()
    ensures StripCycles(5)[0] == Cyc(24, 15, 42, 33) && StripCycles(5)[1] == Cyc(25, 16, 43, 34)
    ensures StripCycles(5)[2] == Cyc(26, 17, 44, 35)
    ensures SpinCycles(5)[0] == Cyc(45, 51, 53, 47) && SpinCycles(5)[1] == Cyc(46, 48, 52, 50)
  {
  }

  lemma MovedD(p: Pos)
    requires ValidPos(p)
    ensures Moved(5, Index(p)) <==> Touched(5, p) && p != Pos(5, 1, 1)
  {
    TableD();
  }

  /** The five cycles of a quarter turn are disjoint. */
  lemma QuarterCyclesApart(face: nat)
    requires face < 6
    ensures AllApart(SpinCycles(face)[0], SpinCycles(face)[1], StripCycles(face)[0], StripCycles(face)[1], StripCycles(face)[2])
  {
    if face == 0 { TableU(); }
    else if face == 1 { TableL(); }
    else if face == 2 { TableF(); }
    else if face == 3 { TableR(); }
    else if face == 4 { TableB(); }
    else { TableD(); }
  }

  /** The strip cycles of a quarter turn stay off the turned face. */
  lemma StripsOffFace(face: nat, i: nat, j: nat)
    requires face < 6 && i < 3 && j < 3
    ensures var k := Index(Pos(face, i, j));
      !InCycle(StripCycles(face)[0], k) && !InCycle(StripCycles(face)[1], k) && !InCycle(StripCycles(face)[2], k)
  {
    if face == 0 { TableU(); }
    else if face == 1 { TableL(); }
    else if face == 2 { TableF(); }
    else if face == 3 { TableR(); }
    else if face == 4 { TableB(); }
    else { TableD(); }
  }

  // ---------------------------------------------------------------------
  // Properties of one quarter turn.

  /** The two spin cycles of a face send each cell to its clockwise neighbour. */
  lemma SpinSource(f: nat, i: nat, j: nat)
    requires f < 6 && i < 3 && j < 3
    ensures CycleSource(SpinCycles(f)[0], CycleSource(SpinCycles(f)[1], Index(Pos(f, i, j)))) == Index(Pos(f, 2 - j, i))
  {
    var b := 9 * f;
    assert SpinCycles(f)[0] == Cyc(b, b + 6, b + 8, b + 2);
    assert SpinCycles(f)[1] == Cyc(b + 1, b + 3, b + 7, b + 5);
    assert Index(Pos(f, i, j)) == b + 3 * i + j;
    assert Index(Pos(f, 2 - j, i)) == b + 3 * (2 - j) + i;
  }

  /**
   * `rotate_face(f)` on its own: on face f, new[i][j] = old[2-j][i], and
   * every facelet of the other faces stays where it is.
   */
  lemma SpinFaceAt(s: seq<int>, f: nat, p: Pos)
    requires |s| == 54 && f < 6 && ValidPos(p)
    ensures SpinFace(s, f)[Index(p)] == if p.f == f then s[Index(Spin(f, p))] else s[Index(p)]
  {
    var k := Index(p);
    ApplyCyclesAt(s, SpinCycles(f), k);
    TwoSources(SpinCycles(f), k);
    if p.f == f {
      SpinSource(f, p.i, p.j);
    } else {
      SpinCyclesOffFace(f, p);
      CycleSourceStays(SpinCycles(f)[0], k);
      CycleSourceStays(SpinCycles(f)[1], k);
    }
  }

  /** The spin cycles of face f hold only offsets of face f. */
  lemma SpinCyclesOffFace(f: nat, p: Pos)
    requires f < 6 && ValidPos(p) && p.f != f
    ensures !InCycle(SpinCycles(f)[0], Index(p)) && !InCycle(SpinCycles(f)[1], Index(p))
  {
    var b := 9 * f;
    assert SpinCycles(f)[0] == Cyc(b, b + 6, b + 8, b + 2);
    assert SpinCycles(f)[1] == Cyc(b + 1, b + 3, b + 7, b + 5);
    assert p.f < f ==> Index(p) < b;
    assert p.f > f ==> Index(p) >= b + 9;
  }

  /** `rotate_face`: on the turned face, new[i][j] = old[2-j][i]. */
  lemma QuarterSpins(s: seq<int>, face: nat, i: nat, j: nat)
    requires |s| == 54 && face < 6 && i < 3 && j < 3
    ensures Quarter(s, face)[Index(Pos(face, i, j))] == s[Index(Spin(face, Pos(face, i, j)))]
  {
    var k := Index(Pos(face, i, j));
    QuarterAt(s, face, k);
    StripsOffFace(face, i, j);
    CycleSourceStays(StripCycles(face)[0], k);
    CycleSourceStays(StripCycles(face)[1], k);
    CycleSourceStays(StripCycles(face)[2], k);
    SpinSource(face, i, j);
  }

  /**
   * Exactly the facelets of the turned face and its four border strips
   * move, except the centre of the face.
   */
  lemma QuarterMoves(face: nat, p: Pos)
    requires face < 6 && ValidPos(p)
    ensures QuarterSource(face, Index(p)) != Index(p) <==> Touched(face, p) && p != Pos(face, 1, 1)
  {
    var k := Index(p);
    var x0, x1, y0, y1, y2 := SpinCycles(face)[0], SpinCycles(face)[1], StripCycles(face)[0], StripCycles(face)[1], StripCycles(face)[2];
    QuarterCyclesApart(face);
    ChainAt(x0, x1, y0, y1, y2, k);
    CycleSourceStays(x0, k);
    CycleSourceStays(x1, k);
    CycleSourceStays(y0, k);
    CycleSourceStays(y1, k);
    CycleSourceStays(y2, k);
    if face == 0 { MovedU(p); }
    else if face == 1 { MovedL(p); }
    else if face == 2 { MovedF(p); }
    else if face == 3 { MovedR(p); }
    else if face == 4 { MovedB(p); }
    else { MovedD(p); }
  }

  /** Outside the turned face and its four border strips nothing changes. */
  lemma QuarterFrame(s: seq<int>, face: nat, p: Pos)
    requires |s| == 54 && face < 6 && ValidPos(p) && !Touched(face, p)
    ensures Quarter(s, face)[Index(p)] == s[Index(p)]
  {
    QuarterAt(s, face, Index(p));
    QuarterMoves(face, p);
  }

  /** A quarter turn only permutes facelets. */
  lemma QuarterColours(s: seq<int>, face: nat)
    requires |s| == 54 && face < 6
    ensures multiset(Quarter(s, face)) == multiset(s)
  {
    ApplyCyclesColours(s, SpinCycles(face));
    ApplyCyclesColours(SpinFace(s, face), StripCycles(face));
  }

  /** The `X1` primitive applied four times is the identity. */
  lemma QuarterFourTimes(s: seq<int>, face: nat)
    requires |s| == 54 && face < 6
    ensures Quarter(Quarter(Quarter(Quarter(s, face), face), face), face) == s
  {
    var s1 := Quarter(s, face);
    var s2 := Quarter(s1, face);
    var s3 := Quarter(s2, face);
    var s4 := Quarter(s3, face);
    QuarterCyclesApart(face);
    forall k | 0 <= k < 54 ensures s4[k] == s[k] {
      var k1 := QuarterSource(face, k);
      QuarterAt(s3, face, k);
      var k2 := QuarterSource(face, k1);
      assert k1 < 54 by { QuarterAt(s, face, k); }
      QuarterAt(s2, face, k1);
      assert k2 < 54 by { QuarterAt(s, face, k1); }
      QuarterAt(s1, face, k2);
      var k3 := QuarterSource(face, k2);
      assert k3 < 54 by { QuarterAt(s, face, k2); }
      QuarterAt(s, face, k3);
      ChainOrderFour(SpinCycles(face)[0], SpinCycles(face)[1], StripCycles(face)[0], StripCycles(face)[1], StripCycles(face)[2], k);
    }
  }

  /** The centre facelet of every face stays put. */
  lemma QuarterKeepsCentres(s: seq<int>, face: nat, g: nat)
    requires |s| == 54 && face < 6 && g < 6
    ensures Quarter(s, face)[Index(Pos(g, 1, 1))] == s[Index(Pos(g, 1, 1))]
  {
    QuarterAt(s, face, Index(Pos(g, 1, 1)));
    QuarterMoves(face, Pos(g, 1, 1));
  }

  /** The face opposite the turned one is left exactly as it was. */
  lemma QuarterKeepsOpposite(s: seq<int>, face: nat, p: Pos)
    requires |s| == 54 && face < 6 && ValidPos(p) && p.f == Opposite(face)
    ensures Quarter(s, face)[Index(p)] == s[Index(p)]
  {
    QuarterFrame(s, face, p);
  }

  // ---------------------------------------------------------------------
  // Repeated quarter turns: the `X2` and `X3` cases.

  /** n quarter turns of the same face. */
  function TurnQuarters(s: seq<int>, face: nat, n: nat): (t: seq<int>)
    requires |s| == 54 && face < 6
    ensures |t| == 54
  {
    if n == 0 then s else Quarter(TurnQuarters(s, face, n - 1), face)
  }

  lemma TurnQuartersUnrolled(s: seq<int>, face: nat)
    requires |s| == 54 && face < 6
    ensures TurnQuarters(s, face, 1) == Quarter(s, face)
    ensures TurnQuarters(s, face, 2) == Quarter(Quarter(s, face), face)
    ensures TurnQuarters(s, face, 3) == Quarter(Quarter(Quarter(s, face), face), face)
  {
    assert TurnQuarters(s, face, 1) == Quarter(TurnQuarters(s, face, 0), face);
    assert TurnQuarters(s, face, 2) == Quarter(TurnQuarters(s, face, 1), face);
    assert TurnQuarters(s, face, 3) == Quarter(TurnQuarters(s, face, 2), face);
  }

  /** A turn by m quarters followed by a turn by 4 - m quarters restores the cube. */
  lemma TurnQuartersInverse(s: seq<int>, face: nat, m: nat)
    requires |s| == 54 && face < 6 && 1 <= m <= 3
    ensures TurnQuarters(TurnQuarters(s, face, m), face, 4 - m) == s
  {
    var s1 := Quarter(s, face);
    var s2 := Quarter(s1, face);
    var s3 := Quarter(s2, face);
    QuarterFourTimes(s, face);
    TurnQuartersUnrolled(s, face);
    if m == 1 {
      TurnQuartersUnrolled(s1, face);
    } else if m == 2 {
      TurnQuartersUnrolled(s2, face);
    } else {
      TurnQuartersUnrolled(s3, face);
    }
  }

  /** Any number of quarter turns keeps every face centre. */
  lemma {:induction false} TurnQuartersKeepCentres(s: seq<int>, face: nat, n: nat, g: nat)
    requires |s| == 54 && face < 6 && g < 6
    ensures TurnQuarters(s, face, n)[Index(Pos(g, 1, 1))] == s[Index(Pos(g, 1, 1))]
  {
    if n > 0 {
      TurnQuartersKeepCentres(s, face, n - 1, g);
      QuarterKeepsCentres(TurnQuarters(s, face, n - 1), face, g);
    }
  }

  lemma {:induction false} TurnQuartersColours(s: seq<int>, face: nat, n: nat)
    requires |s| == 54 && face < 6
    ensures multiset(TurnQuarters(s, face, n)) == multiset(s)
  {
    if n > 0 {
      TurnQuartersColours(s, face, n - 1);
      QuarterColours(TurnQuarters(s, face, n - 1), face);
    }
  }
}
