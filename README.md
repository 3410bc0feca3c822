# cube0 — a verified model of the Rubik's cube engine

This project models the puzzle engine of cube0 in Dafny. cube0 is a small
cube solver that searches for rotation sequences back to the solved state.
Two classes are modelled:

- `Cube` (cube.py) holds a 6×3×3 integer array of facelet colours and the
  solved array it started from. It also holds the log of rotations applied
  at the top level, and its last computed "entropy" (a scrambledness score).
  It applies the 18 rotation tokens `R1` … `B3` in place, scores the state,
  draws random moves and lists the tokens allowed after a given one.
- `TreeHorn` (mcts.py) is the node of the search tree: its fields as
  `__init__` sets them, `untried_actions`, and its own `get_possible_actions`.

Layout (`facelets.dfy`). The (6,3,3) array is kept flat, in row-major order.
Facelet (f, i, j) sits at offset 9f + 3i + j. Faces are numbered
U=0, L=1, F=2, R=3, B=4, D=5, and each face starts out in its own colour.

What a quarter turn does (`turns.dfy`). The `X1` case of `rotate` does two
things:

1. `rotate_face(f)` makes four slice assignments. Together they are two
   disjoint 4-cycles of the face's facelets.
2. Four more slice assignments, some through `np.flip`, rotate the border
   strips. Together they are three disjoint 4-cycles.

The pure function `Quarter(s, face)` applies these five cycles. Each
imperative `Cube.Turn?1` method performs the source's own slice writes on
the array. The lemmas `SpinWrites` and `R1Writes` … `B1Writes` prove that
those writes equal the cycles. Properties of a quarter turn are proved once,
for every face, from the fact that the five cycles are disjoint. They cover:

- the `rotate_face` formula;
- the frame of what moves;
- the order of a turn being four;
- colour preservation.

Tokens (`rotations.dfy`). `rotate` lists its 18 cases by name. The model
parses a token into a face and a quarter count. `ParseValidRotates` proves
that the parser accepts exactly the entries of `valid_rotates`, and
`NestedTokens` proves that each `X2`/`X3` repeats the `X1` token the source
names. `LogEntries` gives what `rotate(r, level)` appends to `moves`:

- the token itself at level 1;
- the nested `X1` tokens when an `X2`/`X3` is rotated at level 0, since the
  nested calls then run at level 1;
- nothing for an unknown token.

Scores (`entropy.dfy`) cover `naive_entropy` and `align_entropy`.

The comments in `naive_entropy` and `align_entropy` give their ranges as
12–54 and 8–32. The code gives 0 for both on the solved cube, and the model
follows the code (`NaiveEntropyOf`, `AlignSolved`).

A zero alignment score only says that neighbouring facelets agree with each
other. An arbitrary nine-of-each colouring can score 0 without being solved
(`AlignZeroNotSolved`). That colouring has a yellow up centre, so rotations
cannot reach it: no move changes a centre (`SwappedUnreachable`).

## Model

| member | source | states |
|---|---|---|
| Facelets.PosAt | cube.py:29-30 | every offset of the flat 54-facelet array names exactly one (face, row, column) cell, and `Index` maps it back |
| Facelets.PosAtIndex | cube.py:29-30 | reading a cell's offset back gives the same cell, so the flat layout is a bijection with the (6,3,3) array |
| Facelets.Solved | cube.py:30-33 | the solved array: 54 facelets, offset k holding colour k / 9, so face f is all colour f |
| Facelets.SolvedAt | cube.py:30-33 | in the solved array every facelet of face f has colour f |
| Facelets.SolvedWellColoured | cube.py:30-33 | the solved array holds colours 0..5 only, nine facelets of each |
| Facelets.PermutationWellColoured | cube.py:242-349 | any rearrangement of a well-coloured state is well coloured (colours stay in 0..5, nine of each) |
| Turns.SpinCycles | cube.py:244-249 | the two 4-cycles of distinct offsets on face f that `rotate_face(f)` performs: corners (0,0)←(2,0)←(2,2)←(0,2) and edges (0,1)←(1,0)←(2,1)←(1,2) |
| Turns.SpinFace | cube.py:244-249 | `rotate_face(f)` as a function: the spin cycles applied to a 54-facelet state |
| Turns.StripCycles | cube.py:252-334 | for each face, the three 4-cycles of distinct offsets that its `X1` case moves through the four border strips, read off the slice writes (flips included) |
| Turns.Quarter | cube.py:252-334 | the `X1` case: spin the face, then cycle its border strips; a 54-facelet state again |
| Turns.TurnQuarters | cube.py:260-343 | n quarter turns of one face, as `X2`/`X3` repeat `X1` |
| Turns.ApplyCyclesColours | cube.py:244-249 | applying 4-cycles of facelets leaves the multiset of colours unchanged |
| Turns.ApplyCyclesAt | cube.py:244-249 | after a sequence of cycles, each offset holds the facelet from the offset `CyclesSource` names |
| Turns.QuarterAt | cube.py:242-334 | after an `X1` turn, each facelet holds the colour from the offset given by the face's five cycles |
| Turns.CycleSourceStays | cube.py:244-249 | a 4-cycle moves exactly its own four offsets, keeps them within the cycle, and has order four |
| Turns.ChainAt | cube.py:242-334 | for disjoint cycles, only the cycle that holds an offset moves it |
| Turns.ChainOrderFour | cube.py:242-334 | a product of five disjoint 4-cycles applied four times returns every offset to itself |
| Turns.QuarterCyclesApart | cube.py:244-334 | for every face, the two spin cycles and three strip cycles of its `X1` case are pairwise disjoint 4-cycles |
| Turns.StripsOffFace | cube.py:252-334 | no strip cycle of an `X1` case touches the turned face itself |
| Turns.SpinSource | cube.py:244-249 | the two spin cycles of a face take cell (i, j) from cell (2-j, i) |
| Turns.QuarterSpins | cube.py:244-249 | on the turned face of a whole `X1` turn, new[i][j] = old[`Spin`(i, j)] = old[2-j][i] for all nine cells |
| Turns.SpinFaceAt | cube.py:244-249 | `rotate_face(f)` alone: on face f new[i][j] = old[2-j][i], and every facelet of another face is unchanged |
| Turns.SpinCyclesOffFace | cube.py:244-249 | the spin cycles of face f hold no offset of another face |
| Turns.TurnQuartersKeepCentres | cube.py:252-343 | any number of quarter turns keeps every face centre |
| Turns.QuarterMoves | cube.py:244-334 | an `X1` turn moves a facelet if and only if it is on the turned face or one of its four border strips and is not the face's centre |
| Turns.QuarterFrame | cube.py:252-334 | facelets outside the turned face and its four border strips are unchanged |
| Turns.QuarterColours | cube.py:244-334 | an `X1` turn only permutes facelets: the multiset of colours is unchanged |
| Turns.QuarterFourTimes | cube.py:252-334 | `X1` applied four times is the identity on every state |
| Turns.QuarterKeepsCentres | cube.py:244-334 | every face centre is unchanged by every quarter turn |
| Turns.QuarterKeepsOpposite | cube.py:252-334 | the face opposite the turned one is unchanged |
| Turns.TurnQuartersUnrolled | cube.py:260-266 | one, two and three quarter turns are `X1`, `X1 X1` and `X1 X1 X1` |
| Turns.TurnQuartersInverse | cube.py:252-343 | m quarter turns followed by 4-m quarter turns of the same face restore the state (X1 X3, X2 X2, X3 X1) |
| Turns.TurnQuartersColours | cube.py:252-343 | any number of quarter turns keeps the multiset of colours |
| Rotations.FaceNumber | cube.py:27 | a letter has a face number exactly when it is one of `faces`, and `faces` maps the number back to the letter |
| Rotations.Parse | cube.py:251-346 | the `match` on the token: a two-character token with a face letter and a digit 1..3 names a face below 6 and 1..3 quarter turns, anything else falls to `case _` |
| Rotations.ApplyToken | cube.py:242-346 | what `rotate(r)` does to the facelets: the named number of quarter turns, or nothing for an unknown token |
| Rotations.ParseToken | cube.py:38-40 | the token of a rotation parses back to that rotation |
| Rotations.TokenParse | cube.py:38-40 | a token that parses is the token of the rotation it parses to |
| Rotations.Rank | cube.py:38-40 | every rotation's token is an entry of `valid_rotates`, at a computed place |
| Rotations.ParseValidRotates | cube.py:252-346 | `rotate` accepts a token (does not fall into `case _`) if and only if it is in `valid_rotates` |
| Rotations.NestedTokens | cube.py:260-343 | each `X2` and `X3` case repeats the `X1` token of its own face |
| Rotations.Inverse | solve_cube.py:77-80 | the inverse of a valid token is a valid token on the same face |
| Rotations.InverseRestores | solve_cube.py:77-80 | rotating a valid token then its inverse restores every state |
| Rotations.InverseInvolution | solve_cube.py:77-80 | the inverse of the inverse is the token itself |
| Rotations.TokenColours | cube.py:242-349 | a rotation, valid or not, keeps the multiset of colours |
| Rotations.Single | cube.py:260-343 | the nested token of a valid token turns the same face by one quarter |
| Rotations.RepeatSingle | cube.py:260-343 | an `X2` or `X3` token does what two or three of its `X1` token do |
| Rotations.ApplyMove | cube.py:351-354 | the tokens of a move applied one after another, from the first to the last |
| Rotations.ApplyMoveAppend | cube.py:351-354 | applying a concatenation of moves is applying one move after the other |
| Rotations.MoveColours | cube.py:351-354 | a move keeps the state well coloured |
| Rotations.MoveKeepsCentres | cube.py:351-354 | no move, valid tokens or not, changes a face centre |
| Rotations.InverseMove | cube.py:42 | the inverse of a valid move is a valid move of the same length, whose n-th token inverts the n-th token from the end |
| Rotations.InverseMoveRestores | cube.py:42 | a valid move followed by its inverse move restores every state |
| Rotations.Reversed | cube.py:42 | `moves[::-1]` lists the tokens of a move in reverse order, each unchanged |
| Rotations.HalfTurnR | cube.py:252-262 | two `R1` turns of the solved cube bring the down colour (5) to the up face's top-right facelet |
| Rotations.ReversedDoesNotUndo | cube.py:42 | applying a move and then its reversed log does not always restore the cube (counterexample `["R1"]`) |
| Rotations.LogEntries | cube.py:260-349 | what `rotate(r, level)` appends to `moves`: nothing for an unknown token and nothing at levels other than 0 and 1; the token at level 1, and the nested `X1` tokens of an `X2`/`X3` at level 0 |
| Rotations.LogNested | cube.py:260-349 | what an `X2`/`X3` rotation logs is what its nested `X1` calls at level + 1 log, then the token itself when level is 1 |
| Rotations.LogAtTopLevel | cube.py:344-349 | at level 1 a valid token is logged once and an unknown token not at all |
| Rotations.MoveLog | cube.py:351-354 | the log of a move is at most as long as the move and holds only valid tokens of the move |
| Rotations.MoveLogAllValid | cube.py:351-354 | a move of valid tokens is logged as it is |
| Rotations.WithoutFace | cube.py:386-391 | the entries whose first letter differs from the given one, in their order; never longer than the input |
| Rotations.KeepOtherFaces | cube.py:386-391 | the filtering loop returns the entries whose first letter differs from the given one, in order |
| Rotations.WithoutFaceMembers | cube.py:386-391 | a token is kept by the filter if and only if it is an entry and starts with another letter |
| Rotations.WithoutFaceDistinct | cube.py:386-391 | filtering a list without duplicates gives a list without duplicates |
| Rotations.WithoutAbsentFace | cube.py:381-391 | filtering by a letter no entry starts with (the 'X' of 'XX') keeps every entry |
| Rotations.ValidRotatesDistinct | cube.py:38-40 | the 18 entries of `valid_rotates` are non-empty and pairwise distinct |
| Rotations.WithoutFaceAppend | cube.py:386-391 | the filter distributes over concatenation |
| Rotations.WithoutFaceBlock | cube.py:38-40 | a face's three tokens are all dropped by their own letter and all kept by any other |
| Rotations.WithoutFaceCount | cube.py:379-392 | filtering `valid_rotates` by a face letter leaves 15 tokens, and by any other letter all 18 |
| Rotations.ExtendAlternating | cube.py:360-375 | appending a token on a different face from the last keeps consecutive tokens on different faces |
| Rotations.TokenLength | cube.py:38-40 | every token of `valid_rotates` has two characters |
| Entropy.Mismatches | cube.py:67-71 | the count of differing positions is at most the length, and is 0 exactly when the arrays are equal |
| Entropy.NaiveEntropyOf | cube.py:67-71 | `naive_entropy` is in 0..54 and is 0 exactly on the solved state |
| Entropy.AlignEntropyOf | cube.py:73-194 | `align_entropy` is 32 minus the 32 corner checks, so it lies in 0..32 |
| Entropy.UniformAligned | cube.py:73-194 | a state whose every face is a single colour passes all 32 checks |
| Entropy.AlignSolved | cube.py:73-194 | `align_entropy` is 0 on the solved state |
| Entropy.SwappedWellColoured | cube.py:73-194 | the solved state with white and yellow exchanged is well coloured and not solved |
| Entropy.AlignZeroNotSolved | cube.py:73-194 | an arbitrary nine-of-each colouring that is not solved can score 0 (white and yellow exchanged) |
| Entropy.SwappedUnreachable | cube.py:351-354 | no move from the solved cube reaches that colouring, because its up centre is yellow |
| CubeEngine.Flip | cube.py:246-257 | `np.flip` of three facelets reverses them |
| CubeEngine.LastFace | cube.py:379-385 | a present, non-empty parent action gives its first letter; a missing or empty one gives a letter on no face ('XX') |
| CubeEngine.CopyOf | cube.py:35 | `np.copy` yields a fresh array with the same contents |
| CubeEngine.RowOf | cube.py:244-334 | the numpy read `cube[f,i,:]`: the three facelets of row i of face f, read before any write |
| CubeEngine.ColOf | cube.py:244-334 | the numpy read `cube[f,:,j]`: the three facelets of column j of face f, read before any write |
| CubeEngine.WriteRow | cube.py:244-334 | the numpy write `cube[f,i,:] = v`: row i of face f takes the three values of v |
| CubeEngine.WriteCol | cube.py:244-334 | the numpy write `cube[f,:,j] = v`: column j of face f takes the three values of v |
| CubeEngine.SpinWrites | cube.py:244-249 | the four slice assignments of `rotate_face` perform the face's two spin cycles |
| CubeEngine.R1Writes | cube.py:252-258 | the strip assignments of `R1` perform its three strip cycles |
| CubeEngine.L1Writes | cube.py:268-273 | the strip assignments of `L1` perform its three strip cycles |
| CubeEngine.U1Writes | cube.py:283-288 | the strip assignments of `U1` perform its three strip cycles |
| CubeEngine.D1Writes | cube.py:298-303 | the strip assignments of `D1` perform its three strip cycles |
| CubeEngine.F1Writes | cube.py:313-318 | the strip assignments of `F1` perform its three strip cycles |
| CubeEngine.B1Writes | cube.py:328-333 | the strip assignments of `B1` perform its three strip cycles |
| CubeEngine.Cube.constructor | cube.py:20-41 | a new cube is solved and well coloured, its working array is a fresh copy not shared with the solved one, entropy 0, empty log |
| CubeEngine.Cube.Reset | cube.py:44-47 | after `reset` the cube is solved in a fresh array, entropy is 0 and the log is kept |
| CubeEngine.Cube.IsSolved | cube.py:49-50 | `is_solved` holds exactly when the working array equals the solved configuration |
| CubeEngine.Cube.NaiveEntropy | cube.py:67-71 | the score is in 0..54 and is 0 exactly when the cube is solved |
| CubeEngine.Cube.AlignEntropy | cube.py:73-194 | the score is in 0..32 and is 0 when the cube is solved |
| CubeEngine.Cube.UpdateEntropy | cube.py:196-207 | 'align' and 'naive' store that score, 'off' and unknown styles keep the old entropy, and the stored value is returned |
| CubeEngine.Cube.SetRow | cube.py:244-334 | a row slice assignment writes its three values into that row only |
| CubeEngine.Cube.SetCol | cube.py:244-334 | a column slice assignment writes its three values into that column only |
| CubeEngine.Cube.RotateFace | cube.py:244-249 | `rotate_face(f)` leaves the array equal to `SpinFace` of the old one: new[i][j] = old[2-j][i] on face f, nothing else moves (by `SpinFaceAt`) |
| CubeEngine.Cube.VectorCube | cube.py:52-57 | `vector_cube` is the row-major flattening of the array, a legal colouring, equal to the solved vector exactly when the cube is solved |
| CubeEngine.Cube.TurnR1 | cube.py:252-258 | the `R1` case turns the array by `Quarter` of face R and keeps it well coloured |
| CubeEngine.Cube.TurnL1 | cube.py:268-273 | the `L1` case turns the array by `Quarter` of face L and keeps it well coloured |
| CubeEngine.Cube.TurnU1 | cube.py:283-288 | the `U1` case turns the array by `Quarter` of face U and keeps it well coloured |
| CubeEngine.Cube.TurnD1 | cube.py:298-303 | the `D1` case turns the array by `Quarter` of face D and keeps it well coloured |
| CubeEngine.Cube.TurnF1 | cube.py:313-318 | the `F1` case turns the array by `Quarter` of face F and keeps it well coloured |
| CubeEngine.Cube.TurnB1 | cube.py:328-333 | the `B1` case turns the array by `Quarter` of face B and keeps it well coloured |
| CubeEngine.Cube.QuarterTurn | cube.py:252-333 | the `X1` case of any face turns the array by `Quarter` of that face |
| CubeEngine.Cube.Rotate | cube.py:242-349 | `rotate(r, level)` applies the token in place, or changes nothing and returns 1 for an unknown token; it appends `LogEntries(r, level)` to the log and keeps the entropy |
| CubeEngine.Cube.Move | cube.py:351-355 | `move(m)` applies the tokens of m in order, logs the valid ones, and sets the entropy to the naive score of the result |
| CubeEngine.Cube.RandMove | cube.py:357-377 | `rand_move(k)` returns max(k, 0) tokens of `valid_rotates`, no two consecutive tokens on the same face |
| CubeEngine.Cube.GetPossibleActions | cube.py:379-392 | the tokens of `valid_rotates` on another face than the parent action, in order and without duplicates; 15 of them for a face letter, all 18 for a missing or empty parent action |
| Mcts.TreeHorn.constructor | mcts.py:37-55 | a new node has the given state, parent and parent action, no children, no visits, results {1: 0, -1: 0}, no untried actions, and the 18 tokens |
| Mcts.TreeHorn.UntriedActions | mcts.py:69-70 | `untried_actions` returns None |
| Mcts.TreeHorn.GetPossibleActions | mcts.py:57-67 | the tokens on another face than the parent action's first letter, in order and without duplicates; 15 of them when that letter is a face letter |

## Findings

| source | as written | input that shows it | evidently intended | confidence | as-written member | corrected member |
|---|---|---|---|---|---|---|
| cube.py:42 | the comment gives `self.moves[::-1]` as the reverse moves | the log `["R1"]`: reversed it is `["R1"]`, and R1 R1 leaves the solved cube's up-right corner yellow | reverse the log and also invert each token (X1↔X3, X2↔X2) | high for the input shown; not executed | Rotations.ReversedDoesNotUndo | Rotations.InverseMoveRestores |

## Left out

- `show_cube` (a printed picture of the cube) and the `print` calls of `rotate` and `update_entropy` are output only and are not modelled.
- `matrix_dist`, `estimate_distance` and `get_reward` compute with floating point and are not modelled. (`vector_cube` returns the flattened integer array, which is the model's own layout; it is modelled as `VectorCube`.)
- CubeEngine.Cube.UpdateEntropy: requires the style not to be 'matrix', because that style stores the floating-point `matrix_dist`.
- CubeEngine.Cube.RandMove: the token is drawn with `np.random.choice`; the model picks any allowed token and does not model the uniform distribution.
- CubeEngine.Cube.Rotate: models the 18 named cases through `Parse` instead of 18 branches. `ParseValidRotates` and `NestedTokens` tie this to the source's cases, and `QuarterTurn` dispatches to the six `X1` bodies written as in the source.
- Rotations.Inverse: `inverse_rotates` is used by solve_cube.py but is not defined in cube.py. The model defines the inverse as the same face with 4 - n quarter turns (R1↔R3, R2↔R2), which the test in solve_cube.py evidently expects.
- Mcts.TreeHorn.GetPossibleActions: requires a non-empty parent action, because the source reads `parent_action[0]` with no fallback.
- `TreeHorn.results` is a `defaultdict(int)`: the model keeps its two preset keys in a map and does not model the default of 0 for other keys.
- The state held by a `TreeHorn` node is a type parameter: nothing in the modelled code looks inside it.
- The search itself (select, expand, simulate, backpropagate) is not present in mcts.py and is not part of this model. solve_cube.py, the training scripts and the evaluation scripts call the engine and are not modelled.
- numpy integer widths: colours are 0..5 and counts are at most 54, so no overflow can arise, and integers are unbounded in the model.
