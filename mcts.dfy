/**
 * The node of the search tree: the state it holds, its parent and the
 * action that led to it, its visit and result bookkeeping, and the
 * cube-specific list of actions to try from it.
 */
module Mcts {
  import opened Wrappers
  import opened Rotations

  class TreeHorn<State> {
    var state: State
    var parent: Option<TreeHorn<State>>
    var parentAction: Option<string>
    var children: seq<TreeHorn<State>>
    var numberOfVisits: int
    /** The defaultdict of results, with its two preset keys. */
    var results: map<int, int>
    var untriedActions: Option<seq<string>>
    const validRotates: seq<string>

    ghost predicate Valid()
      reads this
    {
      validRotates == ValidRotates
    }

    /**
     * `__init__`: a node with no children and no visits, both result
     * counters at 0, and the untried actions as `untried_actions` gives them.
     */
    constructor(state: State, parent: Option<TreeHorn<State>>, parentAction: Option<string>)
      ensures Valid()
      ensures this.state == state && this.parent == parent && this.parentAction == parentAction
      ensures children == [] && numberOfVisits == 0
      ensures results == map[1 := 0, -1 := 0]
      ensures untriedActions.None?
    {
      this.state := state;
      this.parent := parent;
      this.parentAction := parentAction;
      children := [];
      numberOfVisits := 0;
      results := map[1 := 0, -1 := 0];
      untriedActions := None;
      validRotates := ValidRotates;
      new;
      untriedActions := UntriedActions();
    }

    /** `untried_actions`: no list of untried actions is computed yet. */
    function UntriedActions(): (actions: Option<seq<string>>)
      ensures actions.None?
    {
      None
    }

    /**
     * `get_possible_actions(parent_action)`: the tokens of `valid_rotates`
     * whose face differs from the first letter of the parent action, in
     * their order. The parent action must be a non-empty string.
     */
    method GetPossibleActions(parentAction: string) returns (possibleActions: seq<string>)
      requires Valid() && |parentAction| > 0
      ensures possibleActions == WithoutFace(ValidRotates, parentAction[0])
      ensures forall v :: v in possibleActions <==> v in ValidRotates && v[0] != parentAction[0]
      ensures Distinct(possibleActions)
      ensures |possibleActions| == if parentAction[0] in FaceLetters then 15 else 18
    {
      ValidRotatesDistinct();
      var lastFace := parentAction[0];
      possibleActions := KeepOtherFaces(validRotates, lastFace);
      forall v ensures v in possibleActions <==> v in ValidRotates && v[0] != lastFace {
        WithoutFaceMembers(ValidRotates, lastFace, v);
      }
      WithoutFaceDistinct(ValidRotates, lastFace);
      WithoutFaceCount(lastFace);
    }
  }
}
