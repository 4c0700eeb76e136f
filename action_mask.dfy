/** `ActionMaskWrapper`: adds to each observation a mask of the cells the
    agent may still block, and refuses a step on any other cell. */
module ActionMask {
  import opened Environment
  import opened Observations

  /** The key under which the mask is added. */
  const ActionMaskKey: string := "action_mask"

  /** `(board == OPEN).astype(int8)`: 1 on the OPEN cells, 0 elsewhere. */
  function OpenMask(board: seq<seq<int>>): (mask: seq<seq<int>>)
    ensures |mask| == |board|
    ensures forall r :: 0 <= r < |board| ==> |mask[r]| == |board[r]|
  {
    seq(|board|, r requires 0 <= r < |board| =>
      seq(|board[r]|, c requires 0 <= c < |board[r]| => if board[r][c] == Value(Open) then 1 else 0))
  }

  /** The mask has the board's shape, holds only 0 and 1, and is 1 exactly
      on the OPEN cells. */
  lemma OpenMaskMarksOpenCells(board: seq<seq<int>>)
    ensures WellShaped(board) ==> WellShaped(OpenMask(board))
    ensures forall r, c :: 0 <= r < |board| && 0 <= c < |board[r]| ==>
              && (OpenMask(board)[r][c] == 0 || OpenMask(board)[r][c] == 1)
              && (OpenMask(board)[r][c] == 1 <==> board[r][c] == Value(Open))
  {
  }

  /** The mask marks exactly the actions on which the environment places a
      block: on a marked cell the step uses up one block of the budget, on
      an unmarked one it is refused with reward -1. */
  lemma MaskedActionsPlaceBlocks(s: EnvState, action: (int, int))
    requires WellShaped(s.board) && InActionSpace(action)
    ensures OpenMask(s.board)[action.0][action.1] == 1
            <==> Transition(s, action).next.remainingBlocks == s.remainingBlocks - 1
    ensures OpenMask(s.board)[action.0][action.1] == 0 <==> Transition(s, action).reward == -1
  {
  }

  /** What the wrapped `step` does: the environment's result, with the
      observation passed through `observation`, or the `ValueError` the
      guard raises. */
  datatype StepResult =
    | Stepped(observation: ObservationDict, reward: int, terminated: bool, truncated: bool)
    | InvalidAction(action: (int, int))

  class ActionMaskWrapper {
    const env: PatheryEnv

    /** `__init__`: wraps `env`; the observation space is left to gym. */
    constructor (env: PatheryEnv)
      ensures this.env == env
    {
      this.env := env;
    }

    /** `observation`: adds the mask of the board's OPEN cells to the dict
        it is given, in place, and hands the same dict back. */
    method Observation(observation: ObservationDict) returns (result: ObservationDict)
      requires BoardKey in observation.entries && observation.entries[BoardKey].Matrix?
      modifies observation
      ensures result == observation
      ensures observation.entries
              == old(observation.entries)[ActionMaskKey := Matrix(OpenMask(old(observation.entries)[BoardKey].rows))]
    {
      var mask := OpenMask(observation.entries[BoardKey].rows);
      observation.entries := observation.entries[ActionMaskKey := Matrix(mask)];
      return observation;
    }

    /** `step`: raises on a cell that is not OPEN, and otherwise steps the
        environment and masks the observation it returns. */
    method Step(action: (int, int)) returns (result: StepResult)
      requires env.Valid() && env.started && InActionSpace(action)
      modifies env, env.grid
      ensures env.Valid() && env.started
      ensures old(env.grid[action.0, action.1]) != Value(Open) ==>
                && result == InvalidAction(action)
                && env.State() == old(env.State())
      ensures old(env.grid[action.0, action.1]) == Value(Open) ==>
                var o := Transition(old(env.State()), action);
                && env.State() == o.next
                && result.Stepped?
                && result.reward == o.reward && result.terminated == o.terminated && !result.truncated
                && result.observation.entries
                   == map[BoardKey := Matrix(env.Board()), ActionMaskKey := Matrix(OpenMask(env.Board()))]
    {
      if env.grid[action.0, action.1] != Value(Open) {
        return InvalidAction(action);
      }
      var board, reward, terminated, truncated := env.Step(action);
      var observation := new ObservationDict(map[BoardKey := Matrix(board)]);
      observation := Observation(observation);
      return Stepped(observation, reward, terminated, truncated);
    }
  }
}
