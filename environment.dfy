/** `PatheryEnv`, the gym environment: a 2 x 6 board of `CellType` values
    and a budget of blocks the agent places one per step. The board is an
    `int32` array allocated once, by the constructor; `reset` and `step`
    write into it in place. */
module Environment {
  import opened Wrappers

  /** The environment's five kinds of cell. */
  datatype CellType = Open | BlockedPreExisting | BlockedPlayerPlaced | Start | Goal

  /** The number stored in the board for each kind. */
  function Value(t: CellType): int {
    match t
    case Open => 0
    case BlockedPreExisting => 1
    case BlockedPlayerPlaced => 2
    case Start => 3
    case Goal => 4
  }

  /** `len(CellType)`: the number of values one board cell can take. */
  const CellTypeCount: int := 5

  /** `CellType(v)`: the kind a stored number stands for, if any. */
  function KindOf(v: int): (t: Option<CellType>)
    ensures t.Some? <==> 0 <= v < CellTypeCount
  {
    if v == 0 then Some(Open)
    else if v == 1 then Some(BlockedPreExisting)
    else if v == 2 then Some(BlockedPlayerPlaced)
    else if v == 3 then Some(Start)
    else if v == 4 then Some(Goal)
    else None
  }

  /** Every kind is stored as a distinct number in `[0, len(CellType))`, and
      reading it back gives the kind. */
  lemma KindOfValue(t: CellType)
    ensures 0 <= Value(t) < CellTypeCount
    ensures KindOf(Value(t)) == Some(t)
  {
  }

  /** `grid_size`. */
  const Height: int := 2
  const Width: int := 6

  /** The blocks the agent may place in one episode. */
  const BlockBudget: int := 3

  /** A board of `grid_size`, row by row. */
  predicate WellShaped(board: seq<seq<int>>) {
    |board| == Height && forall r :: 0 <= r < |board| ==> |board[r]| == Width
  }

  /** An element of the `MultiDiscrete(grid_size)` action space: the row
      and column of the cell to block. */
  predicate InActionSpace(action: (int, int)) {
    0 <= action.0 < Height && 0 <= action.1 < Width
  }

  /** The board with cell (`r`, `c`) set to `v`. */
  function SetCell(board: seq<seq<int>>, r: int, c: int, v: int): (after: seq<seq<int>>)
    requires WellShaped(board) && 0 <= r < Height && 0 <= c < Width
    ensures WellShaped(after)
  {
    board[r := board[r][c := v]]
  }

  /** Two boards of `grid_size` with the same cells are the same board. */
  lemma SameBoard(a: seq<seq<int>>, b: seq<seq<int>>)
    requires WellShaped(a) && WellShaped(b)
    requires forall r, c :: 0 <= r < Height && 0 <= c < Width ==> a[r][c] == b[r][c]
    ensures a == b
  {
    forall r | 0 <= r < Height
      ensures a[r] == b[r]
    {
      assert forall c :: 0 <= c < Width ==> a[r][c] == b[r][c];
    }
  }

  /** The number of cells of the board holding `v`. */
  function Count(board: seq<seq<int>>, v: int): nat {
    if board == [] then 0 else multiset(board[0])[v] + Count(board[1..], v)
  }

  /** Overwriting one cell moves it from one count to the other. */
  lemma {:induction false} CountSetCell(board: seq<seq<int>>, r: int, c: int, x: int, v: int)
    requires 0 <= r < |board| && 0 <= c < |board[r]|
    ensures Count(board[r := board[r][c := x]], v)
            == Count(board, v) - (if board[r][c] == v then 1 else 0) + (if x == v then 1 else 0)
  {
    var after := board[r := board[r][c := x]];
    if r == 0 {
      assert after[1..] == board[1..];
      assert board[0] == board[0][..c] + [board[0][c]] + board[0][c + 1..];
      assert after[0] == board[0][..c] + [x] + board[0][c + 1..];
    } else {
      assert after[1..] == board[1..][r - 1 := board[r][c := x]];
      CountSetCell(board[1..], r - 1, c, x, v);
    }
  }

  /** What the environment holds between calls: the board and the number
      of blocks the agent still may place. */
  datatype EnvState = EnvState(board: seq<seq<int>>, remainingBlocks: int)

  /** What one `step` returns besides the observation. */
  datatype StepOutcome = StepOutcome(next: EnvState, reward: int, terminated: bool)

  /** `reset` writes START into the top-left cell and GOAL into the
      bottom-right one; it clears nothing else. */
  function ResetBoard(board: seq<seq<int>>): (after: seq<seq<int>>)
    requires WellShaped(board)
    ensures WellShaped(after)
  {
    SetCell(SetCell(board, 0, 0, Value(Start)), Height - 1, Width - 1, Value(Goal))
  }

  /** `step`: an OPEN cell becomes a player-placed block and uses one block
      of the budget; the episode terminates when the budget reaches zero,
      and the reward is then the placeholder shortest-path length, 0. Any
      other cell is refused with reward -1 and nothing changes. */
  function Transition(s: EnvState, action: (int, int)): (o: StepOutcome)
    requires WellShaped(s.board) && InActionSpace(action)
    ensures WellShaped(o.next.board)
  {
    var (r, c) := action;
    if s.board[r][c] == Value(Open) then
      var next := EnvState(SetCell(s.board, r, c, Value(BlockedPlayerPlaced)), s.remainingBlocks - 1);
      StepOutcome(next, 0, next.remainingBlocks == 0)
    else
      StepOutcome(s, -1, false)
  }

  /** A step places a block exactly when the chosen cell is OPEN; then that
      cell, and no other, becomes a player-placed block and the budget goes
      down by one. Otherwise the state is unchanged, the reward is -1 and
      the episode goes on. */
  lemma StepEffect(s: EnvState, action: (int, int))
    requires WellShaped(s.board) && InActionSpace(action)
    ensures var o := Transition(s, action);
            var (r, c) := action;
            && (s.board[r][c] == Value(Open) ==>
                  && o.next.board[r][c] == Value(BlockedPlayerPlaced)
                  && o.next.remainingBlocks == s.remainingBlocks - 1
                  && o.reward == 0
                  && (o.terminated <==> o.next.remainingBlocks == 0))
            && (s.board[r][c] != Value(Open) ==> o == StepOutcome(s, -1, false))
            && (forall r', c' :: 0 <= r' < Height && 0 <= c' < Width && (r', c') != action ==>
                  o.next.board[r'][c'] == s.board[r'][c'])
  {
  }

  /** The budget never grows, and it shrinks, by one, exactly on a step
      that places a block. */
  lemma StepNeverIncreasesBudget(s: EnvState, action: (int, int))
    requires WellShaped(s.board) && InActionSpace(action)
    ensures Transition(s, action).next.remainingBlocks <= s.remainingBlocks
    ensures Transition(s, action).next.remainingBlocks < s.remainingBlocks
            <==> s.board[action.0][action.1] == Value(Open)
  {
  }

  /** `step` does not check for a finished episode: on a state whose budget
      is already spent, placing a block drives it below zero and does not
      terminate. */
  lemma StepPastZero(s: EnvState, action: (int, int))
    requires WellShaped(s.board) && InActionSpace(action)
    requires s.remainingBlocks == 0 && s.board[action.0][action.1] == Value(Open)
    ensures Transition(s, action).next.remainingBlocks == -1 && !Transition(s, action).terminated
  {
  }

  /** Player-placed blocks plus the remaining budget is what a step keeps. */
  function Placed(s: EnvState): int {
    Count(s.board, Value(BlockedPlayerPlaced)) + s.remainingBlocks
  }

  /** Every step keeps the sum of the player-placed blocks on the board and
      the remaining budget. */
  lemma StepKeepsPlaced(s: EnvState, action: (int, int))
    requires WellShaped(s.board) && InActionSpace(action)
    ensures Placed(Transition(s, action).next) == Placed(s)
  {
    var (r, c) := action;
    if s.board[r][c] == Value(Open) {
      CountSetCell(s.board, r, c, Value(BlockedPlayerPlaced), Value(BlockedPlayerPlaced));
    }
  }

  /** The state after a run of steps. */
  function Play(s: EnvState, actions: seq<(int, int)>): (after: EnvState)
    requires WellShaped(s.board)
    requires forall i :: 0 <= i < |actions| ==> InActionSpace(actions[i])
    ensures WellShaped(after.board)
    decreases |actions|
  {
    if actions == [] then s else Play(Transition(s, actions[0]).next, actions[1..])
  }

  /** A run of steps keeps the sum of placed blocks and remaining budget. */
  lemma {:induction false} PlayKeepsPlaced(s: EnvState, actions: seq<(int, int)>)
    requires WellShaped(s.board)
    requires forall i :: 0 <= i < |actions| ==> InActionSpace(actions[i])
    ensures Placed(Play(s, actions)) == Placed(s)
    decreases |actions|
  {
    if actions != [] {
      StepKeepsPlaced(s, actions[0]);
      PlayKeepsPlaced(Transition(s, actions[0]).next, actions[1..]);
    }
  }

  /** The board the constructor allocates: every cell OPEN. */
  function FreshBoard(): (board: seq<seq<int>>)
    ensures WellShaped(board)
  {
    seq(Height, r => seq(Width, c => Value(Open)))
  }

  /** A fresh board holds no player-placed block. */
  lemma {:induction false} FreshBoardHasNoBlocks()
    ensures Count(ResetBoard(FreshBoard()), Value(BlockedPlayerPlaced)) == 0
  {
    var board := ResetBoard(FreshBoard());
    assert board[1..][1..] == [];
    assert multiset(board[0])[Value(BlockedPlayerPlaced)] == 0 by {
      assert forall c :: 0 <= c < Width ==> board[0][c] != Value(BlockedPlayerPlaced);
    }
    assert multiset(board[1])[Value(BlockedPlayerPlaced)] == 0 by {
      assert forall c :: 0 <= c < Width ==> board[1][c] != Value(BlockedPlayerPlaced);
    }
  }

  /** In the first episode after construction, whatever actions the agent
      took, the step that terminates is the one that places the third
      block: the budget reaches zero exactly when three player-placed blocks
      stand on the board. */
  lemma FirstEpisodeEndsAtThirdBlock(actions: seq<(int, int)>)
    requires forall i :: 0 <= i < |actions| ==> InActionSpace(actions[i])
    ensures var s := Play(EnvState(ResetBoard(FreshBoard()), BlockBudget), actions);
            s.remainingBlocks == 0 <==> Count(s.board, Value(BlockedPlayerPlaced)) == BlockBudget
  {
    FreshBoardHasNoBlocks();
    PlayKeepsPlaced(EnvState(ResetBoard(FreshBoard()), BlockBudget), actions);
  }

  /** `reset` leaves every other cell as it was: blocks placed in an earlier
      episode stay on the board while the budget starts again at three. */
  lemma ResetKeepsPlacedBlocks(board: seq<seq<int>>)
    requires WellShaped(board)
    requires board[0][0] != Value(BlockedPlayerPlaced)
    requires board[Height - 1][Width - 1] != Value(BlockedPlayerPlaced)
    ensures Count(ResetBoard(board), Value(BlockedPlayerPlaced)) == Count(board, Value(BlockedPlayerPlaced))
  {
    var first := SetCell(board, 0, 0, Value(Start));
    CountSetCell(board, 0, 0, Value(Start), Value(BlockedPlayerPlaced));
    CountSetCell(first, Height - 1, Width - 1, Value(Goal), Value(BlockedPlayerPlaced));
  }

  /** A board in the observation space `MultiDiscrete(len(CellType))`:
      every cell holds the number of some `CellType`. */
  predicate InObservationSpace(board: seq<seq<int>>) {
    WellShaped(board) && forall r, c :: 0 <= r < Height && 0 <= c < Width ==> KindOf(board[r][c]).Some?
  }

  /** The constructor's board, `reset` and every `step` stay inside the
      observation space. */
  lemma ObservationsInSpace(s: EnvState, action: (int, int))
    requires InObservationSpace(s.board) && InActionSpace(action)
    ensures InObservationSpace(FreshBoard())
    ensures InObservationSpace(ResetBoard(s.board))
    ensures InObservationSpace(Transition(s, action).next.board)
  {
  }

  /** START in the top-left cell and GOAL in the bottom-right one. */
  predicate CornersSet(board: seq<seq<int>>)
    requires WellShaped(board)
  {
    board[0][0] == Value(Start) && board[Height - 1][Width - 1] == Value(Goal)
  }

  /** `reset` sets both corners, and no run of steps changes them: a step
      only writes an OPEN cell. */
  lemma {:induction false} PlayKeepsCorners(s: EnvState, actions: seq<(int, int)>)
    requires WellShaped(s.board)
    requires forall i :: 0 <= i < |actions| ==> InActionSpace(actions[i])
    ensures CornersSet(ResetBoard(s.board))
    ensures CornersSet(s.board) ==> CornersSet(Play(s, actions).board)
    decreases |actions|
  {
    if actions != [] && CornersSet(s.board) {
      StepEffect(s, actions[0]);
      PlayKeepsCorners(Transition(s, actions[0]).next, actions[1..]);
    }
  }

  /** Across episodes: whatever the agent did since the last `reset`, the
      next `reset` keeps every player-placed block on the board, because
      the corners it overwrites still hold START and GOAL. */
  lemma NextResetKeepsPlacedBlocks(board: seq<seq<int>>, actions: seq<(int, int)>)
    requires WellShaped(board)
    requires forall i :: 0 <= i < |actions| ==> InActionSpace(actions[i])
    ensures var s := Play(EnvState(ResetBoard(board), BlockBudget), actions);
            Count(ResetBoard(s.board), Value(BlockedPlayerPlaced)) == Count(s.board, Value(BlockedPlayerPlaced))
  {
    var s := Play(EnvState(ResetBoard(board), BlockBudget), actions);
    PlayKeepsCorners(EnvState(board, BlockBudget), []);
    PlayKeepsCorners(EnvState(ResetBoard(board), BlockBudget), actions);
    ResetKeepsPlacedBlocks(s.board);
  }

  class PatheryEnv {
    /** The `int32` board, allocated once and written in place. */
    const grid: array2<int>
    var remainingBlocks: int
    /** Whether `reset` has run: gym refuses `step` before the first one. */
    ghost var started: bool

    ghost predicate Valid()
      reads this
    {
      grid.Length0 == Height && grid.Length1 == Width
    }

    /** `_get_obs`: the board, row by row. */
    function Board(): (board: seq<seq<int>>)
      reads this, grid
      ensures |board| == grid.Length0
      ensures forall r :: 0 <= r < |board| ==> |board[r]| == grid.Length1
      ensures forall r, c :: 0 <= r < grid.Length0 && 0 <= c < grid.Length1 ==> board[r][c] == grid[r, c]
    {
      seq(grid.Length0, r requires 0 <= r < grid.Length0 reads grid =>
        seq(grid.Length1, c requires 0 <= c < grid.Length1 reads grid => grid[r, c]))
    }

    ghost function State(): EnvState
      reads this, grid
    {
      EnvState(Board(), remainingBlocks)
    }

    /** `__init__`: a `grid_size` board of OPEN cells. */
    constructor ()
      ensures Valid() && fresh(grid) && !started
      ensures Board() == FreshBoard()
    {
      grid := new int[Height, Width]((r, c) => Value(Open));
      started := false;
      new;
      SameBoard(Board(), FreshBoard());
    }

    /** `reset`: the budget starts at three, START goes top left and GOAL
        bottom right; every other cell keeps its value. */
    method Reset() returns (observation: seq<seq<int>>)
      requires Valid()
      modifies this, grid
      ensures Valid() && started
      ensures State() == EnvState(ResetBoard(old(Board())), BlockBudget)
      ensures observation == Board()
    {
      remainingBlocks := BlockBudget;
      grid[0, 0] := Value(Start);
      grid[Height - 1, Width - 1] := Value(Goal);
      started := true;
      observation := Board();
      SameBoard(Board(), ResetBoard(old(Board())));
    }

    /** `calculateShortestPath`: a placeholder that always answers 0. */
    method CalculateShortestPath() returns (length: int)
      ensures length == 0
    {
      return 0;
    }

    /** `step`: block the chosen cell if it is OPEN, else refuse the action
        with reward -1. Never truncates. */
    method Step(action: (int, int))
      returns (observation: seq<seq<int>>, reward: int, terminated: bool, truncated: bool)
      requires Valid() && started && InActionSpace(action)
      modifies this, grid
      ensures Valid() && started
      ensures var o := Transition(old(State()), action);
              State() == o.next && reward == o.reward && terminated == o.terminated
      ensures !truncated && observation == Board()
    {
      var (r, c) := action;
      if grid[r, c] == Value(Open) {
        grid[r, c] := Value(BlockedPlayerPlaced);
        remainingBlocks := remainingBlocks - 1;
        SameBoard(Board(), SetCell(old(Board()), r, c, Value(BlockedPlayerPlaced)));
      } else {
        return Board(), -1, false, false;
      }
      terminated := remainingBlocks == 0;
      if terminated {
        reward := CalculateShortestPath();
      } else {
        reward := 0;
      }
      observation := Board();
      truncated := false;
    }
  }
}
