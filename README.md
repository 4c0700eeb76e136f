# PatheryEnv in Dafny

PatheryEnv is a reinforcement-learning environment for Pathery-style puzzles. The agent places
blocks on a grid so that the path from the start to the goal gets as long as possible. This
project models the core of the repository and proves properties of it:

- **The C++ pathfinder** (`pathery_env/cpp_lib/pathfinder.cpp`), as the class
  `Pathfinding.Pathfinder`:
  - The constructor scans the `int32` grid row by row for start cells and for the IN and OUT
    cells of each teleporter.
  - `calculateShortestSubpath` is a breadth-first search that tries up, right, down, left. A cell
    entered on ice may only be left in the direction it was entered. `visited`, `pushed` and
    `previous` are keyed by position alone, as in the source.
  - `adjustPathForTeleporters` reroutes a path through the unused teleporter with the smallest
    index that the path enters. It cuts the path at the first occurrence of the first of that
    teleporter's IN cells, in `operator<` order, that lies on the path; this need not be the
    first teleporter cell along the path. These orders assume the ordered containers named under
    "## Left out".
  - `calculateShortestPath` chains legs: from the start cells to checkpoint 0, on through the
    checkpoints in order, then to the goal. The result is empty as soon as one leg is blocked.
  - The searches are imperative methods with loop invariants. The teleporter rerouting is proved
    equal to the function `Teleporters.Adjust`, and the lemmas about it are stated on that
    function.
- **The serialiser** `getShortestPath` (`pathery_env/cpp_lib/pathfinding.cpp`), as
  `PathSerialization.GetShortestPath` and `PathSerialization.WritePath`. It writes a length
  header and then (row, col) pairs into an `int32` buffer, and overflows with an exception as
  soon as a pair would not fit.
- **The gym environment** (`pathery_env/envs/pathery.py`), as the class
  `Environment.PatheryEnv`. It holds a 2 x 6 board array that it writes in place and a budget of
  three blocks. `Environment.Transition` is the pure step function that the class's `Step` is
  proved to follow.
- **The two observation wrappers**:
  - `ActionMask.ActionMaskWrapper` adds an OPEN-cell mask to the observation dict in place, and
    refuses a step on a non-OPEN cell.
  - `ConvolutionObservation.ConvolutionObservationWrapper` builds a new dict whose board is a
    one-hot stack with one plane per cell value.

Behaviour of the code a reader might not expect:

- A step on a cell that is not OPEN returns reward -1 and does **not** end the episode.
- `reset` does not clear the board. Blocks placed in an earlier episode stay on it, while the
  budget starts again at three (`Environment.ResetKeepsPlacedBlocks`,
  `Environment.NextResetKeepsPlacedBlocks`).
- Checkpoint `i` is the cell value `kLength + i`. Legs go to checkpoints `0 .. checkpointCount-1`
  in order and then to the goal.
- The placeholder `calculateShortestPath` of the environment always answers 0, so every
  successful step has reward 0.

Files:

- `wrappers.dfy`, `positions.dfy`, `cell_types.dfy`, `grid.dfy`: the shared vocabulary.
- `search.dfy`: the invariants of the breadth-first search.
- `route_order.dfy`: the order in which the search tries neighbours, lifted to whole routes.
- `teleporters.dfy`: the constructor's cell classification and the teleporter adjustment, as
  functions.
- `pathfinder.dfy`: the `Pathfinder` class.
- `pathfinding.dfy`: the serialiser.
- `environment.dfy`: the gym environment.
- `observations.dfy`: the observation dict.
- `action_mask.dfy`, `convolution_observation.dfy`: the wrappers.

## Model

| member | source | states |
|---|---|---|
| Positions.EqualIsIdentity | pathery_env/cpp_lib/pathfinder.cpp:228-230 | `operator==` holds exactly for equal positions |
| Positions.LessIsStrictTotalOrder | pathery_env/cpp_lib/pathfinder.cpp:221-226 | `operator<` (row first, then column) is irreflexive, transitive and total: exactly one of `<`, `>`, `==` holds |
| Teleporters.RoleOf | pathery_env/cpp_lib/pathfinder.cpp:13-27 | a cell is a start cell iff it holds `kStart`; otherwise a value `v >= kLength + checkpointCount` is IN of teleporter `(v-base)/2` when the offset is even and OUT when it is odd; every other value is a plain cell |
| Teleporters.TeleporterRoundTrip | pathery_env/cpp_lib/pathfinder.cpp:16-27 | the value of IN or OUT of teleporter `t` decodes back to that teleporter and kind |
| Teleporters.InsertKey | pathery_env/cpp_lib/pathfinder.cpp:20 | inserting a new teleporter index into `teleporterInfo_` keeps its keys in increasing iteration order, holding exactly the old keys plus the new one |
| Teleporters.IndexOf | pathery_env/cpp_lib/pathfinder.cpp:99-101 | the first index at which a position occurs on the path, or none iff it does not occur |
| Teleporters.FirstOnPath | pathery_env/cpp_lib/pathfinder.cpp:97-101 | scanning the IN cells in order: none iff no IN cell lies on the path; otherwise the index of an IN cell on the path with no earlier occurrence of it |
| Teleporters.FirstHit | pathery_env/cpp_lib/pathfinder.cpp:91-101 | none iff no unused teleporter has an IN cell on the path; otherwise an unused teleporter and a path index that holds one of its IN cells |
| Teleporters.FirstHitIsFirst | pathery_env/cpp_lib/pathfinder.cpp:91-96 | the teleporter found comes before every other unused teleporter the path enters, in index order |
| Teleporters.Adjust | pathery_env/cpp_lib/pathfinder.cpp:88-116 | the used set only grows, and only by teleporter indices; the adjusted path is empty iff the path was |
| Teleporters.AdjustUnchanged | pathery_env/cpp_lib/pathfinder.cpp:91-116 | no teleporter gets marked used iff the path enters no unused teleporter; the path is then returned unchanged |
| Teleporters.AdjustSplices | pathery_env/cpp_lib/pathfinder.cpp:101-111 | on a hit the path is cut just after the first occurrence of the first IN cell, in `operator<` order, on the path of the unused teleporter with the smallest index that the path enters; that teleporter is marked used; the adjusted path from its OUT cells is appended |
| Teleporters.AdjustWithin | pathery_env/cpp_lib/pathfinder.cpp:105-110 | adjusting never leaves a region holding the path and every multi-start search result |
| Teleporters.AdjustEnds | pathery_env/cpp_lib/pathfinder.cpp:105-110 | if the path and every multi-start result end on a destination cell, so does the adjusted path, unless a teleporter's OUT cells led nowhere; then it ends on that teleporter's IN cell |
| Pathfinding.ScanGrid | pathery_env/cpp_lib/pathfinder.cpp:10-30 | after the row-major pass, the start list and the teleporter table hold exactly what the whole grid holds |
| Pathfinding.Pathfinder.constructor | pathery_env/cpp_lib/pathfinder.cpp:7-31 | the fields hold the grid, the counts, and what the scan collected |
| Pathfinding.Pathfinder.StartsAreStartCells | pathery_env/cpp_lib/pathfinder.cpp:11-15 | `startPositions_` lists exactly the `kStart` cells, in row-major order, no position twice |
| Pathfinding.Pathfinder.TeleportersAreTeleporterCells | pathery_env/cpp_lib/pathfinder.cpp:16-27 | `teleporterInfo_` has an entry for exactly the teleporter indices on the grid; each entry holds exactly that teleporter's IN cells and OUT cells, in `operator<` order |
| Pathfinding.Pathfinder.CalculateShortestSubpath | pathery_env/cpp_lib/pathfinder.cpp:118-219 | empty if the start holds the destination type; when not empty, a walk of neighbouring non-rock, non-wall cells that leaves the start out, ends on the first destination cell it meets and slides straight over ice; on grids without ice it is a shortest such route, and it is empty only if no route exists; of the shortest routes it is the one the search tries first: it is preferred over every other route of its length, where the first move in which two routes differ decides, in the order up, right, down, left |
| Pathfinding.Pathfinder.AdjustPathForTeleporters | pathery_env/cpp_lib/pathfinder.cpp:88-116 | the nested loops over teleporters, IN cells and path indices, with the recursive call, compute `Teleporters.Adjust` |
| Pathfinding.Pathfinder.ExtendPath | pathery_env/cpp_lib/pathfinder.cpp:58-67 | the sub-path is the search from the path's last cell, adjusted for teleporters; success iff it is not empty; the path is extended by it exactly on success |
| Pathfinding.Pathfinder.Destination | pathery_env/cpp_lib/pathfinder.cpp:36-80 | leg `k` aims at the goal exactly when `k` is the checkpoint count (so the first leg aims at the goal iff there are no checkpoints), and otherwise at checkpoint `k`, the value `kLength + k` |
| Pathfinding.Pathfinder.CalculateShortestPath | pathery_env/cpp_lib/pathfinder.cpp:33-86 | the legs are chained (the first from the start cells, each later one from the end of the previous), aiming at checkpoints `0 .. n-1` then the goal; the result is empty when a leg is blocked, and otherwise is all `n + 1` legs joined |
| Pathfinding.Pathfinder.ChainLeg | pathery_env/cpp_lib/pathfinder.cpp:58-85 | appending a leg computed from the end of the last leg keeps the legs chained and extends the joined path by that leg |
| SubpathSearch.TryMove | pathery_env/cpp_lib/pathfinder.cpp:160-214 | one direction of the expansion: the neighbour is queued, with an ice lock when it is ice, and recorded in `previous` exactly when the neighbour lies on the grid, the move respects the current lock, does not enter rock or wall, and the neighbour is neither visited nor pushed; otherwise nothing changes; the search invariants and the queue order by neighbour rank are kept |
| RouteOrder.PreferredIsStrictTotalOrder | pathery_env/cpp_lib/pathfinder.cpp:182-214 | the preference between two routes of equal length from one start (first differing move, up before right before down before left) is irreflexive, transitive and total |
| SubpathSearch.OrderedRoutes | pathery_env/cpp_lib/pathfinder.cpp:162-214 | of two cells at the same distance, the one queued first has the preferred route back along `previous` |
| SubpathSearch.LeastRouteBack | pathery_env/cpp_lib/pathfinder.cpp:118-214 | without ice, the route back along `previous` to a reached cell is preferred over, or equal to, every shortest route to that cell |
| SubpathSearch.FoundPreferred | pathery_env/cpp_lib/pathfinder.cpp:142-157 | without ice, the path returned at the first destination cell popped is preferred over every other shortest route to any destination cell |
| SubpathSearch.Reverse | pathery_env/cpp_lib/pathfinder.cpp:155 | `std::reverse`: element `i` of the result is element `n-1-i` of the input |
| SubpathSearch.CanLeaveInBounds | pathery_env/cpp_lib/pathfinder.cpp:183-214 | the four bounds tests hold exactly when the neighbour in that direction lies on the grid |
| SubpathSearch.FoundOutcome | pathery_env/cpp_lib/pathfinder.cpp:142-157 | the path rebuilt along `previous` from a found cell, without the start and reversed, meets the search's contract |
| SubpathSearch.DrainedOutcome | pathery_env/cpp_lib/pathfinder.cpp:215-218 | when the queue runs dry, the start does not hold the destination type, and on grids without ice no route reaches it |
| PathSerialization.Pairs | pathery_env/cpp_lib/pathfinding.cpp:29-36 | each position takes two entries |
| PathSerialization.PairsAt | pathery_env/cpp_lib/pathfinding.cpp:33-34 | position `j` is stored as its row at offset `2j` and its column at `2j+1` |
| PathSerialization.Decode | pathery_env/cpp_lib/pathfinding.cpp:27-36 | a decoded path's length is the header and fits in the buffer |
| PathSerialization.DecodeEncode | pathery_env/cpp_lib/pathfinding.cpp:27-36 | decoding the header and pairs, whatever follows them, gives the path back |
| PathSerialization.CapacityIsLargest | pathery_env/cpp_lib/pathfinding.cpp:28-31 | the capacity `(outputBufferSize-1)/2` in the overflow message is the largest `n` with `2n+1 <= outputBufferSize` |
| PathSerialization.WritePath | pathery_env/cpp_lib/pathfinding.cpp:27-36 | succeeds iff `2n+1 <= outputBufferSize`. On success the buffer holds the header `n`, then the pairs, then its old contents. On overflow, the exception reports `n` and the capacity, the header and the first `capacity` pairs are already written, and the rest of the buffer is unchanged |
| PathSerialization.WrittenDecodes | pathery_env/cpp_lib/pathfinding.cpp:27-36 | a buffer written in full decodes to the path |
| PathSerialization.GetShortestPath | pathery_env/cpp_lib/pathfinding.cpp:13-37 | the pathfinder built from the grid computes the shortest path. The call succeeds iff the path fits, and the buffer then decodes to that path; otherwise it overflows with the path length and the capacity |
| Environment.KindOf | pathery_env/envs/pathery.py:14-19 | `CellType(v)` exists iff `0 <= v < len(CellType)` |
| Environment.KindOfValue | pathery_env/envs/pathery.py:14-19 | every cell type is stored as a number in `[0, 5)` that reads back as that type |
| Environment.FreshBoard | pathery_env/envs/pathery.py:26-29 | the board allocated by `__init__` has the grid size |
| Environment.ResetBoard | pathery_env/envs/pathery.py:55-59 | `reset` keeps the board's shape |
| Environment.Transition | pathery_env/envs/pathery.py:69-81 | `step` keeps the board's shape |
| Environment.StepEffect | pathery_env/envs/pathery.py:69-81 | on an OPEN cell: that cell becomes a player-placed block, the budget drops by one, the reward is 0, and terminated iff the budget is 0; on any other cell: nothing changes, reward -1, not terminated; no other cell ever changes |
| Environment.StepNeverIncreasesBudget | pathery_env/envs/pathery.py:69-74 | the budget never grows, and it shrinks exactly on a step at an OPEN cell |
| Environment.StepPastZero | pathery_env/envs/pathery.py:69-76 | with the budget spent, a step on an OPEN cell drives it to -1 and does not terminate |
| Environment.StepKeepsPlaced | pathery_env/envs/pathery.py:69-74 | player-placed blocks on the board plus the remaining budget is unchanged by a step |
| Environment.PlayKeepsPlaced | pathery_env/envs/pathery.py:69-81 | the same sum is unchanged by any run of steps |
| Environment.FreshBoardHasNoBlocks | pathery_env/envs/pathery.py:53-59 | the first reset board holds no player-placed block |
| Environment.FirstEpisodeEndsAtThirdBlock | pathery_env/envs/pathery.py:53-76 | in the first episode, whatever the actions, the budget is 0 exactly when three player-placed blocks stand on the board |
| Environment.ResetKeepsPlacedBlocks | pathery_env/envs/pathery.py:52-59 | `reset` keeps every player-placed block already on the board |
| Environment.ObservationsInSpace | pathery_env/envs/pathery.py:28-32 | the constructor's board, `reset` and every `step` keep every cell a valid `CellType` value, inside `MultiDiscrete(len(CellType))` |
| Environment.PlayKeepsCorners | pathery_env/envs/pathery.py:52-74 | `reset` puts START and GOAL in the corners, and no run of steps changes them, since a step writes only an OPEN cell |
| Environment.NextResetKeepsPlacedBlocks | pathery_env/envs/pathery.py:48-74 | after a reset and any run of steps, the next reset keeps every player-placed block on the board |
| Environment.PatheryEnv.Board | pathery_env/envs/pathery.py:42-43 | `_get_obs` returns the board itself: the observation has the array's shape and holds its cells |
| Environment.PatheryEnv.constructor | pathery_env/envs/pathery.py:24-29 | a fresh `grid_size` board of OPEN cells |
| Environment.PatheryEnv.Reset | pathery_env/envs/pathery.py:48-64 | budget 3, START top left, GOAL bottom right, every other cell as it was; the observation is the board |
| Environment.PatheryEnv.CalculateShortestPath | pathery_env/envs/pathery.py:66-67 | the placeholder answers 0 |
| Environment.PatheryEnv.Step | pathery_env/envs/pathery.py:69-81 | the board and budget move as `Environment.Transition` says; the reward and terminated flag are its own; never truncated; the observation is the new board |
| ActionMask.OpenMask | pathery_env/wrappers/action_mask.py:25-26 | the mask has the board's number of rows and row lengths |
| ActionMask.OpenMaskMarksOpenCells | pathery_env/wrappers/action_mask.py:25-26 | the mask has the board's shape, holds only 0 and 1, and is 1 exactly on the OPEN cells |
| ActionMask.MaskedActionsPlaceBlocks | pathery_env/wrappers/action_mask.py:18-26 | a cell is marked iff stepping on it uses one block of the budget, and unmarked iff the step is refused with reward -1 |
| ActionMask.ActionMaskWrapper.constructor | pathery_env/wrappers/action_mask.py:11-16 | wraps the given environment |
| ActionMask.ActionMaskWrapper.Observation | pathery_env/wrappers/action_mask.py:24-27 | the same dict comes back, with the `action_mask` key set to the board's OPEN mask; every other key is unchanged |
| ActionMask.ActionMaskWrapper.Step | pathery_env/wrappers/action_mask.py:18-22 | on a non-OPEN cell it raises and the environment is untouched; otherwise the environment steps as `Environment.Transition` says, and the observation is the new board with its mask |
| ConvolutionObservation.Indicator | pathery_env/wrappers/convolution_observation.py:23 | the plane `board == i` has the board's shape |
| ConvolutionObservation.ChannelSumPrefix | pathery_env/wrappers/convolution_observation.py:22-23 | summed over planes `0..k-1`, a cell counts once if its value is below `k` and not at all otherwise |
| ConvolutionObservation.OneHotHasOneHotChannel | pathery_env/wrappers/convolution_observation.py:21-23 | a cell with a value in `[0, channel_count)` is hot in exactly one plane, the one its value numbers; any other cell is cold in every plane; entries are 0 or 1 |
| ConvolutionObservation.OneHotDeterminesBoard | pathery_env/wrappers/convolution_observation.py:21-23 | two boards with values in range that give the same planes are the same board |
| ConvolutionObservation.ConvolutionObservationWrapper.constructor | pathery_env/wrappers/convolution_observation.py:8-13 | one channel per `CellType` value, with the board's height and width |
| ConvolutionObservation.ConvolutionObservationWrapper.Observation | pathery_env/wrappers/convolution_observation.py:19-27 | a new dict with the same keys, every key but the board copied; the board is replaced by `channel_count` planes, plane `i` marking the cells holding `i`; the input dict is not modified |

## Left out

- `calculateShortestPathFromMultipleStarts` is not part of this model. It is the parameter
  `fromStarts`, and the only assumption about it is that it returns cells on the grid.
- `pathfinder.hpp` is not part of this model: `posToLinear`, `Position` and the `CellType`
  values. The grid is row-major. The cell-type values are representative; the proofs use only
  that they are distinct and that `kLength` lies above the base kinds.
- The container types of `teleporterInfo_` are declared in `pathfinder.hpp` and are assumed, not
  read: a `std::map` keyed by teleporter index and iterated in increasing index order, whose IN
  and OUT containers are `std::set<Position>` iterated in `operator<` order
  (pathfinder.cpp:221-226). The code shown would also compile with `unordered_map` and
  `unordered_set`; then the teleporter and the IN cell that `adjustPathForTeleporters` picks
  would follow hash order, and `Teleporters.FirstHitIsFirst`, `Teleporters.FirstOnPath`,
  `Teleporters.InsertKey` and `Teleporters.AdjustSplices` would not describe the program.
- Pathfinding.Pathfinder.CalculateShortestSubpath: the shortest-route, no-route and tie-break guarantees
  are stated only for grids without ice. The search keys `visited` and `pushed` by position
  alone, so with ice a cell reached first with the wrong direction lock is not searched again.
  The model keeps that behaviour; it states no optimality claim it cannot prove.
- Pathfinding.Pathfinder.CalculateShortestPath requires `checkpointCount >= 0`. A negative count
  is not modelled.
- `int32` widths are not modelled: cell values, coordinates, the header `output[0]` (a narrowed
  `size()`) and the buffer index are unbounded integers.
- PathSerialization.GetShortestPath and PathSerialization.WritePath require
  `outputBufferSize >= 1` and a buffer of that many entries, since `output[0]` is written
  unconditionally. The `runtime_error` is the `Overflow` outcome carrying the two numbers of its
  message; the message text is not modelled.
- The `extern "C"` boundary, raw pointers and the commented-out timing code are not modelled.
  The grid is a value, not a pointer the caller may change.
- `teleporterCount` is stored and never read, as in the source.
- Environment.PatheryEnv.Step requires a prior `reset`, as gym's order enforcement does. Before
  the first `reset`, `remainingBlocks` does not exist in the source.
- Environment.PatheryEnv.Step requires an action inside the `MultiDiscrete` action space.
  numpy's negative indexing and out-of-range errors are not modelled.
- `_get_obs` returns the board array itself, so a caller's observation aliases the live board.
  The model returns a copy of the board as it stands.
- Rendering (`render`, `_render_ansi`), `close`, pygame, seeding, the `info` dict and gym's
  `spaces` objects are not modelled. The wrappers model only the dimensions they read from the
  spaces.
- `pathery.py` as shown predates the wrappers: it defines neither `InternalCellType` nor
  `OBSERVATION_BOARD_STR`, and its observation is the bare board. The wrappers are modelled
  against the interface they use:
  - the board sits under the key `"board"`, as `run_env_vec.py:45` reads it;
  - `InternalCellType.OPEN` is the value 0;
  - in ActionMask.ActionMaskWrapper.Step, the environment's board is put into such a dict
    before `observation` is applied.
- The `int8` mask and the `float32` one-hot planes are integer arrays. Their entries are exactly
  0 and 1 either way.
- `run_env.py`, `run_env_vec.py`, `test.py` and `pathery_env/__init__.py` are drivers and
  registration code, and are not modelled.
