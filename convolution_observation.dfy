/** `ConvolutionObservationWrapper`: replaces the board of each observation
    by a one-hot stack, one plane per cell value, for a convolutional
    network. */
module ConvolutionObservation {
  import opened Environment
  import opened Observations

  /** `board == i`: 1 on the cells holding `i`, 0 elsewhere. */
  function Indicator(board: seq<seq<int>>, i: int): (plane: seq<seq<int>>)
    ensures |plane| == |board|
    ensures forall r :: 0 <= r < |board| ==> |plane[r]| == |board[r]|
  {
    seq(|board|, r requires 0 <= r < |board| =>
      seq(|board[r]|, c requires 0 <= c < |board[r]| => if board[r][c] == i then 1 else 0))
  }

  /** The planes the wrapper fills: plane `i` marks the cells holding `i`. */
  ghost predicate IsOneHot(planes: seq<seq<seq<int>>>, board: seq<seq<int>>, channelCount: int) {
    |planes| == channelCount && forall i :: 0 <= i < channelCount ==> planes[i] == Indicator(board, i)
  }

  /** The all-zero `height` x `width` array `np.zeros` starts each plane as. */
  function Zeros(height: int, width: int): (plane: seq<seq<int>>)
    requires 0 <= height && 0 <= width
    ensures |plane| == height && forall r :: 0 <= r < height ==> |plane[r]| == width
  {
    seq(height, r => seq(width, c => 0))
  }

  /** Every plane has a cell (`r`, `c`). */
  predicate HasCell(planes: seq<seq<seq<int>>>, r: int, c: int) {
    forall i :: 0 <= i < |planes| ==> 0 <= r < |planes[i]| && 0 <= c < |planes[i][r]|
  }

  /** The sum of planes `0..k` at cell (`r`, `c`). */
  function ChannelSum(planes: seq<seq<seq<int>>>, r: int, c: int, k: int): int
    requires 0 <= k <= |planes| && HasCell(planes, r, c)
  {
    if k == 0 then 0
    else
      var plane := planes[k - 1];
      assert 0 <= r < |plane| && 0 <= c < |plane[r]|;
      ChannelSum(planes, r, c, k - 1) + plane[r][c]
  }

  /** Below plane `k`, the cell is hot once if its value is below `k` and
      not at all otherwise. */
  lemma {:induction false} ChannelSumPrefix(planes: seq<seq<seq<int>>>, board: seq<seq<int>>, channelCount: int,
                                           r: int, c: int, k: int)
    requires IsOneHot(planes, board, channelCount)
    requires 0 <= r < |board| && 0 <= c < |board[r]| && 0 <= k <= channelCount
    ensures ChannelSum(planes, r, c, k) == if 0 <= board[r][c] < k then 1 else 0
  {
    if k > 0 {
      ChannelSumPrefix(planes, board, channelCount, r, c, k - 1);
    }
  }

  /** Each cell with a value in `[0, channelCount)` is hot in exactly one
      plane, the one numbered by its value; every other cell is cold in all
      of them. */
  lemma OneHotHasOneHotChannel(planes: seq<seq<seq<int>>>, board: seq<seq<int>>, channelCount: int,
                               r: int, c: int)
    requires IsOneHot(planes, board, channelCount)
    requires 0 <= r < |board| && 0 <= c < |board[r]|
    ensures ChannelSum(planes, r, c, channelCount) == if 0 <= board[r][c] < channelCount then 1 else 0
    ensures forall i :: 0 <= i < channelCount ==>
              (planes[i][r][c] == 0 || planes[i][r][c] == 1) && (planes[i][r][c] == 1 <==> board[r][c] == i)
  {
    ChannelSumPrefix(planes, board, channelCount, r, c, channelCount);
  }

  /** Reading the hot plane back gives the board: a cell holds `v` exactly
      when plane `v` is hot there. */
  lemma OneHotDeterminesBoard(planes: seq<seq<seq<int>>>, board1: seq<seq<int>>, board2: seq<seq<int>>,
                              channelCount: int)
    requires IsOneHot(planes, board1, channelCount) && IsOneHot(planes, board2, channelCount)
    requires |board1| == |board2| && forall r :: 0 <= r < |board1| ==> |board1[r]| == |board2[r]|
    requires forall r, c :: 0 <= r < |board1| && 0 <= c < |board1[r]| ==>
               0 <= board1[r][c] < channelCount && 0 <= board2[r][c] < channelCount
    ensures board1 == board2
  {
    forall r | 0 <= r < |board1|
      ensures board1[r] == board2[r]
    {
      forall c | 0 <= c < |board1[r]|
        ensures board1[r][c] == board2[r][c]
      {
        var v := board1[r][c];
        assert planes[v] == Indicator(board1, v) && planes[v] == Indicator(board2, v);
        assert Indicator(board1, v)[r][c] == 1;
      }
    }
  }

  class ConvolutionObservationWrapper {
    const env: PatheryEnv
    const channelCount: int
    const height: int
    const width: int

    /** The dimensions `__init__` reads out of the environment's board
        observation space. */
    ghost predicate Valid() {
      channelCount == CellTypeCount && height == Height && width == Width
    }

    /** `__init__`: one channel per `CellType` value, each of the board's
        shape; the observation space itself is left to gym. */
    constructor (env: PatheryEnv)
      ensures this.env == env
      ensures Valid()
    {
      this.env := env;
      channelCount := CellTypeCount;
      height := Height;
      width := Width;
    }

    /** `observation`: a new dict with every key of the input, the board
        replaced by its `(channel_count, height, width)` one-hot stack; the
        input dict is left as it was. */
    method Observation(observation: ObservationDict) returns (result: ObservationDict)
      requires BoardKey in observation.entries && observation.entries[BoardKey].Matrix?
      requires Valid() && WellShaped(observation.entries[BoardKey].rows)
      ensures fresh(result)
      ensures var board := observation.entries[BoardKey].rows;
              && result.entries.Keys == observation.entries.Keys
              && (forall key :: key in observation.entries && key != BoardKey ==>
                    result.entries[key] == observation.entries[key])
              && result.entries[BoardKey].Stack?
              && IsOneHot(result.entries[BoardKey].planes, board, channelCount)
    {
      var board := observation.entries[BoardKey].rows;
      var oneHot := new seq<seq<int>>[channelCount](_ => Zeros(height, width));
      for i := 0 to oneHot.Length
        invariant forall j :: 0 <= j < i ==> oneHot[j] == Indicator(board, j)
      {
        oneHot[i] := Indicator(board, i);
      }
      result := new ObservationDict(observation.entries[BoardKey := Stack(oneHot[..])]);
    }
  }
}
