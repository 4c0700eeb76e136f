/** `getShortestPath`, the entry point called across the foreign-function
    boundary: build a `Pathfinder`, compute the shortest path, and write it
    into the caller's buffer as a length header followed by (row, col)
    pairs. */
module PathSerialization {
  import opened Positions
  import opened Grids
  import opened Teleporters
  import opened Pathfinding
  import opened Wrappers

  /** How `getShortestPath` ends: normally, or with the overflow exception,
      whose message gives the path length and how many positions the
      buffer can hold. */
  datatype Outcome = Written | Overflow(pathLength: int, capacity: int)

  /** The (row, col) pairs of a path, in order. */
  function Pairs(path: seq<Position>): (out: seq<int>)
    ensures |out| == 2 * |path|
  {
    if path == [] then []
    else Pairs(path[..|path| - 1]) + [path[|path| - 1].row, path[|path| - 1].col]
  }

  /** Position `j` of the path sits at indices `2j` and `2j + 1` of its pairs. */
  lemma {:induction false} PairsAt(path: seq<Position>, j: int)
    requires 0 <= j < |path|
    ensures Pairs(path)[2 * j] == path[j].row && Pairs(path)[2 * j + 1] == path[j].col
  {
    if j < |path| - 1 {
      PairsAt(path[..|path| - 1], j);
    }
  }

  /** One more position adds its pair at the end. */
  lemma PairsStep(path: seq<Position>, j: int)
    requires 0 <= j < |path|
    ensures Pairs(path[..j + 1]) == Pairs(path[..j]) + [path[j].row, path[j].col]
  {
    assert path[..j + 1][..j] == path[..j];
  }

  /** A buffer holding the header and the first `written` pairs of `path`,
      and elsewhere what `before` held, is exactly that. */
  lemma BufferHolds(buffer: seq<int>, path: seq<Position>, written: int, before: seq<int>)
    requires 0 <= written <= |path| && |buffer| == |before| && 1 + 2 * written <= |buffer|
    requires buffer[0] == |path|
    requires forall k :: 0 <= k < written ==> buffer[1 + 2 * k] == path[k].row && buffer[2 + 2 * k] == path[k].col
    requires forall k :: 1 + 2 * written <= k < |buffer| ==> buffer[k] == before[k]
    ensures buffer == [|path|] + Pairs(path[..written]) + before[1 + 2 * written..]
  {
    var expected := [|path|] + Pairs(path[..written]) + before[1 + 2 * written..];
    forall k | 1 <= k < 1 + 2 * written
      ensures buffer[k] == expected[k]
    {
      var m := (k - 1) / 2;
      PairsAt(path[..written], m);
    }
  }

  /** The buffer contents for a path that fits: the header, then the pairs. */
  function Encode(path: seq<Position>): seq<int> {
    [|path|] + Pairs(path)
  }

  /** Reading a buffer back: the header gives the number of positions, and
      the pairs after it the positions; a negative header or a buffer too
      short for it reads as nothing. */
  function Decode(buffer: seq<int>): (path: Option<seq<Position>>)
    ensures path.Some? ==> |buffer| >= 1 + 2 * |path.value| && buffer[0] == |path.value|
  {
    if |buffer| == 0 || buffer[0] < 0 || |buffer| < 1 + 2 * buffer[0] then None
    else Some(seq(buffer[0], j requires 0 <= j < buffer[0] => Position(buffer[1 + 2 * j], buffer[2 + 2 * j])))
  }

  /** Decoding an encoded path, followed by anything at all, gives the path
      back. */
  lemma DecodeEncode(path: seq<Position>, rest: seq<int>)
    ensures Decode(Encode(path) + rest) == Some(path)
  {
    var buffer := Encode(path) + rest;
    assert buffer[0] == |path| && |buffer| >= 1 + 2 * |path|;
    var decoded := Decode(buffer).value;
    assert |decoded| == |path|;
    forall j | 0 <= j < |path|
      ensures decoded[j] == path[j]
    {
      PairsAt(path, j);
      assert buffer[1 + 2 * j] == Pairs(path)[2 * j];
      assert buffer[2 + 2 * j] == Pairs(path)[2 * j + 1];
    }
    assert decoded == path;
  }

  /** The number of positions a buffer of `outputBufferSize` entries holds
      after its header. */
  function Capacity(outputBufferSize: int): int
    requires 1 <= outputBufferSize
  {
    (outputBufferSize - 1) / 2
  }

  /** The capacity is the largest `n` with `2n + 1` entries in the buffer. */
  lemma CapacityIsLargest(outputBufferSize: int, n: int)
    requires 1 <= outputBufferSize && 0 <= n
    ensures 0 <= Capacity(outputBufferSize)
    ensures 2 * Capacity(outputBufferSize) + 1 <= outputBufferSize
    ensures n <= Capacity(outputBufferSize) <==> 2 * n + 1 <= outputBufferSize
  {
  }

  /** The serialisation loop: the header first, then one pair per position,
      throwing as soon as the next pair would reach the end of the buffer.
      On overflow the header and the pairs that fit are already written;
      nothing past the written prefix changes. */
  method WritePath(shortestPath: seq<Position>, output: array<int>, outputBufferSize: int)
    returns (outcome: Outcome)
    requires output.Length == outputBufferSize && 1 <= outputBufferSize
    modifies output
    ensures outcome.Written? <==> 2 * |shortestPath| + 1 <= outputBufferSize
    ensures outcome.Overflow? ==> outcome == Overflow(|shortestPath|, Capacity(outputBufferSize))
    ensures outcome.Written? ==>
              output[..] == [|shortestPath|] + Pairs(shortestPath) + old(output[1 + 2 * |shortestPath|..])
    ensures outcome.Overflow? ==>
              var written := Capacity(outputBufferSize);
              && 0 <= written < |shortestPath|
              && output[..] == [|shortestPath|] + Pairs(shortestPath[..written]) + old(output[1 + 2 * written..])
  {
    output[0] := |shortestPath|;
    var i := 1;
    for j := 0 to |shortestPath|
      invariant i == 1 + 2 * j && i <= outputBufferSize
      invariant output[0] == |shortestPath|
      invariant forall k :: 0 <= k < j ==> output[1 + 2 * k] == shortestPath[k].row && output[2 + 2 * k] == shortestPath[k].col
      invariant forall k :: i <= k < outputBufferSize ==> output[k] == old(output[k])
    {
      if i + 1 >= outputBufferSize {
        CapacityIsLargest(outputBufferSize, j);
        BufferHolds(output[..], shortestPath, j, old(output[..]));
        return Overflow(|shortestPath|, (outputBufferSize - 1) / 2);
      }
      output[i] := shortestPath[j].row;
      output[i + 1] := shortestPath[j].col;
      i := i + 2;
    }
    assert shortestPath[..|shortestPath|] == shortestPath;
    BufferHolds(output[..], shortestPath, |shortestPath|, old(output[..]));
    return Written;
  }

  /** A path that fits reads back whole from the buffer. */
  lemma WrittenDecodes(shortestPath: seq<Position>, buffer: seq<int>, rest: seq<int>)
    requires buffer == [|shortestPath|] + Pairs(shortestPath) + rest
    ensures Decode(buffer) == Some(shortestPath)
  {
    assert buffer == Encode(shortestPath) + rest;
    DecodeEncode(shortestPath, rest);
  }

  /** `getShortestPath`: the pathfinder is built from the grid, asked for
      the shortest path (with `fromStarts` as its multi-start search), and
      the path is written to `output`. */
  method GetShortestPath(grid: seq<int>, height: int, width: int, checkpointCount: int, teleporterCount: int,
                         output: array<int>, outputBufferSize: int,
                         fromStarts: (seq<Position>, int) -> seq<Position>)
    returns (outcome: Outcome, ghost pathfinder: Pathfinder, ghost shortestPath: seq<Position>,
             ghost legs: seq<seq<Position>>, ghost useds: seq<set<int>>)
    requires 0 <= height && 0 <= width && |grid| == height * width && 0 <= checkpointCount
    requires output.Length == outputBufferSize && 1 <= outputBufferSize
    requires forall starts, t :: Within(fromStarts(starts, t), Grid(grid, height, width).Region())
    modifies output
    ensures pathfinder.grid == Grid(grid, height, width) && pathfinder.checkpointCount == checkpointCount
    ensures pathfinder.Valid() && pathfinder.PathOutcome(fromStarts, legs, useds, shortestPath)
    ensures outcome.Written? <==> 2 * |shortestPath| + 1 <= outputBufferSize
    ensures outcome.Written? ==> Decode(output[..]) == Some(shortestPath)
    ensures outcome.Overflow? ==> outcome == Overflow(|shortestPath|, Capacity(outputBufferSize))
  {
    // Construct Pathfinder
    var finder := new Pathfinder(grid, height, width, checkpointCount, teleporterCount);
    pathfinder := finder;
    // Get shortest path
    var path;
    path, legs, useds := finder.CalculateShortestPath(fromStarts);
    shortestPath := path;
    // Serialize the shortest path into the output buffer
    ghost var before := output[..];
    outcome := WritePath(path, output, outputBufferSize);
    if outcome.Written? {
      assert path[..|path|] == path;
      WrittenDecodes(path, output[..], before[1 + 2 * |path|..]);
    }
  }
}
