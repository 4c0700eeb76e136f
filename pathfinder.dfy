/** The `Pathfinder` class: the constructor's scan of the grid, the
    breadth-first `calculateShortestSubpath`, `adjustPathForTeleporters`,
    and `calculateShortestPath`, which chains the sub-paths from the start
    through the checkpoints to the goal. */
module Pathfinding {
  import opened CellTypes
  import opened Positions
  import opened Grids
  import opened SubpathSearch
  import opened Teleporters
  import opened RouteOrder
  import opened Wrappers

  // ---------------------------------------------------------------------
  // What the constructor reads out of the grid

  /** `p` comes before cell (`row`, `col`) in the constructor's row-major scan. */
  ghost predicate ScannedBefore(g: Grid, p: Position, row: int, col: int) {
    g.InBounds(p) && (p.row < row || (p.row == row && p.col < col))
  }

  /** `cells` holds, in scan order, exactly the scanned cells whose value
      decodes to `role`. */
  ghost predicate CellsUpTo(g: Grid, checkpointCount: int, cells: seq<Position>, role: CellRole,
                            row: int, col: int)
    requires g.Valid()
  {
    && StrictlyIncreasing(cells)
    && (forall i :: 0 <= i < |cells| ==>
          ScannedBefore(g, cells[i], row, col) && RoleOf(g.At(cells[i]), checkpointCount) == role)
    && (forall p :: ScannedBefore(g, p, row, col) && RoleOf(g.At(p), checkpointCount) == role ==> p in cells)
  }

  predicate IsTeleporter(role: CellRole) {
    role.TeleporterIn? || role.TeleporterOut?
  }

  /** `info` holds, for every teleporter index met so far and no other,
      its IN and its OUT cells; `keys` lists the indices in order. */
  ghost predicate TeleportersUpTo(g: Grid, checkpointCount: int, keys: seq<int>,
                                  info: map<int, Teleporter>, row: int, col: int)
    requires g.Valid()
  {
    && KeyOrder(keys, info)
    && (forall k :: k in info ==>
          && CellsUpTo(g, checkpointCount, info[k].ins, TeleporterIn(k), row, col)
          && CellsUpTo(g, checkpointCount, info[k].outs, TeleporterOut(k), row, col)
          && (info[k].ins != [] || info[k].outs != []))
    && (forall p :: ScannedBefore(g, p, row, col) && IsTeleporter(RoleOf(g.At(p), checkpointCount)) ==>
          RoleOf(g.At(p), checkpointCount).index in info)
  }

  /** Everything the constructor has collected when it reaches cell
      (`row`, `col`). */
  ghost predicate ScannedUpTo(g: Grid, checkpointCount: int, starts: seq<Position>, keys: seq<int>,
                              info: map<int, Teleporter>, row: int, col: int)
    requires g.Valid()
  {
    && CellsUpTo(g, checkpointCount, starts, StartCell, row, col)
    && TeleportersUpTo(g, checkpointCount, keys, info, row, col)
  }

  /** `teleporterInfo_[index]`: the entry, default-constructed when absent. */
  function EntryOf(info: map<int, Teleporter>, index: int): Teleporter {
    if index in info then info[index] else Teleporter([], [])
  }

  /** Inserting a cell into the IN or the OUT set of an entry. */
  function AddCell(t: Teleporter, p: Position, isIn: bool): Teleporter {
    if isIn then t.(ins := t.ins + [p]) else t.(outs := t.outs + [p])
  }

  /** Scanning one more cell keeps the cells of one role in order. */
  lemma CellStep(g: Grid, checkpointCount: int, cells: seq<Position>, role: CellRole, row: int, col: int)
    requires g.Valid() && 0 <= row < g.height && 0 <= col < g.width
    requires CellsUpTo(g, checkpointCount, cells, role, row, col)
    ensures var p := Position(row, col);
            CellsUpTo(g, checkpointCount,
                      if RoleOf(g.At(p), checkpointCount) == role then cells + [p] else cells,
                      role, row, col + 1)
  {
    var p := Position(row, col);
    if RoleOf(g.At(p), checkpointCount) == role {
      var cells' := cells + [p];
      forall i, j | 0 <= i < j < |cells'|
        ensures Less(cells'[i], cells'[j])
      {
        if j == |cells| {
          assert ScannedBefore(g, cells[i], row, col);
        }
      }
    }
  }

  /** Scanning one more cell keeps the teleporter table. */
  lemma TeleporterStep(g: Grid, checkpointCount: int, keys: seq<int>, info: map<int, Teleporter>,
                       row: int, col: int, keys': seq<int>, info': map<int, Teleporter>)
    requires g.Valid() && 0 <= row < g.height && 0 <= col < g.width
    requires TeleportersUpTo(g, checkpointCount, keys, info, row, col)
    requires var v, base := g.At(Position(row, col)), kLength + checkpointCount;
             if v != kStart && v >= base then
               && keys' == (if (v - base) / 2 in info then keys else InsertKey(keys, (v - base) / 2))
               && info' == info[(v - base) / 2 := AddCell(EntryOf(info, (v - base) / 2), Position(row, col),
                                                          (v - base) % 2 == 0)]
             else keys' == keys && info' == info
    ensures TeleportersUpTo(g, checkpointCount, keys', info', row, col + 1)
  {
    var p := Position(row, col);
    var role := RoleOf(g.At(p), checkpointCount);
    var v, base := g.At(p), kLength + checkpointCount;
    assert IsTeleporter(role) <==> v != kStart && v >= base;
    assert IsTeleporter(role) ==> role.index == (v - base) / 2 && (role.TeleporterIn? <==> (v - base) % 2 == 0);
    if IsTeleporter(role) {
      KeysStep(keys, info, role.index, info'[role.index]);
    }
    forall k | k in info'
      ensures CellsUpTo(g, checkpointCount, info'[k].ins, TeleporterIn(k), row, col + 1)
      ensures CellsUpTo(g, checkpointCount, info'[k].outs, TeleporterOut(k), row, col + 1)
      ensures info'[k].ins != [] || info'[k].outs != []
    {
      EntryStep(g, checkpointCount, info, row, col, k);
      if IsTeleporter(role) && k == role.index {
        assert info'[k] == AddCell(EntryOf(info, k), p, role.TeleporterIn?);
      } else {
        assert info'[k] == info[k];
      }
    }
    forall q | ScannedBefore(g, q, row, col + 1) && IsTeleporter(RoleOf(g.At(q), checkpointCount))
      ensures RoleOf(g.At(q), checkpointCount).index in info'
    {
      if q != p {
        assert ScannedBefore(g, q, row, col);
      }
    }
  }

  /** Adding an entry to the table keeps its keys listed in order. */
  lemma KeysStep(keys: seq<int>, info: map<int, Teleporter>, index: int, t: Teleporter)
    requires KeyOrder(keys, info)
    ensures index !in info ==> index !in keys
    ensures KeyOrder(if index in info then keys else InsertKey(keys, index), info[index := t])
  {
    if index !in info {
      var keys' := InsertKey(keys, index);
      forall i | 0 <= i < |keys'|
        ensures keys'[i] in info[index := t]
      {
        assert keys'[i] in keys';
      }
    }
  }

  /** One teleporter's entry after one more cell is scanned. */
  lemma EntryStep(g: Grid, checkpointCount: int, info: map<int, Teleporter>, row: int, col: int, k: int)
    requires g.Valid() && 0 <= row < g.height && 0 <= col < g.width
    requires forall q :: ScannedBefore(g, q, row, col) && IsTeleporter(RoleOf(g.At(q), checkpointCount)) ==>
               RoleOf(g.At(q), checkpointCount).index in info
    requires k in info ==> CellsUpTo(g, checkpointCount, info[k].ins, TeleporterIn(k), row, col)
                           && CellsUpTo(g, checkpointCount, info[k].outs, TeleporterOut(k), row, col)
    ensures var p := Position(row, col);
            var role := RoleOf(g.At(p), checkpointCount);
            var t := EntryOf(info, k);
            && CellsUpTo(g, checkpointCount, if role == TeleporterIn(k) then t.ins + [p] else t.ins,
                         TeleporterIn(k), row, col + 1)
            && CellsUpTo(g, checkpointCount, if role == TeleporterOut(k) then t.outs + [p] else t.outs,
                         TeleporterOut(k), row, col + 1)
  {
    var t := EntryOf(info, k);
    if k !in info {
      forall q | ScannedBefore(g, q, row, col)
        ensures RoleOf(g.At(q), checkpointCount) != TeleporterIn(k)
        ensures RoleOf(g.At(q), checkpointCount) != TeleporterOut(k)
      {
      }
    }
    CellStep(g, checkpointCount, t.ins, TeleporterIn(k), row, col);
    CellStep(g, checkpointCount, t.outs, TeleporterOut(k), row, col);
  }

  /** Scanning one more cell, as the constructor's loop body does. */
  lemma ScanStep(g: Grid, checkpointCount: int, starts: seq<Position>, keys: seq<int>,
                 info: map<int, Teleporter>, row: int, col: int,
                 starts': seq<Position>, keys': seq<int>, info': map<int, Teleporter>)
    requires g.Valid() && 0 <= row < g.height && 0 <= col < g.width
    requires ScannedUpTo(g, checkpointCount, starts, keys, info, row, col)
    requires var v, base := g.At(Position(row, col)), kLength + checkpointCount;
             && starts' == (if v == kStart then starts + [Position(row, col)] else starts)
             && if v != kStart && v >= base then
                  && keys' == (if (v - base) / 2 in info then keys else InsertKey(keys, (v - base) / 2))
                  && info' == info[(v - base) / 2 := AddCell(EntryOf(info, (v - base) / 2), Position(row, col),
                                                             (v - base) % 2 == 0)]
                else keys' == keys && info' == info
    ensures ScannedUpTo(g, checkpointCount, starts', keys', info', row, col + 1)
  {
    CellStep(g, checkpointCount, starts, StartCell, row, col);
    TeleporterStep(g, checkpointCount, keys, info, row, col, keys', info');
  }

  /** The end of a row is the start of the next one. */
  lemma CellsRowDone(g: Grid, checkpointCount: int, cells: seq<Position>, role: CellRole, row: int)
    requires g.Valid() && CellsUpTo(g, checkpointCount, cells, role, row, g.width)
    ensures CellsUpTo(g, checkpointCount, cells, role, row + 1, 0)
  {
    assert forall p :: ScannedBefore(g, p, row, g.width) <==> ScannedBefore(g, p, row + 1, 0);
  }

  lemma ScannedRowDone(g: Grid, checkpointCount: int, starts: seq<Position>, keys: seq<int>,
                       info: map<int, Teleporter>, row: int)
    requires g.Valid() && ScannedUpTo(g, checkpointCount, starts, keys, info, row, g.width)
    ensures ScannedUpTo(g, checkpointCount, starts, keys, info, row + 1, 0)
  {
    CellsRowDone(g, checkpointCount, starts, StartCell, row);
    TeleportersRowDone(g, checkpointCount, keys, info, row);
  }

  lemma TeleportersRowDone(g: Grid, checkpointCount: int, keys: seq<int>, info: map<int, Teleporter>, row: int)
    requires g.Valid() && TeleportersUpTo(g, checkpointCount, keys, info, row, g.width)
    ensures TeleportersUpTo(g, checkpointCount, keys, info, row + 1, 0)
  {
    assert forall p :: ScannedBefore(g, p, row, g.width) <==> ScannedBefore(g, p, row + 1, 0);
    forall k | k in info
      ensures CellsUpTo(g, checkpointCount, info[k].ins, TeleporterIn(k), row + 1, 0)
      ensures CellsUpTo(g, checkpointCount, info[k].outs, TeleporterOut(k), row + 1, 0)
    {
      CellsRowDone(g, checkpointCount, info[k].ins, TeleporterIn(k), row);
      CellsRowDone(g, checkpointCount, info[k].outs, TeleporterOut(k), row);
    }
  }

  /** All legs of the path, joined in order. */
  function Flatten(legs: seq<seq<Position>>): seq<Position> {
    if legs == [] then [] else Flatten(legs[..|legs| - 1]) + legs[|legs| - 1]
  }

  function Last(path: seq<Position>): Position
    requires path != []
  {
    path[|path| - 1]
  }

  /** The constructor's row-major pass over the grid: the start cells and
      the IN and OUT cells of every teleporter. */
  method ScanGrid(g: Grid, checkpointCount: int)
    returns (starts: seq<Position>, keys: seq<int>, info: map<int, Teleporter>)
    requires g.Valid()
    ensures ScannedUpTo(g, checkpointCount, starts, keys, info, g.height, 0)
  {
    starts, keys, info := [], [], map[];
    var teleporterStartValue := kLength + checkpointCount;
    for row := 0 to g.height
      invariant ScannedUpTo(g, checkpointCount, starts, keys, info, row, 0)
    {
      for col := 0 to g.width
        invariant ScannedUpTo(g, checkpointCount, starts, keys, info, row, col)
      {
        var p := Position(row, col);
        var cellValue := g.At(p);
        ghost var starts0, keys0, info0 := starts, keys, info;
        if cellValue == kStart {
          starts := starts + [p];
        } else if cellValue >= teleporterStartValue {
          // A teleporter cell.
          var teleporterIndex := (cellValue - teleporterStartValue) / 2;
          // Even values are IN cells, odd values OUT cells.
          var isIn := (cellValue - teleporterStartValue) % 2 == 0;
          KeysStep(keys, info, teleporterIndex, AddCell(EntryOf(info, teleporterIndex), p, isIn));
          if teleporterIndex !in info {
            keys := InsertKey(keys, teleporterIndex);
          }
          info := info[teleporterIndex := AddCell(EntryOf(info, teleporterIndex), p, isIn)];
        }
        ScanStep(g, checkpointCount, starts0, keys0, info0, row, col, starts, keys, info);
      }
      ScannedRowDone(g, checkpointCount, starts, keys, info, row);
    }
  }

  // ---------------------------------------------------------------------

  class Pathfinder {
    /** The grid the pathfinder was given (`grid_`, `gridHeight_`, `gridWidth_`). */
    const grid: Grid
    const checkpointCount: int
    const teleporterCount: int
    const startPositions: seq<Position>
    /** `teleporterInfo_`, with its keys in iteration order. */
    const teleporterInfo: map<int, Teleporter>
    const teleporterKeys: seq<int>

    /** What searching and adjusting need: a well-formed grid and the
        teleporter keys listed in order. */
    ghost predicate Searchable() {
      grid.Valid() && KeyOrder(teleporterKeys, teleporterInfo)
    }

    /** The fields hold what the constructor's scan read out of the grid. */
    ghost predicate Valid() {
      && grid.Valid()
      && ScannedUpTo(grid, checkpointCount, startPositions, teleporterKeys, teleporterInfo, grid.height, 0)
    }

    /** The constructor: one row-major pass over the grid collects the start
        cells and the IN and OUT cells of every teleporter. */
    constructor (cells: seq<int>, height: int, width: int, checkpointCount: int, teleporterCount: int)
      requires 0 <= height && 0 <= width && |cells| == height * width
      ensures grid == Grid(cells, height, width)
      ensures this.checkpointCount == checkpointCount && this.teleporterCount == teleporterCount
      ensures Valid()
    {
      var g := Grid(cells, height, width);
      var starts, keys, info := ScanGrid(g, checkpointCount);
      grid := g;
      this.checkpointCount := checkpointCount;
      this.teleporterCount := teleporterCount;
      startPositions := starts;
      teleporterInfo := info;
      teleporterKeys := keys;
    }

    /** `startPositions_` holds exactly the `kStart` cells, in row-major
        (`operator<`) order, each once. */
    lemma StartsAreStartCells()
      requires Valid()
      ensures StrictlyIncreasing(startPositions)
      ensures forall p :: p in startPositions <==> grid.InBounds(p) && grid.At(p) == kStart
      ensures forall i, j :: 0 <= i < |startPositions| && 0 <= j < |startPositions| && i != j ==>
                startPositions[i] != startPositions[j]
    {
      forall i, j | 0 <= i < |startPositions| && 0 <= j < |startPositions| && i != j
        ensures startPositions[i] != startPositions[j]
      {
        StrictlyIncreasingIsDistinct(startPositions, i, j);
      }
      forall p | p in startPositions
        ensures grid.InBounds(p) && grid.At(p) == kStart
      {
        var i :| 0 <= i < |startPositions| && startPositions[i] == p;
      }
    }

    /** `teleporterInfo_` holds exactly the teleporter indices present on
        the grid, each with exactly its IN cells and its OUT cells, in
        `operator<` order. */
    lemma TeleportersAreTeleporterCells()
      requires Valid()
      ensures forall p :: grid.InBounds(p) && IsTeleporter(RoleOf(grid.At(p), checkpointCount)) ==>
                RoleOf(grid.At(p), checkpointCount).index in teleporterInfo
      ensures forall k :: k in teleporterInfo ==> teleporterInfo[k].ins != [] || teleporterInfo[k].outs != []
      ensures forall k, p :: k in teleporterInfo ==>
                && (p in teleporterInfo[k].ins <==>
                      grid.InBounds(p) && RoleOf(grid.At(p), checkpointCount) == TeleporterIn(k))
                && (p in teleporterInfo[k].outs <==>
                      grid.InBounds(p) && RoleOf(grid.At(p), checkpointCount) == TeleporterOut(k))
      ensures forall k :: k in teleporterInfo ==>
                StrictlyIncreasing(teleporterInfo[k].ins) && StrictlyIncreasing(teleporterInfo[k].outs)
    {
      forall k, p | k in teleporterInfo
        ensures p in teleporterInfo[k].ins ==>
                  grid.InBounds(p) && RoleOf(grid.At(p), checkpointCount) == TeleporterIn(k)
        ensures p in teleporterInfo[k].outs ==>
                  grid.InBounds(p) && RoleOf(grid.At(p), checkpointCount) == TeleporterOut(k)
      {
        if p in teleporterInfo[k].ins {
          var i :| 0 <= i < |teleporterInfo[k].ins| && teleporterInfo[k].ins[i] == p;
        }
        if p in teleporterInfo[k].outs {
          var i :| 0 <= i < |teleporterInfo[k].outs| && teleporterInfo[k].outs[i] == p;
        }
      }
    }

    // -------------------------------------------------------------------
    // calculateShortestSubpath

    /** Breadth-first search from `startPosition` to the nearest cell holding
        `destinationType`, trying up, right, down, left; a cell entered on
        ice may only be left in the direction it was entered. Returns the
        path without `startPosition`, or the empty path. */
    method CalculateShortestSubpath(startPosition: Position, destinationType: int) returns (path: seq<Position>)
      requires grid.Valid() && grid.InBounds(startPosition)
      ensures SubpathOutcome(grid, startPosition, destinationType, path)
    {
      var visited: set<Position> := {};
      var pushed: set<Position> := {};
      var previous: map<Position, Position> := map[];
      var bfsQueue := [Entry(startPosition, Free)];
      ghost var b := InitialBook(startPosition);
      InitialInvariant(grid, startPosition, destinationType);
      while bfsQueue != []
        invariant SearchInvariant(grid, startPosition, destinationType, bfsQueue, visited, pushed, previous, b)
        invariant SearchOrder(grid, visited, previous, b)
        decreases Unvisited(grid, visited)
      {
        var posAndDirection := bfsQueue[0];
        var currentPosition := posAndDirection.pos;
        FrontInBounds(grid, startPosition, destinationType, bfsQueue, visited, pushed, previous, b);

        // Check if we found the goal
        if grid.At(currentPosition) == destinationType {
          var tmpCurrent := currentPosition;
          path := [tmpCurrent];
          var steps := 0;
          while tmpCurrent in previous
            invariant ChainFrom(previous, b.dist, currentPosition, path) && path[|path| - 1] == tmpCurrent
            invariant steps == |path| - 1
            decreases b.dist[tmpCurrent]
          {
            ChainGrows(visited, previous, b.dist, currentPosition, path);
            steps := steps + 1;
            tmpCurrent := previous[tmpCurrent];
            path := path + [tmpCurrent];
          }
          FoundOutcome(grid, startPosition, destinationType, bfsQueue, visited, pushed, previous, b, path);
          // The starting position should not be in the path.
          path := path[..|path| - 1];
          path := Reverse(path);
          return;
        }

        PopKeeps(grid, startPosition, destinationType, bfsQueue, visited, pushed, previous, b);
        PopOrder(grid, startPosition, destinationType, bfsQueue, visited, pushed, previous, b);
        VisitDecreases(grid, visited, currentPosition);
        bfsQueue := bfsQueue[1..];
        visited := visited + {currentPosition};
        b := Pop(b);

        ghost var done: set<Direction> := {};
        RankValues();
        bfsQueue, pushed, previous, b :=
          TryMove(grid, startPosition, destinationType, posAndDirection, Up, done, 0, bfsQueue, visited, pushed, previous, b);
        done := done + {Up};
        bfsQueue, pushed, previous, b :=
          TryMove(grid, startPosition, destinationType, posAndDirection, Right, done, Rank(Up) + 1, bfsQueue, visited, pushed, previous, b);
        done := done + {Right};
        bfsQueue, pushed, previous, b :=
          TryMove(grid, startPosition, destinationType, posAndDirection, Down, done, Rank(Right) + 1, bfsQueue, visited, pushed, previous, b);
        done := done + {Down};
        bfsQueue, pushed, previous, b :=
          TryMove(grid, startPosition, destinationType, posAndDirection, Left, done, Rank(Down) + 1, bfsQueue, visited, pushed, previous, b);
        done := done + {Left};
        FourDirections();
        FinishKeeps(grid, startPosition, destinationType, posAndDirection, bfsQueue, visited, pushed, previous, b);
        FinishOrder(grid, currentPosition, visited, previous, b, |bfsQueue|);
        b := Advance(b, |bfsQueue|);
      }

      // No path found
      DrainedOutcome(grid, startPosition, destinationType, visited, pushed, previous, b);
      path := [];
    }

    // -------------------------------------------------------------------
    // adjustPathForTeleporters

    /** Looks, teleporter by teleporter in index order and skipping the used
        ones, for an IN cell on `path`; at the first one found, marks the
        teleporter used and replaces the rest of the path by the (adjusted)
        path from the teleporter's OUT cells. `fromStarts` is the
        multi-start search. */
    method AdjustPathForTeleporters(destinationType: int, usedTeleporters: set<int>, path: seq<Position>,
                                    fromStarts: (seq<Position>, int) -> seq<Position>)
      returns (used: set<int>, adjusted: seq<Position>)
      requires KeyOrder(teleporterKeys, teleporterInfo)
      ensures Adjusted(used, adjusted)
              == Adjust(teleporterKeys, teleporterInfo, fromStarts, destinationType, usedTeleporters, path)
      decreases teleporterInfo.Keys - usedTeleporters
    {
      used, adjusted := usedTeleporters, path;
      for n := 0 to |teleporterKeys|
        invariant forall j :: 0 <= j < n ==>
                    teleporterKeys[j] in usedTeleporters || FirstOnPath(teleporterInfo[teleporterKeys[j]].ins, path).None?
      {
        var teleporterIndex := teleporterKeys[n];
        if teleporterIndex !in usedTeleporters {
          var ins := teleporterInfo[teleporterIndex].ins;
          for m := 0 to |ins|
            invariant forall j :: 0 <= j < m ==> ins[j] !in path
          {
            var inPosition := ins[m];
            for pathIndex := 0 to |path|
              invariant forall k :: 0 <= k < pathIndex ==> path[k] != inPosition
            {
              if path[pathIndex] == inPosition {
                // This path goes into a teleporter.
                ghost var h := Hit(teleporterIndex, pathIndex);
                FirstOnPathAt(ins, path, m, pathIndex);
                FirstHitAt(teleporterKeys, teleporterInfo, usedTeleporters, path, n, pathIndex);
                AdjustSplices(teleporterKeys, teleporterInfo, fromStarts, destinationType, usedTeleporters, path, h);
                used := usedTeleporters + {teleporterIndex};
                var postTeleporterPath := fromStarts(teleporterInfo[teleporterIndex].outs, destinationType);
                used, postTeleporterPath := AdjustPathForTeleporters(destinationType, used, postTeleporterPath, fromStarts);
                adjusted := path[..pathIndex + 1] + postTeleporterPath;
                return;
              }
            }
          }
        }
      }
      FirstHitNone(teleporterKeys, teleporterInfo, usedTeleporters, path);
      AdjustNoHit(teleporterKeys, teleporterInfo, fromStarts, destinationType, usedTeleporters, path);
    }


    // -------------------------------------------------------------------
    // calculateShortestPath

    /** The destination type of leg `k`: checkpoint `k`, or the goal after
        the last checkpoint. `LegsChained`, and so `PathOutcome`, use it to say where each leg of
        `CalculateShortestPath` aims. */
    function Destination(k: int): (destinationType: int)
      requires 0 <= k
      ensures destinationType == kGoal <==> k == checkpointCount
      ensures destinationType != kGoal ==> destinationType >= kLength && destinationType - kLength == k
    {
      if k == checkpointCount then kGoal else kLength + k
    }

    /** A later leg: the sub-path from `from` to `destinationType`, adjusted
        for teleporters starting from the used set `usedIn`. */
    ghost predicate LegFrom(fromStarts: (seq<Position>, int) -> seq<Position>, from: Position,
                            destinationType: int, usedIn: set<int>, leg: seq<Position>, usedOut: set<int>)
      requires Searchable()
    {
      && grid.InBounds(from)
      && exists raw :: && SubpathOutcome(grid, from, destinationType, raw)
                       && Adjust(teleporterKeys, teleporterInfo, fromStarts, destinationType, usedIn, raw)
                          == Adjusted(usedOut, leg)
    }

    /** The legs computed so far: the first from the start cells, each later
        one from the end of the one before, aiming at the destinations in
        order, with the used teleporters carried from leg to leg. */
    ghost predicate LegsChained(fromStarts: (seq<Position>, int) -> seq<Position>,
                                legs: seq<seq<Position>>, useds: seq<set<int>>)
      requires Searchable()
    {
      && 1 <= |legs| && |useds| == |legs| + 1 && useds[0] == {}
      && Adjust(teleporterKeys, teleporterInfo, fromStarts, Destination(0), {},
                fromStarts(startPositions, Destination(0)))
         == Adjusted(useds[1], legs[0])
      && forall k :: 1 <= k < |legs| ==> LinkedAt(fromStarts, legs, useds, k)
    }

    /** Leg `k` starts where leg `k - 1`, which is not empty, ends. */
    ghost predicate LinkedAt(fromStarts: (seq<Position>, int) -> seq<Position>,
                             legs: seq<seq<Position>>, useds: seq<set<int>>, k: int)
      requires Searchable() && 1 <= k < |legs| && |useds| == |legs| + 1
    {
      legs[k - 1] != [] && LegFrom(fromStarts, Last(legs[k - 1]), Destination(k), useds[k], legs[k], useds[k + 1])
    }

    /** The `extendPath` lambda: the sub-path from the end of the path so
        far, adjusted for teleporters, appended when not empty. */
    method ExtendPath(destinationType: int, overallPath: seq<Position>, usedTeleporters: set<int>,
                      fromStarts: (seq<Position>, int) -> seq<Position>)
      returns (success: bool, extended: seq<Position>, used: set<int>, subPath: seq<Position>)
      requires Searchable()
      requires overallPath != []
      requires Within(overallPath, grid.Region())
      requires forall starts, t :: Within(fromStarts(starts, t), grid.Region())
      ensures LegFrom(fromStarts, Last(overallPath), destinationType, usedTeleporters, subPath, used)
      ensures success <==> subPath != []
      ensures extended == if success then overallPath + subPath else overallPath
      ensures Within(extended, grid.Region())
    {
      var raw := CalculateShortestSubpath(Last(overallPath), destinationType);
      used, subPath := AdjustPathForTeleporters(destinationType, usedTeleporters, raw, fromStarts);
      RouteWithin(raw, Last(overallPath), destinationType);
      AdjustWithin(teleporterKeys, teleporterInfo, fromStarts, destinationType, usedTeleporters, raw, grid.Region());
      if subPath == [] {
        // If any sub-path is blocked, the entire path is blocked.
        return false, overallPath, used, subPath;
      }
      extended := overallPath + subPath;
      success := true;
      WithinJoin(overallPath, subPath, grid.Region());
    }

    /** A sub-path lies on the grid. */
    lemma RouteWithin(raw: seq<Position>, start: Position, destinationType: int)
      requires grid.Valid() && grid.InBounds(start) && SubpathOutcome(grid, start, destinationType, raw)
      ensures Within(raw, grid.Region())
    {
    }

    /** The legs are chained and either one of them is blocked and the
        path is empty, or there is one per destination and the path is all
        of them joined. */
    ghost predicate PathOutcome(fromStarts: (seq<Position>, int) -> seq<Position>,
                                legs: seq<seq<Position>>, useds: seq<set<int>>, overallPath: seq<Position>)
      requires Searchable()
    {
      && LegsChained(fromStarts, legs, useds) && |legs| <= checkpointCount + 1
      && (legs[|legs| - 1] == [] ==> overallPath == [])
      && (legs[|legs| - 1] != [] ==> |legs| == checkpointCount + 1 && overallPath == Flatten(legs))
    }

    /** Start cells, checkpoints in order, then the goal: the shortest path
        through all of them, adjusted for teleporters, or the empty path as
        soon as one leg is blocked. */
    method CalculateShortestPath(fromStarts: (seq<Position>, int) -> seq<Position>)
      returns (overallPath: seq<Position>, ghost legs: seq<seq<Position>>, ghost useds: seq<set<int>>)
      requires Searchable() && 0 <= checkpointCount
      requires forall starts, t :: Within(fromStarts(starts, t), grid.Region())
      ensures PathOutcome(fromStarts, legs, useds, overallPath)
    {
      var usedTeleporters: set<int> := {};
      var firstDestinationType;
      if checkpointCount == 0 {
        // No checkpoints, path directly from the start to the goal.
        firstDestinationType := kGoal;
      } else {
        // First, path to the first checkpoint.
        firstDestinationType := kLength;
      }
      overallPath := fromStarts(startPositions, firstDestinationType);
      AdjustWithin(teleporterKeys, teleporterInfo, fromStarts, firstDestinationType, {}, overallPath, grid.Region());
      usedTeleporters, overallPath := AdjustPathForTeleporters(firstDestinationType, usedTeleporters, overallPath, fromStarts);
      legs := [overallPath];
      useds := [{}, usedTeleporters];
      assert Flatten(legs) == overallPath by {
        assert legs[..0] == [];
      }

      if checkpointCount == 0 {
        // No checkpoints; done
        return;
      }
      if overallPath == [] {
        // Since the first part of the path is blocked, the whole path is blocked.
        return;
      }

      for i := 1 to checkpointCount
        invariant |legs| == i && LegsChained(fromStarts, legs, useds) && legs[i - 1] != []
        invariant useds[i] == usedTeleporters
        invariant overallPath != [] && overallPath == Flatten(legs) && Within(overallPath, grid.Region())
      {
        var checkpointValue := kLength + i;
        var success, subPath;
        success, overallPath, usedTeleporters, subPath :=
          ExtendPath(checkpointValue, overallPath, usedTeleporters, fromStarts);
        ChainLeg(fromStarts, legs, useds, subPath, usedTeleporters);
        legs := legs + [subPath];
        useds := useds + [usedTeleporters];
        if !success {
          return [], legs, useds;
        }
      }

      // After the last checkpoint, finally path to the goal.
      var success, subPath;
      success, overallPath, usedTeleporters, subPath := ExtendPath(kGoal, overallPath, usedTeleporters, fromStarts);
      ChainLeg(fromStarts, legs, useds, subPath, usedTeleporters);
      legs := legs + [subPath];
      useds := useds + [usedTeleporters];
      if !success {
        return [], legs, useds;
      }
    }

    /** Appending a leg computed from the end of the last one keeps the
        legs chained. */
    lemma ChainLeg(fromStarts: (seq<Position>, int) -> seq<Position>, legs: seq<seq<Position>>,
                   useds: seq<set<int>>, leg: seq<Position>, usedOut: set<int>)
      requires Searchable() && LegsChained(fromStarts, legs, useds) && legs[|legs| - 1] != []
      requires LegFrom(fromStarts, Last(Flatten(legs)), Destination(|legs|), useds[|legs|], leg, usedOut)
      ensures LegsChained(fromStarts, legs + [leg], useds + [usedOut])
      ensures Flatten(legs + [leg]) == Flatten(legs) + leg
    {
      var legs', useds' := legs + [leg], useds + [usedOut];
      FlattenAppend(legs, leg);
      forall k | 1 <= k < |legs'|
        ensures LinkedAt(fromStarts, legs', useds', k)
      {
        LinkedKept(fromStarts, legs, useds, leg, usedOut, k);
      }
    }

    lemma LinkedKept(fromStarts: (seq<Position>, int) -> seq<Position>, legs: seq<seq<Position>>,
                     useds: seq<set<int>>, leg: seq<Position>, usedOut: set<int>, k: int)
      requires Searchable() && 1 <= k <= |legs| && |useds| == |legs| + 1
      requires k < |legs| ==> LinkedAt(fromStarts, legs, useds, k)
      requires k == |legs| ==> legs[k - 1] != [] &&
                               LegFrom(fromStarts, Last(legs[k - 1]), Destination(k), useds[k], leg, usedOut)
      ensures LinkedAt(fromStarts, legs + [leg], useds + [usedOut], k)
    {
      var legs', useds' := legs + [leg], useds + [usedOut];
      assert legs'[k - 1] == legs[k - 1];
      if k < |legs| {
        assert legs'[k] == legs[k] && useds'[k] == useds[k] && useds'[k + 1] == useds[k + 1];
      } else {
        assert legs'[k] == leg && useds'[k] == useds[k] && useds'[k + 1] == usedOut;
      }
    }
  }

  lemma FlattenAppend(legs: seq<seq<Position>>, leg: seq<Position>)
    ensures Flatten(legs + [leg]) == Flatten(legs) + leg
    ensures legs != [] && legs[|legs| - 1] != [] ==> Flatten(legs) != [] && Last(Flatten(legs)) == Last(legs[|legs| - 1])
  {
    assert (legs + [leg])[..|legs|] == legs;
    if legs != [] && legs[|legs| - 1] != [] {
      FlattenEnd(legs);
    }
  }

  /** The joined path ends where its last leg ends. */
  lemma FlattenEnd(legs: seq<seq<Position>>)
    requires legs != [] && legs[|legs| - 1] != []
    ensures Flatten(legs) != [] && Last(Flatten(legs)) == Last(legs[|legs| - 1])
  {
  }

  /** Joining two paths on the grid stays on the grid. */
  lemma WithinJoin(a: seq<Position>, b: seq<Position>, cells: iset<Position>)
    requires Within(a, cells) && Within(b, cells)
    ensures Within(a + b, cells)
  {
    forall j | 0 <= j < |a + b|
      ensures (a + b)[j] in cells
    {
      if j >= |a| {
        assert (a + b)[j] == b[j - |a|];
      }
    }
  }
}
