/** The state of `calculateShortestSubpath`'s breadth-first search and the
    facts it keeps while it runs. The search itself is
    `Pathfinding.Pathfinder.CalculateShortestSubpath`; this module holds
    the queue entry type, the step that tries one direction (the
    `pushNextPosition` lambda and the guard in front of it) and the
    invariants with the lemmas that turn them into the search's contract.

    Beside the source's `visited`, `pushed` and `previous` (all keyed by
    position only, as in the source) the proof keeps a ghost `Book`. */
module SubpathSearch {
  import opened CellTypes
  import opened Positions
  import opened Grids
  import opened RouteOrder

  /** One `bfsQueue` element. */
  datatype Entry = Entry(pos: Position, lock: Lock)

  const AllDirections: set<Direction> := {Up, Right, Down, Left}

  /** Ghost bookkeeping of the search:
      - `dist`: the number of moves from the start at which a position was reached;
      - `history`: every position ever queued, in queueing order, and
        `order`, each reached position's index in it;
      - `popped`: the number of entries taken off the queue so far;
      - `base`: the level being expanded, and `split`: how many queued
        entries still lie at that level (the rest lie one level deeper). */
  datatype Book = Book(dist: map<Position, nat>, order: map<Position, nat>, history: seq<Position>,
                       popped: nat, base: nat, split: nat)

  /** `std::reverse` on the reconstructed path. */
  function Reverse<T>(s: seq<T>): (r: seq<T>)
    ensures |r| == |s|
    ensures forall i :: 0 <= i < |s| ==> r[i] == s[|s| - 1 - i]
  {
    if s == [] then [] else Reverse(s[1..]) + [s[0]]
  }

  /** The lock a pushed position is queued with: the direction it was
      entered in when it is ice, none otherwise (and none for the start,
      which is queued without being pushed). */
  function LockOf(g: Grid, previous: map<Position, Position>, p: Position): Lock
    requires g.Valid()
  {
    if p in previous && g.InBounds(p) && g.At(p) == kIce && Adjacent(previous[p], p)
    then Locked(DirectionOf(previous[p], p))
    else Free
  }

  /** The source's bounds test in front of each move: `row > 0` for up,
      `col < width - 1` for right, `row < height - 1` for down, `col > 0`
      for left. */
  predicate CanLeave(g: Grid, p: Position, d: Direction) {
    match d
    case Up => p.row > 0
    case Right => p.col < g.width - 1
    case Down => p.row < g.height - 1
    case Left => p.col > 0
  }

  lemma CanLeaveInBounds(g: Grid, p: Position, d: Direction)
    requires g.InBounds(p)
    ensures CanLeave(g, p, d) <==> g.InBounds(Step(p, d))
  {
  }

  // ---------------------------------------------------------------------
  // Invariants

  /** The positions reached so far are the pushed ones and the start. */
  ghost predicate Reached(g: Grid, start: Position, pushed: set<Position>,
                          previous: map<Position, Position>, dist: map<Position, nat>)
  {
    && g.Valid() && g.InBounds(start)
    && start !in pushed
    && previous.Keys == pushed
    && dist.Keys == pushed + {start}
    && dist[start] == 0
    && (forall p :: p in pushed ==> g.Walkable(p))
  }

  /** `previous[c]` was expanded, is a neighbour of `c`, one level up. */
  ghost predicate ParentsExpanded(visited: set<Position>, previous: map<Position, Position>,
                                  dist: map<Position, nat>)
  {
    forall c {:trigger previous[c]} :: c in previous ==>
      && previous[c] in visited
      && Adjacent(previous[c], c)
      && c in dist && previous[c] in dist
      && dist[c] == dist[previous[c]] + 1
  }

  /** The queue is the not yet expanded tail of the history of queued
      positions, and each reached position was queued exactly once. */
  ghost predicate QueueHolds(q: seq<Entry>, visited: set<Position>, b: Book) {
    && b.popped + |q| == |b.history|
    && (forall i :: 0 <= i < |q| ==>
          && q[i].pos == b.history[b.popped + i]
          && q[i].pos !in visited && q[i].pos in b.dist
          && q[i].pos in b.order && b.order[q[i].pos] == b.popped + i)
    && (forall p {:trigger p in b.dist} :: p in b.dist ==>
          && p in b.order && b.order[p] < |b.history| && b.history[b.order[p]] == p
          && (p !in visited ==> b.popped <= b.order[p]))
  }

  /** Expanded positions lie at most at level `base`; a queued position
      lies at `base` when it is among the next `split` entries, at
      `base + 1` otherwise. */
  ghost predicate Levels(q: seq<Entry>, visited: set<Position>, b: Book) {
    && b.split <= |q|
    && (forall v :: v in visited ==> v in b.dist && b.dist[v] <= b.base)
    && (forall p {:trigger p in b.dist} :: p in b.dist && p !in visited && p in b.order ==>
          b.dist[p] == if b.order[p] < b.popped + b.split then b.base else b.base + 1)
  }

  /** No expanded position holds the destination type. */
  ghost predicate NoneFound(g: Grid, destinationType: int, visited: set<Position>)
    requires g.Valid()
  {
    forall v :: v in visited ==> g.InBounds(v) && g.At(v) != destinationType
  }

  ghost predicate LocksRecorded(g: Grid, previous: map<Position, Position>, q: seq<Entry>)
    requires g.Valid()
  {
    forall i :: 0 <= i < |q| ==> q[i].lock == LockOf(g, previous, q[i].pos)
  }

  /** A position expanded under a lock had only its locked neighbour pushed. */
  ghost predicate IceRespected(g: Grid, previous: map<Position, Position>)
    requires g.Valid()
  {
    forall c {:trigger LockOf(g, previous, previous[c])} ::
      c in previous && LockOf(g, previous, previous[c]).Locked? ==>
      c == Step(previous[c], LockOf(g, previous, previous[c]).dir)
  }

  /** Each walkable neighbour of an expanded position has been reached at
      most one level deeper. Holds on grids without ice. */
  ghost predicate Closed(g: Grid, visited: set<Position>, dist: map<Position, nat>)
    requires g.Valid()
  {
    forall v, d :: v in visited && g.Walkable(Step(v, d)) ==>
      v in dist && Step(v, d) in dist && dist[Step(v, d)] <= dist[v] + 1
  }

  /** Closedness while `cur` is being expanded: as `Closed`, except for
      the neighbours of `cur` in directions not yet in `done`. */
  ghost predicate ClosedExcept(g: Grid, visited: set<Position>, dist: map<Position, nat>,
                               cur: Position, done: set<Direction>)
    requires g.Valid()
  {
    forall v, d :: v in visited && (v != cur || d in done) && g.Walkable(Step(v, d)) ==>
      v in dist && Step(v, d) in dist && dist[Step(v, d)] <= dist[v] + 1
  }

  /** The invariant of the search loop. */
  ghost predicate SearchInvariant(g: Grid, start: Position, destinationType: int, q: seq<Entry>,
                                  visited: set<Position>, pushed: set<Position>,
                                  previous: map<Position, Position>, b: Book)
  {
    && Reached(g, start, pushed, previous, b.dist)
    && ParentsExpanded(visited, previous, b.dist)
    && QueueHolds(q, visited, b)
    && Levels(q, visited, b)
    && (q != [] ==> 0 < b.split)
    && NoneFound(g, destinationType, visited)
    && LocksRecorded(g, previous, q)
    && IceRespected(g, previous)
    && (start in visited || (q == [Entry(start, Free)] && pushed == {}))
    && (g.NoIce() ==> Closed(g, visited, b.dist))
  }

  /** The invariant while `cur` is being expanded, with the directions in
      `done` already tried. */
  ghost predicate ExpandInvariant(g: Grid, start: Position, destinationType: int, cur: Entry,
                                  done: set<Direction>, q: seq<Entry>,
                                  visited: set<Position>, pushed: set<Position>,
                                  previous: map<Position, Position>, b: Book)
  {
    && ExpandFrame(g, start, destinationType, cur, q, visited, pushed, previous, b)
    && ExpandLocks(g, cur, q, previous)
    && (g.NoIce() ==> ClosedExcept(g, visited, b.dist, cur.pos, done))
  }

  /** The part of `ExpandInvariant` about reached positions and levels. */
  ghost predicate ExpandFrame(g: Grid, start: Position, destinationType: int, cur: Entry,
                              q: seq<Entry>, visited: set<Position>, pushed: set<Position>,
                              previous: map<Position, Position>, b: Book)
  {
    && Reached(g, start, pushed, previous, b.dist)
    && ParentsExpanded(visited, previous, b.dist)
    && QueueHolds(q, visited, b)
    && cur.pos in visited && cur.pos in b.dist && b.dist[cur.pos] == b.base
    && Levels(q, visited, b)
    && NoneFound(g, destinationType, visited)
    && start in visited
  }

  /** The part of `ExpandInvariant` about ice locks. */
  ghost predicate ExpandLocks(g: Grid, cur: Entry, q: seq<Entry>, previous: map<Position, Position>)
    requires g.Valid()
  {
    && LocksRecorded(g, previous, q)
    && cur.lock == LockOf(g, previous, cur.pos)
    && IceRespected(g, previous)
  }

  /** In-bounds cells not yet expanded: the search's termination measure,
      since each round of the loop expands one more cell. */
  ghost function Unvisited(g: Grid, visited: set<Position>): nat
    requires g.Valid()
  {
    |g.AllCells() - visited|
  }

  lemma VisitDecreases(g: Grid, visited: set<Position>, p: Position)
    requires g.Valid() && g.InBounds(p) && p !in visited
    ensures Unvisited(g, visited + {p}) < Unvisited(g, visited)
  {
    assert g.AllCells() - (visited + {p}) == (g.AllCells() - visited) - {p};
    assert p in g.AllCells() - visited;
  }

  /** The bookkeeping once `cur` is fully expanded: when level `base` has
      run out, the queue now holds level `base + 1` only. */
  function Advance(b: Book, queued: nat): Book {
    if b.split > 0 then b else b.(base := b.base + 1, split := queued)
  }

  /** The bookkeeping after taking the front entry off the queue. */
  function Pop(b: Book): Book
    requires b.split > 0
  {
    b.(popped := b.popped + 1, split := b.split - 1)
  }

  /** The bookkeeping after queueing `next`, reached from `cur`. */
  function Push(b: Book, cur: Position, next: Position): Book
    requires cur in b.dist
  {
    b.(dist := b.dist[next := b.dist[cur] + 1], order := b.order[next := |b.history|],
       history := b.history + [next])
  }

  /** The bookkeeping when only the start is queued. */
  function InitialBook(start: Position): Book {
    Book(map[start := 0], map[start := 0], [start], 0, 0, 1)
  }

  // ---------------------------------------------------------------------
  // Starting, taking an entry off the queue, finishing an expansion

  lemma InitialInvariant(g: Grid, start: Position, destinationType: int)
    requires g.Valid() && g.InBounds(start)
    ensures SearchInvariant(g, start, destinationType, [Entry(start, Free)], {}, {}, map[], InitialBook(start))
  {
  }

  /** Taking the front entry off the queue, when it is not a destination,
      starts its expansion. */
  lemma PopKeeps(g: Grid, start: Position, destinationType: int, q: seq<Entry>,
                 visited: set<Position>, pushed: set<Position>,
                 previous: map<Position, Position>, b: Book)
    requires SearchInvariant(g, start, destinationType, q, visited, pushed, previous, b)
    requires q != [] && g.InBounds(q[0].pos) && g.At(q[0].pos) != destinationType
    ensures b.split > 0
    ensures ExpandInvariant(g, start, destinationType, q[0], {}, q[1..], visited + {q[0].pos},
                            pushed, previous, Pop(b))
  {
    var cur := q[0];
    PopQueue(q, visited, b);
    PopLevels(q, visited, b);
    if start !in visited {
      assert cur.pos == start;
    }
    if g.NoIce() {
      OpenClosed(g, visited, b.dist, cur.pos);
    }
  }

  lemma PopQueue(q: seq<Entry>, visited: set<Position>, b: Book)
    requires QueueHolds(q, visited, b) && q != [] && b.split > 0
    ensures QueueHolds(q[1..], visited + {q[0].pos}, Pop(b))
  {
    var q' := q[1..];
    var visited' := visited + {q[0].pos};
    var b' := Pop(b);
    forall i | 0 <= i < |q'|
      ensures q'[i].pos == b'.history[b'.popped + i]
      ensures q'[i].pos !in visited' && q'[i].pos in b'.dist
      ensures q'[i].pos in b'.order && b'.order[q'[i].pos] == b'.popped + i
    {
      assert q'[i] == q[i + 1];
      assert b.order[q[i + 1].pos] != b.order[q[0].pos];
    }
    forall p | p in b'.dist && p !in visited'
      ensures b'.popped <= b'.order[p]
    {
      assert b.history[b.popped] == q[0].pos;
    }
  }

  lemma PopLevels(q: seq<Entry>, visited: set<Position>, b: Book)
    requires QueueHolds(q, visited, b) && Levels(q, visited, b) && q != [] && b.split > 0
    ensures q[0].pos in b.dist && b.dist[q[0].pos] == b.base
    ensures Levels(q[1..], visited + {q[0].pos}, Pop(b))
  {
    assert q[0].pos in b.dist && q[0].pos !in visited;
  }

  lemma OpenClosed(g: Grid, visited: set<Position>, dist: map<Position, nat>, cur: Position)
    requires g.Valid() && Closed(g, visited, dist)
    ensures ClosedExcept(g, visited + {cur}, dist, cur, {})
  {
  }

  /** The four moves tried, in order, are all the directions. */
  lemma FourDirections()
    ensures {} + {Up} + {Right} + {Down} + {Left} == AllDirections
  {
  }

  lemma InAllDirections(d: Direction)
    ensures d in AllDirections
  {
  }

  /** Once all four directions have been tried, the loop invariant holds
      again, with the level boundary moved on when level `base` ran out. */
  lemma FinishKeeps(g: Grid, start: Position, destinationType: int, cur: Entry, q: seq<Entry>,
                    visited: set<Position>, pushed: set<Position>,
                    previous: map<Position, Position>, b: Book)
    requires ExpandInvariant(g, start, destinationType, cur, AllDirections, q, visited, pushed, previous, b)
    ensures SearchInvariant(g, start, destinationType, q, visited, pushed, previous, Advance(b, |q|))
  {
    FinishLevels(q, visited, b);
    if g.NoIce() {
      CloseAll(g, visited, b.dist, cur.pos);
    }
  }

  lemma FinishLevels(q: seq<Entry>, visited: set<Position>, b: Book)
    requires QueueHolds(q, visited, b) && Levels(q, visited, b)
    ensures QueueHolds(q, visited, Advance(b, |q|)) && Levels(q, visited, Advance(b, |q|))
    ensures q != [] ==> 0 < Advance(b, |q|).split
  {
  }

  lemma CloseAll(g: Grid, visited: set<Position>, dist: map<Position, nat>, cur: Position)
    requires g.Valid() && ClosedExcept(g, visited, dist, cur, AllDirections)
    ensures Closed(g, visited, dist)
  {
    forall v, d | v in visited && g.Walkable(Step(v, d))
      ensures v in dist && Step(v, d) in dist && dist[Step(v, d)] <= dist[v] + 1
    {
      InAllDirections(d);
    }
  }

  // ---------------------------------------------------------------------
  // One move: the guard for direction `d` and `pushNextPosition`.

  method TryMove(g: Grid, start: Position, destinationType: int, cur: Entry, d: Direction,
                 ghost done: set<Direction>, ghost bound: nat, q: seq<Entry>, visited: set<Position>,
                 pushed: set<Position>, previous: map<Position, Position>, ghost b: Book)
    returns (q': seq<Entry>, pushed': set<Position>, previous': map<Position, Position>, ghost b': Book)
    requires ExpandInvariant(g, start, destinationType, cur, done, q, visited, pushed, previous, b)
    requires ExpandOrder(g, cur.pos, bound, visited, previous, b) && bound <= Rank(d)
    ensures ExpandInvariant(g, start, destinationType, cur, done + {d}, q', visited, pushed', previous', b')
    ensures ExpandOrder(g, cur.pos, Rank(d) + 1, visited, previous', b')
    ensures b'.popped == b.popped && b'.base == b.base && b'.split == b.split
    // The neighbour is queued, once, exactly when the move is allowed and the
    // neighbour is new; it is queued with the ice lock of its cell.
    ensures var next := Step(cur.pos, d);
            if && CanLeave(g, cur.pos, d) && (cur.lock.Free? || cur.lock.dir == d)
               && g.At(next) != kRock && g.At(next) != kWall
               && next !in visited && next !in pushed
            then && q' == q + [Entry(next, if g.At(next) == kIce then Locked(d) else Free)]
                 && pushed' == pushed + {next} && previous' == previous[next := cur.pos]
            else q' == q && pushed' == pushed && previous' == previous
  {
    q', pushed', previous', b' := q, pushed, previous, b;
    var next := Step(cur.pos, d);
    if CanLeave(g, cur.pos, d) && (cur.lock.Free? || cur.lock.dir == d)
       && g.At(next) != kRock && g.At(next) != kWall
    {
      if next in visited || next in pushed {
        // Already visited or already pushed.
        SkipKeeps(g, start, destinationType, cur, d, done, q, visited, pushed, previous, b);
        return;
      }
      previous' := previous[next := cur.pos];
      // On ice, the direction goes on the queue with the position.
      var lock := if g.At(next) == kIce then Locked(d) else Free;
      var e := Entry(next, lock);
      q' := q + [e];
      pushed' := pushed + {next};
      b' := Push(b, cur.pos, next);
      PushKeeps(g, start, destinationType, cur, d, done, q, visited, pushed, previous, b, e);
      PushOrder(g, start, destinationType, cur, d, done, bound, q, visited, pushed, previous, b, next);
    } else {
      SkipKeeps(g, start, destinationType, cur, d, done, q, visited, pushed, previous, b);
    }
  }

  /** Trying a direction that pushes nothing keeps the invariant: without
      ice, a neighbour that is walkable and allowed has already been reached. */
  lemma SkipKeeps(g: Grid, start: Position, destinationType: int, cur: Entry, d: Direction,
                  done: set<Direction>, q: seq<Entry>, visited: set<Position>,
                  pushed: set<Position>, previous: map<Position, Position>, b: Book)
    requires ExpandInvariant(g, start, destinationType, cur, done, q, visited, pushed, previous, b)
    requires g.Walkable(Step(cur.pos, d)) && CanLeave(g, cur.pos, d) && (cur.lock.Free? || cur.lock.dir == d)
             ==> Step(cur.pos, d) in visited || Step(cur.pos, d) in pushed
    ensures ExpandInvariant(g, start, destinationType, cur, done + {d}, q, visited, pushed, previous, b)
  {
    if g.NoIce() {
      SkipClosed(g, start, cur, d, done, q, visited, pushed, previous, b);
    }
  }

  lemma SkipClosed(g: Grid, start: Position, cur: Entry, d: Direction,
                   done: set<Direction>, q: seq<Entry>, visited: set<Position>,
                   pushed: set<Position>, previous: map<Position, Position>, b: Book)
    requires Reached(g, start, pushed, previous, b.dist) && g.NoIce()
    requires QueueHolds(q, visited, b) && Levels(q, visited, b)
    requires cur.pos in visited && cur.pos in b.dist && b.dist[cur.pos] == b.base
    requires g.InBounds(cur.pos) && cur.lock == LockOf(g, previous, cur.pos)
    requires ClosedExcept(g, visited, b.dist, cur.pos, done)
    requires g.Walkable(Step(cur.pos, d)) && CanLeave(g, cur.pos, d) && (cur.lock.Free? || cur.lock.dir == d)
             ==> Step(cur.pos, d) in visited || Step(cur.pos, d) in pushed
    ensures ClosedExcept(g, visited, b.dist, cur.pos, done + {d})
  {
    var next := Step(cur.pos, d);
    if g.Walkable(next) {
      assert g.At(cur.pos) != kIce;
      CanLeaveInBounds(g, cur.pos, d);
      assert next in b.dist;
    }
  }

  /** Pushing the neighbour of `cur` in direction `d` keeps the invariant. */
  lemma PushKeeps(g: Grid, start: Position, destinationType: int, cur: Entry, d: Direction,
                  done: set<Direction>, q: seq<Entry>, visited: set<Position>,
                  pushed: set<Position>, previous: map<Position, Position>, b: Book, e: Entry)
    requires ExpandInvariant(g, start, destinationType, cur, done, q, visited, pushed, previous, b)
    requires cur.lock.Free? || cur.lock.dir == d
    requires e.pos == Step(cur.pos, d) && g.Walkable(e.pos)
    requires e.lock == if g.At(e.pos) == kIce then Locked(d) else Free
    requires e.pos !in visited && e.pos !in pushed
    ensures ExpandInvariant(g, start, destinationType, cur, done + {d}, q + [e], visited,
                            pushed + {e.pos}, previous[e.pos := cur.pos], Push(b, cur.pos, e.pos))
  {
    PushFrame(g, start, destinationType, cur, d, q, visited, pushed, previous, b, e);
    PushLocks(g, cur, d, q, previous, b.dist, e);
    PushIce(g, cur, d, visited, previous, b.dist, e.pos);
    if g.NoIce() {
      PushClosed(g, visited, b.dist, cur.pos, done, d);
    }
  }

  /** Pushing keeps the reached-positions part of the invariant. */
  lemma PushFrame(g: Grid, start: Position, destinationType: int, cur: Entry, d: Direction,
                  q: seq<Entry>, visited: set<Position>, pushed: set<Position>,
                  previous: map<Position, Position>, b: Book, e: Entry)
    requires ExpandFrame(g, start, destinationType, cur, q, visited, pushed, previous, b)
    requires e.pos == Step(cur.pos, d) && g.Walkable(e.pos)
    requires e.pos !in visited && e.pos !in pushed
    ensures ExpandFrame(g, start, destinationType, cur, q + [e], visited, pushed + {e.pos},
                        previous[e.pos := cur.pos], Push(b, cur.pos, e.pos))
  {
    assert e.pos !in b.dist;
    PushReached(g, start, pushed, previous, b, e.pos, cur.pos);
    PushParents(visited, previous, b, e.pos, cur.pos);
    PushQueue(q, visited, b, cur.pos, e);
    PushLevels(q, visited, b, cur.pos, e);
  }

  lemma PushReached(g: Grid, start: Position, pushed: set<Position>, previous: map<Position, Position>,
                    b: Book, next: Position, parent: Position)
    requires Reached(g, start, pushed, previous, b.dist) && parent in b.dist
    requires g.Walkable(next) && next !in b.dist
    ensures Reached(g, start, pushed + {next}, previous[next := parent], Push(b, parent, next).dist)
  {
  }

  lemma PushParents(visited: set<Position>, previous: map<Position, Position>, b: Book,
                    next: Position, parent: Position)
    requires ParentsExpanded(visited, previous, b.dist)
    requires parent in visited && parent in b.dist && Adjacent(parent, next) && next !in b.dist && next !in previous
    ensures ParentsExpanded(visited, previous[next := parent], Push(b, parent, next).dist)
  {
  }

  lemma PushQueue(q: seq<Entry>, visited: set<Position>, b: Book, cur: Position, e: Entry)
    requires QueueHolds(q, visited, b) && cur in b.dist
    requires e.pos !in b.dist && e.pos !in visited
    ensures QueueHolds(q + [e], visited, Push(b, cur, e.pos))
  {
    var q' := q + [e];
    var b' := Push(b, cur, e.pos);
    forall i | 0 <= i < |q'|
      ensures q'[i].pos == b'.history[b'.popped + i]
      ensures q'[i].pos !in visited && q'[i].pos in b'.dist
      ensures q'[i].pos in b'.order && b'.order[q'[i].pos] == b'.popped + i
    {
      if i < |q| {
        assert q'[i] == q[i];
      }
    }
    forall p | p in b'.dist
      ensures p in b'.order && b'.order[p] < |b'.history| && b'.history[b'.order[p]] == p
    {
    }
  }

  lemma PushLevels(q: seq<Entry>, visited: set<Position>, b: Book, cur: Position, e: Entry)
    requires QueueHolds(q, visited, b) && Levels(q, visited, b)
    requires cur in b.dist && b.dist[cur] == b.base && e.pos !in b.dist && e.pos !in visited
    ensures Levels(q + [e], visited, Push(b, cur, e.pos))
  {
  }

  /** Pushing keeps the recorded locks: the new entry is locked exactly
      when it is ice, in the direction it was entered. */
  lemma PushLocks(g: Grid, cur: Entry, d: Direction, q: seq<Entry>,
                  previous: map<Position, Position>, dist: map<Position, nat>, e: Entry)
    requires g.Valid() && LocksRecorded(g, previous, q) && cur.lock == LockOf(g, previous, cur.pos)
    requires forall i :: 0 <= i < |q| ==> q[i].pos in dist
    requires cur.pos in dist
    requires e.pos == Step(cur.pos, d) && g.InBounds(e.pos) && e.pos !in dist
    requires e.lock == if g.At(e.pos) == kIce then Locked(d) else Free
    ensures LocksRecorded(g, previous[e.pos := cur.pos], q + [e])
    ensures cur.lock == LockOf(g, previous[e.pos := cur.pos], cur.pos)
  {
    var previous' := previous[e.pos := cur.pos];
    forall i | 0 <= i < |q + [e]|
      ensures (q + [e])[i].lock == LockOf(g, previous', (q + [e])[i].pos)
    {
      if i < |q| {
        assert (q + [e])[i] == q[i];
      }
    }
  }

  lemma PushIce(g: Grid, cur: Entry, d: Direction, visited: set<Position>,
                previous: map<Position, Position>, dist: map<Position, nat>, next: Position)
    requires g.Valid() && IceRespected(g, previous) && ParentsExpanded(visited, previous, dist)
    requires cur.lock == LockOf(g, previous, cur.pos) && (cur.lock.Free? || cur.lock.dir == d)
    requires cur.pos in visited && next == Step(cur.pos, d) && next !in visited && next !in previous
    ensures IceRespected(g, previous[next := cur.pos])
  {
    var previous' := previous[next := cur.pos];
    forall c | c in previous'
      ensures LockOf(g, previous', previous'[c]) == LockOf(g, previous, previous'[c])
    {
    }
  }

  lemma PushClosed(g: Grid, visited: set<Position>, dist: map<Position, nat>, cur: Position,
                   done: set<Direction>, d: Direction)
    requires g.Valid() && ClosedExcept(g, visited, dist, cur, done)
    requires cur in visited && cur in dist && Step(cur, d) !in dist
    ensures ClosedExcept(g, visited, dist[Step(cur, d) := dist[cur] + 1], cur, done + {d})
  {
  }

  // ---------------------------------------------------------------------
  // The order of the search: up, right, down, left

  /** Of two pushed positions, the one queued first has a parent expanded
      earlier, or the same parent and a move of lower rank. */
  ghost predicate ParentOrder(previous: map<Position, Position>, order: map<Position, nat>) {
    forall c, c' {:trigger QueuedInOrder(previous, order, c, c')} :: QueuedInOrder(previous, order, c, c')
  }

  /** `ParentOrder` for one pair of positions. */
  ghost predicate QueuedInOrder(previous: map<Position, Position>, order: map<Position, nat>, c: Position, c': Position) {
    c in previous && c' in previous && c in order && c' in order && order[c] < order[c'] ==>
      || (previous[c] == previous[c'] && StepRank(previous[c], c) < StepRank(previous[c'], c'))
      || (previous[c] in order && previous[c'] in order && order[previous[c]] < order[previous[c']])
  }

  /** Without ice, a pushed position was pushed by the first of its
      neighbours to be expanded. */
  ghost predicate ParentEarliest(visited: set<Position>, previous: map<Position, Position>, order: map<Position, nat>) {
    forall z, e :: z in visited && Step(z, e) in previous ==>
      z in order && previous[Step(z, e)] in order && order[previous[Step(z, e)]] <= order[z]
  }

  /** The second invariant of the search loop: the order in which
      positions were pushed, and without ice who pushed them. */
  ghost predicate SearchOrder(g: Grid, visited: set<Position>, previous: map<Position, Position>, b: Book) {
    && g.Valid()
    && ParentOrder(previous, b.order)
    && (g.NoIce() ==> ParentEarliest(visited, previous, b.order))
  }

  /** `SearchOrder` while `cur`, the entry taken off the queue last, is
      expanded: the neighbours it pushed so far lie in directions of rank
      below `bound`. */
  ghost predicate ExpandOrder(g: Grid, cur: Position, bound: nat, visited: set<Position>,
                              previous: map<Position, Position>, b: Book)
  {
    && SearchOrder(g, visited, previous, b)
    && cur in b.order && b.order[cur] + 1 == b.popped
    && (forall c {:trigger previous[c]} :: c in previous && previous[c] == cur ==> StepRank(cur, c) < bound)
  }

  lemma PopOrder(g: Grid, start: Position, destinationType: int, q: seq<Entry>,
                 visited: set<Position>, pushed: set<Position>,
                 previous: map<Position, Position>, b: Book)
    requires SearchInvariant(g, start, destinationType, q, visited, pushed, previous, b)
    requires SearchOrder(g, visited, previous, b)
    requires q != [] && b.split > 0
    ensures ExpandOrder(g, q[0].pos, 0, visited + {q[0].pos}, previous, Pop(b))
  {
    assert q[0].pos !in visited && b.order[q[0].pos] == b.popped;
    QueuePlaces(q, visited, b);
  }

  lemma FinishOrder(g: Grid, cur: Position, visited: set<Position>, previous: map<Position, Position>,
                    b: Book, queued: nat)
    requires ExpandOrder(g, cur, Rank(Left) + 1, visited, previous, b)
    ensures SearchOrder(g, visited, previous, Advance(b, queued))
  {
  }

  /** Two reached positions have different places in the history. */
  lemma DistinctPlaces(visited: set<Position>, b: Book, p: Position, p': Position)
    requires HistoryPlaces(visited, b) && p in b.dist && p' in b.dist && p != p'
    ensures b.order[p] != b.order[p']
  {
    assert b.history[b.order[p]] == p && b.history[b.order[p']] == p';
  }

  /** Pushing the neighbour of `cur` in direction `d` keeps the order. */
  lemma PushOrder(g: Grid, start: Position, destinationType: int, cur: Entry, d: Direction,
                  done: set<Direction>, bound: nat, q: seq<Entry>, visited: set<Position>,
                  pushed: set<Position>, previous: map<Position, Position>, b: Book, x: Position)
    requires ExpandInvariant(g, start, destinationType, cur, done, q, visited, pushed, previous, b)
    requires ExpandOrder(g, cur.pos, bound, visited, previous, b) && bound <= Rank(d)
    requires x == Step(cur.pos, d) && g.Walkable(x) && x !in visited && x !in pushed
    ensures ExpandOrder(g, cur.pos, Rank(d) + 1, visited, previous[x := cur.pos], Push(b, cur.pos, x))
  {
    assert x !in b.dist;
    StepRankOfStep(cur.pos, d);
    QueuePlaces(q, visited, b);
    PushParentOrder(visited, previous, b, cur.pos, x);
    if g.NoIce() {
      PushEarliest(g, visited, previous, b, cur.pos, done, x);
    }
  }

  /** What the order proofs need of `QueueHolds`: every reached position
      has its own place in the history, and the expanded ones come before
      the queued ones. */
  ghost predicate HistoryPlaces(visited: set<Position>, b: Book) {
    && (forall p {:trigger p in b.dist} :: p in b.dist ==>
          p in b.order && b.order[p] < |b.history| && b.history[b.order[p]] == p)
    && (forall v :: v in visited && v in b.dist ==> b.order[v] < b.popped)
  }

  lemma QueuePlaces(q: seq<Entry>, visited: set<Position>, b: Book)
    requires QueueHolds(q, visited, b)
    ensures HistoryPlaces(visited, b)
  {
    forall v | v in visited && v in b.dist
      ensures b.order[v] < b.popped
    {
      var queued := QueuedAt(q, b.order[v] - b.popped, v);
    }
  }

  /** The position at place `i` of the queue, or `v` when there is none. */
  function QueuedAt(q: seq<Entry>, i: int, v: Position): Position {
    if 0 <= i < |q| then q[i].pos else v
  }

  /** The parent of a pushed position is `cur` or was expanded before it. */
  lemma ParentBefore(visited: set<Position>, previous: map<Position, Position>, b: Book,
                     cur: Position, c: Position)
    requires HistoryPlaces(visited, b) && ParentsExpanded(visited, previous, b.dist)
    requires cur in visited && cur in b.dist && cur in b.order && b.order[cur] + 1 == b.popped
    requires c in previous
    ensures previous[c] in b.order && (previous[c] == cur || b.order[previous[c]] < b.order[cur])
  {
    if previous[c] != cur {
      DistinctPlaces(visited, b, previous[c], cur);
    }
  }

  lemma PushParentOrder(visited: set<Position>, previous: map<Position, Position>, b: Book,
                        cur: Position, x: Position)
    requires ParentOrder(previous, b.order)
    requires HistoryPlaces(visited, b) && ParentsExpanded(visited, previous, b.dist)
    requires cur in visited && cur in b.dist && cur in b.order && b.order[cur] + 1 == b.popped
    requires forall c {:trigger previous[c]} :: c in previous && previous[c] == cur ==> StepRank(cur, c) < StepRank(cur, x)
    requires x !in b.dist
    ensures ParentOrder(previous[x := cur], Push(b, cur, x).order)
  {
    var previous' := previous[x := cur];
    var order' := Push(b, cur, x).order;
    forall c, c'
      ensures QueuedInOrder(previous', order', c, c')
    {
      if c in previous' && c' in previous' && c in order' && c' in order' && order'[c] < order'[c'] {
        if c' == x {
          ParentBefore(visited, previous, b, cur, c);
        } else {
          assert c != x && c' in b.dist && QueuedInOrder(previous, b.order, c, c');
        }
      }
    }
  }

  /** Without ice, `x` is pushed by `cur` only when no neighbour expanded
      before `cur` could have pushed it. */
  lemma PushEarliest(g: Grid, visited: set<Position>, previous: map<Position, Position>, b: Book,
                     cur: Position, done: set<Direction>, x: Position)
    requires g.Valid() && g.NoIce() && ParentEarliest(visited, previous, b.order)
    requires ClosedExcept(g, visited, b.dist, cur, done) && HistoryPlaces(visited, b)
    requires ParentsExpanded(visited, previous, b.dist)
    requires cur in visited && cur in b.dist && cur in b.order && g.Walkable(x) && x !in b.dist && x !in visited
    ensures ParentEarliest(visited, previous[x := cur], Push(b, cur, x).order)
  {
    var previous' := previous[x := cur];
    var order' := Push(b, cur, x).order;
    forall z, e | z in visited && Step(z, e) in previous'
      ensures z in order' && previous'[Step(z, e)] in order' && order'[previous'[Step(z, e)]] <= order'[z]
    {
      if Step(z, e) == x {
        assert z == cur;
      }
    }
  }

  // ---------------------------------------------------------------------
  // From the invariant to the result

  /** What a non-empty sub-path is: a route from `start` (which it leaves
      out) that arrives at a `destinationType` cell and meets none before,
      and that slides straight on over every ice cell. */
  ghost predicate SubpathFound(g: Grid, start: Position, destinationType: int, r: seq<Position>)
    requires g.Valid()
  {
    && IsRoute(g, start, r)
    && ArrivesFirst(g, destinationType, r)
    && start !in r
    && IceSlides(g, start, r)
  }

  /** The walk back along `previous` that the search reconstructs: it
      starts at `found`, each cell is the `previous` of the one before, and
      the cells lie one level apart. */
  ghost predicate ChainFrom(previous: map<Position, Position>, dist: map<Position, nat>,
                            found: Position, chain: seq<Position>)
  {
    && |chain| > 0 && chain[0] == found && found in dist
    && (forall j :: 0 <= j < |chain| - 1 ==> chain[j] in previous && previous[chain[j]] == chain[j + 1])
    && (forall j :: 0 <= j < |chain| ==> chain[j] in dist && dist[chain[j]] + j == dist[found])
  }

  /** One more step back along `previous` keeps the chain. */
  lemma ChainGrows(visited: set<Position>, previous: map<Position, Position>, dist: map<Position, nat>,
                   found: Position, chain: seq<Position>)
    requires ParentsExpanded(visited, previous, dist) && ChainFrom(previous, dist, found, chain)
    requires chain[|chain| - 1] in previous
    ensures ChainFrom(previous, dist, found, chain + [previous[chain[|chain| - 1]]])
    ensures dist[previous[chain[|chain| - 1]]] < dist[chain[|chain| - 1]]
  {
    var chain' := chain + [previous[chain[|chain| - 1]]];
    forall j | 0 <= j < |chain'| - 1
      ensures chain'[j] in previous && previous[chain'[j]] == chain'[j + 1]
    {
      assert chain'[j] == chain[j];
    }
    forall j | 0 <= j < |chain'|
      ensures chain'[j] in dist && dist[chain'[j]] + j == dist[found]
    {
      if j < |chain| {
        assert chain'[j] == chain[j];
      }
    }
  }

  /** The front entry holds the destination type: the chain back from it
      ends at the start, and without its last cell and reversed it is a
      sub-path, empty exactly when the start itself was found. */
  lemma FoundResult(g: Grid, start: Position, destinationType: int, q: seq<Entry>,
                    visited: set<Position>, pushed: set<Position>,
                    previous: map<Position, Position>, b: Book, chain: seq<Position>)
    requires SearchInvariant(g, start, destinationType, q, visited, pushed, previous, b)
    requires q != [] && g.InBounds(q[0].pos) && g.At(q[0].pos) == destinationType
    requires ChainFrom(previous, b.dist, q[0].pos, chain) && chain[|chain| - 1] !in previous
    ensures chain[|chain| - 1] == start
    ensures Reverse(chain[..|chain| - 1]) == [] <==> g.At(start) == destinationType
    ensures Reverse(chain[..|chain| - 1]) != [] ==>
              SubpathFound(g, start, destinationType, Reverse(chain[..|chain| - 1]))
    ensures |chain| - 1 == b.base
  {
    var n := |chain|;
    var r := Reverse(chain[..n - 1]);
    assert q[0].pos in b.dist && q[0].pos !in visited;
    assert chain[n - 1] == start;
    if start in visited {
      assert g.At(start) != destinationType;
      assert q[0].pos != start;
    }
    ReverseOfPopped(chain);
    if n > 1 {
      ChainRoute(g, start, visited, pushed, previous, b.dist, q[0].pos, chain, r);
      ChainArrives(g, start, destinationType, visited, pushed, previous, b.dist, q[0].pos, chain, r);
      ChainSlides(g, start, visited, pushed, previous, b.dist, q[0].pos, chain, r);
    }
  }

  /** `r` is the chain without its last cell (`pop_back`), reversed. */
  ghost predicate PoppedReversed(chain: seq<Position>, r: seq<Position>) {
    && |chain| == |r| + 1
    && forall j :: 0 <= j < |r| ==> r[j] == chain[|r| - 1 - j]
  }

  lemma ReverseOfPopped(chain: seq<Position>)
    requires |chain| > 0
    ensures PoppedReversed(chain, Reverse(chain[..|chain| - 1]))
  {
  }

  lemma ChainRoute(g: Grid, start: Position, visited: set<Position>, pushed: set<Position>,
                   previous: map<Position, Position>, dist: map<Position, nat>,
                   found: Position, chain: seq<Position>, r: seq<Position>)
    requires Reached(g, start, pushed, previous, dist) && ParentsExpanded(visited, previous, dist)
    requires ChainFrom(previous, dist, found, chain) && chain[|chain| - 1] == start
    requires PoppedReversed(chain, r) && r != []
    ensures IsRoute(g, start, r) && start !in r
  {
    ChainSteps(visited, previous, dist, found, chain, r);
    ChainCells(g, start, pushed, previous, dist, found, chain, r);
  }

  lemma ChainSteps(visited: set<Position>, previous: map<Position, Position>, dist: map<Position, nat>,
                   found: Position, chain: seq<Position>, r: seq<Position>)
    requires ParentsExpanded(visited, previous, dist)
    requires ChainFrom(previous, dist, found, chain) && PoppedReversed(chain, r) && r != []
    ensures Adjacent(chain[|chain| - 1], r[0])
    ensures forall j :: 0 < j < |r| ==> Adjacent(r[j - 1], r[j])
  {
    var n := |r|;
    assert r[0] == chain[n - 1];
    forall j | 0 < j < n
      ensures Adjacent(r[j - 1], r[j])
    {
      assert r[j - 1] == chain[n - j] && r[j] == chain[n - 1 - j];
    }
  }

  lemma ChainCells(g: Grid, start: Position, pushed: set<Position>,
                   previous: map<Position, Position>, dist: map<Position, nat>,
                   found: Position, chain: seq<Position>, r: seq<Position>)
    requires Reached(g, start, pushed, previous, dist)
    requires ChainFrom(previous, dist, found, chain) && PoppedReversed(chain, r)
    ensures forall j :: 0 <= j < |r| ==> g.Walkable(r[j]) && r[j] != start
  {
    var n := |r|;
    forall j | 0 <= j < n
      ensures g.Walkable(r[j]) && r[j] != start
    {
      assert r[j] == chain[n - 1 - j] && chain[n - 1 - j] in pushed;
    }
  }

  lemma ChainArrives(g: Grid, start: Position, destinationType: int, visited: set<Position>,
                     pushed: set<Position>, previous: map<Position, Position>, dist: map<Position, nat>,
                     found: Position, chain: seq<Position>, r: seq<Position>)
    requires Reached(g, start, pushed, previous, dist) && ParentsExpanded(visited, previous, dist)
    requires NoneFound(g, destinationType, visited)
    requires ChainFrom(previous, dist, found, chain)
    requires g.InBounds(found) && g.At(found) == destinationType
    requires PoppedReversed(chain, r) && IsRoute(g, start, r)
    ensures ArrivesFirst(g, destinationType, r)
  {
    var n := |r|;
    assert r[n - 1] == chain[0];
    forall j | 0 <= j < n - 1
      ensures g.At(r[j]) != destinationType
    {
      assert r[j] == chain[n - 1 - j] == previous[chain[n - 2 - j]];
    }
  }

  /** Moving twice in the same direction goes on in a straight line. */
  lemma StraightLine(p: Position, d: Direction)
    ensures Continues(p, Step(p, d), Step(Step(p, d), d))
  {
  }

  lemma ChainSlides(g: Grid, start: Position, visited: set<Position>, pushed: set<Position>,
                    previous: map<Position, Position>, dist: map<Position, nat>,
                    found: Position, chain: seq<Position>, r: seq<Position>)
    requires Reached(g, start, pushed, previous, dist) && ParentsExpanded(visited, previous, dist)
    requires IceRespected(g, previous)
    requires ChainFrom(previous, dist, found, chain) && chain[|chain| - 1] == start
    requires PoppedReversed(chain, r) && IsRoute(g, start, r)
    ensures IceSlides(g, start, r)
  {
    var n := |r|;
    forall i | 0 <= i < n - 1 && g.At(r[i]) == kIce
      ensures Continues(Before(start, r, i), r[i], r[i + 1])
    {
      var j := n - 1 - i;
      assert r[i] == chain[j] && r[i + 1] == chain[j - 1];
      assert Before(start, r, i) == chain[j + 1];
      var c := chain[j - 1];
      assert previous[c] == chain[j] && previous[chain[j]] == chain[j + 1];
      var dir := DirectionOf(chain[j + 1], chain[j]);
      assert LockOf(g, previous, previous[c]) == Locked(dir);
      StraightLine(chain[j + 1], dir);
    }
  }

  /** Without ice, a route from an expanded start to a cell of the
      destination type leaves the expanded cells at some index `k`, at a
      cell already reached at most `k + 1` moves from the start. */
  lemma {:induction false} Frontier(g: Grid, start: Position, visited: set<Position>,
                                    dist: map<Position, nat>, rt: seq<Position>, j: nat)
    requires g.Valid() && Closed(g, visited, dist) && IsRoute(g, start, rt)
    requires j < |rt| && rt[|rt| - 1] !in visited
    requires Before(start, rt, j) in visited && Before(start, rt, j) in dist
    requires dist[Before(start, rt, j)] <= j
    ensures exists k :: j <= k < |rt| && rt[k] in dist && rt[k] !in visited && dist[rt[k]] <= k + 1
    decreases |rt| - j
  {
    var v := Before(start, rt, j);
    var d := DirectionOf(v, rt[j]);
    assert g.Walkable(Step(v, d));
    if rt[j] in visited {
      assert j + 1 < |rt|;
      Frontier(g, start, visited, dist, rt, j + 1);
    }
  }

  /** Without ice, no route to the destination type is shorter than the
      level being expanded; once the queue has drained, there is none. */
  lemma RouteLowerBound(g: Grid, start: Position, destinationType: int, q: seq<Entry>,
                        visited: set<Position>, pushed: set<Position>,
                        previous: map<Position, Position>, b: Book, rt: seq<Position>)
    requires SearchInvariant(g, start, destinationType, q, visited, pushed, previous, b)
    requires g.NoIce() && start in visited && Reaches(g, destinationType, start, rt)
    ensures q != [] && b.base <= |rt|
  {
    assert rt[|rt| - 1] !in visited;
    Frontier(g, start, visited, b.dist, rt, 0);
    var k :| 0 <= k < |rt| && rt[k] in b.dist && rt[k] !in visited && b.dist[rt[k]] <= k + 1;
    assert b.popped <= b.order[rt[k]] < |b.history|;
  }

  // ---------------------------------------------------------------------
  // The search's contract

  /** What `calculateShortestSubpath` promises about its result `r`: empty
      when the start already holds the destination type; otherwise, when
      not empty, a sub-path; and on grids without ice, a shortest one,
      preferred (up, right, down, left) over every other shortest one, and
      empty only when no route reaches the destination type. */
  ghost predicate SubpathOutcome(g: Grid, start: Position, destinationType: int, r: seq<Position>)
    requires g.Valid() && g.InBounds(start)
  {
    && (g.At(start) == destinationType ==> r == [])
    && (r != [] ==> SubpathFound(g, start, destinationType, r))
    && (g.NoIce() && r != [] ==> forall rt :: Reaches(g, destinationType, start, rt) ==> |r| <= |rt|)
    && (g.NoIce() && r == [] && g.At(start) != destinationType ==>
          forall rt :: !Reaches(g, destinationType, start, rt))
    && (g.NoIce() && r != [] ==>
          forall rt :: Reaches(g, destinationType, start, rt) && |rt| == |r| && rt != r ==>
            Preferred(start, r, rt))
  }

  /** The front entry of the queue lies on the grid and has not been expanded. */
  lemma FrontInBounds(g: Grid, start: Position, destinationType: int, q: seq<Entry>,
                      visited: set<Position>, pushed: set<Position>,
                      previous: map<Position, Position>, b: Book)
    requires SearchInvariant(g, start, destinationType, q, visited, pushed, previous, b) && q != []
    ensures g.InBounds(q[0].pos) && q[0].pos !in visited
    ensures ChainFrom(previous, b.dist, q[0].pos, [q[0].pos])
  {
    assert q[0].pos in b.dist;
  }

  /** The result built from the chain back from a found front entry
      keeps the search's contract. */
  lemma FoundOutcome(g: Grid, start: Position, destinationType: int, q: seq<Entry>,
                     visited: set<Position>, pushed: set<Position>,
                     previous: map<Position, Position>, b: Book, chain: seq<Position>)
    requires SearchInvariant(g, start, destinationType, q, visited, pushed, previous, b)
    requires SearchOrder(g, visited, previous, b)
    requires q != [] && g.InBounds(q[0].pos) && g.At(q[0].pos) == destinationType
    requires ChainFrom(previous, b.dist, q[0].pos, chain) && chain[|chain| - 1] !in previous
    ensures SubpathOutcome(g, start, destinationType, Reverse(chain[..|chain| - 1]))
  {
    FoundResult(g, start, destinationType, q, visited, pushed, previous, b, chain);
    var r := Reverse(chain[..|chain| - 1]);
    if g.NoIce() && r != [] {
      assert start in visited;
      forall rt | Reaches(g, destinationType, start, rt)
        ensures |r| <= |rt|
      {
        RouteLowerBound(g, start, destinationType, q, visited, pushed, previous, b, rt);
      }
      ReverseOfPopped(chain);
      ChainRouteBack(previous, b.dist, q[0].pos, chain, r, 0);
      assert r[..|r|] == r;
      forall rt | Reaches(g, destinationType, start, rt) && |rt| == |r| && rt != r
        ensures Preferred(start, r, rt)
      {
        FoundPreferred(g, start, destinationType, q, visited, pushed, previous, b, rt);
      }
    }
  }

  /** The route by which the search reached `p`: `n` moves back along
      `previous`, then forward again. */
  ghost function RouteBack(previous: map<Position, Position>, p: Position, n: nat): seq<Position>
    decreases n
  {
    if n == 0 || p !in previous then [] else RouteBack(previous, previous[p], n - 1) + [p]
  }

  /** What the route proofs need of `Reached` and `ParentsExpanded`: the
      reached positions other than `start` have a parent one level up. */
  ghost predicate ParentTree(start: Position, previous: map<Position, Position>, dist: map<Position, nat>) {
    && start in dist && dist[start] == 0 && start !in previous
    && (forall p {:trigger p in dist} :: p in dist ==> p == start || p in previous)
    && (forall c {:trigger previous[c]} :: c in previous ==>
          c in dist && previous[c] in dist && dist[c] == dist[previous[c]] + 1)
  }

  lemma ParentTreeOf(g: Grid, start: Position, visited: set<Position>, pushed: set<Position>,
                     previous: map<Position, Position>, dist: map<Position, nat>)
    requires Reached(g, start, pushed, previous, dist) && ParentsExpanded(visited, previous, dist)
    ensures ParentTree(start, previous, dist)
  {
  }

  lemma RouteBackStep(previous: map<Position, Position>, p: Position, n: nat)
    requires p in previous && 0 < n
    ensures RouteBack(previous, p, n) == RouteBack(previous, previous[p], n - 1) + [p]
  {
  }

  /** The route rebuilt along `previous` is as long as the level of its
      end, and ends there. */
  lemma {:induction false} RouteBackShape(start: Position, previous: map<Position, Position>,
                                          dist: map<Position, nat>, p: Position)
    requires ParentTree(start, previous, dist) && p in dist
    ensures |RouteBack(previous, p, dist[p])| == dist[p]
    ensures Ending(start, RouteBack(previous, p, dist[p])) == p
    decreases dist[p]
  {
    if p != start {
      RouteBackShape(start, previous, dist, previous[p]);
    }
  }

  /** The path the search rebuilds from a found cell is the route by which
      the search reached it: by induction back along the chain. */
  lemma {:induction false} ChainRouteBack(previous: map<Position, Position>, dist: map<Position, nat>,
                                          found: Position, chain: seq<Position>, r: seq<Position>, j: nat)
    requires ChainFrom(previous, dist, found, chain) && chain[|chain| - 1] !in previous
    requires PoppedReversed(chain, r) && j < |chain|
    ensures RouteBack(previous, chain[j], |chain| - 1 - j) == r[..|r| - j]
    decreases |chain| - j
  {
    if j < |chain| - 1 {
      ChainRouteBack(previous, dist, found, chain, r, j + 1);
      assert r[|r| - j - 1] == chain[j];
      assert r[..|r| - j] == r[..|r| - j - 1] + [r[|r| - j - 1]];
    }
  }

  /** Of two positions reached at the same level, the one queued first was
      reached by the preferred route. */
  lemma {:induction false} OrderedRoutes(start: Position, previous: map<Position, Position>, b: Book,
                                         u: Position, w: Position)
    requires ParentTree(start, previous, b.dist) && ParentOrder(previous, b.order)
    requires forall p {:trigger p in b.dist} :: p in b.dist ==> p in b.order
    requires u in b.dist && w in b.dist && b.dist[u] == b.dist[w] && b.order[u] < b.order[w]
    ensures Preferred(start, RouteBack(previous, u, b.dist[u]), RouteBack(previous, w, b.dist[w]))
    decreases b.dist[u]
  {
    var n := b.dist[u];
    assert u in previous && w in previous;
    var pu, pw := previous[u], previous[w];
    assert QueuedInOrder(previous, b.order, u, w);
    RouteBackStep(previous, u, n);
    RouteBackStep(previous, w, n);
    if pu == pw && StepRank(pu, u) < StepRank(pw, w) {
      SiblingRoutes(start, previous, b.dist, pu, u, w);
    } else {
      OrderedRoutes(start, previous, b, pu, pw);
      PreferredExtend(start, RouteBack(previous, pu, n - 1), RouteBack(previous, pw, n - 1), u, w);
    }
  }

  /** Two positions pushed by the same parent: the one in the earlier
      direction has the preferred route. */
  lemma SiblingRoutes(start: Position, previous: map<Position, Position>, dist: map<Position, nat>,
                      pu: Position, u: Position, w: Position)
    requires ParentTree(start, previous, dist) && pu in dist
    requires u in previous && w in previous && previous[u] == pu == previous[w]
    requires StepRank(pu, u) < StepRank(pu, w)
    ensures var route := RouteBack(previous, pu, dist[pu]);
            Preferred(start, route + [u], route + [w])
  {
    RouteBackShape(start, previous, dist, pu);
    PreferredLastMove(start, RouteBack(previous, pu, dist[pu]), u, w);
  }

  /** Without ice, every route of at most `base` moves from an expanded
      start runs over expanded cells, each reached no later than the
      route reaches it. */
  lemma {:induction false} ShortRouteVisited(g: Grid, start: Position, q: seq<Entry>, visited: set<Position>,
                                             b: Book, rt: seq<Position>, i: nat)
    requires g.Valid() && g.NoIce() && Closed(g, visited, b.dist)
    requires QueueHolds(q, visited, b) && Levels(q, visited, b)
    requires start in visited && start in b.dist && b.dist[start] == 0
    requires IsRoute(g, start, rt) && i < |rt| && i + 1 < b.base
    ensures rt[i] in visited && rt[i] in b.dist && b.dist[rt[i]] <= i + 1
    decreases i
  {
    if i > 0 {
      ShortRouteVisited(g, start, q, visited, b, rt, i - 1);
    }
    var v := Before(start, rt, i);
    assert g.Walkable(Step(v, DirectionOf(v, rt[i])));
  }

  /** Without ice, the route by which the search reached `p` is preferred
      over every other route as long to `p`, as long as `p` lies no deeper
      than the level being expanded. */
  lemma {:induction false} LeastRouteBack(g: Grid, start: Position, q: seq<Entry>, visited: set<Position>,
                                          previous: map<Position, Position>, b: Book, p: Position, rt: seq<Position>)
    requires g.Valid() && g.NoIce() && Closed(g, visited, b.dist)
    requires QueueHolds(q, visited, b) && Levels(q, visited, b)
    requires ParentTree(start, previous, b.dist) && ParentOrder(previous, b.order)
    requires ParentEarliest(visited, previous, b.order) && start in visited
    requires IsRoute(g, start, rt) && rt[|rt| - 1] == p && p in b.dist && b.dist[p] == |rt| && |rt| <= b.base
    ensures rt == RouteBack(previous, p, |rt|) || Preferred(start, RouteBack(previous, p, |rt|), rt)
    decreases |rt|
  {
    var n := |rt|;
    var prefix := rt[..n - 1];
    var z := Before(start, rt, n - 1);
    LastParent(g, start, q, visited, previous, b, p, rt);
    RouteBackStep(previous, p, n);
    RouteFront(g, start, rt);
    if n > 1 {
      LeastRouteBack(g, start, q, visited, previous, b, z, prefix);
      ExtendLeast(start, previous, b, previous[p], z, prefix, p);
    }
  }

  /** The last move of a route as in `LeastRouteBack`: it leaves an
      expanded cell `z` one level up, and the parent recorded for its end
      is `z` or was queued before `z`. */
  lemma LastParent(g: Grid, start: Position, q: seq<Entry>, visited: set<Position>,
                   previous: map<Position, Position>, b: Book, p: Position, rt: seq<Position>)
    requires g.Valid() && g.NoIce() && Closed(g, visited, b.dist)
    requires QueueHolds(q, visited, b) && Levels(q, visited, b)
    requires ParentTree(start, previous, b.dist)
    requires ParentEarliest(visited, previous, b.order) && start in visited
    requires IsRoute(g, start, rt) && rt[|rt| - 1] == p && p in b.dist && b.dist[p] == |rt| && |rt| <= b.base
    ensures p in previous
    ensures |rt| == 1 ==> previous[p] == start
    ensures |rt| > 1 ==> && rt[|rt| - 2] in b.dist
                         && b.dist[rt[|rt| - 2]] == |rt| - 1
                         && var z, pp := rt[|rt| - 2], previous[p];
                            pp in b.dist && b.dist[pp] == |rt| - 1
                            && (pp == z || (pp in b.order && z in b.order && b.order[pp] < b.order[z]))
  {
    var z := Before(start, rt, |rt| - 1);
    LastMoveVisited(g, start, q, visited, b, rt);
    ParentNotLater(q, visited, previous, b, z, p);
  }

  /** Without ice, the parent recorded for a neighbour `p` of an expanded
      cell `z` is `z` itself or was queued before `z`. */
  lemma ParentNotLater(q: seq<Entry>, visited: set<Position>, previous: map<Position, Position>, b: Book,
                       z: Position, p: Position)
    requires QueueHolds(q, visited, b) && ParentEarliest(visited, previous, b.order)
    requires forall c {:trigger previous[c]} :: c in previous ==> previous[c] in b.dist
    requires z in visited && z in b.dist && p in previous && Adjacent(z, p)
    ensures previous[p] == z || (previous[p] in b.order && z in b.order && b.order[previous[p]] < b.order[z])
  {
    var pp := previous[p];
    assert Step(z, DirectionOf(z, p)) == p;
    if z != pp {
      QueuePlaces(q, visited, b);
      DistinctPlaces(visited, b, pp, z);
    }
  }

  /** Without ice, the last move of a route of at most `base` moves
      leaves an expanded cell one level up. */
  lemma LastMoveVisited(g: Grid, start: Position, q: seq<Entry>, visited: set<Position>,
                        b: Book, rt: seq<Position>)
    requires g.Valid() && g.NoIce() && Closed(g, visited, b.dist)
    requires QueueHolds(q, visited, b) && Levels(q, visited, b)
    requires start in visited && start in b.dist && b.dist[start] == 0
    requires IsRoute(g, start, rt) && |rt| <= b.base
    requires rt[|rt| - 1] in b.dist && b.dist[rt[|rt| - 1]] == |rt|
    ensures var z := Before(start, rt, |rt| - 1);
            z in visited && z in b.dist && b.dist[z] == |rt| - 1
  {
    var n := |rt|;
    var z := Before(start, rt, n - 1);
    if n > 1 {
      ShortRouteVisited(g, start, q, visited, b, rt, n - 2);
    }
    assert g.Walkable(Step(z, DirectionOf(z, rt[n - 1])));
  }

  /** One more move for a route to `z` that is least as in
      `LeastRouteBack`: the recorded parent `pp` of the end is `z` or was
      queued before it, so the route rebuilt through `pp` stays least. */
  lemma ExtendLeast(start: Position, previous: map<Position, Position>, b: Book,
                    pp: Position, z: Position, prefix: seq<Position>, p: Position)
    requires ParentTree(start, previous, b.dist) && ParentOrder(previous, b.order)
    requires forall x {:trigger x in b.dist} :: x in b.dist ==> x in b.order
    requires pp in b.dist && z in b.dist && b.dist[pp] == b.dist[z] == |prefix|
    requires pp == z || b.order[pp] < b.order[z]
    requires prefix == RouteBack(previous, z, |prefix|) || Preferred(start, RouteBack(previous, z, |prefix|), prefix)
    ensures var route := RouteBack(previous, pp, |prefix|);
            route + [p] == prefix + [p] || Preferred(start, route + [p], prefix + [p])
  {
    var route := RouteBack(previous, z, |prefix|);
    if z == pp {
      if prefix != route {
        PreferredExtend(start, route, prefix, p, p);
      }
    } else {
      OrderedRoutes(start, previous, b, pp, z);
      if prefix != route {
        PreferredTransitive(start, RouteBack(previous, pp, |prefix|), route, prefix);
      }
      PreferredExtend(start, RouteBack(previous, pp, |prefix|), prefix, p, p);
    }
  }

  /** Without ice, the route to the found front entry is preferred over
      every other route of the same length to a cell of the destination
      type: such a cell is queued at the same level, behind the front
      entry or as the front entry itself. */
  lemma FoundPreferred(g: Grid, start: Position, destinationType: int, q: seq<Entry>,
                       visited: set<Position>, pushed: set<Position>,
                       previous: map<Position, Position>, b: Book, rt: seq<Position>)
    requires SearchInvariant(g, start, destinationType, q, visited, pushed, previous, b)
    requires SearchOrder(g, visited, previous, b)
    requires q != [] && g.InBounds(q[0].pos) && g.At(q[0].pos) == destinationType
    requires g.NoIce() && start in visited && Reaches(g, destinationType, start, rt) && |rt| == b.base
    ensures rt == RouteBack(previous, q[0].pos, |rt|) || Preferred(start, RouteBack(previous, q[0].pos, |rt|), rt)
  {
    var x := q[0].pos;
    var z := rt[|rt| - 1];
    assert z !in visited;
    Frontier(g, start, visited, b.dist, rt, 0);
    var k :| 0 <= k < |rt| && rt[k] in b.dist && rt[k] !in visited && b.dist[rt[k]] <= k + 1;
    assert b.popped <= b.order[rt[k]];
    assert k == |rt| - 1;
    assert x in b.dist && b.order[x] == b.popped && b.dist[x] == b.base;
    ParentTreeOf(g, start, visited, pushed, previous, b.dist);
    LeastRouteBack(g, start, q, visited, previous, b, z, rt);
    if z != x {
      QueuePlaces(q, visited, b);
      DistinctPlaces(visited, b, x, z);
      OrderedRoutes(start, previous, b, x, z);
      if rt != RouteBack(previous, z, |rt|) {
        PreferredTransitive(start, RouteBack(previous, x, |rt|), RouteBack(previous, z, |rt|), rt);
      }
    }
  }

  /** A drained queue means the start does not hold the destination type
      and, without ice, that no route reaches it. */
  lemma DrainedOutcome(g: Grid, start: Position, destinationType: int,
                       visited: set<Position>, pushed: set<Position>,
                       previous: map<Position, Position>, b: Book)
    requires SearchInvariant(g, start, destinationType, [], visited, pushed, previous, b)
    ensures g.At(start) != destinationType
    ensures SubpathOutcome(g, start, destinationType, [])
  {
    if g.NoIce() {
      forall rt | Reaches(g, destinationType, start, rt)
        ensures false
      {
        RouteLowerBound(g, start, destinationType, [], visited, pushed, previous, b, rt);
      }
    }
  }
}
