/** The preference `calculateShortestSubpath` shows between routes of the
    same length. The search tries the neighbours of a cell up, right, down,
    left, so of two routes from the same start the one whose first
    differing move comes earlier in that order is the one it finds. */
module RouteOrder {
  import opened Positions
  import opened Grids

  /** The place of `d` in the order the search tries directions. */
  function Rank(d: Direction): (k: nat)
    ensures k < 4
  {
    match d
    case Up => 0
    case Right => 1
    case Down => 2
    case Left => 3
  }

  lemma RankValues()
    ensures Rank(Up) == 0 && Rank(Right) == 1 && Rank(Down) == 2 && Rank(Left) == 3
  {
  }

  /** The rank of the move from `p` to its neighbour `q`. */
  function StepRank(p: Position, q: Position): nat {
    if q == Step(p, Up) then 0
    else if q == Step(p, Right) then 1
    else if q == Step(p, Down) then 2
    else 3
  }

  lemma StepRankOfStep(p: Position, d: Direction)
    ensures StepRank(p, Step(p, d)) == Rank(d)
  {
  }

  /** The cell a walk from `start` has reached: its last cell, or `start`
      while it is empty. */
  function Ending(start: Position, r: seq<Position>): Position {
    if r == [] then start else r[|r| - 1]
  }

  /** Route `a` is tried before route `b`, of the same length: either `a`
      without its last cell is already tried before `b` without its last
      cell, or the two agree up to the last move and `a` makes that move in
      an earlier direction. */
  ghost predicate Preferred(start: Position, a: seq<Position>, b: seq<Position>)
    decreases |a|
  {
    && |a| == |b| && a != []
    && var a', b' := a[..|a| - 1], b[..|b| - 1];
       || Preferred(start, a', b')
       || (a' == b' && StepRank(Ending(start, a'), a[|a| - 1]) < StepRank(Ending(start, b'), b[|b| - 1]))
  }

  lemma {:induction false} PreferredIrreflexive(start: Position, a: seq<Position>)
    ensures !Preferred(start, a, a)
    decreases |a|
  {
    if a != [] {
      PreferredIrreflexive(start, a[..|a| - 1]);
    }
  }

  lemma {:induction false} PreferredTransitive(start: Position, a: seq<Position>, b: seq<Position>, c: seq<Position>)
    requires Preferred(start, a, b) && Preferred(start, b, c)
    ensures Preferred(start, a, c)
    decreases |a|
  {
    var n := |a| - 1;
    if Preferred(start, a[..n], b[..n]) && Preferred(start, b[..n], c[..n]) {
      PreferredTransitive(start, a[..n], b[..n], c[..n]);
    }
  }

  /** Two different routes of the same length from the same start are
      never tied: one of them is tried first. */
  lemma {:induction false} PreferredTotal(g: Grid, start: Position, a: seq<Position>, b: seq<Position>)
    requires g.Valid() && IsRoute(g, start, a) && IsRoute(g, start, b)
    requires |a| == |b| && a != b
    ensures Preferred(start, a, b) || Preferred(start, b, a)
    decreases |a|
  {
    var n := |a| - 1;
    var a', b' := a[..n], b[..n];
    RouteFront(g, start, a);
    RouteFront(g, start, b);
    if a' != b' {
      PreferredTotal(g, start, a', b');
    } else {
      assert a[n] != b[n];
      assert Adjacent(Before(start, a, n), a[n]) && Adjacent(Before(start, b, n), b[n]);
      assert Ending(start, a') == Before(start, a, n) && Ending(start, b') == Before(start, b, n);
    }
  }

  /** Among routes of one length from one start, "tried before" is a strict
      total order: irreflexive, transitive, and any two different routes are
      comparable. So at most one route is preferred over all the others. */
  lemma PreferredIsStrictTotalOrder(g: Grid, start: Position, a: seq<Position>, b: seq<Position>, c: seq<Position>)
    requires g.Valid()
    ensures !Preferred(start, a, a)
    ensures Preferred(start, a, b) && Preferred(start, b, c) ==> Preferred(start, a, c)
    ensures Preferred(start, a, b) ==> !Preferred(start, b, a)
    ensures IsRoute(g, start, a) && IsRoute(g, start, b) && |a| == |b| && a != b ==>
              Preferred(start, a, b) || Preferred(start, b, a)
  {
    PreferredIrreflexive(start, a);
    if Preferred(start, a, b) && Preferred(start, b, c) {
      PreferredTransitive(start, a, b, c);
    }
    if Preferred(start, a, b) && Preferred(start, b, a) {
      PreferredTransitive(start, a, b, a);
    }
    if IsRoute(g, start, a) && IsRoute(g, start, b) && |a| == |b| && a != b {
      PreferredTotal(g, start, a, b);
    }
  }

  /** Extending two routes by one cell each keeps the preference. */
  lemma PreferredExtend(start: Position, a: seq<Position>, b: seq<Position>, x: Position, y: Position)
    requires Preferred(start, a, b)
    ensures Preferred(start, a + [x], b + [y])
  {
    assert (a + [x])[..|a|] == a && (b + [y])[..|b|] == b;
  }

  /** Extending one route by two neighbours of its end: the earlier
      direction is preferred. */
  lemma PreferredLastMove(start: Position, a: seq<Position>, x: Position, y: Position)
    requires StepRank(Ending(start, a), x) < StepRank(Ending(start, a), y)
    ensures Preferred(start, a + [x], a + [y])
  {
    assert (a + [x])[..|a|] == a && (a + [y])[..|a|] == a;
  }
}
