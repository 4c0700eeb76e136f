/** Grid coordinates and the two comparison operators the pathfinder
    defines on them (`operator<` keys its `std::set`s and `std::map`s). */
module Positions {

  datatype Position = Position(row: int, col: int)

  /** `operator<`: rows first, columns only to break a tie. */
  predicate Less(p1: Position, p2: Position) {
    if p1.row == p2.row then p1.col < p2.col else p1.row < p2.row
  }

  /** `operator==`: both coordinates agree. */
  predicate Equal(p1: Position, p2: Position) {
    p1.row == p2.row && p1.col == p2.col
  }

  /** `operator==` is exactly equality of positions. */
  lemma EqualIsIdentity(p1: Position, p2: Position)
    ensures Equal(p1, p2) <==> p1 == p2
  {
  }

  /** `operator<` is a strict total order: irreflexive, transitive, and for
      any two positions exactly one of `p1 < p2`, `p2 < p1`, `p1 == p2`. */
  lemma LessIsStrictTotalOrder(p1: Position, p2: Position, p3: Position)
    ensures !Less(p1, p1)
    ensures Less(p1, p2) && Less(p2, p3) ==> Less(p1, p3)
    ensures Less(p1, p2) ==> !Less(p2, p1) && !Equal(p1, p2)
    ensures Equal(p1, p2) ==> !Less(p1, p2) && !Less(p2, p1)
    ensures Less(p1, p2) || Less(p2, p1) || Equal(p1, p2)
  {
  }

  /** A sequence in strictly increasing `operator<` order: the iteration
      order of a `std::set<Position>`. */
  ghost predicate StrictlyIncreasing(s: seq<Position>) {
    forall i, j :: 0 <= i < j < |s| ==> Less(s[i], s[j])
  }

  /** A strictly increasing sequence holds no position twice, so it is a
      faithful picture of a `std::set<Position>`. */
  lemma {:induction false} StrictlyIncreasingIsDistinct(s: seq<Position>, i: int, j: int)
    requires StrictlyIncreasing(s)
    requires 0 <= i < |s| && 0 <= j < |s| && i != j
    ensures s[i] != s[j]
  {
    if i < j {
      assert Less(s[i], s[j]);
    } else {
      assert Less(s[j], s[i]);
    }
  }
}
