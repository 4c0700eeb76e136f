/** The integer codes the pathfinder reads out of the `int32` grid.
    `CellType` itself is declared in pathfinder.hpp, which is not part of
    this model: the values below are representative. The proofs only use
    that the base kinds are distinct and that `kLength` lies above all of
    them, so that checkpoint `i` is the value `kLength + i` and teleporters
    follow the checkpoints. */
module CellTypes {
  const kOpen: int := 0
  const kRock: int := 1
  const kWall: int := 2
  const kStart: int := 3
  const kGoal: int := 4
  const kIce: int := 5
  /** One past the last base kind; checkpoint `i` is stored as `kLength + i`. */
  const kLength: int := 6
}
