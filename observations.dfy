/** The observation dict the wrappers receive and return: string keys to
    numpy arrays. Cell values are whole numbers throughout (the one-hot
    planes hold 0.0 and 1.0 only), so every array is modelled over `int`. */
module Observations {

  /** A two-dimensional array (the board, the action mask) or a stack of
      them (the one-hot planes). */
  datatype Tensor = Matrix(rows: seq<seq<int>>) | Stack(planes: seq<seq<seq<int>>>)

  /** The key under which an observation holds the board. */
  const BoardKey: string := "board"

  /** A mutable observation dict. */
  class ObservationDict {
    var entries: map<string, Tensor>

    constructor (entries: map<string, Tensor>)
      ensures this.entries == entries
    {
      this.entries := entries;
    }
  }
}
