/** How the pathfinder reads teleporters out of the grid, and what
    `adjustPathForTeleporters` does to a path, stated as functions: the
    method `Pathfinding.Pathfinder.AdjustPathForTeleporters` walks the same
    nested loops and is proved to compute `Adjust`. */
module Teleporters {
  import opened CellTypes
  import opened Positions
  import opened Wrappers

  /** One `teleporterInfo_` entry: its IN cells and its OUT cells, each
      assumed to be a `std::set<Position>` and so kept in `operator<` order. */
  datatype Teleporter = Teleporter(ins: seq<Position>, outs: seq<Position>)

  /** How the constructor classifies one cell value. */
  datatype CellRole = StartCell | TeleporterIn(index: int) | TeleporterOut(index: int) | Plain

  /** The constructor's test on one cell: `kStart` first, then any value
      from `kLength + checkpointCount` on is a teleporter, IN when its
      offset from there is even and OUT when it is odd. */
  function RoleOf(v: int, checkpointCount: int): (role: CellRole)
    ensures role.StartCell? <==> v == kStart
    ensures role.TeleporterIn? ==>
              v != kStart && 0 <= role.index && v == kLength + checkpointCount + 2 * role.index
    ensures role.TeleporterOut? ==>
              v != kStart && 0 <= role.index && v == kLength + checkpointCount + 2 * role.index + 1
    ensures role.Plain? <==> v != kStart && v < kLength + checkpointCount
  {
    var base := kLength + checkpointCount;
    if v == kStart then StartCell
    else if v >= base then
      if (v - base) % 2 == 0 then TeleporterIn((v - base) / 2) else TeleporterOut((v - base) / 2)
    else Plain
  }

  /** The value a teleporter cell holds, the inverse of `RoleOf`. */
  function TeleporterValue(index: int, isIn: bool, checkpointCount: int): int {
    kLength + checkpointCount + 2 * index + (if isIn then 0 else 1)
  }

  /** Every teleporter cell value decodes back to its index and kind, once
      the checkpoint values lie below the teleporters. */
  lemma TeleporterRoundTrip(index: int, isIn: bool, checkpointCount: int)
    requires 0 <= index && 0 <= checkpointCount
    ensures RoleOf(TeleporterValue(index, isIn, checkpointCount), checkpointCount)
            == if isIn then TeleporterIn(index) else TeleporterOut(index)
  {
    var v := TeleporterValue(index, isIn, checkpointCount);
    var role := RoleOf(v, checkpointCount);
    assert role.TeleporterIn? || role.TeleporterOut?;
  }

  // ---------------------------------------------------------------------
  // Iteration orders

  /** The keys of a `std::map<int, _>` in its iteration order. That
      `teleporterInfo_` is such a map, and that its IN and OUT containers
      are `std::set<Position>`, is assumed: both are declared in
      pathfinder.hpp, which is not part of this model. */
  ghost predicate Increasing(s: seq<int>) {
    forall i, j :: 0 <= i < j < |s| ==> s[i] < s[j]
  }

  /** A new key takes its place in the iteration order. */
  function InsertKey(s: seq<int>, x: int): (r: seq<int>)
    requires Increasing(s) && x !in s
    ensures Increasing(r)
    ensures forall y :: y in r <==> y in s || y == x
    ensures r[0] == x || (s != [] && r[0] == s[0])
  {
    if s == [] || x < s[0] then [x] + s
    else [s[0]] + InsertKey(s[1..], x)
  }

  /** The first index at which `p` occurs on `path`. */
  function IndexOf(path: seq<Position>, p: Position): (at: Option<nat>)
    ensures at.None? <==> p !in path
    ensures at.Some? ==> at.value < |path| && path[at.value] == p
                         && forall k :: 0 <= k < at.value ==> path[k] != p
  {
    if path == [] then None
    else if path[0] == p then Some(0)
    else match IndexOf(path[1..], p)
      case None => None
      case Some(i) => Some(i + 1)
  }

  /** The first of `ins`, in their order, that lies on `path`, and the
      first index where it does. */
  function FirstOnPath(ins: seq<Position>, path: seq<Position>): (at: Option<nat>)
    ensures at.None? <==> forall p :: p in ins ==> p !in path
    ensures at.Some? ==> at.value < |path| && path[at.value] in ins
                         && forall k :: 0 <= k < at.value ==> path[k] != path[at.value]
  {
    if ins == [] then None
    else match IndexOf(path, ins[0])
      case Some(i) => Some(i)
      case None => FirstOnPath(ins[1..], path)
  }

  /** A path position at which a teleporter is entered. */
  datatype Hit = Hit(index: int, at: nat)

  /** `keys` lists the keys of `info` in iteration order. */
  ghost predicate KeyOrder(keys: seq<int>, info: map<int, Teleporter>) {
    && Increasing(keys)
    && (forall i :: 0 <= i < |keys| ==> keys[i] in info)
    && (forall k :: k in info ==> k in keys)
  }

  /** Unused teleporter `k`: one whose IN cells `adjustPathForTeleporters`
      still looks for. */
  ghost predicate Available(info: map<int, Teleporter>, used: set<int>, k: int) {
    k in info && k !in used
  }

  /** The first teleporter, in `keys` order and skipping the used ones,
      with an IN cell on `path`. */
  function FirstHit(keys: seq<int>, info: map<int, Teleporter>, used: set<int>,
                    path: seq<Position>): (h: Option<Hit>)
    requires forall i :: 0 <= i < |keys| ==> keys[i] in info
    ensures h.None? <==>
              forall k, p :: k in keys && k !in used && p in info[k].ins ==> p !in path
    ensures h.Some? ==> && h.value.index in keys && h.value.index !in used
                        && h.value.at < |path| && path[h.value.at] in info[h.value.index].ins
  {
    if keys == [] then None
    else if keys[0] !in used && FirstOnPath(info[keys[0]].ins, path).Some? then
      Some(Hit(keys[0], FirstOnPath(info[keys[0]].ins, path).value))
    else FirstHit(keys[1..], info, used, path)
  }

  /** When no IN cell before `ins[m]` lies on the path and `at` is where
      the path first meets `ins[m]`, that is what `FirstOnPath` finds. */
  lemma {:induction false} FirstOnPathAt(ins: seq<Position>, path: seq<Position>, m: nat, at: nat)
    requires m < |ins| && forall j :: 0 <= j < m ==> ins[j] !in path
    requires at < |path| && path[at] == ins[m] && forall k :: 0 <= k < at ==> path[k] != ins[m]
    ensures FirstOnPath(ins, path) == Some(at)
  {
    if m == 0 {
      assert IndexOf(path, ins[0]) == Some(at);
    } else {
      assert ins[0] !in path;
      assert forall j :: 0 <= j < m - 1 ==> ins[1..][j] == ins[j + 1];
      FirstOnPathAt(ins[1..], path, m - 1, at);
    }
  }

  /** When every teleporter before `keys[n]` is used or not entered, and
      the path enters the unused `keys[n]` at `at`, that is the first hit. */
  lemma {:induction false} FirstHitAt(keys: seq<int>, info: map<int, Teleporter>, used: set<int>,
                                      path: seq<Position>, n: nat, at: nat)
    requires forall i :: 0 <= i < |keys| ==> keys[i] in info
    requires n < |keys| && forall j :: 0 <= j < n ==> keys[j] in used || FirstOnPath(info[keys[j]].ins, path).None?
    requires keys[n] !in used && FirstOnPath(info[keys[n]].ins, path) == Some(at)
    ensures FirstHit(keys, info, used, path) == Some(Hit(keys[n], at))
  {
    if n > 0 {
      assert forall j :: 0 <= j < n - 1 ==> keys[1..][j] == keys[j + 1];
      FirstHitAt(keys[1..], info, used, path, n - 1, at);
    }
  }

  /** When every teleporter is used or not entered, there is no hit. */
  lemma FirstHitNone(keys: seq<int>, info: map<int, Teleporter>, used: set<int>, path: seq<Position>)
    requires forall i :: 0 <= i < |keys| ==> keys[i] in info
    requires forall j :: 0 <= j < |keys| ==> keys[j] in used || FirstOnPath(info[keys[j]].ins, path).None?
    ensures FirstHit(keys, info, used, path) == None
  {
    forall k, p | k in keys && k !in used && p in info[k].ins
      ensures p !in path
    {
      var j :| 0 <= j < |keys| && keys[j] == k;
    }
  }

  /** The teleporter `FirstHit` returns comes before every other unused
      teleporter in `keys` that the path meets. */
  lemma {:induction false} FirstHitIsFirst(keys: seq<int>, info: map<int, Teleporter>, used: set<int>,
                                           path: seq<Position>, h: Hit)
    requires forall i :: 0 <= i < |keys| ==> keys[i] in info
    requires Increasing(keys)
    requires FirstHit(keys, info, used, path) == Some(h)
    ensures forall k, p :: k in keys && k !in used && k < h.index && p in info[k].ins ==> p !in path
  {
    if !(keys[0] !in used && FirstOnPath(info[keys[0]].ins, path).Some?) {
      FirstHitIsFirst(keys[1..], info, used, path, h);
      forall k, p | k in keys && k !in used && k < h.index && p in info[k].ins
        ensures p !in path
      {
        if k != keys[0] {
          assert k in keys[1..];
        }
      }
    }
  }

  // ---------------------------------------------------------------------
  // The adjusted path

  /** What `adjustPathForTeleporters` leaves in its two reference
      parameters. */
  datatype Adjusted = Adjusted(used: set<int>, path: seq<Position>)

  /** `adjustPathForTeleporters`: at the first hit, mark the teleporter
      used, search on from its OUT cells (`fromStarts` stands for
      `calculateShortestPathFromMultipleStarts`), adjust that path in turn,
      and splice it in after the IN cell. */
  function Adjust(keys: seq<int>, info: map<int, Teleporter>,
                  fromStarts: (seq<Position>, int) -> seq<Position>,
                  destinationType: int, used: set<int>, path: seq<Position>): (r: Adjusted)
    requires KeyOrder(keys, info)
    ensures used <= r.used && r.used <= used + info.Keys
    ensures r.path == [] <==> path == []
    decreases info.Keys - used
  {
    match FirstHit(keys, info, used, path)
    case None => Adjusted(used, path)
    case Some(h) =>
      var after := Adjust(keys, info, fromStarts, destinationType, used + {h.index},
                          fromStarts(info[h.index].outs, destinationType));
      Adjusted(after.used, path[..h.at + 1] + after.path)
  }

  /** With no unused teleporter entered, the path is left as it is. */
  lemma AdjustNoHit(keys: seq<int>, info: map<int, Teleporter>,
                    fromStarts: (seq<Position>, int) -> seq<Position>,
                    destinationType: int, used: set<int>, path: seq<Position>)
    requires KeyOrder(keys, info) && FirstHit(keys, info, used, path).None?
    ensures Adjust(keys, info, fromStarts, destinationType, used, path) == Adjusted(used, path)
  {
  }

  /** A path that meets no IN cell of an unused teleporter is left as it
      is, and only such a path marks no teleporter used. */
  lemma AdjustUnchanged(keys: seq<int>, info: map<int, Teleporter>,
                        fromStarts: (seq<Position>, int) -> seq<Position>,
                        destinationType: int, used: set<int>, path: seq<Position>)
    requires KeyOrder(keys, info)
    ensures var r := Adjust(keys, info, fromStarts, destinationType, used, path);
            && (r.used == used <==> forall k, p :: Available(info, used, k) && p in info[k].ins ==> p !in path)
            && (r.used == used ==> r.path == path)
  {
    match FirstHit(keys, info, used, path)
    case None =>
    case Some(h) =>
      assert h.index in Adjust(keys, info, fromStarts, destinationType, used, path).used;
  }

  /** Otherwise the path is cut just after the first occurrence of the
      first IN cell, in `operator<` order, that lies on the path, of the
      teleporter with the smallest unused index that the path meets, that
      teleporter is marked used, and the adjusted path from its OUT cells
      follows. The first two clauses say what the hit is: an IN cell of an
      unused teleporter on the path, and no unused teleporter of a smaller
      index touches the path. The last clause is `Adjust`'s own hit branch,
      unfolded once so that callers need not unfold `Adjust`. */
  lemma AdjustSplices(keys: seq<int>, info: map<int, Teleporter>,
                      fromStarts: (seq<Position>, int) -> seq<Position>,
                      destinationType: int, used: set<int>, path: seq<Position>, h: Hit)
    requires KeyOrder(keys, info)
    requires FirstHit(keys, info, used, path) == Some(h)
    ensures Available(info, used, h.index) && h.at < |path| && path[h.at] in info[h.index].ins
    ensures forall k, p :: Available(info, used, k) && k < h.index && p in info[k].ins ==> p !in path
    ensures var after := Adjust(keys, info, fromStarts, destinationType, used + {h.index},
                                fromStarts(info[h.index].outs, destinationType));
            Adjust(keys, info, fromStarts, destinationType, used, path)
              == Adjusted(after.used, path[..h.at + 1] + after.path)
  {
    FirstHitIsFirst(keys, info, used, path, h);
  }

  /** Every cell of the path lies in `cells`. */
  ghost predicate Within(path: seq<Position>, cells: iset<Position>) {
    forall j :: 0 <= j < |path| ==> path[j] in cells
  }

  /** Adjusting never leaves a region that holds the path and every path
      the multi-start search can return (such as the grid's cells). */
  lemma {:induction false} AdjustWithin(keys: seq<int>, info: map<int, Teleporter>,
                                        fromStarts: (seq<Position>, int) -> seq<Position>,
                                        destinationType: int, used: set<int>, path: seq<Position>,
                                        cells: iset<Position>)
    requires KeyOrder(keys, info)
    requires Within(path, cells)
    requires forall starts, t :: Within(fromStarts(starts, t), cells)
    ensures Within(Adjust(keys, info, fromStarts, destinationType, used, path).path, cells)
    decreases info.Keys - used
  {
    match FirstHit(keys, info, used, path)
    case None =>
    case Some(h) =>
      var post := fromStarts(info[h.index].outs, destinationType);
      AdjustWithin(keys, info, fromStarts, destinationType, used + {h.index}, post, cells);
      var after := Adjust(keys, info, fromStarts, destinationType, used + {h.index}, post);
      var r := path[..h.at + 1] + after.path;
      forall j | 0 <= j < |r|
        ensures r[j] in cells
      {
        if j <= h.at {
          assert r[j] == path[j];
        } else {
          assert r[j] == after.path[j - h.at - 1];
        }
      }
  }

  /** Where an adjusted path ends: when the path and every multi-start path
      end on a `destinationType` cell (or are empty), the adjusted path
      ends on one too, unless a teleporter's OUT cells led nowhere; then it
      ends on that teleporter's IN cell. */
  lemma {:induction false} AdjustEnds(keys: seq<int>, info: map<int, Teleporter>,
                                      fromStarts: (seq<Position>, int) -> seq<Position>,
                                      destinationType: int, used: set<int>, path: seq<Position>,
                                      isDestination: Position -> bool)
    requires KeyOrder(keys, info)
    requires path != [] ==> isDestination(path[|path| - 1])
    requires forall starts :: fromStarts(starts, destinationType) != [] ==>
               isDestination(fromStarts(starts, destinationType)[|fromStarts(starts, destinationType)| - 1])
    ensures var r := Adjust(keys, info, fromStarts, destinationType, used, path).path;
            r != [] ==> isDestination(r[|r| - 1])
                        || exists k :: k in info && r[|r| - 1] in info[k].ins
                                       && fromStarts(info[k].outs, destinationType) == []
    decreases info.Keys - used
  {
    match FirstHit(keys, info, used, path)
    case None =>
    case Some(h) =>
      var post := fromStarts(info[h.index].outs, destinationType);
      AdjustEnds(keys, info, fromStarts, destinationType, used + {h.index}, post, isDestination);
      var after := Adjust(keys, info, fromStarts, destinationType, used + {h.index}, post);
      var r := path[..h.at + 1] + after.path;
      if after.path == [] {
        assert post == [];
        assert r[|r| - 1] == path[h.at];
      } else {
        assert r[|r| - 1] == after.path[|after.path| - 1];
      }
  }
}
