/** The neighbour generator of the route search.

    From a position it tries the eight directions in a fixed order, skips a
    cell off the chart, looks up (and caches) the depth of every cell on
    it, and keeps a cell that is sea (not land), not blocked and deeper than
    48 metres.  Each kept cell carries whether the move into it is with the
    wind and with the current, sampled at that cell. */
module Neighbors {
  import opened Grid
  import opened Alignment
  import opened Providers

  /** Water must be deeper than this (depths are negative below sea level). */
  const DepthLimit: real := -48.0

  predicate Navigable(env: Env, c: Cell) {
    !env.isLand(c) && c !in env.blocks && env.depthAt(c) < DepthLimit
  }

  /** A legal move of the search: one of the eight directions, onto the
      chart, into navigable water. */
  predicate Step(env: Env, a: Cell, b: Cell) {
    OffsetBetween(a, b) in Directions && InBounds(b) && Navigable(env, b)
  }

  datatype Neighbor = Neighbor(cell: Cell, windAligned: bool, currentAligned: bool)

  /** `is_aligned_with_wind`: whether the move `d` into `cell` goes with the
      wind sampled at `cell`, read through the wind cache. */
  function IsAlignedWithWind(env: Env, caches: Caches, cell: Cell, d: Offset): (r: (bool, Caches))
    requires d in Directions
    ensures r.1 == caches.(wind := r.1.wind) && cell in r.1.wind
    ensures WindAgrees(env, caches.wind) ==>
              WindAgrees(env, r.1.wind)
              && r.0 == IsAligned(WindDirection(env, cell), MovementAngle(d))
              && (r.0 <==> CircularDistance(MovementAngle(d) as real, WindDirection(env, cell)) <= 25.0)
  {
    var (direction, caches') := LookupWind(env, caches, cell);
    AlignedIffWithinArc(direction, MovementAngle(d));
    (IsAligned(direction, MovementAngle(d)), caches')
  }

  /** `is_aligned_with_current`: the same test against the ocean current. */
  function IsAlignedWithCurrent(env: Env, caches: Caches, cell: Cell, d: Offset): (r: (bool, Caches))
    requires d in Directions
    ensures r.1 == caches.(current := r.1.current) && cell in r.1.current
    ensures CurrentAgrees(env, caches.current) ==>
              CurrentAgrees(env, r.1.current)
              && r.0 == IsAligned(CurrentDirection(env, cell), MovementAngle(d))
              && (r.0 <==> CircularDistance(MovementAngle(d) as real, CurrentDirection(env, cell)) <= 25.0)
  {
    var (direction, caches') := LookupCurrent(env, caches, cell);
    AlignedIffWithinArc(direction, MovementAngle(d));
    (IsAligned(direction, MovementAngle(d)), caches')
  }

  /** The cell direction `i` contributes, read straight from the providers:
      the target cell when it is on the chart and navigable, else nothing. */
  function CandidateCells(env: Env, pos: Cell, i: nat): seq<Cell>
    requires i < |Directions|
  {
    var n := Move(pos, Directions[i]);
    if InBounds(n) && Navigable(env, n) then [n] else []
  }

  /** The cells the generator yields for the first `i` directions: the
      reference the cached generator is checked against. */
  function NeighborCellsUpTo(env: Env, pos: Cell, i: nat): seq<Cell>
    requires i <= |Directions|
  {
    if i == 0 then [] else NeighborCellsUpTo(env, pos, i - 1) + CandidateCells(env, pos, i - 1)
  }

  function NeighborCells(env: Env, pos: Cell): seq<Cell> {
    NeighborCellsUpTo(env, pos, |Directions|)
  }

  /** `ns` lists exactly `cells`, in order. */
  predicate ListsCells(ns: seq<Neighbor>, cells: seq<Cell>) {
    |ns| == |cells| && forall k :: 0 <= k < |ns| ==> ns[k].cell == cells[k]
  }

  /** The wind and current flags of the move from `pos` into `nb.cell`, as
      the providers give them. */
  predicate FlagsMatch(env: Env, pos: Cell, nb: Neighbor) {
    var d := OffsetBetween(pos, nb.cell);
    d in Directions
    && nb.windAligned == IsAligned(WindDirection(env, nb.cell), MovementAngle(d))
    && nb.currentAligned == IsAligned(CurrentDirection(env, nb.cell), MovementAngle(d))
  }

  /** Index of a direction in the generator's order. */
  function DirectionIndex(d: Offset): (i: nat)
    requires d in Directions
    ensures i < |Directions| && Directions[i] == d
  {
    if d == Directions[0] then 0
    else if d == Directions[1] then 1
    else if d == Directions[2] then 2
    else if d == Directions[3] then 3
    else if d == Directions[4] then 4
    else if d == Directions[5] then 5
    else if d == Directions[6] then 6
    else 7
  }

  lemma CandidateDirection(env: Env, pos: Cell, i: nat)
    requires i < |Directions|
    ensures forall c :: c in CandidateCells(env, pos, i) ==>
              Step(env, pos, c) && DirectionIndex(OffsetBetween(pos, c)) == i
  {
    DirectionsDistinct();
  }

  /** Every neighbour is a legal move from `pos` through one of the first
      `i` directions. */
  lemma {:induction false} NeighborCellsSound(env: Env, pos: Cell, i: nat)
    requires i <= |Directions|
    ensures forall k :: 0 <= k < |NeighborCellsUpTo(env, pos, i)| ==>
              Step(env, pos, NeighborCellsUpTo(env, pos, i)[k])
              && DirectionIndex(OffsetBetween(pos, NeighborCellsUpTo(env, pos, i)[k])) < i
  {
    if i > 0 {
      NeighborCellsSound(env, pos, i - 1);
      CandidateDirection(env, pos, i - 1);
      var prefix := NeighborCellsUpTo(env, pos, i - 1);
      var all := NeighborCellsUpTo(env, pos, i);
      forall k | 0 <= k < |all|
        ensures Step(env, pos, all[k]) && DirectionIndex(OffsetBetween(pos, all[k])) < i
      {
        if k >= |prefix| {
          assert all[k] in CandidateCells(env, pos, i - 1);
        }
      }
    }
  }

  /** Every legal move from `pos` through one of the first `i` directions
      is among the neighbours. */
  lemma {:induction false} NeighborCellsComplete(env: Env, pos: Cell, i: nat, b: Cell)
    requires i <= |Directions|
    requires Step(env, pos, b) && DirectionIndex(OffsetBetween(pos, b)) < i
    ensures b in NeighborCellsUpTo(env, pos, i)
  {
    if DirectionIndex(OffsetBetween(pos, b)) == i - 1 {
      assert Move(pos, Directions[i - 1]) == b;
      assert b in CandidateCells(env, pos, i - 1);
    } else {
      NeighborCellsComplete(env, pos, i - 1, b);
    }
  }

  /** A cell is a neighbour exactly when it is a legal move. */
  lemma NeighborCellsExact(env: Env, pos: Cell, b: Cell)
    ensures b in NeighborCells(env, pos) <==> Step(env, pos, b)
  {
    NeighborCellsSound(env, pos, |Directions|);
    if Step(env, pos, b) {
      NeighborCellsComplete(env, pos, |Directions|, b);
    }
  }

  /** At most one neighbour per direction, so at most eight. */
  lemma {:induction false} NeighborCellsBounded(env: Env, pos: Cell, i: nat)
    requires i <= |Directions|
    ensures |NeighborCellsUpTo(env, pos, i)| <= i
  {
    if i > 0 {
      NeighborCellsBounded(env, pos, i - 1);
    }
  }

  /** The neighbours come in the order of the direction list, so none is
      listed twice. */
  lemma {:induction false} NeighborCellsOrdered(env: Env, pos: Cell, i: nat)
    requires i <= |Directions|
    ensures forall j, k :: 0 <= j < k < |NeighborCellsUpTo(env, pos, i)| ==>
              Ordered(pos, NeighborCellsUpTo(env, pos, i)[j], NeighborCellsUpTo(env, pos, i)[k])
  {
    if i > 0 {
      NeighborCellsOrdered(env, pos, i - 1);
      NeighborCellsSound(env, pos, i - 1);
      CandidateDirection(env, pos, i - 1);
      var prefix := NeighborCellsUpTo(env, pos, i - 1);
      var all := NeighborCellsUpTo(env, pos, i);
      assert all == prefix + CandidateCells(env, pos, i - 1);
      forall j, k | 0 <= j < k < |all|
        ensures Ordered(pos, all[j], all[k])
      {
        if k >= |prefix| {
          assert all[k] in CandidateCells(env, pos, i - 1);
          assert all[j] == prefix[j];
        } else {
          assert all[j] == prefix[j] && all[k] == prefix[k];
        }
      }
    }
  }

  /** `a` comes from an earlier direction than `b`. */
  predicate Ordered(pos: Cell, a: Cell, b: Cell) {
    OffsetBetween(pos, a) in Directions && OffsetBetween(pos, b) in Directions
    && DirectionIndex(OffsetBetween(pos, a)) < DirectionIndex(OffsetBetween(pos, b))
  }

  /** The neighbour record for the move `d` into `n`, with both flags read
      through their caches. */
  method AlignmentFlags(env: Env, caches: Caches, n: Cell, d: Offset) returns (nb: Neighbor, caches': Caches)
    requires d in Directions
    ensures nb.cell == n
    ensures CachesAgree(env, caches) ==>
              CachesAgree(env, caches')
              && nb.windAligned == IsAligned(WindDirection(env, n), MovementAngle(d))
              && nb.currentAligned == IsAligned(CurrentDirection(env, n), MovementAngle(d))
    ensures caches'.heuristic == caches.heuristic && caches'.depth == caches.depth
  {
    var wind := IsAlignedWithWind(env, caches, n, d);
    var current := IsAlignedWithCurrent(env, wind.1, n, d);
    caches' := current.1;
    nb := Neighbor(n, wind.0, current.0);
  }

  /** The test that keeps a cell: sea, not blocked, and deeper than the
      limit, with the depth read through the depth cache. */
  method NavigableThroughCache(env: Env, caches: Caches, n: Cell) returns (ok: bool, caches': Caches)
    ensures n in caches'.depth && caches.depth.Keys <= caches'.depth.Keys
    ensures caches' == caches.(depth := caches'.depth)
    ensures CachesAgree(env, caches) ==> CachesAgree(env, caches') && (ok <==> Navigable(env, n))
  {
    var depth := LookupDepth(env, caches, n);
    caches' := depth.1;
    ok := !env.isLand(n) && n !in env.blocks && depth.0 < DepthLimit;
  }

  /** One pass of the generator's loop: the direction at index `i`. */
  method VisitDirection(env: Env, caches: Caches, pos: Cell, i: nat) returns (found: seq<Neighbor>, caches': Caches)
    requires i < |Directions|
    ensures CachesAgree(env, caches) ==>
              CachesAgree(env, caches')
              && ListsCells(found, CandidateCells(env, pos, i))
              && forall k :: 0 <= k < |found| ==> FlagsMatch(env, pos, found[k])
    ensures InBounds(Move(pos, Directions[i])) ==> Move(pos, Directions[i]) in caches'.depth
    ensures caches'.heuristic == caches.heuristic
    ensures caches.depth.Keys <= caches'.depth.Keys
  {
    var d := Directions[i];
    var n := Move(pos, d);
    found := [];
    caches' := caches;
    if InBounds(n) {
      var ok;
      ok, caches' := NavigableThroughCache(env, caches', n);
      if ok {
        var nb;
        nb, caches' := AlignmentFlags(env, caches', n, d);
        assert OffsetBetween(pos, n) == d;
        found := [nb];
      }
    }
  }

  /** Every on-chart cell among the first `i` candidates has its depth cached. */
  predicate DepthCachedUpTo(depth: map<Cell, real>, pos: Cell, i: nat)
    requires i <= |Directions|
  {
    forall j :: 0 <= j < i && InBounds(Move(pos, Directions[j])) ==> Move(pos, Directions[j]) in depth
  }

  lemma ListsAppend(ns: seq<Neighbor>, cells: seq<Cell>, more: seq<Neighbor>, moreCells: seq<Cell>)
    requires ListsCells(ns, cells) && ListsCells(more, moreCells)
    ensures ListsCells(ns + more, cells + moreCells)
  {
    var all := ns + more;
    var allCells := cells + moreCells;
    forall k | 0 <= k < |all|
      ensures all[k].cell == allCells[k]
    {
      if k >= |ns| {
        assert all[k] == more[k - |ns|] && allCells[k] == moreCells[k - |ns|];
      }
    }
  }

  lemma FlagsAppend(env: Env, pos: Cell, ns: seq<Neighbor>, more: seq<Neighbor>)
    requires forall k :: 0 <= k < |ns| ==> FlagsMatch(env, pos, ns[k])
    requires forall k :: 0 <= k < |more| ==> FlagsMatch(env, pos, more[k])
    ensures forall k :: 0 <= k < |ns + more| ==> FlagsMatch(env, pos, (ns + more)[k])
  {
    forall k | 0 <= k < |ns + more|
      ensures FlagsMatch(env, pos, (ns + more)[k])
    {
      if k >= |ns| {
        assert (ns + more)[k] == more[k - |ns|];
      } else {
        assert (ns + more)[k] == ns[k];
      }
    }
  }

  lemma DepthCachedStep(depth: map<Cell, real>, depth': map<Cell, real>, pos: Cell, i: nat)
    requires i < |Directions|
    requires DepthCachedUpTo(depth, pos, i) && depth.Keys <= depth'.Keys
    requires InBounds(Move(pos, Directions[i])) ==> Move(pos, Directions[i]) in depth'
    ensures DepthCachedUpTo(depth', pos, i + 1)
  {
  }

  /** `get_neighbors`.  With consistent caches the result lists exactly the
      reference cells, each with the wind and current flags of its move, and
      the caches stay consistent; either way every on-chart candidate cell
      ends up in the depth cache, and the heuristic cache is untouched. */
  method GetNeighbors(env: Env, caches: Caches, pos: Cell) returns (neighbors: seq<Neighbor>, caches': Caches)
    ensures CachesAgree(env, caches) ==>
              ListsCells(neighbors, NeighborCells(env, pos)) && CachesAgree(env, caches')
              && forall k :: 0 <= k < |neighbors| ==> FlagsMatch(env, pos, neighbors[k])
    ensures DepthCachedUpTo(caches'.depth, pos, |Directions|)
    ensures caches'.heuristic == caches.heuristic
    ensures caches.depth.Keys <= caches'.depth.Keys
  {
    ghost var agree := CachesAgree(env, caches);
    neighbors := [];
    caches' := caches;
    var i := 0;
    while i < |Directions|
      invariant 0 <= i <= |Directions|
      invariant agree ==> CachesAgree(env, caches')
      invariant agree ==> ListsCells(neighbors, NeighborCellsUpTo(env, pos, i))
      invariant agree ==> forall k :: 0 <= k < |neighbors| ==> FlagsMatch(env, pos, neighbors[k])
      invariant DepthCachedUpTo(caches'.depth, pos, i)
      invariant caches'.heuristic == caches.heuristic
      invariant caches.depth.Keys <= caches'.depth.Keys
    {
      var found;
      ghost var before := caches';
      found, caches' := VisitDirection(env, caches', pos, i);
      if agree {
        ListsAppend(neighbors, NeighborCellsUpTo(env, pos, i), found, CandidateCells(env, pos, i));
        FlagsAppend(env, pos, neighbors, found);
      }
      DepthCachedStep(before.depth, caches'.depth, pos, i);
      neighbors := neighbors + found;
      i := i + 1;
    }
  }
}
