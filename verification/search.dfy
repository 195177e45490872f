/** The route search (`a_star`).

    The frontier is a priority queue of entries `(f, counter, cell)` ordered
    by score and then by insertion counter, so equal scores leave in the
    order they arrived.  A popped cell that is already closed is skipped;
    otherwise it is closed and appended to the exploration record.  Reaching
    the destination rebuilds the route through the predecessor map.
    Otherwise every neighbour that is not closed is relaxed: its tentative
    path cost is the current cell's plus the straight-line distance, and
    when the neighbour has no cost yet or the new one is strictly lower, the
    predecessor and cost are replaced and the neighbour is queued with its
    score.  An empty queue means there is no route.

    The search keeps no node limit: it stops because every cell is closed
    at most once and the chart is finite. */
module Search {
  import opened Grid
  import opened Providers
  import opened Neighbors
  import opened CostModel

  datatype QEntry = QEntry(f: real, counter: nat, cell: Cell)

  /** The priority queue's order on entries: by score, then by counter. */
  predicate NotAfter(a: QEntry, b: QEntry) {
    a.f < b.f || (a.f == b.f && a.counter <= b.counter)
  }

  /** `open_set.get()`: the position of the least entry. */
  method PopMin(q: seq<QEntry>) returns (i: nat)
    requires |q| > 0
    ensures i < |q|
    ensures forall j :: 0 <= j < |q| ==> NotAfter(q[i], q[j])
  {
    i := 0;
    var k := 1;
    while k < |q|
      invariant 1 <= k <= |q| && i < k
      invariant forall j :: 0 <= j < k ==> NotAfter(q[i], q[j])
    {
      if !NotAfter(q[i], q[k]) {
        i := k;
      }
      k := k + 1;
    }
  }

  /** Counters are handed out in increasing order. */
  predicate CountersIncrease(q: seq<QEntry>) {
    forall j, k :: 0 <= j < k < |q| ==> q[j].counter < q[k].counter
  }

  /** With distinct counters the least entry is unique, so the queue's
      choice never depends on how it breaks ties internally. */
  lemma LeastEntryUnique(q: seq<QEntry>, i: nat, i': nat)
    requires CountersIncrease(q)
    requires i < |q| && i' < |q|
    requires forall j :: 0 <= j < |q| ==> NotAfter(q[i], q[j])
    requires forall j :: 0 <= j < |q| ==> NotAfter(q[i'], q[j])
    ensures i == i'
  {
    assert NotAfter(q[i], q[i']) && NotAfter(q[i'], q[i]);
  }

  /** `q` with the entry at `i` taken out. */
  function Without(q: seq<QEntry>, i: nat): (r: seq<QEntry>)
    requires i < |q|
    ensures |r| == |q| - 1
    ensures forall k :: 0 <= k < i ==> r[k] == q[k]
    ensures forall k :: i <= k < |r| ==> r[k] == q[k + 1]
  {
    q[..i] + q[i + 1..]
  }

  /** The cells that have an entry in the queue. */
  function Cells(q: seq<QEntry>): set<Cell> {
    set e | e in q :: e.cell
  }

  lemma WithoutKeepsOthers(q: seq<QEntry>, i: nat, c: Cell)
    requires i < |q|
    requires c in Cells(q) && c != q[i].cell
    ensures c in Cells(Without(q, i))
  {
    var e :| e in q && e.cell == c;
    var k :| 0 <= k < |q| && q[k] == e;
    var r := Without(q, i);
    if k < i {
      assert r[k] == e;
    } else {
      assert r[k - 1] == e;
    }
  }

  lemma WithoutKeepsOrder(q: seq<QEntry>, i: nat)
    requires i < |q| && CountersIncrease(q)
    ensures CountersIncrease(Without(q, i))
  {
    var r := Without(q, i);
    forall j, k | 0 <= j < k < |r|
      ensures r[j].counter < r[k].counter
    {
      var j' := if j < i then j else j + 1;
      var k' := if k < i then k else k + 1;
      assert r[j] == q[j'] && r[k] == q[k'];
    }
  }

  datatype SearchState = SearchState(
    open: seq<QEntry>,
    counter: nat,
    cameFrom: map<Cell, Cell>,
    g: map<Cell, real>,
    closed: set<Cell>,
    explored: seq<Cell>,
    caches: Caches)

  // ---------------------------------------------------------------------------
  // What the search keeps true
  // ---------------------------------------------------------------------------

  /** The cells the search can ever touch: the chart and the start. */
  predicate Inside(start: Cell, c: Cell) {
    c == start || InBounds(c)
  }

  /** Queue entries carry counters below the next one, in increasing order,
      and cells that have a cost. */
  ghost predicate QueueWellFormed(s: SearchState) {
    CountersIncrease(s.open)
    && (forall k :: 0 <= k < |s.open| ==> s.open[k].counter < s.counter)
    && (forall e :: e in s.open ==> e.cell in s.g)
  }

  /** Every cell with a cost is the start or has a predecessor, which is a
      closed cell one legal move away. */
  ghost predicate PredecessorTree(env: Env, start: Cell, s: SearchState) {
    start !in s.cameFrom
    && s.g.Keys == s.cameFrom.Keys + {start}
    && (forall n :: n in s.cameFrom ==> s.cameFrom[n] in s.closed && Step(env, s.cameFrom[n], n))
    && (forall c :: c in s.g ==> Inside(start, c))
  }

  /** The exploration record lists the closed cells, each once, starting with
      the start, and every predecessor was explored before its successor. */
  ghost predicate ExploredRecord(start: Cell, s: SearchState) {
    (forall j, k :: 0 <= j < k < |s.explored| ==> s.explored[j] != s.explored[k])
    && (forall c :: c in s.closed <==> c in s.explored)
    && (s.explored == [] ==> s.cameFrom == map[])
    && (s.explored != [] ==> s.explored[0] == start)
    && s.closed <= s.g.Keys
  }

  ghost predicate PredecessorsEarlier(s: SearchState) {
    forall j, k ::
      (0 <= j < |s.explored| && 0 <= k < |s.explored|
       && s.explored[k] in s.cameFrom && s.cameFrom[s.explored[k]] == s.explored[j]) ==> j < k
  }

  /** A cell with a cost that is not closed is waiting in the queue. */
  ghost predicate FrontierQueued(s: SearchState) {
    forall c :: c in s.g && c !in s.closed ==> c in Cells(s.open)
  }

  /** Every legal move out of a closed cell, except out of the cells in
      `pending`, leads to a cell with a cost. */
  ghost predicate ExpandedExcept(env: Env, s: SearchState, pending: set<Cell>) {
    forall c, b :: c in s.closed && c !in pending && Step(env, c, b) ==> b in s.g
  }

  /** The start costs nothing, and a cell's cost is its predecessor's cost
      plus the length of the move between them: a predecessor and its cost
      are always set together. */
  ghost predicate CostsAlongTree(env: Env, start: Cell, s: SearchState) {
    start in s.g && s.g[start] == 0.0
    && forall n :: n in s.cameFrom ==>
         n in s.g && s.cameFrom[n] in s.g
         && s.g[n] == s.g[s.cameFrom[n]] + env.distance(s.cameFrom[n], n)
  }

  ghost predicate Structure(env: Env, start: Cell, s: SearchState, pending: set<Cell>) {
    QueueWellFormed(s) && PredecessorTree(env, start, s) && ExploredRecord(start, s)
    && PredecessorsEarlier(s) && FrontierQueued(s) && ExpandedExcept(env, s, pending)
    && CostsAlongTree(env, start, s) && CachesAgree(env, s.caches)
  }

  // ---------------------------------------------------------------------------
  // Relaxing one neighbour
  // ---------------------------------------------------------------------------

  /** `calculate_fscore` for the move into `nb`, reading the heuristic
      through its cache only where the blend weighs it. */
  function ScoreMove(env: Env, caches: Caches, blend: Blend, g: real, nb: Neighbor, end: Cell): (r: (real, Caches))
    ensures r.1 == caches.(heuristic := r.1.heuristic)
    ensures caches.heuristic.Keys <= r.1.heuristic.Keys
    ensures blend.Weighted? ==> nb.cell in r.1.heuristic
    ensures !blend.Weighted? ==> r.1 == caches
    ensures HeuristicAgrees(env, caches.heuristic) ==>
              HeuristicAgrees(env, r.1.heuristic)
              && r.0 == FScore(blend, g, env.distance(nb.cell, end), Heuristic(env, nb.cell),
                               nb.windAligned, nb.currentAligned)
  {
    if blend.Weighted? then
      var h := LookupHeuristic(env, caches, nb.cell);
      (FScore(blend, g, env.distance(nb.cell, end), h.0, nb.windAligned, nb.currentAligned), h.1)
    else
      (FScore(blend, g, env.distance(nb.cell, end), 0.0, nb.windAligned, nb.currentAligned), caches)
  }

  /** One pass of the neighbour loop.  A closed neighbour is left alone;
      otherwise the neighbour ends up with a cost no higher than the one
      through `current`, no cost ever rises, and the queue gains at most the
      one entry for the neighbour, with the score of its new cost. */
  function Relax(env: Env, blend: Blend, end: Cell, s: SearchState, current: Cell, nb: Neighbor): (s': SearchState)
    requires current in s.g
    ensures nb.cell in s.closed ==> s' == s
    ensures nb.cell !in s.closed ==>
              nb.cell in s'.g && s'.g[nb.cell] <= s.g[current] + env.distance(current, nb.cell)
    ensures s.g.Keys <= s'.g.Keys && forall c :: c in s.g ==> s'.g[c] <= s.g[c]
    ensures forall c :: c in s.g && c != nb.cell ==> s'.g[c] == s.g[c]
    ensures s'.open != s.open <==>
              nb.cell !in s.closed
              && (nb.cell !in s.g || s.g[current] + env.distance(current, nb.cell) < s.g[nb.cell])
    ensures s'.closed == s.closed && s'.explored == s.explored
    ensures forall c :: c in s'.cameFrom && (c !in s.cameFrom || s'.cameFrom[c] != s.cameFrom[c]) ==>
              c == nb.cell && s'.cameFrom[c] == current
    ensures s'.open == s.open ==> s'.counter == s.counter && s'.g == s.g && s'.cameFrom == s.cameFrom
    ensures s'.open != s.open ==>
              |s'.open| == |s.open| + 1 && s'.open[..|s.open|] == s.open
              && s'.open[|s.open|].counter == s.counter && s'.open[|s.open|].cell == nb.cell
              && s'.counter == s.counter + 1 && s'.g[nb.cell] == s.g[current] + env.distance(current, nb.cell)
              && s'.cameFrom == s.cameFrom[nb.cell := current]
              && (CachesAgree(env, s.caches) ==>
                    s'.open[|s.open|].f == FScore(blend, s'.g[nb.cell], env.distance(nb.cell, end),
                                                  Heuristic(env, nb.cell), nb.windAligned, nb.currentAligned))
    ensures s'.caches == s.caches.(heuristic := s'.caches.heuristic)
    ensures CachesAgree(env, s.caches) ==> CachesAgree(env, s'.caches)
  {
    var n := nb.cell;
    if n in s.closed then s
    else
      var tentative := s.g[current] + env.distance(current, n);
      var scored := ScoreMove(env, s.caches, blend, tentative, nb, end);
      if n !in s.g || tentative < s.g[n] then
        Push(s.(caches := scored.1), current, n, tentative, scored.0)
      else
        s.(caches := scored.1)
  }

  /** Record `pred` as the predecessor of `n` at cost `cost` and queue `n`
      with score `f` under the next counter. */
  function Push(s: SearchState, pred: Cell, n: Cell, cost: real, f: real): SearchState {
    s.(open := s.open + [QEntry(f, s.counter, n)], counter := s.counter + 1,
       cameFrom := s.cameFrom[n := pred], g := s.g[n := cost])
  }

  lemma PushKeepsQueue(s: SearchState, pred: Cell, n: Cell, cost: real, f: real)
    requires QueueWellFormed(s)
    ensures QueueWellFormed(Push(s, pred, n, cost, f))
  {
    var s' := Push(s, pred, n, cost, f);
    forall e | e in s'.open
      ensures e.cell in s'.g
    {
      if e !in s.open {
        assert e == s'.open[|s.open|];
      }
    }
  }

  lemma PushKeepsTree(env: Env, start: Cell, s: SearchState, pred: Cell, n: Cell, cost: real, f: real)
    requires PredecessorTree(env, start, s)
    requires pred in s.closed && Step(env, pred, n) && n != start
    ensures PredecessorTree(env, start, Push(s, pred, n, cost, f))
  {
    var s' := Push(s, pred, n, cost, f);
    assert s'.g.Keys == s.g.Keys + {n};
    assert s'.cameFrom.Keys == s.cameFrom.Keys + {n};
  }

  lemma PushKeepsRecord(start: Cell, s: SearchState, pred: Cell, n: Cell, cost: real, f: real)
    requires ExploredRecord(start, s) && PredecessorsEarlier(s)
    requires pred in s.closed && n !in s.closed
    ensures ExploredRecord(start, Push(s, pred, n, cost, f))
    ensures PredecessorsEarlier(Push(s, pred, n, cost, f))
  {
  }

  lemma PushKeepsFrontier(env: Env, s: SearchState, pred: Cell, n: Cell, cost: real, f: real, pending: set<Cell>)
    requires FrontierQueued(s) && ExpandedExcept(env, s, pending)
    ensures FrontierQueued(Push(s, pred, n, cost, f))
    ensures ExpandedExcept(env, Push(s, pred, n, cost, f), pending)
  {
    var s' := Push(s, pred, n, cost, f);
    forall c | c in s'.g && c !in s'.closed
      ensures c in Cells(s'.open)
    {
      if c == n {
        assert s'.open[|s.open|].cell == n;
      } else {
        var e :| e in s.open && e.cell == c;
        assert e in s'.open;
      }
    }
  }

  lemma PushKeepsCosts(env: Env, start: Cell, s: SearchState, pred: Cell, n: Cell, cost: real, f: real)
    requires CostsAlongTree(env, start, s)
    requires pred in s.g && pred != n && n != start
    requires cost == s.g[pred] + env.distance(pred, n)
    requires forall m :: m in s.cameFrom ==> s.cameFrom[m] != n
    ensures CostsAlongTree(env, start, Push(s, pred, n, cost, f))
  {
    var s' := Push(s, pred, n, cost, f);
    forall m | m in s'.cameFrom
      ensures m in s'.g && s'.cameFrom[m] in s'.g
      ensures s'.g[m] == s'.g[s'.cameFrom[m]] + env.distance(s'.cameFrom[m], m)
    {
      if m != n {
        assert s'.cameFrom[m] == s.cameFrom[m] && s'.g[m] == s.g[m];
        assert s'.g[s.cameFrom[m]] == s.g[s.cameFrom[m]];
      }
    }
  }

  lemma CachesOnlyKeepStructure(env: Env, start: Cell, s: SearchState, caches: Caches, pending: set<Cell>)
    requires Structure(env, start, s, pending) && CachesAgree(env, caches)
    ensures Structure(env, start, s.(caches := caches), pending)
  {
    var t := s.(caches := caches);
    assert QueueWellFormed(t);
    assert PredecessorTree(env, start, t);
    assert ExploredRecord(start, t);
    assert PredecessorsEarlier(t);
    assert FrontierQueued(t);
    assert ExpandedExcept(env, t, pending);
    assert CostsAlongTree(env, start, t);
  }

  /** The unfolding of `Relax` for a neighbour that is not closed. */
  lemma RelaxOpenNeighbor(env: Env, blend: Blend, end: Cell, s: SearchState, current: Cell, nb: Neighbor,
                          tentative: real, scored: (real, Caches))
    requires current in s.g && nb.cell !in s.closed
    requires tentative == s.g[current] + env.distance(current, nb.cell)
    requires scored == ScoreMove(env, s.caches, blend, tentative, nb, end)
    ensures nb.cell !in s.g || tentative < s.g[nb.cell] ==>
              Relax(env, blend, end, s, current, nb) == Push(s.(caches := scored.1), current, nb.cell, tentative, scored.0)
    ensures !(nb.cell !in s.g || tentative < s.g[nb.cell]) ==>
              Relax(env, blend, end, s, current, nb) == s.(caches := scored.1)
  {
  }

  /** Relaxing a legal move out of the cell being expanded keeps the search's
      invariants. */
  lemma RelaxKeepsStructure(env: Env, blend: Blend, start: Cell, end: Cell, s: SearchState,
                            current: Cell, nb: Neighbor)
    requires Structure(env, start, s, {current}) && current in s.closed
    requires Step(env, current, nb.cell)
    ensures Structure(env, start, Relax(env, blend, end, s, current, nb), {current})
  {
    var n := nb.cell;
    if n !in s.closed {
      var tentative := s.g[current] + env.distance(current, n);
      var scored := ScoreMove(env, s.caches, blend, tentative, nb, end);
      RelaxOpenNeighbor(env, blend, end, s, current, nb, tentative, scored);
      var t := s.(caches := scored.1);
      assert CachesAgree(env, scored.1);
      CachesOnlyKeepStructure(env, start, s, scored.1, {current});
      if n !in s.g || tentative < s.g[n] {
        assert start in s.closed;
        PushKeepsQueue(t, current, n, tentative, scored.0);
        PushKeepsTree(env, start, t, current, n, tentative, scored.0);
        PushKeepsRecord(start, t, current, n, tentative, scored.0);
        PushKeepsFrontier(env, t, current, n, tentative, scored.0, {current});
        PushKeepsCosts(env, start, t, current, n, tentative, scored.0);
      }
    }
  }

  /** The cells a neighbour list offers. */
  function NeighborSet(neighbors: seq<Neighbor>): set<Cell> {
    set nb | nb in neighbors :: nb.cell
  }

  /** `get_neighbors`, seen from the search: exactly the cells of the legal
      moves out of `pos`. */
  method NeighborList(env: Env, caches: Caches, pos: Cell) returns (neighbors: seq<Neighbor>, caches': Caches)
    requires CachesAgree(env, caches)
    ensures forall k :: 0 <= k < |neighbors| ==> Step(env, pos, neighbors[k].cell)
    ensures forall b :: Step(env, pos, b) ==> b in NeighborSet(neighbors)
    ensures CachesAgree(env, caches')
  {
    neighbors, caches' := GetNeighbors(env, caches, pos);
    NeighborCellsSound(env, pos, |Directions|);
    forall b | Step(env, pos, b)
      ensures b in NeighborSet(neighbors)
    {
      NeighborCellsExact(env, pos, b);
      var k :| 0 <= k < |NeighborCells(env, pos)| && NeighborCells(env, pos)[k] == b;
      assert neighbors[k] in neighbors;
    }
  }

  /** The cells of the first `i` neighbours keep their costs as costs are
      added. */
  lemma KeysGrow(neighbors: seq<Neighbor>, i: nat, g: map<Cell, real>, g': map<Cell, real>)
    requires i < |neighbors|
    requires forall k :: 0 <= k < i ==> neighbors[k].cell in g
    requires g.Keys <= g'.Keys && neighbors[i].cell in g'
    ensures forall k :: 0 <= k < i + 1 ==> neighbors[k].cell in g'
  {
  }

  /** One pass of the neighbour loop, with what the loop needs of it. */
  method RelaxNeighbor(env: Env, blend: Blend, start: Cell, end: Cell, s: SearchState, current: Cell, nb: Neighbor)
    returns (s': SearchState)
    requires Structure(env, start, s, {current}) && current in s.closed
    requires Step(env, current, nb.cell)
    ensures Structure(env, start, s', {current})
    ensures s'.closed == s.closed && s'.explored == s.explored
    ensures s.g.Keys <= s'.g.Keys && nb.cell in s'.g
    ensures forall c :: c in s.closed ==> c in s'.g && s'.g[c] == s.g[c]
  {
    RelaxKeepsStructure(env, blend, start, end, s, current, nb);
    s' := Relax(env, blend, end, s, current, nb);
  }

  // ---------------------------------------------------------------------------
  // Expanding a cell
  // ---------------------------------------------------------------------------

  /** The neighbour loop of the search: relax every neighbour of `current`
      in the generator's order.  Afterwards every legal move out of
      `current` leads to a cell with a cost. */
  method Expand(env: Env, blend: Blend, start: Cell, end: Cell, s: SearchState, current: Cell)
    returns (s': SearchState)
    requires Structure(env, start, s, {current}) && current in s.closed
    ensures Structure(env, start, s', {})
    ensures s'.closed == s.closed && s'.explored == s.explored
    ensures forall c :: c in s.closed ==> c in s'.g && s'.g[c] == s.g[c]
  {
    var neighbors, caches := NeighborList(env, s.caches, current);
    CachesOnlyKeepStructure(env, start, s, caches, {current});
    s' := s.(caches := caches);
    var i := 0;
    while i < |neighbors|
      invariant 0 <= i <= |neighbors|
      invariant Structure(env, start, s', {current})
      invariant s'.closed == s.closed && s'.explored == s.explored
      invariant forall k :: 0 <= k < i ==> neighbors[k].cell in s'.g
      invariant forall c :: c in s.closed ==> c in s'.g && s'.g[c] == s.g[c]
    {
      ghost var before := s';
      s' := RelaxNeighbor(env, blend, start, end, s', current, neighbors[i]);
      KeysGrow(neighbors, i, before.g, s'.g);
      i := i + 1;
    }
    forall c, b | c in s'.closed && Step(env, c, b)
      ensures b in s'.g
    {
      if c == current {
        var nb :| nb in neighbors && nb.cell == b;
        var k :| 0 <= k < |neighbors| && neighbors[k] == nb;
      }
    }
  }

  // ---------------------------------------------------------------------------
  // Popping and closing
  // ---------------------------------------------------------------------------

  /** The state after `open_set.get()` removed the entry at `i`. */
  function Popped(s: SearchState, i: nat): SearchState
    requires i < |s.open|
  {
    s.(open := Without(s.open, i))
  }

  /** The state after `current` is closed and appended to the record. */
  function Closed(s: SearchState, current: Cell): SearchState {
    s.(closed := s.closed + {current}, explored := s.explored + [current])
  }

  lemma PoppedKeepsQueue(s: SearchState, i: nat)
    requires i < |s.open| && QueueWellFormed(s)
    ensures QueueWellFormed(Popped(s, i))
  {
    WithoutKeepsOrder(s.open, i);
  }

  lemma PoppedKeepsFrontier(s: SearchState, i: nat, closed: set<Cell>)
    requires i < |s.open| && FrontierQueued(s)
    requires s.open[i].cell in closed && s.closed <= closed
    ensures forall c :: c in s.g && c !in closed ==> c in Cells(Popped(s, i).open)
  {
    forall c | c in s.g && c !in closed
      ensures c in Cells(Popped(s, i).open)
    {
      WithoutKeepsOthers(s.open, i, c);
    }
  }

  /** Skipping an entry whose cell is already closed keeps the invariants. */
  lemma SkipKeepsStructure(env: Env, start: Cell, s: SearchState, i: nat)
    requires Structure(env, start, s, {}) && i < |s.open| && s.open[i].cell in s.closed
    ensures Structure(env, start, Popped(s, i), {})
  {
    PoppedKeepsQueue(s, i);
    PoppedKeepsFrontier(s, i, s.closed);
  }

  /** Closing the popped cell keeps the invariants, except that the cell
      still has to be expanded. */
  lemma ClosedKeepsRecord(start: Cell, p: SearchState, current: Cell)
    requires ExploredRecord(start, p) && PredecessorsEarlier(p)
    requires forall n :: n in p.cameFrom ==> p.cameFrom[n] in p.closed
    requires current !in p.closed && current in p.g
    requires p.explored == [] ==> current == start
    ensures ExploredRecord(start, Closed(p, current)) && PredecessorsEarlier(Closed(p, current))
  {
    var t := Closed(p, current);
    forall j, k | 0 <= j < |t.explored| && 0 <= k < |t.explored|
        && t.explored[k] in t.cameFrom && t.cameFrom[t.explored[k]] == t.explored[j]
      ensures j < k
    {
      if k == |p.explored| {
        assert t.explored[j] == p.explored[j];
      } else {
        assert t.explored[j] == p.explored[j] && t.explored[k] == p.explored[k];
      }
    }
  }

  lemma FirstPopIsStart(env: Env, start: Cell, s: SearchState, i: nat)
    requires PredecessorTree(env, start, s) && ExploredRecord(start, s) && QueueWellFormed(s)
    requires i < |s.open| && s.explored == []
    ensures s.open[i].cell == start
  {
    assert s.open[i] in s.open;
    assert s.g.Keys == {start};
  }

  lemma CloseKeepsStructure(env: Env, start: Cell, s: SearchState, i: nat)
    requires Structure(env, start, s, {}) && i < |s.open| && s.open[i].cell !in s.closed
    ensures Structure(env, start, Closed(Popped(s, i), s.open[i].cell), {s.open[i].cell})
    ensures Inside(start, s.open[i].cell)
  {
    var current := s.open[i].cell;
    var p := Popped(s, i);
    assert s.open[i] in s.open;
    PoppedKeepsQueue(s, i);
    PoppedKeepsFrontier(s, i, s.closed + {current});
    if s.explored == [] {
      FirstPopIsStart(env, start, s, i);
    }
    ClosedKeepsRecord(start, p, current);
  }

  /** Closing one more cell of a finite universe leaves fewer cells open. */
  lemma CloseShrinks(universe: set<Cell>, closed: set<Cell>, c: Cell)
    requires c in universe && c !in closed
    ensures |universe - (closed + {c})| < |universe - closed|
  {
    assert universe - closed == (universe - (closed + {c})) + {c};
  }

  // ---------------------------------------------------------------------------
  // Rebuilding the route
  // ---------------------------------------------------------------------------

  /** A sequence of cells joined by legal moves. */
  predicate IsWalk(env: Env, w: seq<Cell>) {
    forall k :: 0 <= k < |w| - 1 ==> Step(env, w[k], w[k + 1])
  }

  /** The length of a walk: the sum of its moves' straight-line lengths. */
  function PathCost(env: Env, w: seq<Cell>): real
    decreases |w|
  {
    if |w| < 2 then 0.0 else env.distance(w[0], w[1]) + PathCost(env, w[1..])
  }

  /** Costs that grow move by move along a walk add up to the walk's
      length. */
  lemma {:induction false} CostsAddUp(env: Env, g: map<Cell, real>, w: seq<Cell>)
    requires |w| > 0 && forall k :: 0 <= k < |w| ==> w[k] in g
    requires forall k :: 0 < k < |w| ==> g[w[k]] == g[w[k - 1]] + env.distance(w[k - 1], w[k])
    ensures g[w[|w| - 1]] == g[w[0]] + PathCost(env, w)
    decreases |w|
  {
    if |w| >= 2 {
      var t := w[1..];
      assert forall k :: 0 < k < |t| ==> t[k] == w[k + 1] && t[k - 1] == w[k];
      CostsAddUp(env, g, t);
      assert t[|t| - 1] == w[|w| - 1] && t[0] == w[1];
    }
  }

  /** Each cell of `path` after the first has the one before it as its
      predecessor. */
  ghost predicate PredecessorChain(s: SearchState, path: seq<Cell>) {
    forall k :: 0 < k < |path| ==> path[k] in s.cameFrom && s.cameFrom[path[k]] == path[k - 1]
  }

  lemma PrependChain(s: SearchState, c: Cell, path: seq<Cell>)
    requires PredecessorChain(s, path)
    requires path != [] ==> path[0] in s.cameFrom && s.cameFrom[path[0]] == c
    ensures PredecessorChain(s, [c] + path)
  {
    var path' := [c] + path;
    forall k | 0 < k < |path'|
      ensures path'[k] in s.cameFrom && s.cameFrom[path'[k]] == path'[k - 1]
    {
      assert path'[k] == path[k - 1];
    }
  }

  /** A chain of predecessors is a walk of legal moves. */
  lemma ChainIsWalk(env: Env, start: Cell, s: SearchState, path: seq<Cell>)
    requires PredecessorTree(env, start, s) && PredecessorChain(s, path)
    ensures IsWalk(env, path)
  {
    forall k | 0 <= k < |path| - 1
      ensures Step(env, path[k], path[k + 1])
    {
      assert path[k + 1] in s.cameFrom && s.cameFrom[path[k + 1]] == path[k];
    }
  }

  /** Along a chain of predecessors every cell has a cost, and each move
      adds its length. */
  lemma ChainCosts(env: Env, start: Cell, s: SearchState, path: seq<Cell>)
    requires CostsAlongTree(env, start, s) && PredecessorChain(s, path)
    requires |path| > 0 && path[0] == start
    ensures forall k :: 0 <= k < |path| ==> path[k] in s.g
    ensures forall k :: 0 < k < |path| ==> s.g[path[k]] == s.g[path[k - 1]] + env.distance(path[k - 1], path[k])
  {
    forall k | 0 <= k < |path|
      ensures path[k] in s.g
    {
      if k > 0 {
        assert path[k] in s.cameFrom;
      }
    }
  }

  /** Mid-way through rebuilding the route to `target`: `path` is a chain of
      predecessors of explored cells ending at `target`, `current` (the
      `idx`-th cell explored) is the predecessor of its first cell. */
  ghost predicate Backtracking(s: SearchState, target: Cell, current: Cell, path: seq<Cell>, idx: nat) {
    idx < |s.explored| && s.explored[idx] == current && current in s.closed
    && (path == [] ==> current == target)
    && (path != [] ==> path[|path| - 1] == target && path[0] in s.cameFrom && s.cameFrom[path[0]] == current)
    && PredecessorChain(s, path)
    && (forall c :: c in path ==> c in s.explored)
  }

  /** One step back along the predecessors: the predecessor was explored
      earlier. */
  lemma BacktrackStep(env: Env, start: Cell, s: SearchState, target: Cell, current: Cell, path: seq<Cell>, idx: nat)
    returns (j: nat)
    requires PredecessorTree(env, start, s) && ExploredRecord(start, s) && PredecessorsEarlier(s)
    requires Backtracking(s, target, current, path, idx) && current in s.cameFrom
    ensures j < idx && Backtracking(s, target, s.cameFrom[current], [current] + path, j)
  {
    var pred := s.cameFrom[current];
    assert pred in s.explored;
    j :| 0 <= j < |s.explored| && s.explored[j] == pred;
    PrependChain(s, current, path);
  }

  /** A cell without a predecessor is the start, which completes the route. */
  lemma BacktrackDone(env: Env, start: Cell, s: SearchState, target: Cell, current: Cell, path: seq<Cell>, idx: nat)
    requires PredecessorTree(env, start, s) && ExploredRecord(start, s) && CostsAlongTree(env, start, s)
    requires Backtracking(s, target, current, path, idx) && current !in s.cameFrom
    ensures current == start
    ensures var route := [start] + path;
            route[|route| - 1] == target && IsWalk(env, route)
            && (forall c :: c in route ==> c in s.explored)
            && (forall k :: 0 <= k < |route| ==> route[k] in s.g)
            && forall k :: 0 < k < |route| ==> s.g[route[k]] == s.g[route[k - 1]] + env.distance(route[k - 1], route[k])
  {
    assert current in s.g;
    PrependChain(s, start, path);
    ChainIsWalk(env, start, s, [start] + path);
    ChainCosts(env, start, s, [start] + path);
  }

  /** Follow the predecessors from `target` back to the start.  The loop
      stops because every predecessor was explored before its successor. */
  method ReconstructPath(env: Env, start: Cell, s: SearchState, target: Cell) returns (path: seq<Cell>)
    requires PredecessorTree(env, start, s) && ExploredRecord(start, s) && PredecessorsEarlier(s)
    requires CostsAlongTree(env, start, s)
    requires target in s.closed
    ensures |path| > 0 && path[0] == start && path[|path| - 1] == target
    ensures IsWalk(env, path)
    ensures forall c :: c in path ==> c in s.explored
    ensures forall k :: 0 <= k < |path| ==> path[k] in s.g
    ensures forall k :: 0 < k < |path| ==> s.g[path[k]] == s.g[path[k - 1]] + env.distance(path[k - 1], path[k])
  {
    var current := target;
    assert target in s.explored;
    ghost var idx: nat :| idx < |s.explored| && s.explored[idx] == current;
    path := [];
    while current in s.cameFrom
      invariant Backtracking(s, target, current, path, idx)
      decreases idx
    {
      idx := BacktrackStep(env, start, s, target, current, path, idx);
      path := [current] + path;
      current := s.cameFrom[current];
    }
    BacktrackDone(env, start, s, target, current, path, idx);
    path := [start] + path;
  }

  // ---------------------------------------------------------------------------
  // Completeness
  // ---------------------------------------------------------------------------

  /** A walk that starts in a set closed under legal moves stays in it. */
  lemma {:induction false} WalkStaysInside(env: Env, w: seq<Cell>, cells: set<Cell>)
    requires |w| > 0 && w[0] in cells && IsWalk(env, w)
    requires forall c, b :: c in cells && Step(env, c, b) ==> b in cells
    ensures w[|w| - 1] in cells
  {
    if |w| > 1 {
      var w' := w[..|w| - 1];
      assert IsWalk(env, w') by {
        forall k | 0 <= k < |w'| - 1
          ensures Step(env, w'[k], w'[k + 1])
        {
          assert w'[k] == w[k] && w'[k + 1] == w[k + 1];
        }
      }
      WalkStaysInside(env, w', cells);
      assert Step(env, w[|w| - 2], w[|w| - 1]);
    }
  }

  /** With the queue empty, every cell with a cost is closed, so the closed
      cells contain the start and every legal move out of them. */
  lemma EmptyQueueCloses(env: Env, start: Cell, s: SearchState)
    requires Structure(env, start, s, {}) && |s.open| == 0
    ensures start in s.closed
    ensures forall c, b :: c in s.closed && Step(env, c, b) ==> b in s.closed
  {
    assert start in s.g;
  }

  /** Every walk from the start ends at an explored cell. */
  lemma ExhaustedSearchCoversWalks(env: Env, start: Cell, s: SearchState, w: seq<Cell>)
    requires Structure(env, start, s, {}) && |s.open| == 0
    requires |w| > 0 && w[0] == start && IsWalk(env, w)
    ensures w[|w| - 1] in s.explored
  {
    EmptyQueueCloses(env, start, s);
    WalkStaysInside(env, w, s.closed);
  }

  // ---------------------------------------------------------------------------
  // The search
  // ---------------------------------------------------------------------------

  /** The queue holds the start alone, at score 0; nothing has a
      predecessor and nothing is closed. */
  function Initial(start: Cell, caches: Caches): SearchState {
    SearchState([QEntry(0.0, 0, start)], 1, map[], map[start := 0.0], {}, [], caches)
  }

  lemma InitialStructure(env: Env, start: Cell, caches: Caches)
    requires CachesAgree(env, caches)
    ensures Structure(env, start, Initial(start, caches), {})
  {
    assert Cells(Initial(start, caches).open) == {start};
  }

  /** The cells the search may close: the chart and the start. */
  function Universe(start: Cell): (u: set<Cell>)
    ensures forall c :: c in u <==> Inside(start, c)
  {
    CellsInBounds() + {start}
  }

  /** One pass of the search loop: pop the least entry; skip it when its cell
      is closed; otherwise close the cell, and unless it is the destination,
      expand it.  Each pass closes a new cell of the finite universe or
      shortens the queue. */
  method SearchStep(env: Env, blend: Blend, start: Cell, end: Cell, s: SearchState)
    returns (s': SearchState, reached: bool)
    requires Structure(env, start, s, {}) && end !in s.closed && |s.open| > 0
    ensures s.closed <= s'.closed <= s.closed + Universe(start)
    ensures |Universe(start) - s'.closed| < |Universe(start) - s.closed|
            || (s'.closed == s.closed && |s'.open| < |s.open|)
    ensures forall c :: c in s.closed ==> c in s'.g && s'.g[c] == s.g[c]
    ensures !reached ==> Structure(env, start, s', {}) && end !in s'.closed
    ensures reached ==>
              PredecessorTree(env, start, s') && ExploredRecord(start, s') && PredecessorsEarlier(s')
              && CostsAlongTree(env, start, s') && CachesAgree(env, s'.caches)
              && end in s'.closed && s'.explored[|s'.explored| - 1] == end
  {
    var i := PopMin(s.open);
    var current := s.open[i].cell;
    if current in s.closed {
      SkipKeepsStructure(env, start, s, i);
      return Popped(s, i), false;
    }
    CloseKeepsStructure(env, start, s, i);
    CloseShrinks(Universe(start), s.closed, current);
    s' := Closed(Popped(s, i), current);
    if current == end {
      return s', true;
    }
    s' := Expand(env, blend, start, end, s', current);
    reached := false;
  }

  /** What the exploration record says once something is closed. */
  lemma RecordFacts(env: Env, start: Cell, s: SearchState)
    requires PredecessorTree(env, start, s) && ExploredRecord(start, s) && s.closed != {}
    ensures GoodRecord(start, s.explored)
  {
    var c :| c in s.closed;
    assert c in s.explored;
  }

  datatype Route = Found(path: seq<Cell>, explored: seq<Cell>) | NoRoute(explored: seq<Cell>)

  /** The exploration record as `a_star` returns it: it starts at the
      start, lists each cell once and stays inside the universe. */
  predicate GoodRecord(start: Cell, explored: seq<Cell>) {
    explored != [] && explored[0] == start
    && (forall j, k :: 0 <= j < k < |explored| ==> explored[j] != explored[k])
    && (forall c :: c in explored ==> Inside(start, c))
  }

  /** The route `a_star` returns once the destination is closed. */
  method FoundRoute(env: Env, start: Cell, end: Cell, s: SearchState) returns (route: Route)
    requires PredecessorTree(env, start, s) && ExploredRecord(start, s) && PredecessorsEarlier(s)
    requires CostsAlongTree(env, start, s)
    requires end in s.closed && s.explored[|s.explored| - 1] == end
    ensures route.Found? && route.explored == s.explored && GoodRecord(start, route.explored)
    ensures route.explored[|route.explored| - 1] == end
    ensures |route.path| > 0 && route.path[0] == start && route.path[|route.path| - 1] == end
    ensures IsWalk(env, route.path) && forall c :: c in route.path ==> c in route.explored
    ensures RouteCosts(env, s.g, route.path)
  {
    RecordFacts(env, start, s);
    var path := ReconstructPath(env, start, s, end);
    CostsAddUp(env, s.g, path);
    route := Found(path, s.explored);
  }

  /** The cost table agrees with a route: every cell of it has a cost, each
      move adds its length, and the last cell's cost is the route's length
      (the first cell costs nothing). */
  ghost predicate RouteCosts(env: Env, g: map<Cell, real>, path: seq<Cell>) {
    |path| > 0 && (forall k :: 0 <= k < |path| ==> path[k] in g)
    && g[path[0]] == 0.0
    && (forall k :: 0 < k < |path| ==> g[path[k]] == g[path[k - 1]] + env.distance(path[k - 1], path[k]))
    && g[path[|path| - 1]] == PathCost(env, path)
  }

  /** The answer `a_star` gives when the queue runs dry. */
  method NoRouteResult(env: Env, start: Cell, end: Cell, s: SearchState) returns (route: Route)
    requires Structure(env, start, s, {}) && |s.open| == 0 && end !in s.closed
    ensures route.NoRoute? && route.explored == s.explored && GoodRecord(start, route.explored)
    ensures forall w :: |w| > 0 && w[0] == start && IsWalk(env, w) ==>
              w[|w| - 1] in route.explored && w[|w| - 1] != end
    ensures forall c :: c in s.g ==> c in route.explored
  {
    EmptyQueueCloses(env, start, s);
    RecordFacts(env, start, s);
    forall w | |w| > 0 && w[0] == start && IsWalk(env, w)
      ensures w[|w| - 1] in s.explored && w[|w| - 1] != end
    {
      ExhaustedSearchCoversWalks(env, start, s, w);
    }
    route := NoRoute(s.explored);
  }

  /** `a_star`.  The record of explored cells starts at the start and lists
      each cell once.  A found route is a walk of legal moves from the start
      to the destination through explored cells, and the destination is the
      last cell explored.  When no route is found, every cell a walk from
      the start can reach was explored, and the destination is not one of
      them: there is no route at all.  `costs` is the search's path-cost
      table (`g_score`) at the end: the start costs nothing, and along a
      found route each move adds its length, so the destination's cost is
      the route's length. */
  method AStar(env: Env, caches: Caches, start: Cell, end: Cell, isCargo: bool, isPassenger: bool, buttons: Buttons)
    returns (route: Route, costs: map<Cell, real>, caches': Caches)
    requires CachesAgree(env, caches)
    ensures CachesAgree(env, caches')
    ensures GoodRecord(start, route.explored)
    ensures start in costs && costs[start] == 0.0
    ensures forall c :: c in route.explored ==> c in costs
    ensures route.Found? ==>
              |route.path| > 0 && route.path[0] == start && route.path[|route.path| - 1] == end
              && IsWalk(env, route.path)
              && (forall c :: c in route.path ==> c in route.explored)
              && route.explored[|route.explored| - 1] == end
              && RouteCosts(env, costs, route.path)
    ensures route.NoRoute? ==>
              (forall w :: |w| > 0 && w[0] == start && IsWalk(env, w) ==>
                 w[|w| - 1] in route.explored && w[|w| - 1] != end)
              && forall c :: c in costs ==> c in route.explored
  {
    var blend := SelectBlend(isCargo, isPassenger, buttons);
    InitialStructure(env, start, caches);
    var s := Initial(start, caches);
    while |s.open| > 0
      invariant Structure(env, start, s, {})
      invariant end !in s.closed
      invariant s.closed <= Universe(start)
      decreases |Universe(start) - s.closed|, |s.open|
    {
      var reached;
      s, reached := SearchStep(env, blend, start, end, s);
      if reached {
        route := FoundRoute(env, start, end, s);
        return route, s.g, s.caches;
      }
    }
    route := NoRouteResult(env, start, end, s);
    costs, caches' := s.g, s.caches;
  }
}
