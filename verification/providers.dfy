/** The data the route engine consults and the caches it keeps of them.

    Land pixels, blocked cells, sea depth, wind and current directions, the
    route heuristic and the straight-line distance all come from outside the
    engine (a screen buffer, data files, web services, `math.sqrt`).  They
    are fields of `Env`.  Wind, current and heuristic values are fetched at
    the cell's sampling site on the quarter-degree lattices; depth is
    fetched by cell.  Every fetched value is remembered in a cache keyed by
    cell, and a cache is consistent when each entry equals what its provider
    gives for that cell. */
module Providers {
  import opened Grid
  import CoordConv

  datatype GeoPoint = GeoPoint(longitude: real, latitude: real)

  datatype Env = Env(
    isLand: Cell -> bool,          // a black pixel under the cell centre
    blocks: set<Cell>,             // cells the user or the data marked impassable
    depthAt: Cell -> real,         // metres, negative below sea level
    windAt: GeoPoint -> real,      // wind direction in degrees
    currentAt: GeoPoint -> real,   // current direction in degrees
    heuristicAt: GeoPoint -> real, // precomputed route heuristic
    distance: (Cell, Cell) -> real // `euclidean`
  )

  /** Where a cell's wind, current and heuristic are sampled: the cell's grid
      coordinates converted to degrees and rounded once more onto the
      lattices. */
  function SampleSite(c: Cell): GeoPoint {
    GeoPoint(CoordConv.RoundLongitude(CoordConv.GridToLongitude(c.x)),
             CoordConv.RoundLatitude(CoordConv.GridToLatitude(c.y)))
  }

  /** The second rounding changes nothing: a cell is sampled at its grid
      point, which lies on both quarter-degree lattices. */
  lemma SampleSiteIsGridPoint(c: Cell)
    ensures SampleSite(c) == GeoPoint(CoordConv.GridToLongitude(c.x), CoordConv.GridToLatitude(c.y))
    ensures CoordConv.OnLongitudeLattice(SampleSite(c).longitude)
    ensures CoordConv.OnLatitudeLattice(SampleSite(c).latitude)
  {
    CoordConv.LongitudeLatticeFixed(CoordConv.GridToLongitude(c.x));
    CoordConv.LatitudeLatticeFixed(CoordConv.GridToLatitude(c.y));
  }

  function WindDirection(env: Env, c: Cell): real {
    env.windAt(SampleSite(c))
  }

  function CurrentDirection(env: Env, c: Cell): real {
    env.currentAt(SampleSite(c))
  }

  function Heuristic(env: Env, c: Cell): real {
    env.heuristicAt(SampleSite(c))
  }

  datatype Caches = Caches(
    wind: map<Cell, real>,
    current: map<Cell, real>,
    heuristic: map<Cell, real>,
    depth: map<Cell, real>)

  const NoCaches: Caches := Caches(map[], map[], map[], map[])

  predicate WindAgrees(env: Env, m: map<Cell, real>) {
    forall c :: c in m ==> m[c] == WindDirection(env, c)
  }

  predicate CurrentAgrees(env: Env, m: map<Cell, real>) {
    forall c :: c in m ==> m[c] == CurrentDirection(env, c)
  }

  predicate HeuristicAgrees(env: Env, m: map<Cell, real>) {
    forall c :: c in m ==> m[c] == Heuristic(env, c)
  }

  predicate DepthAgrees(env: Env, m: map<Cell, real>) {
    forall c :: c in m ==> m[c] == env.depthAt(c)
  }

  predicate CachesAgree(env: Env, caches: Caches) {
    WindAgrees(env, caches.wind) && CurrentAgrees(env, caches.current)
    && HeuristicAgrees(env, caches.heuristic) && DepthAgrees(env, caches.depth)
  }

  lemma NoCachesAgree(env: Env)
    ensures CachesAgree(env, NoCaches)
  {
  }

  datatype Lookup = Lookup(value: real, cache: map<Cell, real>)

  /** A memoised fetch: the cached value when there is one, otherwise the
      fetched value, which is then remembered. */
  function Memo(cache: map<Cell, real>, key: Cell, fetched: real): (r: Lookup)
    ensures r.cache.Keys == cache.Keys + {key}
    ensures r.cache[key] == r.value
    ensures forall c :: c in cache ==> r.cache[c] == cache[c]
    ensures key !in cache ==> r.value == fetched
  {
    if key in cache then Lookup(cache[key], cache) else Lookup(fetched, cache[key := fetched])
  }

  /** The wind direction at a cell through the wind cache.  A consistent
      cache answers with the provider's value and stays consistent. */
  function LookupWind(env: Env, caches: Caches, c: Cell): (r: (real, Caches))
    ensures r.1 == caches.(wind := r.1.wind) && r.1.wind.Keys == caches.wind.Keys + {c}
    ensures WindAgrees(env, caches.wind) ==>
              r.0 == WindDirection(env, c) && WindAgrees(env, r.1.wind)
  {
    var l := Memo(caches.wind, c, WindDirection(env, c));
    (l.value, caches.(wind := l.cache))
  }

  /** The current direction at a cell through the current cache. */
  function LookupCurrent(env: Env, caches: Caches, c: Cell): (r: (real, Caches))
    ensures r.1 == caches.(current := r.1.current) && r.1.current.Keys == caches.current.Keys + {c}
    ensures CurrentAgrees(env, caches.current) ==>
              r.0 == CurrentDirection(env, c) && CurrentAgrees(env, r.1.current)
  {
    var l := Memo(caches.current, c, CurrentDirection(env, c));
    (l.value, caches.(current := l.cache))
  }

  /** `h_heuristic`: the heuristic at a cell through the heuristic cache. */
  function LookupHeuristic(env: Env, caches: Caches, c: Cell): (r: (real, Caches))
    ensures r.1 == caches.(heuristic := r.1.heuristic) && r.1.heuristic.Keys == caches.heuristic.Keys + {c}
    ensures HeuristicAgrees(env, caches.heuristic) ==>
              r.0 == Heuristic(env, c) && HeuristicAgrees(env, r.1.heuristic)
  {
    var l := Memo(caches.heuristic, c, Heuristic(env, c));
    (l.value, caches.(heuristic := l.cache))
  }

  /** The depth of a cell through the depth cache. */
  function LookupDepth(env: Env, caches: Caches, c: Cell): (r: (real, Caches))
    ensures r.1 == caches.(depth := r.1.depth) && r.1.depth.Keys == caches.depth.Keys + {c}
    ensures DepthAgrees(env, caches.depth) ==>
              r.0 == env.depthAt(c) && DepthAgrees(env, r.1.depth)
  {
    var l := Memo(caches.depth, c, env.depthAt(c));
    (l.value, caches.(depth := l.cache))
  }
}
