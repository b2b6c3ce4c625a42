/**
 * `GET /api/estadisticas`: the statistics snapshot, the category taxonomy it reports, and the
 * module-level cache that serves the first snapshot to every later request.
 */
module ApiStats {
  import opened Wrappers

  /** The four kinds of place the taxonomy groups categories into. */
  datatype Tipo = Cultural | Naturaleza | Urbano | Otros

  /** The `CASE` of the types query; a `NULL` category matches no `IN` list and falls to `ELSE`. */
  function TipoOf(categoria: Option<string>): (t: Tipo)
    ensures t == Cultural <==> categoria.Some? && categoria.value in {"museo", "teatro", "basilica"}
    ensures t == Naturaleza <==> categoria.Some? && categoria.value in {"parque", "mirador"}
    ensures t == Urbano <==> categoria.Some? && categoria.value in {"plaza", "mercado"}
  {
    if categoria.None? then Otros
    else if categoria.value in {"museo", "teatro", "basilica"} then Cultural
    else if categoria.value in {"parque", "mirador"} then Naturaleza
    else if categoria.value in {"plaza", "mercado"} then Urbano
    else Otros
  }

  /** How many rows fall in one group (`COUNT(*) ... GROUP BY tipo`). */
  function TipoCount(cats: seq<Option<string>>, t: Tipo): (n: nat)
    ensures n <= |cats|
  {
    if cats == [] then 0
    else (if TipoOf(cats[0]) == t then 1 else 0) + TipoCount(cats[1..], t)
  }

  /** `jsonb_object_agg(tipo, count)`: one entry per group that has rows; over an empty table the
      aggregate is `NULL`. */
  function TypesDistribution(cats: seq<Option<string>>): (r: Option<map<Tipo, nat>>)
    ensures r.None? <==> cats == []
    ensures r.Some? ==> forall t :: t in r.value <==> TipoCount(cats, t) > 0
    ensures r.Some? ==> forall t :: t in r.value ==> r.value[t] == TipoCount(cats, t)
  {
    if cats == [] then None
    else Some(map t | t in {Cultural, Naturaleza, Urbano, Otros} && TipoCount(cats, t) > 0 :: TipoCount(cats, t))
  }

  /** Every row is counted in exactly one group. */
  lemma {:induction false} TipoCountsPartition(cats: seq<Option<string>>)
    ensures TipoCount(cats, Cultural) + TipoCount(cats, Naturaleza) + TipoCount(cats, Urbano)
            + TipoCount(cats, Otros) == |cats|
  {
    if cats != [] {
      TipoCountsPartition(cats[1..]);
    }
  }

  /** One row of the per-category query. */
  datatype CategoryStat = CategoryStat(categoria: Option<string>, count: nat, avgRating: Option<real>)
  /** One row of the top-rated query. */
  datatype TopPlace = TopPlace(nombre: string, categoria: Option<string>, rating: Option<real>, lng: real, lat: real)
  /** The centroid row. */
  datatype Density = Density(centerLng: Option<real>, centerLat: Option<real>, total: nat)

  /** The results of the four statistics queries; `categorias` is the category column the
      types query groups. */
  datatype StatsResults = StatsResults(categories: seq<CategoryStat>, topRated: seq<TopPlace>,
                                       density: Density, categorias: seq<Option<string>>)

  datatype Snapshot = Snapshot(categories: seq<CategoryStat>, topRated: seq<TopPlace>, density: Density,
                               typesDistribution: Option<map<Tipo, nat>>, lastUpdated: string)

  /** The `stats` object built from the query results and the current time. */
  function MakeSnapshot(res: StatsResults, now: string): (s: Snapshot)
    ensures s.typesDistribution == TypesDistribution(res.categorias)
    ensures s.categories == res.categories && s.topRated == res.topRated && s.density == res.density
    ensures s.lastUpdated == now
  {
    Snapshot(res.categories, res.topRated, res.density, TypesDistribution(res.categorias), now)
  }

  /** The cache key. */
  const StatsKey: string := "estadisticas"

  /** A request: the query results, or `None` when a query fails, and the time it is served. */
  datatype StatsRequest = StatsRequest(results: Option<StatsResults>, now: string)

  /** `{success: true, fromCache, data}`, or the 500 reply. */
  datatype StatsResponse = StatsOk(fromCache: bool, data: Snapshot) | ServerError

  /** One request against the cache contents: a hit answers from the cache; a miss computes,
      stores and answers; a failed query answers 500 and stores nothing. */
  function Respond(entries: map<string, Snapshot>, req: StatsRequest): (out: (map<string, Snapshot>, StatsResponse))
    ensures StatsKey in entries ==> out == (entries, StatsOk(true, entries[StatsKey]))
    ensures StatsKey !in entries && req.results.None? ==> out == (entries, ServerError)
    ensures StatsKey !in entries && req.results.Some? ==>
              var s := MakeSnapshot(req.results.value, req.now);
              out == (entries[StatsKey := s], StatsOk(false, s))
  {
    if StatsKey in entries then (entries, StatsOk(true, entries[StatsKey]))
    else if req.results.None? then (entries, ServerError)
    else
      var s := MakeSnapshot(req.results.value, req.now);
      (entries[StatsKey := s], StatsOk(false, s))
  }

  /** The module-level `cache` map. */
  class StatsCache {
    var entries: map<string, Snapshot>

    constructor()
      ensures entries == map[]
    {
      entries := map[];
    }

    /** `cache.set(key, value, ttl)`: a `Map` takes no third argument, so the time to live is
        dropped and the entry stays for the life of the process. */
    method Set(key: string, value: Snapshot, ttl: int)
      modifies this
      ensures entries == old(entries)[key := value]
    {
      entries := entries[key := value];
    }

    /** The handler. */
    method Estadisticas(req: StatsRequest) returns (resp: StatsResponse)
      modifies this
      ensures (entries, resp) == Respond(old(entries), req)
    {
      if StatsKey in entries {
        return StatsOk(true, entries[StatsKey]);
      }
      if req.results.None? {
        return ServerError;
      }
      var stats := MakeSnapshot(req.results.value, req.now);
      Set(StatsKey, stats, 3600000);
      resp := StatsOk(false, stats);
    }
  }

  /** The responses to a series of requests, starting from the given cache contents. */
  function Run(entries: map<string, Snapshot>, reqs: seq<StatsRequest>): (resps: seq<StatsResponse>)
    ensures |resps| == |reqs|
    decreases |reqs|
  {
    if reqs == [] then []
    else
      var out := Respond(entries, reqs[0]);
      [out.1] + Run(out.0, reqs[1..])
  }

  /** Once the snapshot is cached, every request is answered from the cache with that very
      snapshot, however much later it comes: nothing ever expires. */
  lemma {:induction false} CachedForever(entries: map<string, Snapshot>, reqs: seq<StatsRequest>)
    requires StatsKey in entries
    ensures forall i :: 0 <= i < |reqs| ==> Run(entries, reqs)[i] == StatsOk(true, entries[StatsKey])
  {
    if reqs != [] {
      CachedForever(entries, reqs[1..]);
    }
  }

  /** From an empty cache: requests fail until the first one whose queries succeed; that one is
      computed and not from the cache; every later one returns that snapshot from the cache. */
  lemma {:induction false} FirstSnapshotServedForever(reqs: seq<StatsRequest>, k: nat)
    requires k < |reqs| && reqs[k].results.Some?
    requires forall i :: 0 <= i < k ==> reqs[i].results.None?
    ensures var resps := Run(map[], reqs);
            var s := MakeSnapshot(reqs[k].results.value, reqs[k].now);
            && (forall i :: 0 <= i < k ==> resps[i] == ServerError)
            && resps[k] == StatsOk(false, s)
            && (forall i :: k < i < |reqs| ==> resps[i] == StatsOk(true, s))
  {
    if k == 0 {
      var s := MakeSnapshot(reqs[0].results.value, reqs[0].now);
      CachedForever(map[StatsKey := s], reqs[1..]);
    } else {
      FirstSnapshotServedForever(reqs[1..], k - 1);
    }
  }
}
