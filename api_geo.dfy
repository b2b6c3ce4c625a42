/**
 * `GET /api/busqueda-geo`: places within a radius of a point, optionally of some categories.
 */
module ApiGeo {
  import opened Wrappers
  import opened Text
  import opened ApiSql
  import opened ApiRequest

  /** The query-string fields the endpoint reads; `None` is a field that is not sent. */
  datatype GeoRequest = GeoRequest(lat: Option<string>, lng: Option<string>,
                                   radius: Option<string>, categories: Option<string>)

  /** `categories && categories !== 'all'` */
  predicate FiltersCategories(req: GeoRequest) {
    Truthy(req.categories) && req.categories.value != "all"
  }

  /** The built query, its parameters, and the category filter the handler builds beside them. */
  datatype GeoSearch = GeoSearch(query: Sql, categoryFilter: Option<Clause>)

  /** `radius = 1000`: the default applies only when the field is not sent. */
  function RadiusParam(req: GeoRequest): Param {
    if req.radius.Some? then Text(req.radius.value) else Number(1000)
  }

  /** `$4, $5, ...`: one placeholder per listed category. */
  function CategoryPlaceholders(n: nat): (ps: seq<nat>)
    ensures |ps| == n && forall i :: 0 <= i < n ==> ps[i] == i + 4
  {
    seq(n, i => i + 4)
  }

  /** The category list as parameters. */
  function CategoryParams(cats: seq<string>): (ps: seq<Param>)
    ensures |ps| == |cats| && forall i :: 0 <= i < |cats| ==> ps[i] == Text(cats[i])
  {
    seq(|cats|, i requires 0 <= i < |cats| => Text(cats[i]))
  }

  /** 400 without `lat` or `lng`; otherwise the radius query on `[lng, lat, radius]` (radius 1000
      when it is not sent), followed by the comma-separated categories when they are given and not
      `all`. The category filter is built with placeholders `$4...`, but the query sent is the
      radius query alone. */
  function BusquedaGeo(req: GeoRequest): (r: Result<GeoSearch, int>)
    ensures r.Failure? <==> !Truthy(req.lat) || !Truthy(req.lng)
    ensures r.Failure? ==> r.error == 400
    ensures r.Success? ==> r.value.query.clauses == [GeoSelect(1, 2, 3)]
    ensures r.Success? ==>
              && |r.value.query.params| >= 3
              && r.value.query.params[..3] == [Text(req.lng.value), Text(req.lat.value), RadiusParam(req)]
    ensures r.Success? ==> (r.value.categoryFilter.Some? <==> FiltersCategories(req))
  {
    if !Truthy(req.lat) || !Truthy(req.lng) then Failure(400)
    else
      var params := [Text(req.lng.value), Text(req.lat.value), RadiusParam(req)];
      if FiltersCategories(req) then
        var categoryList := Split(req.categories.value, ',');
        var filter := CategoryIn(CategoryPlaceholders(|categoryList|));
        Success(GeoSearch(Sql([GeoSelect(1, 2, 3)], params + CategoryParams(categoryList)), Some(filter)))
      else
        Success(GeoSearch(Sql([GeoSelect(1, 2, 3)], params), None))
  }

  /** The pushed categories are the comma-separated pieces of `categories`, in order, and they
      join back into it. */
  lemma GeoCategoryParams(req: GeoRequest)
    requires Truthy(req.lat) && Truthy(req.lng) && FiltersCategories(req)
    ensures var q := BusquedaGeo(req).value.query;
            var cats := Split(req.categories.value, ',');
            |q.params| == 3 + |cats|
            && (forall i :: 0 <= i < |cats| ==> q.params[3 + i] == Text(cats[i]))
            && Join(cats, ",") == req.categories.value
  {
    JoinSplit(req.categories.value, ',');
  }

  /** Without a category filter the query is numbered; with one, the parameters outnumber the
      placeholders of the query sent, while the filter that was built and left out would have
      numbered them exactly. */
  lemma GeoNumbering(req: GeoRequest)
    requires Truthy(req.lat) && Truthy(req.lng)
    ensures var s := BusquedaGeo(req).value;
            && (!FiltersCategories(req) ==> Numbered(s.query))
            && (FiltersCategories(req) ==>
                  !Numbered(s.query)
                  && Numbered(Sql(s.query.clauses + [s.categoryFilter.value], s.query.params)))
  {
    var s := BusquedaGeo(req).value;
    var q := s.query;
    assert q.clauses[..0] == [];
    assert AllPlaceholders(q.clauses) == [1, 2, 3];
    if FiltersCategories(req) {
      var cats := Split(req.categories.value, ',');
      var ps := q.params[3..];
      assert q.params == q.params[..3] + ps;
      assert Numbered(Sql(q.clauses, q.params[..3]));
      AppendNumbered(Sql(q.clauses, q.params[..3]), s.categoryFilter.value, ps);
      assert |cats| >= 1;
    }
  }
}
