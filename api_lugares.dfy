/**
 * `GET /api/lugares`: the page query with its optional geographic, category, search and rating
 * filters, the count query beside it, and the pagination figures.
 */
module ApiLugares {
  import opened Wrappers
  import opened Text
  import opened ApiSql
  import opened ApiRequest

  /** The query-string fields the endpoint reads; `None` is a field that is not sent. */
  datatype LugaresRequest = LugaresRequest(
    categoria: Option<string>,
    search: Option<string>,
    minRating: Option<string>,
    maxDistance: Option<string>,
    lat: Option<string>,
    lng: Option<string>,
    limit: Option<string>,
    page: Option<string>)

  /** `lat && lng && max_distance` */
  predicate IsGeo(r: LugaresRequest) {
    Truthy(r.lat) && Truthy(r.lng) && Truthy(r.maxDistance)
  }

  /** `categoria && categoria !== 'all'` */
  predicate HasCategory(r: LugaresRequest) {
    Truthy(r.categoria) && r.categoria.value != "all"
  }

  /** `search && search.trim() !== ""` */
  predicate HasSearch(r: LugaresRequest) {
    r.search.Some? && Strip(r.search.value) != []
  }

  /** `min_rating` */
  predicate HasMinRating(r: LugaresRequest) {
    Truthy(r.minRating)
  }

  /** `lat && lng`: the test that picks the order. */
  predicate NearPoint(r: LugaresRequest) {
    Truthy(r.lat) && Truthy(r.lng)
  }

  /** `limit = 50` and `page = 1`: the defaults apply only to fields that are not sent. */
  function LimitArg(r: LugaresRequest): Arg {
    if r.limit.Some? then Str(r.limit.value) else Num(50)
  }

  function PageArg(r: LugaresRequest): Arg {
    if r.page.Some? then Str(r.page.value) else Num(1)
  }

  /** `%search%` */
  function Pattern(search: string): string {
    "%" + search + "%"
  }

  // The page query, one step of the handler per function. Each step numbers its placeholders
  // from the current length of the parameter vector.

  function SelectStep(r: LugaresRequest): Sql {
    if IsGeo(r) then
      Sql([GeoSelect(1, 2, 3)], [Float(r.lng.value), Float(r.lat.value), Float(r.maxDistance.value)])
    else Sql([PlainSelect], [])
  }

  function CategoryStep(r: LugaresRequest, q: Sql): Sql {
    if HasCategory(r) then
      Sql(q.clauses + [CategoryIs(|q.params| + 1)], q.params + [Text(r.categoria.value)])
    else q
  }

  function SearchStep(r: LugaresRequest, q: Sql): Sql {
    if HasSearch(r) then
      var n := |q.params|;
      Sql(q.clauses + [SearchMatches(n + 1, n + 2)],
          q.params + [Text(Pattern(r.search.value)), Text(Pattern(r.search.value))])
    else q
  }

  function RatingStep(r: LugaresRequest, q: Sql): Sql {
    if HasMinRating(r) then
      Sql(q.clauses + [RatingAtLeast(|q.params| + 1)], q.params + [Float(r.minRating.value)])
    else q
  }

  function PagingStep(r: LugaresRequest, q: Sql): Sql {
    var n := |q.params|;
    Sql(q.clauses + [OrderBy(if NearPoint(r) then ByDistance else ByRatingThenName), LimitOffset(n + 1, n + 2)],
        q.params + [Int(LimitArg(r)), OffsetOf(PageArg(r), LimitArg(r))])
  }

  /** The page query and its parameters. */
  function LugaresQuery(r: LugaresRequest): Sql {
    PagingStep(r, RatingStep(r, SearchStep(r, CategoryStep(r, SelectStep(r)))))
  }

  /** The handler's builder: it extends `query` and `params` and advances `paramIndex`, which
      stays one past the number of parameters. */
  method BuildLugaresQuery(r: LugaresRequest) returns (query: seq<Clause>, params: seq<Param>)
    ensures Sql(query, params) == LugaresQuery(r)
    ensures Numbered(Sql(query, params))
  {
    params := [];
    var paramIndex := 1;
    if IsGeo(r) {
      query := [GeoSelect(paramIndex, paramIndex + 1, paramIndex + 2)];
      params := params + [Float(r.lng.value), Float(r.lat.value), Float(r.maxDistance.value)];
      paramIndex := paramIndex + 3;
    } else {
      query := [PlainSelect];
    }
    assert Sql(query, params) == SelectStep(r) && paramIndex == |params| + 1;
    ghost var q0 := Sql(query, params);

    if HasCategory(r) {
      query := query + [CategoryIs(paramIndex)];
      paramIndex := paramIndex + 1;
      params := params + [Text(r.categoria.value)];
    }
    assert Sql(query, params) == CategoryStep(r, q0) && paramIndex == |params| + 1;
    ghost var q1 := Sql(query, params);

    if HasSearch(r) {
      query := query + [SearchMatches(paramIndex, paramIndex + 1)];
      paramIndex := paramIndex + 2;
      params := params + [Text(Pattern(r.search.value)), Text(Pattern(r.search.value))];
    }
    assert Sql(query, params) == SearchStep(r, q1) && paramIndex == |params| + 1;
    ghost var q2 := Sql(query, params);

    if HasMinRating(r) {
      query := query + [RatingAtLeast(paramIndex)];
      paramIndex := paramIndex + 1;
      params := params + [Float(r.minRating.value)];
    }
    assert Sql(query, params) == RatingStep(r, q2) && paramIndex == |params| + 1;
    ghost var q3 := Sql(query, params);

    var order := if NearPoint(r) then ByDistance else ByRatingThenName;
    query := query + [OrderBy(order), LimitOffset(paramIndex, paramIndex + 1)];
    paramIndex := paramIndex + 2;
    params := params + [Int(LimitArg(r)), OffsetOf(PageArg(r), LimitArg(r))];
    assert Sql(query, params) == PagingStep(r, q3);
    LugaresNumbered(r);
  }

  lemma SelectNumbered(r: LugaresRequest)
    ensures Numbered(SelectStep(r))
  {
    var q := SelectStep(r);
    assert q.clauses[..0] == [];
  }

  lemma CategoryNumbered(r: LugaresRequest, q: Sql)
    requires Numbered(q)
    ensures Numbered(CategoryStep(r, q))
  {
    if HasCategory(r) {
      var c := CategoryIs(|q.params| + 1);
      AppendNumbered(q, c, [Text(r.categoria.value)]);
      assert CategoryStep(r, q) == Sql(q.clauses + [c], q.params + [Text(r.categoria.value)]);
    }
  }

  lemma SearchNumbered(r: LugaresRequest, q: Sql)
    requires Numbered(q)
    ensures Numbered(SearchStep(r, q))
  {
    if HasSearch(r) {
      var pat := Text(Pattern(r.search.value));
      var c := SearchMatches(|q.params| + 1, |q.params| + 2);
      AppendNumbered(q, c, [pat, pat]);
      assert SearchStep(r, q) == Sql(q.clauses + [c], q.params + [pat, pat]);
    }
  }

  lemma RatingNumbered(r: LugaresRequest, q: Sql)
    requires Numbered(q)
    ensures Numbered(RatingStep(r, q))
  {
    if HasMinRating(r) {
      var c := RatingAtLeast(|q.params| + 1);
      AppendNumbered(q, c, [Float(r.minRating.value)]);
      assert RatingStep(r, q) == Sql(q.clauses + [c], q.params + [Float(r.minRating.value)]);
    }
  }

  lemma PagingNumbered(r: LugaresRequest, q: Sql)
    requires Numbered(q)
    ensures Numbered(PagingStep(r, q))
  {
    var n := |q.params|;
    var order := OrderBy(if NearPoint(r) then ByDistance else ByRatingThenName);
    var paging := LimitOffset(n + 1, n + 2);
    AllPlaceholdersSnoc(q.clauses, order);
    AllPlaceholdersSnoc(q.clauses + [order], paging);
    assert q.clauses + [order] + [paging] == PagingStep(r, q).clauses;
  }

  /** Every `$k` of the page query names an existing parameter, and the counts match. */
  lemma LugaresNumbered(r: LugaresRequest)
    ensures Numbered(LugaresQuery(r))
  {
    var q0 := SelectStep(r);
    SelectNumbered(r);
    var q1 := CategoryStep(r, q0);
    CategoryNumbered(r, q0);
    var q2 := SearchStep(r, q1);
    SearchNumbered(r, q1);
    var q3 := RatingStep(r, q2);
    RatingNumbered(r, q2);
    PagingNumbered(r, q3);
  }

  /** Why a clause is in the page query: the condition that adds it holds, and the parameters
      its placeholders name are the values the handler pushes for it. */
  predicate Justified(c: Clause, ps: seq<Param>, r: LugaresRequest) {
    match c
    case GeoSelect(x, y, d) =>
      IsGeo(r) && x == 1 && y == 2 && d == 3 && 3 <= |ps|
      && ps[0] == Float(r.lng.value) && ps[1] == Float(r.lat.value) && ps[2] == Float(r.maxDistance.value)
    case PlainSelect => !IsGeo(r)
    case CategoryIs(p) => HasCategory(r) && 1 <= p <= |ps| && ps[p - 1] == Text(r.categoria.value)
    case SearchMatches(a, b) =>
      HasSearch(r) && 1 <= a <= |ps| && 1 <= b <= |ps|
      && ps[a - 1] == Text(Pattern(r.search.value)) && ps[b - 1] == Text(Pattern(r.search.value))
    case RatingAtLeast(p) => HasMinRating(r) && 1 <= p <= |ps| && ps[p - 1] == Float(r.minRating.value)
    case OrderBy(o) => o == (if NearPoint(r) then ByDistance else ByRatingThenName)
    case LimitOffset(a, b) =>
      1 <= a <= |ps| && 1 <= b <= |ps| && ps[a - 1] == Int(LimitArg(r)) && ps[b - 1] == OffsetOf(PageArg(r), LimitArg(r))
    case _ => false
  }

  predicate AllJustified(q: Sql, r: LugaresRequest) {
    forall c :: c in q.clauses ==> Justified(c, q.params, r)
  }

  /** `q2` extends `q1`: both lists only grow at the end. */
  predicate Extends(q1: Sql, q2: Sql) {
    && |q1.clauses| <= |q2.clauses| && q2.clauses[..|q1.clauses|] == q1.clauses
    && |q1.params| <= |q2.params| && q2.params[..|q1.params|] == q1.params
  }

  /** A justified clause stays justified when parameters are pushed after it. */
  lemma JustifiedGrows(c: Clause, ps1: seq<Param>, ps2: seq<Param>, r: LugaresRequest)
    requires Justified(c, ps1, r) && |ps1| <= |ps2| && ps2[..|ps1|] == ps1
    ensures Justified(c, ps2, r)
  {
    assert forall k :: 0 <= k < |ps1| ==> ps2[k] == ps1[k];
    match c {
      case GeoSelect(_, _, _) =>
      case PlainSelect =>
      case CategoryIs(p) => assert ps2[p - 1] == ps1[p - 1];
      case SearchMatches(a, b) => assert ps2[a - 1] == ps1[a - 1] && ps2[b - 1] == ps1[b - 1];
      case RatingAtLeast(p) => assert ps2[p - 1] == ps1[p - 1];
      case OrderBy(_) =>
      case LimitOffset(a, b) => assert ps2[a - 1] == ps1[a - 1] && ps2[b - 1] == ps1[b - 1];
    }
  }

  lemma ExtendsKeepsJustified(q1: Sql, q2: Sql, r: LugaresRequest)
    requires AllJustified(q1, r) && Extends(q1, q2)
    requires forall c :: c in q2.clauses[|q1.clauses|..] ==> Justified(c, q2.params, r)
    ensures AllJustified(q2, r)
  {
    forall c | c in q2.clauses ensures Justified(c, q2.params, r) {
      var i :| 0 <= i < |q2.clauses| && q2.clauses[i] == c;
      if i < |q1.clauses| {
        assert c == q1.clauses[i];
        JustifiedGrows(c, q1.params, q2.params, r);
      } else {
        assert c == q2.clauses[|q1.clauses|..][i - |q1.clauses|];
      }
    }
  }

  lemma CategoryJustified(r: LugaresRequest, q: Sql)
    requires AllJustified(q, r)
    ensures AllJustified(CategoryStep(r, q), r) && Extends(q, CategoryStep(r, q))
  {
    var q2 := CategoryStep(r, q);
    assert q2.clauses[..|q.clauses|] == q.clauses && q2.params[..|q.params|] == q.params;
    ExtendsKeepsJustified(q, q2, r);
  }

  lemma SearchJustified(r: LugaresRequest, q: Sql)
    requires AllJustified(q, r)
    ensures AllJustified(SearchStep(r, q), r) && Extends(q, SearchStep(r, q))
  {
    var q2 := SearchStep(r, q);
    assert q2.clauses[..|q.clauses|] == q.clauses && q2.params[..|q.params|] == q.params;
    ExtendsKeepsJustified(q, q2, r);
  }

  lemma RatingJustified(r: LugaresRequest, q: Sql)
    requires AllJustified(q, r)
    ensures AllJustified(RatingStep(r, q), r) && Extends(q, RatingStep(r, q))
  {
    var q2 := RatingStep(r, q);
    assert q2.clauses[..|q.clauses|] == q.clauses && q2.params[..|q.params|] == q.params;
    ExtendsKeepsJustified(q, q2, r);
  }

  lemma PagingJustified(r: LugaresRequest, q: Sql)
    requires AllJustified(q, r)
    ensures AllJustified(PagingStep(r, q), r) && Extends(q, PagingStep(r, q))
  {
    var q2 := PagingStep(r, q);
    assert q2.clauses[..|q.clauses|] == q.clauses && q2.params[..|q.params|] == q.params;
    ExtendsKeepsJustified(q, q2, r);
  }

  lemma ExtendsMember(q1: Sql, q2: Sql, c: Clause)
    requires Extends(q1, q2) && c in q1.clauses
    ensures c in q2.clauses
  {
    var i :| 0 <= i < |q1.clauses| && q1.clauses[i] == c;
    assert q2.clauses[i] == c;
  }

  /** Each clause of the page query is there because its condition holds and binds the values
      pushed for it. */
  lemma {:induction false} LugaresJustified(r: LugaresRequest)
    ensures AllJustified(LugaresQuery(r), r)
  {
    var q0 := SelectStep(r);
    var q1 := CategoryStep(r, q0);
    var q2 := SearchStep(r, q1);
    var q3 := RatingStep(r, q2);
    CategoryJustified(r, q0);
    SearchJustified(r, q1);
    RatingJustified(r, q2);
    PagingJustified(r, q3);
  }

  /** The steps after the category step only append. */
  lemma LaterStepsExtend(r: LugaresRequest)
    ensures var q1 := CategoryStep(r, SelectStep(r));
            var q2 := SearchStep(r, q1);
            var q3 := RatingStep(r, q2);
            Extends(q1, q2) && Extends(q2, q3) && Extends(q3, PagingStep(r, q3))
  {
    var q1 := CategoryStep(r, SelectStep(r));
    var q2 := SearchStep(r, q1);
    var q3 := RatingStep(r, q2);
    assert q2.clauses[..|q1.clauses|] == q1.clauses && q2.params[..|q1.params|] == q1.params;
    assert q3.clauses[..|q2.clauses|] == q2.clauses && q3.params[..|q2.params|] == q2.params;
    var q4 := PagingStep(r, q3);
    assert q4.clauses[..|q3.clauses|] == q3.clauses && q4.params[..|q3.params|] == q3.params;
  }

  /** The category filter is in the page query exactly when `categoria` is given and not `all`. */
  lemma {:induction false} LugaresCategoryFilter(r: LugaresRequest)
    ensures HasCategory(r) <==> exists p :: CategoryIs(p) in LugaresQuery(r).clauses
  {
    var q0 := SelectStep(r);
    var q1 := CategoryStep(r, q0);
    var q2 := SearchStep(r, q1);
    var q3 := RatingStep(r, q2);
    LugaresJustified(r);
    if HasCategory(r) {
      LaterStepsExtend(r);
      var c := CategoryIs(|q0.params| + 1);
      assert c in q1.clauses;
      ExtendsMember(q1, q2, c);
      ExtendsMember(q2, q3, c);
      ExtendsMember(q3, PagingStep(r, q3), c);
    }
  }

  /** The search filter is in the page query exactly when the trimmed `search` is not empty. */
  lemma {:induction false} LugaresSearchFilter(r: LugaresRequest)
    ensures HasSearch(r) <==> exists a, b :: SearchMatches(a, b) in LugaresQuery(r).clauses
  {
    var q1 := CategoryStep(r, SelectStep(r));
    var q2 := SearchStep(r, q1);
    var q3 := RatingStep(r, q2);
    LugaresJustified(r);
    if HasSearch(r) {
      LaterStepsExtend(r);
      var c := SearchMatches(|q1.params| + 1, |q1.params| + 2);
      assert c in q2.clauses;
      ExtendsMember(q2, q3, c);
      ExtendsMember(q3, PagingStep(r, q3), c);
    }
  }

  /** The rating filter is in the page query exactly when `min_rating` is given. */
  lemma {:induction false} LugaresRatingFilter(r: LugaresRequest)
    ensures HasMinRating(r) <==> exists p :: RatingAtLeast(p) in LugaresQuery(r).clauses
  {
    var q2 := SearchStep(r, CategoryStep(r, SelectStep(r)));
    var q3 := RatingStep(r, q2);
    LugaresJustified(r);
    if HasMinRating(r) {
      LaterStepsExtend(r);
      var c := RatingAtLeast(|q2.params| + 1);
      assert c in q3.clauses;
      ExtendsMember(q3, PagingStep(r, q3), c);
    }
  }

  /** The page query opens with the geographic select, whose `$1..$3` are `lng, lat, max_distance`,
      exactly when all three are given; it ends with the order and with `LIMIT` and `OFFSET` on the
      last two parameters. */
  lemma {:induction false} LugaresFrame(r: LugaresRequest)
    ensures var q := LugaresQuery(r);
            && |q.clauses| >= 3 && |q.params| >= 2
            && q.clauses[0] == (if IsGeo(r) then GeoSelect(1, 2, 3) else PlainSelect)
            && q.clauses[|q.clauses| - 2] == OrderBy(if NearPoint(r) then ByDistance else ByRatingThenName)
            && q.clauses[|q.clauses| - 1] == LimitOffset(|q.params| - 1, |q.params|)
            && q.params[|q.params| - 2..] == [Int(LimitArg(r)), OffsetOf(PageArg(r), LimitArg(r))]
  {
    var q0 := SelectStep(r);
    var q1 := CategoryStep(r, q0);
    assert q1.clauses[0] == q0.clauses[0];
    var q2 := SearchStep(r, q1);
    assert q2.clauses[0] == q0.clauses[0];
    var q3 := RatingStep(r, q2);
    assert q3.clauses[0] == q0.clauses[0];
    var n := |q3.params|;
    var last := [Int(LimitArg(r)), OffsetOf(PageArg(r), LimitArg(r))];
    var q := PagingStep(r, q3);
    assert q.params == q3.params + last;
    assert q.params[n..] == last;
  }

  /** A step that appends clauses of rank above `k` to a list ordered up to rank `k`. */
  predicate OrderedUpTo(q: Sql, k: nat) {
    InStatementOrder(q.clauses) && q.clauses != [] && Rank(q.clauses[|q.clauses| - 1]) <= k
  }

  lemma CategoryOrdered(r: LugaresRequest, q: Sql)
    requires OrderedUpTo(q, 0)
    ensures OrderedUpTo(CategoryStep(r, q), 1)
  {
    if HasCategory(r) { AppendInOrder(q.clauses, CategoryIs(|q.params| + 1)); }
  }

  lemma SearchOrdered(r: LugaresRequest, q: Sql)
    requires OrderedUpTo(q, 1)
    ensures OrderedUpTo(SearchStep(r, q), 2)
  {
    if HasSearch(r) { AppendInOrder(q.clauses, SearchMatches(|q.params| + 1, |q.params| + 2)); }
  }

  lemma RatingOrdered(r: LugaresRequest, q: Sql)
    requires OrderedUpTo(q, 2)
    ensures OrderedUpTo(RatingStep(r, q), 3)
  {
    if HasMinRating(r) { AppendInOrder(q.clauses, RatingAtLeast(|q.params| + 1)); }
  }

  lemma PagingOrdered(r: LugaresRequest, q: Sql)
    requires OrderedUpTo(q, 3)
    ensures InStatementOrder(PagingStep(r, q).clauses)
  {
    var order := OrderBy(if NearPoint(r) then ByDistance else ByRatingThenName);
    var n := |q.params|;
    AppendInOrder(q.clauses, order);
    AppendInOrder(q.clauses + [order], LimitOffset(n + 1, n + 2));
    assert q.clauses + [order] + [LimitOffset(n + 1, n + 2)] == PagingStep(r, q).clauses;
  }

  /** The clauses come in the fixed order select, category, search, rating, order, paging. */
  lemma {:induction false} LugaresOrder(r: LugaresRequest)
    ensures InStatementOrder(LugaresQuery(r).clauses)
  {
    var q0 := SelectStep(r);
    var q1 := CategoryStep(r, q0);
    var q2 := SearchStep(r, q1);
    CategoryOrdered(r, q0);
    SearchOrdered(r, q1);
    RatingOrdered(r, q2);
    PagingOrdered(r, RatingStep(r, q2));
  }

  /** As written, `lat` and `lng` without `max_distance` order by `distancia`, a column only the
      geographic select defines. */
  lemma DistanceOrderWithoutDistanceColumn(r: LugaresRequest)
    requires NearPoint(r) && !Truthy(r.maxDistance)
    ensures var q := LugaresQuery(r);
            q.clauses[0] == PlainSelect && OrderBy(ByDistance) in q.clauses
  {
    LugaresFrame(r);
  }

  // The count query: the category filter as in the page query, and the search filter on the
  // untrimmed `search`.

  function CountSearchStep(r: LugaresRequest, q: Sql): Sql {
    if Truthy(r.search) then
      var n := |q.params|;
      Sql(q.clauses + [SearchMatches(n + 1, n + 2)],
          q.params + [Text(Pattern(r.search.value)), Text(Pattern(r.search.value))])
    else q
  }

  function CountQuery(r: LugaresRequest): Sql {
    CountSearchStep(r, CategoryStep(r, Sql([CountSelect], [])))
  }

  /** The handler's count builder with its own `countParamIndex`. */
  method BuildCountQuery(r: LugaresRequest) returns (countQuery: seq<Clause>, countParams: seq<Param>)
    ensures Sql(countQuery, countParams) == CountQuery(r)
    ensures Numbered(Sql(countQuery, countParams))
  {
    countQuery := [CountSelect];
    countParams := [];
    var countParamIndex := 1;
    if HasCategory(r) {
      countQuery := countQuery + [CategoryIs(countParamIndex)];
      countParamIndex := countParamIndex + 1;
      countParams := countParams + [Text(r.categoria.value)];
    }
    assert countParamIndex == |countParams| + 1;
    if Truthy(r.search) {
      countQuery := countQuery + [SearchMatches(countParamIndex, countParamIndex + 1)];
      countParamIndex := countParamIndex + 2;
      countParams := countParams + [Text(Pattern(r.search.value)), Text(Pattern(r.search.value))];
    }
    CountNumbered(r);
  }

  lemma CountNumbered(r: LugaresRequest)
    ensures Numbered(CountQuery(r))
  {
    var q0 := Sql([CountSelect], []);
    assert q0.clauses[..0] == [];
    CategoryNumbered(r, q0);
    var q1 := CategoryStep(r, q0);
    if Truthy(r.search) {
      var pat := Text(Pattern(r.search.value));
      AppendNumbered(q1, SearchMatches(|q1.params| + 1, |q1.params| + 2), [pat, pat]);
    }
  }

  /** The count query filters on the category and on the untrimmed search only: it has no
      geographic, rating, order or paging clause, and its placeholders start again at `$1`. */
  lemma CountClauses(r: LugaresRequest)
    ensures var q := CountQuery(r);
            && q.clauses[0] == CountSelect
            && (HasCategory(r) <==> CategoryIs(1) in q.clauses)
            && (Truthy(r.search) <==> exists a, b :: SearchMatches(a, b) in q.clauses)
            && forall c :: c in q.clauses ==> Rank(c) <= 2 && !c.GeoSelect? && !c.PlainSelect?
  {
    var q := CountQuery(r);
    assert |q.clauses| <= 3;
    assert forall c :: c in q.clauses ==> c == CountSelect || c.CategoryIs? || c.SearchMatches?;
  }

  /** As written, a search of blanks only filters the count but not the page. */
  lemma BlankSearchCountedOnly(r: LugaresRequest)
    requires Truthy(r.search) && Strip(r.search.value) == []
    ensures exists a, b :: SearchMatches(a, b) in CountQuery(r).clauses
    ensures forall a, b :: SearchMatches(a, b) !in LugaresQuery(r).clauses
  {
    CountClauses(r);
    LugaresSearchFilter(r);
  }
}
