/**
 * The SQL the API sends to PostgreSQL, as a list of clauses that carry their `$k` placeholder
 * numbers, together with the parameter vector the placeholders refer to.
 */
module ApiSql {

  /** A query-string value, or the number a destructuring default gives when it is absent. */
  datatype Arg = Num(n: int) | Str(s: string)

  /** One entry of the parameter vector: `parseFloat(raw)`, `parseInt(arg)`,
      `(page - 1) * limit`, a string passed through, or a number literal. */
  datatype Param =
    | Float(raw: string)
    | Int(arg: Arg)
    | OffsetOf(page: Arg, limit: Arg)
    | Text(s: string)
    | Number(n: int)

  datatype Order = ByDistance | ByRatingThenName

  /** The clauses the endpoints emit. `GeoSelect` is the select with the `distancia` column and the
      `ST_DWithin` test around `ST_MakePoint($lng, $lat)`; `PlainSelect` is the select with
      `WHERE 1=1`; `CountSelect` is `SELECT COUNT(*) ... WHERE 1=1`. */
  datatype Clause =
    | GeoSelect(lng: nat, lat: nat, distance: nat)
    | PlainSelect
    | CountSelect
    | CategoryIs(p: nat)
    | SearchMatches(name: nat, description: nat)
    | RatingAtLeast(p: nat)
    | CategoryIn(ps: seq<nat>)
    | OrderBy(order: Order)
    | LimitOffset(limit: nat, offset: nat)

  datatype Sql = Sql(clauses: seq<Clause>, params: seq<Param>)

  /** The distinct placeholders of a clause in order of first appearance. */
  function Placeholders(c: Clause): seq<nat> {
    match c
    case GeoSelect(x, y, d) => [x, y, d]
    case CategoryIs(p) => [p]
    case SearchMatches(a, b) => [a, b]
    case RatingAtLeast(p) => [p]
    case CategoryIn(ps) => ps
    case LimitOffset(a, b) => [a, b]
    case _ => []
  }

  /** The placeholders of a clause list, clause by clause. */
  function AllPlaceholders(cs: seq<Clause>): seq<nat> {
    if cs == [] then [] else AllPlaceholders(cs[..|cs| - 1]) + Placeholders(cs[|cs| - 1])
  }

  /** Placeholders run `$1, $2, ...` with no gap and no repeat across clauses, and there are as
      many as parameters: every `$k` names an existing parameter and every parameter is named. */
  predicate Numbered(q: Sql) {
    var ph := AllPlaceholders(q.clauses);
    |ph| == |q.params| && forall i :: 0 <= i < |ph| ==> ph[i] == i + 1
  }

  /** A placeholder of a clause of `cs` appears in the placeholder list of `cs`, at index `at`. */
  lemma {:induction false} PlaceholderIndex(cs: seq<Clause>, c: Clause, k: nat) returns (at: nat)
    requires c in cs && k in Placeholders(c)
    ensures at < |AllPlaceholders(cs)| && AllPlaceholders(cs)[at] == k
  {
    var init, last := cs[..|cs| - 1], cs[|cs| - 1];
    var before := AllPlaceholders(init);
    assert AllPlaceholders(cs) == before + Placeholders(last);
    if c == last {
      var j :| 0 <= j < |Placeholders(c)| && Placeholders(c)[j] == k;
      at := |before| + j;
    } else {
      assert cs == init + [last];
      at := PlaceholderIndex(init, c, k);
    }
  }

  /** Every placeholder of a numbered query names an existing parameter: it is between 1 and the
      number of parameters. */
  lemma NumberedInRange(q: Sql, c: Clause, k: nat)
    requires Numbered(q) && c in q.clauses && k in Placeholders(c)
    ensures 1 <= k <= |q.params|
  {
    var at := PlaceholderIndex(q.clauses, c, k);
  }

  /** Appending a clause whose placeholders continue the count, with the parameters they name,
      keeps a query numbered. */
  lemma AppendNumbered(q: Sql, c: Clause, ps: seq<Param>)
    requires Numbered(q)
    requires |Placeholders(c)| == |ps|
    requires forall i :: 0 <= i < |ps| ==> Placeholders(c)[i] == |q.params| + 1 + i
    ensures Numbered(Sql(q.clauses + [c], q.params + ps))
  {
    AllPlaceholdersSnoc(q.clauses, c);
  }

  /** Appending one clause appends its placeholders. */
  lemma AllPlaceholdersSnoc(cs: seq<Clause>, c: Clause)
    ensures AllPlaceholders(cs + [c]) == AllPlaceholders(cs) + Placeholders(c)
  {
    assert (cs + [c])[..|cs|] == cs;
  }

  /** Where a clause sits in the statement: select, category, search, rating, order, paging. */
  function Rank(c: Clause): nat {
    match c
    case GeoSelect(_, _, _) => 0
    case PlainSelect => 0
    case CountSelect => 0
    case CategoryIs(_) => 1
    case SearchMatches(_, _) => 2
    case RatingAtLeast(_) => 3
    case CategoryIn(_) => 3
    case OrderBy(_) => 4
    case LimitOffset(_, _) => 5
  }

  /** Clauses appear in the fixed statement order, each kind at most once. */
  predicate InStatementOrder(cs: seq<Clause>) {
    forall i, j :: 0 <= i < j < |cs| ==> Rank(cs[i]) < Rank(cs[j])
  }

  lemma AppendInOrder(cs: seq<Clause>, c: Clause)
    requires InStatementOrder(cs) && cs != [] && Rank(cs[|cs| - 1]) < Rank(c)
    ensures InStatementOrder(cs + [c])
  {
  }
}
