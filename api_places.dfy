/**
 * The place rows the API returns: the `fotos` normalisation applied to every row it sends, and
 * the detail endpoint `GET /api/lugares/:id` with its 404 rule and its nearby places.
 */
module ApiPlaces {

  /** What the driver hands back for the `fotos` column: an array, SQL `NULL`, or anything else. */
  datatype FotosValue = FotosArray(urls: seq<string>) | FotosNull | FotosOther(text: string)

  /** A place row; `others` stands for the columns the endpoints pass through untouched. */
  datatype Row = Row(id: int, nombre: string, categoria: string, lng: real, lat: real,
                     fotos: FotosValue, others: map<string, string>)

  /** `Array.isArray(fotos) ? fotos : []` */
  function NormalizeFotos(v: FotosValue): (urls: seq<string>)
    ensures v.FotosArray? ==> urls == v.urls
    ensures !v.FotosArray? ==> urls == []
  {
    if v.FotosArray? then v.urls else []
  }

  /** `{...place, fotos: ...}`: the row with its `fotos` normalised. */
  function ShapePlace(row: Row): (out: Row)
    ensures out.fotos.FotosArray?
    ensures out.(fotos := row.fotos) == row
  {
    row.(fotos := FotosArray(NormalizeFotos(row.fotos)))
  }

  /** `result.rows.map(...)` */
  function ShapeRows(rows: seq<Row>): (out: seq<Row>)
    ensures |out| == |rows|
    ensures forall i :: 0 <= i < |rows| ==> out[i] == ShapePlace(rows[i])
  {
    if rows == [] then [] else [ShapePlace(rows[0])] + ShapeRows(rows[1..])
  }

  /** Every returned row has an array of photos: the stored one when it was an array, `[]`
      otherwise; nothing else in the row changes, and shaping twice changes nothing more. */
  lemma ShapeRowsFotos(rows: seq<Row>)
    ensures var out := ShapeRows(rows);
            && (forall i :: 0 <= i < |out| ==>
                  out[i].fotos == (if rows[i].fotos.FotosArray? then rows[i].fotos else FotosArray([])))
            && ShapeRows(out) == out
  {
  }

  /** The rows whose id is not `id`, in their order (`WHERE id != $3`). */
  function Others(rows: seq<Row>, id: int): (r: seq<Row>)
    ensures |r| <= |rows|
    ensures forall i :: 0 <= i < |r| ==> r[i].id != id && r[i] in rows
  {
    if rows == [] then []
    else if rows[0].id != id then [rows[0]] + Others(rows[1..], id)
    else Others(rows[1..], id)
  }

  /** `ORDER BY distancia LIMIT 5` over the other rows; `byDistance` is the table in the order
      the database sorts it by distance from the place. */
  function Nearby(id: int, byDistance: seq<Row>): (r: seq<Row>)
    ensures |r| <= 5
    ensures forall i :: 0 <= i < |r| ==> r[i].id != id && r[i] in byDistance
  {
    var others := Others(byDistance, id);
    if |others| <= 5 then others else others[..5]
  }

  /** `WHERE id = $1` */
  function Matching(table: seq<Row>, id: int): (r: seq<Row>)
    ensures forall i :: 0 <= i < |r| ==> r[i].id == id && r[i] in table
    ensures r == [] <==> forall i :: 0 <= i < |table| ==> table[i].id != id
  {
    if table == [] then []
    else if table[0].id == id then [table[0]] + Matching(table[1..], id)
    else
      var rest := Matching(table[1..], id);
      assert forall i :: 1 <= i < |table| ==> table[i] == table[1..][i - 1];
      rest
  }

  /** The first matching row is the first row of the table with that id, at index `i`. */
  lemma {:induction false} MatchingFirst(table: seq<Row>, id: int) returns (i: nat)
    requires Matching(table, id) != []
    ensures i < |table| && table[i] == Matching(table, id)[0] && table[i].id == id
    ensures forall j :: 0 <= j < i ==> table[j].id != id
  {
    if table[0].id == id {
      i := 0;
    } else {
      var k := MatchingFirst(table[1..], id);
      i := k + 1;
      assert forall j :: 1 <= j < i ==> table[j] == table[1..][j - 1];
    }
  }

  datatype DetailResponse = NotFound | Found(place: Row, nearby: seq<Row>)

  /** `GET /api/lugares/:id`: 404 when no row has the id, else the first matching row shaped,
      with up to five other places nearest to it. */
  function Detail(id: int, table: seq<Row>, byDistance: seq<Row>): (resp: DetailResponse)
    requires multiset(byDistance) == multiset(table)
    ensures resp.NotFound? <==> forall i :: 0 <= i < |table| ==> table[i].id != id
    ensures resp.Found? ==> resp.place.id == id && resp.place.fotos.FotosArray?
                            && exists i :: 0 <= i < |table| && ShapePlace(table[i]) == resp.place
    ensures resp.Found? ==> |resp.nearby| <= 5 && forall i :: 0 <= i < |resp.nearby| ==> resp.nearby[i].id != id
    ensures resp.Found? ==> Matching(table, id) != [] && resp.place == ShapePlace(Matching(table, id)[0])
                            && resp.nearby == Nearby(id, byDistance)
    ensures resp.Found? ==> forall i :: 0 <= i < |resp.nearby| ==> resp.nearby[i] in table
  {
    var rows := Matching(table, id);
    if |rows| == 0 then NotFound
    else
      assert rows[0] in table;
      var nearby := Nearby(id, byDistance);
      assert forall i :: 0 <= i < |nearby| ==> nearby[i] in multiset(table);
      Found(ShapePlace(rows[0]), nearby)
  }

  /** `rows` is in ascending order of `dist`, as `ORDER BY distancia` returns it. */
  predicate AscendingBy(rows: seq<Row>, dist: Row -> real) {
    forall i, j :: 0 <= i < j < |rows| ==> dist(rows[i]) <= dist(rows[j])
  }

  /** Dropping rows keeps the order. */
  lemma {:induction false} OthersAscending(rows: seq<Row>, id: int, dist: Row -> real)
    requires AscendingBy(rows, dist)
    ensures AscendingBy(Others(rows, id), dist)
  {
    if rows != [] {
      var tail := Others(rows[1..], id);
      assert AscendingBy(rows[1..], dist) by {
        forall i, j | 0 <= i < j < |rows[1..]|
          ensures dist(rows[1..][i]) <= dist(rows[1..][j])
        {
          assert rows[1..][i] == rows[i + 1] && rows[1..][j] == rows[j + 1];
        }
      }
      OthersAscending(rows[1..], id, dist);
      if rows[0].id != id {
        forall j | 0 <= j < |tail| ensures dist(rows[0]) <= dist(tail[j]) {
          var k :| 0 <= k < |rows[1..]| && rows[1..][k] == tail[j];
          assert tail[j] == rows[k + 1];
        }
        var r := [rows[0]] + tail;
        forall i, j | 0 <= i < j < |r| ensures dist(r[i]) <= dist(r[j]) {
          if i > 0 {
            assert r[i] == tail[i - 1] && r[j] == tail[j - 1];
          } else {
            assert r[j] == tail[j - 1];
          }
        }
      }
    }
  }

  /** With the table in ascending order of its distance `dist` from the place, the nearby list
      holds five places, or every other place when there are fewer, and none of the other places
      left out is strictly nearer than a place listed. */
  lemma NearbyIsClosest(id: int, byDistance: seq<Row>, dist: Row -> real)
    requires AscendingBy(byDistance, dist)
    ensures var others := Others(byDistance, id);
            |Nearby(id, byDistance)| == (if |others| < 5 then |others| else 5)
    ensures forall r, o ::
              (r in Nearby(id, byDistance) && o in byDistance && o.id != id && o !in Nearby(id, byDistance))
              ==> dist(r) <= dist(o)
  {
    var others := Others(byDistance, id);
    var near := Nearby(id, byDistance);
    var m := |near|;
    assert near == others[..m];
    OthersAscending(byDistance, id, dist);
    forall r, o | r in near && o in byDistance && o.id != id && o !in near
      ensures dist(r) <= dist(o)
    {
      OthersMembers(byDistance, id, o);
      var a :| 0 <= a < m && near[a] == r;
      var b :| 0 <= b < |others| && others[b] == o;
      assert forall k :: 0 <= k < m ==> near[k] != o;
      assert b >= m;
      assert others[a] == r;
    }
  }

  /** A row is among the others exactly when it is in the table and its id differs. */
  lemma {:induction false} OthersMembers(rows: seq<Row>, id: int, row: Row)
    ensures row in Others(rows, id) <==> row in rows && row.id != id
  {
    if rows != [] {
      OthersMembers(rows[1..], id, row);
      assert rows == [rows[0]] + rows[1..];
    }
  }
}
