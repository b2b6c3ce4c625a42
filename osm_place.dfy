/**
 * Validation and normalisation of raw Overpass elements into place records
 * (`get_coordinates`, `process_element`, `process_elements`).
 */
module OsmPlace {
  import opened Wrappers
  import opened Text
  import opened OsmTags
  import opened OsmCategory
  import opened OsmRating

  /** A coordinate entry of the element's JSON: missing (`KeyError`), present but not convertible
      by `float()` (`TypeError` or `ValueError`), or a number. */
  datatype Field = Absent | Unparsable | Number(x: real)

  /** The element's `center` entry: missing, present but not an object (indexing it raises
      `TypeError`), or an object with `lat` and `lon` entries. */
  datatype Center = NoCenter | CenterNotObject | CenterAt(lat: Field, lon: Field)

  /** One raw element of the Overpass answer. `etype` is `element['type']` (None when the key is missing). */
  datatype Element = Element(
    id: Option<int>, etype: Option<string>, lat: Field, lon: Field, center: Center, tags: Tags)

  /** A place record as `process_element` builds it; `rating` is in tenths. */
  datatype Place = Place(
    nombre: string, categoria: string, descripcionCorta: string, lat: real, lon: real,
    horario: string, telefono: string, sitioWeb: string, wikidataId: string,
    osmId: Option<int>, osmType: Option<string>, fotos: seq<string>, rating: int)

  /** Both coordinates converted, or neither (the source's `(None, None)`). */
  function Both(lat: Field, lon: Field): (r: Option<(real, real)>)
    ensures r.Some? <==> lat.Number? && lon.Number?
    ensures r.Some? ==> r.value == (lat.x, lon.x)
  {
    if lat.Number? && lon.Number? then Some((lat.x, lon.x)) else None
  }

  /** `get_coordinates`: a node uses its own `lat`/`lon`; any other element uses `center` when it
      has one; a missing `type`, a failed conversion or a missing center gives nothing. */
  function GetCoordinates(e: Element): (r: Option<(real, real)>)
    ensures e.etype == Some("node") ==> r == Both(e.lat, e.lon)
    ensures e.etype.Some? && e.etype != Some("node") && e.center.CenterAt? ==> r == Both(e.center.lat, e.center.lon)
    ensures e.etype.None? || (e.etype != Some("node") && !e.center.CenterAt?) ==> r.None?
  {
    match e.etype
    case None => None
    case Some(t) =>
      if t == "node" then Both(e.lat, e.lon)
      else
        match e.center
        case NoCenter => None
        case CenterNotObject => None
        case CenterAt(lat, lon) => Both(lat, lon)
  }

  /** A node never falls back to its center: with an unusable `lat` it has no coordinates even
      when a valid center is present. */
  lemma NodeIgnoresCenter(e: Element)
    requires e.etype == Some("node") && !e.lat.Number?
    ensures GetCoordinates(e).None?
  {
  }

  /** The stripped `name` tag. */
  function NameOf(tags: Tags): string {
    Strip(Get(tags, "name", ""))
  }

  /** `if not lat or not lon`: a coordinate pair is rejected when missing or when either value is 0.0. */
  predicate UsableCoordinates(c: Option<(real, real)>) {
    c.Some? && c.value.0 != 0.0 && c.value.1 != 0.0
  }

  /** `process_element`, before Wikidata enrichment: no record for a blank name or unusable
      coordinates; otherwise the record with the stripped name, the category, description and
      rating derived from the tags, the stripped optional tags and no photos. */
  function ProcessElement(e: Element): (r: Option<Place>)
    ensures r.None? <==> NameOf(e.tags) == [] || !UsableCoordinates(GetCoordinates(e))
    ensures r.Some? ==> r.value.nombre == NameOf(e.tags)
    ensures r.Some? ==> (r.value.lat, r.value.lon) == GetCoordinates(e).value
    ensures r.Some? ==> r.value.categoria == GetCategory(e.tags)
    ensures r.Some? ==> r.value.descripcionCorta == GetDescription(e.tags, r.value.nombre)
    ensures r.Some? ==> r.value.fotos == []
    ensures r.Some? ==> r.value.rating == Rating(e.tags)
    ensures r.Some? ==> r.value.horario == Strip(Get(e.tags, "opening_hours", "Consultar horarios"))
    ensures r.Some? ==> r.value.telefono == Strip(Get(e.tags, "phone", ""))
    ensures r.Some? ==> r.value.sitioWeb == Strip(Get(e.tags, "website", ""))
    ensures r.Some? ==> r.value.wikidataId == Strip(Get(e.tags, "wikidata", "")) && r.value.osmId == e.id
    ensures r.Some? ==> r.value.osmType == e.etype
  {
    var name := NameOf(e.tags);
    if name == [] then None
    else
      var coords := GetCoordinates(e);
      if !UsableCoordinates(coords) then None
      else
        Some(Place(
          nombre := name,
          categoria := GetCategory(e.tags),
          descripcionCorta := GetDescription(e.tags, name),
          lat := coords.value.0,
          lon := coords.value.1,
          horario := Strip(Get(e.tags, "opening_hours", "Consultar horarios")),
          telefono := Strip(Get(e.tags, "phone", "")),
          sitioWeb := Strip(Get(e.tags, "website", "")),
          wikidataId := Strip(Get(e.tags, "wikidata", "")),
          osmId := e.id,
          osmType := e.etype,
          fotos := [],
          rating := Rating(e.tags)))
  }

  /** The records of the elements that `process_element` accepts, in input order. */
  function Processed(elements: seq<Element>): seq<Place> {
    if elements == [] then []
    else
      var before := Processed(elements[..|elements| - 1]);
      match ProcessElement(elements[|elements| - 1])
      case Some(p) => before + [p]
      case None => before
  }

  /** A record that passed validation: non-blank stripped name, non-zero coordinates, no photos,
      a rating in [3.0, 5.0] and a known category other than `monumento`. */
  predicate ValidPlace(p: Place) {
    && p.nombre != [] && !IsSpace(p.nombre[0]) && !IsSpace(p.nombre[|p.nombre| - 1])
    && p.lat != 0.0 && p.lon != 0.0
    && p.fotos == []
    && BaseScore <= p.rating <= MaxRating
    && p.categoria in Categories && p.categoria != "monumento"
  }

  /** A record `process_element` returns is valid. */
  lemma ProcessElementValid(e: Element)
    requires ProcessElement(e).Some?
    ensures ValidPlace(ProcessElement(e).value)
  {
    var p := ProcessElement(e).value;
    assert p.nombre == NameOf(e.tags) && p.nombre != [];
    MonumentoUnreachable(e.tags);
  }

  /** Every processed record is valid and comes from some element; no more records than elements. */
  lemma {:induction false} ProcessedValid(elements: seq<Element>)
    ensures |Processed(elements)| <= |elements|
    ensures forall p :: p in Processed(elements) ==> ValidPlace(p)
    ensures forall p :: p in Processed(elements) ==> exists e :: e in elements && ProcessElement(e) == Some(p)
  {
    if elements != [] {
      var init := elements[..|elements| - 1];
      var last := elements[|elements| - 1];
      ProcessedValid(init);
      var out := Processed(elements);
      var before := Processed(init);
      if ProcessElement(last).Some? {
        ProcessElementValid(last);
        assert out == before + [ProcessElement(last).value];
      } else {
        assert out == before;
      }
      forall p | p in out
        ensures ValidPlace(p) && exists e :: e in elements && ProcessElement(e) == Some(p)
      {
        if p in before {
          var e :| e in init && ProcessElement(e) == Some(p);
          assert e in elements;
        } else {
          assert p == ProcessElement(last).value;
          assert last in elements;
        }
      }
    }
  }

  /** `process_elements`: run `process_element` on every element and keep the records it returns. */
  method ProcessElements(elements: seq<Element>) returns (places: seq<Place>)
    ensures places == Processed(elements)
    ensures forall p :: p in places ==> ValidPlace(p)
  {
    places := [];
    var i := 0;
    while i < |elements|
      invariant 0 <= i <= |elements|
      invariant places == Processed(elements[..i])
    {
      assert elements[..i + 1][..i] == elements[..i];
      var place := ProcessElement(elements[i]);
      if place.Some? {
        places := places + [place.value];
      }
      i := i + 1;
    }
    assert elements[..i] == elements;
    ProcessedValid(elements);
  }
}
