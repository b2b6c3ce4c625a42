/**
 * The popularity score of an element (`calculate_rating`). Ratings are kept in integer
 * tenths: 3.0 is 30, a bonus of 1.5 is 15, the bounds 1.0 and 5.0 are 10 and 50.
 */
module OsmRating {
  import opened Text
  import opened OsmTags

  const BaseScore: int := 30
  const MinRating: int := 10
  const MaxRating: int := 50

  /** Names that earn the "iconic place" bonus, matched as substrings of the lower-cased name. */
  const IconicPlaces: seq<string> := ["murillo", "brujas", "san francisco", "valle de la luna", "teleférico", "killi"]

  /** `key in tags and tags[key] in values` */
  predicate TagIn(tags: Tags, key: string, values: seq<string>) {
    key in tags && tags[key] in values
  }

  /** `any(iconic in name for iconic in iconic_places)` */
  predicate IsIconic(name: string) {
    exists k :: 0 <= k < |IconicPlaces| && Contains(name, IconicPlaces[k])
  }

  function WikiBonus(tags: Tags): nat { if "wikidata" in tags || "wikipedia" in tags then 15 else 0 }
  function TourismBonus(tags: Tags): nat { if TagIn(tags, "tourism", ["attraction", "museum", "viewpoint"]) then 10 else 0 }
  function HistoricBonus(tags: Tags): nat { if "historic" in tags then 8 else 0 }
  function BuildingBonus(tags: Tags): nat { if TagIn(tags, "building", ["cathedral", "church"]) then 7 else 0 }
  function AmenityBonus(tags: Tags): nat { if TagIn(tags, "amenity", ["marketplace", "theatre"]) then 6 else 0 }
  function IconicBonus(tags: Tags): nat { if IsIconic(Lower(Get(tags, "name", ""))) then 10 else 0 }

  /** The sum of every bonus that applies to the tags. */
  function Bonuses(tags: Tags): nat {
    WikiBonus(tags) + TourismBonus(tags) + HistoricBonus(tags) + BuildingBonus(tags)
    + AmenityBonus(tags) + IconicBonus(tags)
  }

  function Min(a: int, b: int): int { if a < b then a else b }

  /** `min(5.0, max(1.0, x))` in tenths. */
  function Clamp(x: int): (r: int)
    ensures MinRating <= r <= MaxRating
    ensures MinRating <= x <= MaxRating ==> r == x
  {
    if x > MaxRating then MaxRating else if x < MinRating then MinRating else x
  }

  /** The rating the extractor gives to an element with these tags. The lower clamp never
      applies: every bonus is non-negative, so a rating is at least the base 3.0, and it is
      exactly min(5.0, 3.0 + bonuses). */
  function Rating(tags: Tags): (r: int)
    ensures BaseScore <= r <= MaxRating
    ensures r == Min(BaseScore + Bonuses(tags), MaxRating)
  {
    Clamp(BaseScore + Bonuses(tags))
  }

  /** `calculate_rating`: start from the base score, add each bonus that applies in the source's
      order, round to one decimal (exact in tenths) and clamp to [1.0, 5.0]. */
  method CalculateRating(tags: Tags) returns (rating: int)
    ensures rating == Rating(tags)
    ensures BaseScore <= rating <= MaxRating
    ensures rating == Min(BaseScore + Bonuses(tags), MaxRating)
  {
    var score := BaseScore;
    if "wikidata" in tags || "wikipedia" in tags {
      score := score + 15;
    }
    if "tourism" in tags && tags["tourism"] in ["attraction", "museum", "viewpoint"] {
      score := score + 10;
    }
    if "historic" in tags {
      score := score + 8;
    }
    if "building" in tags && tags["building"] in ["cathedral", "church"] {
      score := score + 7;
    }
    if "amenity" in tags && tags["amenity"] in ["marketplace", "theatre"] {
      score := score + 6;
    }
    var name := Lower(Get(tags, "name", ""));
    if IsIconic(name) {
      score := score + 10;
    }
    rating := if score > MaxRating then MaxRating else if score < MinRating then MinRating else score;
  }

  /** Adding a `wikidata` tag never lowers the rating: only the Wikidata bonus reads that key. */
  lemma WikidataNeverLowers(tags: Tags, id: string)
    ensures Rating(tags) <= Rating(tags["wikidata" := id])
  {
    var t := tags["wikidata" := id];
    assert Get(t, "name", "") == Get(tags, "name", "");
    assert TourismBonus(t) == TourismBonus(tags);
    assert BuildingBonus(t) == BuildingBonus(tags);
    assert AmenityBonus(t) == AmenityBonus(tags);
  }
}
