/** The tags of an OpenStreetMap element, as the extractor reads them from the Overpass JSON. */
module OsmTags {

  /** `element['tags']`: tag keys to tag values. */
  type Tags = map<string, string>

  /** Python's `tags.get(key, default)`. */
  function Get(tags: Tags, key: string, default: string): (v: string)
    ensures key in tags ==> v == tags[key]
    ensures key !in tags ==> v == default
  {
    if key in tags then tags[key] else default
  }
}
