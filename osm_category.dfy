/**
 * Classification and description of an OpenStreetMap element
 * (`get_category` and `get_description` of the extractor).
 */
module OsmCategory {
  import opened Wrappers
  import opened Text
  import opened OsmTags

  /** One entry of the priority list, the source's `'key=value'` tag already split at `=`:
      the element is in `category` when it has tag `key` with value `value`, or with any
      value when `value` is the wildcard `*`. */
  datatype Rule = Rule(category: string, key: string, value: string)

  const Wildcard: string := "*"

  /** `priority_categories`, in the order in which it is scanned. */
  const PriorityRules: seq<Rule> := [
    Rule("museo", "tourism", "museum"),
    Rule("mirador", "tourism", "viewpoint"),
    Rule("iglesia", "building", "church"),
    Rule("basilica", "building", "cathedral"),
    Rule("mercado", "amenity", "marketplace"),
    Rule("plaza", "place", "square"),
    Rule("patrimonio_historico", "historic", "*"),
    Rule("teatro", "amenity", "theatre"),
    Rule("teleferico", "aerialway", "*"),
    Rule("parque", "leisure", "park"),
    Rule("monumento", "historic", "monument")
  ]

  /** `key in tags and (value == '*' or tags[key] == value)` */
  predicate RuleMatches(rule: Rule, tags: Tags) {
    rule.key in tags && (rule.value == Wildcard || tags[rule.key] == rule.value)
  }

  /** The index of the first rule that matches, if any. */
  function FirstMatch(rules: seq<Rule>, tags: Tags): (r: Option<nat>)
    ensures r.Some? ==> r.value < |rules| && RuleMatches(rules[r.value], tags)
    ensures r.Some? ==> forall j :: 0 <= j < r.value ==> !RuleMatches(rules[j], tags)
    ensures r.None? ==> forall j :: 0 <= j < |rules| ==> !RuleMatches(rules[j], tags)
  {
    if rules == [] then None
    else if RuleMatches(rules[0], tags) then Some(0)
    else
      match FirstMatch(rules[1..], tags)
      case None => None
      case Some(k) => Some(k + 1)
  }

  /** A rule that matches with no matching rule before it is the one `FirstMatch` finds. */
  lemma FirstMatchIsFirst(rules: seq<Rule>, tags: Tags)
    ensures forall i :: 0 <= i < |rules| && RuleMatches(rules[i], tags)
                        && (forall j :: 0 <= j < i ==> !RuleMatches(rules[j], tags))
                        ==> FirstMatch(rules, tags) == Some(i)
  {
  }

  /** The fallback on the lower-cased name when no tag rule matches. */
  function NameFallback(name: string): string {
    if Contains(name, "bruja") || Contains(name, "hechicería") then "mercado"
    else if Contains(name, "mirador") || Contains(name, "killi") then "mirador"
    else if Contains(name, "valle de la luna") || Contains(name, "muela del diablo") then "atraccion_natural"
    else if Contains(name, "teleférico") then "teleferico"
    else "otros"
  }

  /** `get_category`: the category of the first priority rule that matches the tags; when none
      matches, the keyword fallback on the lower-cased (not stripped) `name` tag. */
  function GetCategory(tags: Tags): (c: string)
    ensures forall i :: 0 <= i < |PriorityRules| && RuleMatches(PriorityRules[i], tags)
                        && (forall j :: 0 <= j < i ==> !RuleMatches(PriorityRules[j], tags))
                        ==> c == PriorityRules[i].category
    ensures (forall i :: 0 <= i < |PriorityRules| ==> !RuleMatches(PriorityRules[i], tags))
            ==> c == NameFallback(Lower(Get(tags, "name", "")))
  {
    FirstMatchIsFirst(PriorityRules, tags);
    match FirstMatch(PriorityRules, tags)
    case Some(i) => PriorityRules[i].category
    case None => NameFallback(Lower(Get(tags, "name", "")))
  }

  /** Every category the extractor can assign. */
  const Categories: set<string> := {
    "museo", "mirador", "iglesia", "basilica", "mercado", "plaza", "patrimonio_historico",
    "teatro", "teleferico", "parque", "monumento", "atraccion_natural", "otros"
  }

  /** Every rule's category is known, and only the last rule's is `monumento`. */
  lemma RuleCategoriesKnown()
    ensures forall i :: 0 <= i < |PriorityRules| ==> PriorityRules[i].category in Categories
    ensures forall i :: 0 <= i < |PriorityRules| - 1 ==> PriorityRules[i].category != "monumento"
  {
  }

  /** The keyword fallback always gives a known category other than `monumento`. */
  lemma NameFallbackKnown(name: string)
    ensures NameFallback(name) in Categories && NameFallback(name) != "monumento"
  {
  }

  /** The classification always lands in the known category set, and never on `monumento`:
      any element with a `historic` tag already matches the earlier `historic=*` rule. */
  lemma {:induction false} MonumentoUnreachable(tags: Tags)
    ensures GetCategory(tags) in Categories
    ensures GetCategory(tags) != "monumento"
  {
    RuleCategoriesKnown();
    NameFallbackKnown(Lower(Get(tags, "name", "")));
    var m := FirstMatch(PriorityRules, tags);
    if m.Some? && "historic" in tags {
      // the `historic=*` rule matches, so the first match is at or before it
      assert RuleMatches(PriorityRules[6], tags);
      assert m.value <= 6;
    }
  }

  /** An element with a `historic` tag and none of the six rules before `historic=*` is a historic heritage site. */
  lemma {:induction false} HistoricIsHeritage(tags: Tags)
    requires "historic" in tags
    requires forall j :: 0 <= j < 6 ==> !RuleMatches(PriorityRules[j], tags)
    ensures GetCategory(tags) == "patrimonio_historico"
  {
    assert RuleMatches(PriorityRules[6], tags);
  }

  /** `descriptions` in `get_description`: the fixed text per category. */
  const Descriptions: map<string, string> := map[
    "museo" := "Museo ubicado en La Paz con exposiciones culturales e históricas",
    "mirador" := "Punto panorámico con vistas espectaculares de La Paz y sus alrededores",
    "iglesia" := "Templo religioso con valor histórico y arquitectónico",
    "basilica" := "Importante basílica con gran valor religioso y arquitectónico",
    "mercado" := "Mercado tradicional donde se pueden encontrar productos locales y artesanías",
    "plaza" := "Plaza histórica y punto de encuentro en el centro de La Paz",
    "patrimonio_historico" := "Sitio de importancia histórica y cultural de La Paz",
    "teatro" := "Teatro con programación cultural y espectáculos artísticos",
    "teleferico" := "Estación del sistema de teleférico Mi Teleférico de La Paz",
    "parque" := "Espacio verde y de recreación en la ciudad",
    "atraccion_natural" := "Atracción natural única en los alrededores de La Paz"
  ]

  const DefaultDescription: string := "Lugar de interés turístico en La Paz"

  /** `tags.get('description')` is truthy: present and not the empty string. */
  predicate HasDescription(tags: Tags) {
    "description" in tags && tags["description"] != ""
  }

  /** `get_description`: the element's own `description` tag, stripped, when it is non-empty;
      otherwise the fixed text of its category, or the generic text for a category without one.
      The `name` argument is accepted and not used. */
  function GetDescription(tags: Tags, name: string): (d: string)
    ensures HasDescription(tags) ==> d == Strip(tags["description"])
    ensures !HasDescription(tags) && GetCategory(tags) in Descriptions ==> d == Descriptions[GetCategory(tags)]
    ensures !HasDescription(tags) && GetCategory(tags) !in Descriptions ==> d == DefaultDescription
  {
    var category := GetCategory(tags);
    var base := if category in Descriptions then Descriptions[category] else DefaultDescription;
    if HasDescription(tags) then Strip(tags["description"]) else base
  }

  /** Without a `description` tag the description is never empty; `otros` and the unreachable
      `monumento` get the generic text. */
  lemma {:induction false} DescriptionWithoutTag(tags: Tags, name: string)
    requires !HasDescription(tags)
    ensures GetDescription(tags, name) != ""
    ensures GetCategory(tags) == "otros" ==> GetDescription(tags, name) == DefaultDescription
  {
    DescriptionsNonEmpty();
  }

  /** Every category text is non-empty, and `otros` has none of its own. */
  lemma DescriptionsNonEmpty()
    ensures forall k :: k in Descriptions ==> Descriptions[k] != ""
    ensures "otros" !in Descriptions && DefaultDescription != ""
  {
  }

  /** A non-empty description tag made only of whitespace is truthy, so it wins over the category
      text and is stripped to the empty string. */
  lemma BlankDescriptionTagGivesEmpty(tags: Tags, name: string)
    requires "description" in tags && tags["description"] != ""
    requires forall i :: 0 <= i < |tags["description"]| ==> IsSpace(tags["description"][i])
    ensures GetDescription(tags, name) == ""
  {
    StripEmpty(tags["description"]);
  }
}
