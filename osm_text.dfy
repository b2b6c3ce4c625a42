/**
 * The two pieces of text the extractor produces: the Overpass QL query it sends for one tag
 * (`build_query`) and the PostgreSQL array literal it stores for a place's photo URLs.
 */
module OsmText {
  import opened Wrappers
  import opened Text

  /** The bounding box of La Paz as the query prints it: south, west, north, east. */
  const BBox: string := "(-16.6,-68.2,-16.4,-68.0)"

  /** A tag such as `historic=*` asks for every value of its key. */
  predicate IsWildcard(tag: string) {
    Contains(tag, "=*")
  }

  /** What goes between the brackets of `node[...]`: the quoted key for a wildcard tag (the text
      before its first `=`), the tag itself otherwise. */
  function Selector(tag: string): (sel: string)
    ensures IsWildcard(tag) ==> |sel| >= 2 && sel[0] == '"' && sel[|sel| - 1] == '"' && '=' !in sel
    ensures !IsWildcard(tag) ==> sel == tag
  {
    if IsWildcard(tag) then "\"" + Split(tag, '=')[0] + "\"" else tag
  }

  /** The node and way statements for one selector. */
  function NodeLine(sel: string): string {
    "              node[" + sel + "]" + BBox + ";\n"
  }

  function WayLine(sel: string): string {
    "              way[" + sel + "]" + BBox + ";\n"
  }

  const QueryHead: string := "\n            [out:json][timeout:90];\n            (\n"
  const QueryTail: string := "            );\n            out center;\n            "

  /** `build_query(tag)`: JSON output, a 90-second timeout, nodes and ways with the tag inside
      the bounding box, and centres for ways. */
  function BuildQuery(tag: string): (q: string)
    ensures StartsWith(q, QueryHead)
    ensures Contains(q, NodeLine(Selector(tag))) && Contains(q, WayLine(Selector(tag)))
  {
    var sel := Selector(tag);
    QueryParts(QueryHead, NodeLine(sel), WayLine(sel), QueryTail);
    QueryHead + NodeLine(sel) + WayLine(sel) + QueryTail
  }

  /** A text made of a head, two lines and a tail starts with the head and holds both lines. */
  lemma QueryParts(head: string, node: string, way: string, tail: string)
    ensures StartsWith(head + node + way + tail, head)
    ensures Contains(head + node + way + tail, node) && Contains(head + node + way + tail, way)
  {
    var q := head + node + way + tail;
    assert q[..|head|] == head;
    ContainsMiddle(head, node, way + tail);
    assert q == head + node + (way + tail);
    ContainsMiddle(head + node, way, tail);
  }

  /** A wildcard tag selects on its key alone: the selector quotes exactly the text before the
      tag's first `=`, which holds no `=`. */
  lemma WildcardSelectsKey(tag: string)
    requires IsWildcard(tag)
    ensures exists key, rest :: '=' !in key && tag == key + "=" + rest && Selector(tag) == "\"" + key + "\""
  {
    assert '=' in tag by { WildcardHasEquals(tag); }
    SplitFirstPiece(tag, '=');
    var rest :| tag == Split(tag, '=')[0] + ['='] + rest;
    var key := Split(tag, '=')[0];
    assert tag == key + "=" + rest;
  }

  /** `=*` inside a tag puts an `=` in it. */
  lemma {:induction false} WildcardHasEquals(tag: string)
    requires Contains(tag, "=*")
    ensures '=' in tag
  {
    if StartsWith(tag, "=*") {
      assert tag[0] == '=';
    } else {
      WildcardHasEquals(tag[1..]);
      var i :| 0 <= i < |tag[1..]| && tag[1..][i] == '=';
      assert tag[i + 1] == '=';
    }
  }

  /** A URL inside double quotes. */
  function Quote(url: string): string {
    "\"" + url + "\""
  }

  /** Each URL quoted, in list order. */
  function QuotedUrls(fotos: seq<string>): (r: seq<string>)
    ensures |r| == |fotos|
    ensures forall i :: 0 <= i < |r| ==> r[i] == Quote(fotos[i])
  {
    if fotos == [] then [] else [Quote(fotos[0])] + QuotedUrls(fotos[1..])
  }

  /** The `fotos_array` literal: `{}` without photos, else `{"u1","u2",...}`. */
  function FotosLiteral(fotos: seq<string>): (lit: string)
    ensures |lit| >= 2 && lit[0] == '{' && lit[|lit| - 1] == '}'
  {
    if fotos != [] then "{" + Join(QuotedUrls(fotos), ",") + "}" else "{}"
  }

  /** Reads `"u1","u2",...` back into its URLs: a quoted URL runs to the next double quote, and
      URLs are separated by commas. Backslash escapes are not interpreted, so this reading agrees
      with PostgreSQL's only on URLs that hold no backslash. */
  function ParseItems(s: string): (r: Option<seq<string>>)
    ensures r.Some? ==> |r.value| >= 1
    decreases |s|
  {
    if s == [] || s[0] != '"' then None
    else
      var url := Split(s[1..], '"')[0];
      if |url| + 2 > |s| then None
      else
        var after := s[|url| + 2..];
        if after == [] then Some([url])
        else if after[0] != ',' then None
        else match ParseItems(after[1..]) {
          case None => None
          case Some(urls) => Some([url] + urls)
        }
  }

  /** Reads a literal produced by `FotosLiteral` back into its URL list. */
  function ParseFotosLiteral(lit: string): Option<seq<string>> {
    if |lit| < 2 || lit[0] != '{' || lit[|lit| - 1] != '}' then None
    else
      var inner := lit[1..|lit| - 1];
      if inner == [] then Some([]) else ParseItems(inner)
  }

  /** No URL holds a double quote or a backslash, the two characters PostgreSQL reads specially
      inside a quoted array element and that `FotosLiteral` writes unescaped. */
  predicate EscapeFree(fotos: seq<string>) {
    forall i :: 0 <= i < |fotos| ==> '"' !in fotos[i] && '\\' !in fotos[i]
  }

  /** Parsing reads one quoted URL and goes on after the comma that follows it. */
  lemma ParseItemsStep(url: string, tail: string)
    requires '"' !in url
    ensures ParseItems(Quote(url) + tail) ==
              if tail == [] then Some([url])
              else if tail[0] != ',' then None
              else match ParseItems(tail[1..]) {
                case None => None
                case Some(urls) => Some([url] + urls)
              }
  {
    var body := url + ['"'] + tail;
    assert Quote(url) + tail == ['"'] + body;
    SplitBefore(url, '"', tail);
    assert body[|url| + 1..] == tail;
    ParseItemsOpen(body, url, tail);
  }

  /** `ParseItemsAt` for a text written as an opening quote followed by `body`. */
  lemma ParseItemsOpen(body: string, url: string, after: string)
    requires Split(body, '"')[0] == url && |url| + 1 <= |body| && body[|url| + 1..] == after
    ensures ParseItems(['"'] + body) ==
              if after == [] then Some([url])
              else if after[0] != ',' then None
              else match ParseItems(after[1..]) {
                case None => None
                case Some(urls) => Some([url] + urls)
              }
  {
    var s := ['"'] + body;
    assert s[1..] == body;
    assert s[|url| + 2..] == after;
    ParseItemsAt(s, url, after);
  }

  /** One unfolding of `ParseItems` on a text that opens with the quoted `url` followed by `after`. */
  lemma ParseItemsAt(s: string, url: string, after: string)
    requires s != [] && s[0] == '"' && Split(s[1..], '"')[0] == url
    requires |url| + 2 <= |s| && s[|url| + 2..] == after
    ensures ParseItems(s) ==
              if after == [] then Some([url])
              else if after[0] != ',' then None
              else match ParseItems(after[1..]) {
                case None => None
                case Some(urls) => Some([url] + urls)
              }
  {
  }

  /** The quoted items parse back to the URLs when none of them holds a double quote. */
  lemma {:induction false} ParseJoinQuoted(fotos: seq<string>)
    requires fotos != [] && EscapeFree(fotos)
    ensures ParseItems(Join(QuotedUrls(fotos), ",")) == Some(fotos)
  {
    var url := fotos[0];
    var tail := if |fotos| == 1 then [] else "," + Join(QuotedUrls(fotos[1..]), ",");
    assert QuotedUrls(fotos) == [Quote(url)] + QuotedUrls(fotos[1..]);
    assert Join(QuotedUrls(fotos), ",") == Quote(url) + tail;
    ParseItemsStep(url, tail);
    if |fotos| > 1 {
      assert tail[1..] == Join(QuotedUrls(fotos[1..]), ",");
      ParseJoinQuoted(fotos[1..]);
      assert fotos == [url] + fotos[1..];
    } else {
      assert fotos == [url];
    }
  }

  /** For URLs that need no escaping, storing and reading back loses nothing: the literal parses
      to the same URLs in the same order, and the empty list is the only one written `{}`. */
  lemma FotosLiteralRoundTrip(fotos: seq<string>)
    requires EscapeFree(fotos)
    ensures ParseFotosLiteral(FotosLiteral(fotos)) == Some(fotos)
    ensures FotosLiteral(fotos) == "{}" <==> fotos == []
  {
    if fotos != [] {
      var lit := FotosLiteral(fotos);
      assert lit[1..|lit| - 1] == Join(QuotedUrls(fotos), ",");
      ParseJoinQuoted(fotos);
    }
  }

  /** A successful parse starts with the text up to the first closing quote. */
  lemma ParseItemsFirst(s: string)
    requires ParseItems(s).Some?
    ensures s != [] && ParseItems(s).value[0] == Split(s[1..], '"')[0]
  {
  }

  /** A URL holding a double quote never reads back as itself: the quote inside it closes the
      element early, so the first element read is a proper prefix of the URL (`a","b` even reads
      back as the two URLs `a` and `b`). */
  lemma QuoteInUrlBreaksLiteral(url: string)
    requires '"' in url
    ensures ParseFotosLiteral(FotosLiteral([url])) != Some([url])
  {
    var item := Quote(url);
    assert QuotedUrls([url]) == [item];
    assert Join([item], ",") == item;
    var lit := FotosLiteral([url]);
    assert lit == "{" + item + "}";
    var inner := lit[1..|lit| - 1];
    assert inner == item;
    SplitFirstPiece(url, '"');
    var piece := Split(url, '"')[0];
    var rest :| url == piece + ['"'] + rest;
    assert inner[1..] == piece + ['"'] + (rest + ['"']);
    SplitBefore(piece, '"', rest + ['"']);
    if ParseItems(inner).Some? {
      ParseItemsFirst(inner);
      assert |ParseItems(inner).value[0]| < |url|;
    }
  }
}
