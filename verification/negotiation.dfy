/** Choice of the response representation for the two user-listing routes:
    GET /users reads the query parameter `format`, GET /users-by-header reads
    the Accept header. The bodies themselves (Twig page, `json_encode`,
    `serialize`) are opaque tags here. */
module Negotiation {
  import opened Seqs

  /** What a handler answers with. NoBody: the handler returns nothing. */
  datatype Representation = Html | Json | Text | NoBody | NotFound

  /** GET /users: an empty query renders the HTML page; otherwise
      `format=json` gives JSON, `format=text` the serialized text, and any
      other query (no `format`, or another value) falls through every branch
      and the handler returns nothing. The comparisons are exact and case
      sensitive. */
  function UsersFormat(query: map<string, string>): (r: Representation)
    ensures r == Html <==> query == map[]
    ensures r == Json <==> query != map[] && "format" in query && query["format"] == "json"
    ensures r == Text <==> query != map[] && "format" in query && query["format"] == "text"
    ensures r == NoBody <==> query != map[] && ("format" !in query || query["format"] !in {"json", "text"})
    ensures r != NotFound
  {
    var format := if "format" in query then Some(query["format"]) else None;
    if |query| == 0 then Html
    else if format == Some("json") then Json
    else if format == Some("text") then Text
    else NoBody
  }

  /** `format=json` wins whatever else the query holds. */
  lemma FormatParamWins(query: map<string, string>)
    requires "format" in query && query["format"] == "json"
    ensures UsersFormat(query) == Json
  {
  }

  /** A query without `format`, an empty `format` and a differently cased
      value all leave the response without a body. */
  lemma UnknownQueryHasNoBody()
    ensures UsersFormat(map["page" := "2"]) == NoBody
    ensures UsersFormat(map["format" := ""]) == NoBody
    ensures UsersFormat(map["format" := "JSON"]) == NoBody
    ensures UsersFormat(map["format" := "text", "page" := "2"]) == Text
  {
  }

  /** h holds n starting at position i. */
  predicate OccursAt(h: string, n: string, i: int)
  {
    0 <= i && i + |n| <= |h| && h[i..i + |n|] == n
  }

  ghost predicate Contains(h: string, n: string)
  {
    exists i :: OccursAt(h, n, i)
  }

  /** `strstr($haystack, $needle)`: the rest of the haystack from the first
      occurrence of needle on, or None for PHP's `false`. No occurrence
      starts before the returned suffix. */
  function StrStr(haystack: string, needle: string): (r: Option<string>)
    ensures r.Some? <==> Contains(haystack, needle)
    ensures r.Some? ==>
      |needle| <= |r.value| <= |haystack| && r.value[..|needle|] == needle &&
      r.value == haystack[|haystack| - |r.value|..]
    ensures r.Some? ==> forall j :: 0 <= j < |haystack| - |r.value| ==> !OccursAt(haystack, needle, j)
    decreases |haystack|
  {
    if |needle| > |haystack| then None
    else if haystack[..|needle|] == needle then
      assert OccursAt(haystack, needle, 0);
      Some(haystack)
    else
      var tail := haystack[1..];
      assert forall i :: OccursAt(tail, needle, i) ==> OccursAt(haystack, needle, i + 1);
      assert forall i :: OccursAt(haystack, needle, i) ==> i >= 1 && OccursAt(tail, needle, i - 1);
      StrStr(tail, needle)
  }

  /** PHP truthiness of what `strstr` returns: `false`, "" and "0" are falsy. */
  predicate FoundTruthy(s: Option<string>)
  {
    s.Some? && s.value != "" && s.value != "0"
  }

  /** GET /users-by-header: the Accept test is a plain substring test. A
      header that contains application/json anywhere gives JSON, even when it
      also names text/plain; one that contains only text/plain gives text;
      any other header gives 404. */
  function UsersByHeader(accept: string): (r: Representation)
    ensures r == Json <==> Contains(accept, "application/json")
    ensures r == Text <==> !Contains(accept, "application/json") && Contains(accept, "text/plain")
    ensures r == NotFound <==> !Contains(accept, "application/json") && !Contains(accept, "text/plain")
  {
    var json, text := StrStr(accept, "application/json"), StrStr(accept, "text/plain");
    assert json.Some? ==> |json.value| >= 16;
    assert text.Some? ==> |text.value| >= 10;
    if FoundTruthy(json) then Json
    else if FoundTruthy(text) then Text
    else NotFound
  }

  /** JSON wins over text whatever their order in the header. */
  lemma JsonWinsOverText()
    ensures UsersByHeader("text/plain,application/json") == Json
  {
    var h := "text/plain,application/json";
    assert h[11..27] == "application/json";
    assert OccursAt(h, "application/json", 11);
  }

  /** Media-type parameters such as q=0 are not read. */
  lemma QualityIgnored()
    ensures UsersByHeader("application/json;q=0") == Json
  {
    var h := "application/json;q=0";
    assert h[0..16] == "application/json";
    assert OccursAt(h, "application/json", 0);
  }

  lemma AcceptTextExample()
    ensures UsersByHeader("text/plain") == Text
  {
    assert OccursAt("text/plain", "text/plain", 0);
  }

  /** A wildcard or an HTML-only header gives 404. */
  lemma AcceptNotFoundExamples()
    ensures UsersByHeader("*/*") == NotFound
    ensures UsersByHeader("text/html") == NotFound
  {
  }
}
