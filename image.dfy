/**
  Choosing an image for a slide (`fetch_image_url` and its caller,
  ai_presentation.py): the search query is the slide title without its
  "Slide N: " prefix, and the search response is accepted only when it is a
  success with at least one result whose link is an `http` URL.
 */
module ImageSearch {
  import opened Optional
  import opened PyStr

  /** One entry of the response's `items`. */
  datatype SearchItem = SearchItem(link: string)
  /** The image-search reply: HTTP status and the decoded `items` key, which may be absent. */
  datatype SearchResponse = SearchResponse(status: int, items: Option<seq<SearchItem>>)

  const StatusOk: int := 200
  const QuerySeparator: string := ": "
  const UrlScheme: string := "http"

  /** `title.split(": ", 1)[-1]`: the title after its first ": ", or the whole title. */
  function ImageQuery(title: string): (q: string)
    ensures |q| <= |title| && q == title[|title| - |q|..]
    ensures !Contains(title, QuerySeparator) ==> q == title
  {
    FindLeftmost(title, QuerySeparator);
    match Find(title, QuerySeparator)
    case None => title
    case Some(k) => title[k + 2..]
  }

  /** A "prefix: rest" title whose prefix has no ": " of its own queries exactly `rest`. */
  lemma ImageQueryDropsPrefix(prefix: string, rest: string)
    requires !Contains(prefix, QuerySeparator)
    ensures ImageQuery(prefix + QuerySeparator + rest) == rest
  {
    var t := prefix + QuerySeparator + rest;
    var k := |prefix|;
    assert t[k..k + 2] == QuerySeparator;
    forall j | 0 <= j < k ensures !OccursAt(t, QuerySeparator, j) {
      if j + 2 <= k {
        assert t[j..j + 2] == prefix[j..j + 2];
        assert !OccursAt(prefix, QuerySeparator, j);
      } else {
        assert t[j + 1] == ':';
      }
    }
    assert OccursAt(t, QuerySeparator, k);
    FindLeftmost(t, QuerySeparator);
    assert Find(t, QuerySeparator) == Some(k);
    assert t[k + 2..] == rest;
  }

  /**
    The decision of `fetch_image_url`: the first item's link, when the status
    is 200, `items` is present and non-empty and the link starts with "http";
    `None` otherwise.
   */
  function ResolveImage(response: SearchResponse): (url: Option<string>)
    ensures url.Some? <==> && response.status == StatusOk
                           && response.items.Some? && |response.items.value| > 0
                           && UrlScheme <= response.items.value[0].link
    ensures url.Some? ==> url.value == response.items.value[0].link
    ensures url.Some? ==> UrlScheme <= url.value
  {
    if response.status == StatusOk && response.items.Some? && |response.items.value| > 0 then
      var link := response.items.value[0].link;
      if UrlScheme <= link then Some(link) else None
    else
      None
  }
}
