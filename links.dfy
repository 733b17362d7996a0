/** `get_links_from_page` (backend/scraper.py): the product links of one
    page. HTML parsing and URL resolution stay abstract: the parsed page is
    the sequence of its `<a>` elements, and `resolve` stands for `urljoin`. */
module Links {
  import opened Exceptions
  import opened Strings
  import opened Fetch

  /** The marker a raw `href` must contain for the link to be kept. */
  const ProductMarker := "SourceCode"

  /** One `<a>` element, with its `href` attribute when it has one. */
  datatype Anchor = Anchor(href: Option<string>)

  /** What the crawler needs from the outside world: the proxy, the parser
      (`BeautifulSoup(html).find_all('a')`) and `urljoin`. */
  datatype Web = Web(jina: JinaClient, parse: string -> seq<Anchor>, resolve: (string, string) -> string)

  predicate Qualifies(a: Anchor) {
    a.href.Some? && Contains(a.href.value, ProductMarker)
  }

  /** The list comprehension at the heart of `get_links_from_page`: the
      resolved `href` of every anchor that has one containing the marker, in
      document order, duplicates kept. */
  function LinksFromAnchors(base: string, anchors: seq<Anchor>, resolve: (string, string) -> string): (links: seq<string>)
    ensures |links| <= |anchors|
    ensures forall l :: l in links ==> exists a :: a in anchors && Qualifies(a) && l == resolve(base, a.href.value)
    ensures forall a :: a in anchors && Qualifies(a) ==> resolve(base, a.href.value) in links
  {
    if anchors == [] then []
    else
      assert forall a :: a in anchors <==> a == anchors[0] || a in anchors[1..];
      (if Qualifies(anchors[0]) then [resolve(base, anchors[0].href.value)] else [])
        + LinksFromAnchors(base, anchors[1..], resolve)
  }

  /** The links of a page split in two are the links of the first part
      followed by those of the second: document order and duplicates are kept. */
  lemma {:induction false} LinksFromAnchorsAppend(base: string, a: seq<Anchor>, b: seq<Anchor>, resolve: (string, string) -> string)
    ensures LinksFromAnchors(base, a + b, resolve) == LinksFromAnchors(base, a, resolve) + LinksFromAnchors(base, b, resolve)
  {
    if a == [] {
      assert a + b == b;
    } else {
      assert (a + b)[1..] == a[1..] + b;
      LinksFromAnchorsAppend(base, a[1..], b, resolve);
    }
  }

  /** Anchors `/SourceCode/A.htm`, `/SourceCode/B.htm` and `/Other/C.htm`
      give the resolved links of A and B only. */
  lemma ProductLinksOnly(base: string, resolve: (string, string) -> string)
    ensures LinksFromAnchors(base, [Anchor(Some("/SourceCode/A.htm")), Anchor(Some("/SourceCode/B.htm")), Anchor(Some("/Other/C.htm"))], resolve)
         == [resolve(base, "/SourceCode/A.htm"), resolve(base, "/SourceCode/B.htm")]
  {
    var a, b, c := "/SourceCode/A.htm", "/SourceCode/B.htm", "/Other/C.htm";
    assert OccursAt(a, ProductMarker, 1);
    assert OccursAt(b, ProductMarker, 1);
    assert c[0] == '/' && c[1] == 'O' && c[2] == 't';
    forall i | 0 <= i <= |c| - |ProductMarker| ensures !OccursAt(c, ProductMarker, i) {
      assert c[i..i + |ProductMarker|][0] == c[i];
      assert ProductMarker[0] == 'S';
    }
    assert !Qualifies(Anchor(Some(c)));
    var anchors := [Anchor(Some(a)), Anchor(Some(b)), Anchor(Some(c))];
    assert anchors[1..] == [Anchor(Some(b)), Anchor(Some(c))];
    assert anchors[1..][1..] == [Anchor(Some(c))];
    assert LinksFromAnchors(base, [Anchor(Some(c))], resolve) == [];
  }

  /** What `get_links_from_page(url)` returns or raises: the fetch of the
      page's markup with the default attempts, then the link filter. */
  function PageLinks(web: Web, url: string): Outcome<seq<string>> {
    match FetchResult(web.jina.serve, JinaRequest(web.jina, url, "html"), DefaultRetries, 0)
    case Raised(m) => Raised(m)
    case Ok(html) => Ok(LinksFromAnchors(url, web.parse(html), web.resolve))
  }

  /** Page `v` was fetched successfully and links to `x`. */
  ghost predicate LinksTo(web: Web, v: string, x: string) {
    PageLinks(web, v).Ok? && x in PageLinks(web, v).value
  }

  /** `get_links_from_page(url)`. */
  method GetLinksFromPage(web: Web, url: string) returns (r: Outcome<seq<string>>)
    ensures r == PageLinks(web, url)
  {
    var html, _, _ := FetchJina(web.jina, url, DefaultRetries, DefaultDelay, "html");
    match html {
      case Raised(m) => r := Raised(m);
      case Ok(page) => r := Ok(LinksFromAnchors(url, web.parse(page), web.resolve));
    }
  }
}
