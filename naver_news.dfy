/** The Naver News crawler (src/crawlers/naver_news.py): the IT/science
    section page when there is no query, the news search otherwise. */
module NaverNews {
  import opened Wrappers
  import opened Lists
  import opened Text
  import opened Models
  import Http

  const SECTION_URL: string := "https://news.naver.com/section/105"
  const SEARCH_URL: string := "https://search.naver.com/search.naver"
  const HEADERS: map<string, string> := map[
    "User-Agent" := "Mozilla/5.0 (Windows NT 10.0; Win64; x64) AppleWebKit/537.36 (KHTML, like Gecko) Chrome/120.0.0.0 Safari/537.36",
    "Accept-Language" := "ko-KR,ko;q=0.9,en-US;q=0.8,en;q=0.7"]
  const SUMMARY_LIMIT: int := 500
  /** The publisher name when a section item has no press element. */
  const SECTION_PRESS_DEFAULT: string := "네이버 뉴스"
  /** The publisher name when a search result has no press element. */
  const SEARCH_PRESS_DEFAULT: string := "Unknown"

  /** An HTML element as the crawler reads it: its text with whitespace
      stripped, and its attributes. */
  datatype Element = Element(text: string, attributes: map<string, string>)

  /** The CSS selectors of one page layout: the item list, and within an
      item the title link, the summary, the press name and the image. */
  datatype Selectors = Selectors(item: string, title: string, summary: string, press: string, image: string)

  const SECTION_SELECTORS: Selectors :=
    Selectors("div.section_article ul li", "a.sa_text_title", "div.sa_text_lede", "div.sa_text_press", "img")
  const SEARCH_SELECTORS: Selectors :=
    Selectors("div.news_area", "a.news_tit", "div.news_dsc", "a.info.press", "img.thumb")

  /** The first match of each per-item selector inside one item, if any. */
  datatype ItemElements = ItemElements(
    title: Option<Element>, summary: Option<Element>, press: Option<Element>, image: Option<Element>)

  /** The outside world: the HTTP GET with headers, the HTML parser applying
      a layout's selectors to a page, and `urlencode`. */
  datatype Web = Web(
    get: (string, map<string, string>) -> Result<Http.Response, Error>,
    select: (string, Selectors) -> seq<ItemElements>,
    urlEncode: seq<(string, string)> -> string)

  /** The search parameters, in their fixed order; results newest first. */
  function SearchParams(query: string): seq<(string, string)> {
    [("where", "news"), ("query", query), ("sort", "1")]
  }

  function SearchUrl(web: Web, query: string): (url: string)
    ensures StartsWith(url, SEARCH_URL + "?")
  {
    SEARCH_URL + "?" + web.urlEncode(SearchParams(query))
  }

  /** Python's `attrs.get(key)`. */
  function Attribute(e: Element, key: string): Option<string> {
    if key in e.attributes then Some(e.attributes[key]) else None
  }

  /** `_parse_section_item` and `_parse_search_item`, which differ only in
      their selectors and in the publisher name used when there is no press
      element. An item without a title link is skipped. */
  function ParseItem(item: ItemElements, pressDefault: string): (r: Option<NewsItem>)
    ensures r.None? <==> item.title.None?
    ensures r.Some? ==>
      && r.value.title == item.title.value.text
      && r.value.url == Attribute(item.title.value, "href").GetOr("")
      && (item.summary.None? ==> r.value.summary == "")
      && (item.summary.Some? ==> r.value.summary == Take(item.summary.value.text, SUMMARY_LIMIT))
      && |r.value.summary| <= SUMMARY_LIMIT
      && r.value.source == NaverNews
      && r.value.sourceName == (if item.press.Some? then item.press.value.text else pressDefault)
      && r.value.publishedAt == None
      && (item.image.None? ==> r.value.imageUrl == None)
      && (item.image.Some? ==> r.value.imageUrl == Attribute(item.image.value, "src"))
  {
    match item.title
    case None => None
    case Some(titleElement) =>
      var summary := if item.summary.Some? then item.summary.value.text else "";
      var sourceName := if item.press.Some? then item.press.value.text else pressDefault;
      var imageUrl := if item.image.Some? then Attribute(item.image.value, "src") else None;
      Some(NewsItem(
        titleElement.text,
        if summary == "" then "" else Take(summary, SUMMARY_LIMIT),
        Attribute(titleElement, "href").GetOr(""),
        NaverNews, sourceName, None, imageUrl))
  }

  /** A section item with only a title link: every other field takes its default. */
  lemma SectionItemDefaults(title: string)
    ensures ParseItem(ItemElements(Some(Element(title, map[])), None, None, None), SECTION_PRESS_DEFAULT)
      == Some(NewsItem(title, "", "", NaverNews, "네이버 뉴스", None, None))
  {
  }

  /** The parse result of each examined item, in page order. */
  function Parsed(items: seq<ItemElements>, pressDefault: string): (ps: seq<Option<NewsItem>>)
    ensures |ps| == |items|
    ensures forall i :: 0 <= i < |items| ==> ps[i] == ParseItem(items[i], pressDefault)
  {
    seq(|items|, i requires 0 <= i < |items| => ParseItem(items[i], pressDefault))
  }

  /** The items a fetch of `url` examines: none when the request or its
      status fails, otherwise the first `limit` matches of the item selector. */
  function Examined(web: Web, url: string, layout: Selectors, limit: int): (es: seq<ItemElements>)
    ensures limit >= 0 ==> |es| <= limit
    ensures web.get(url, HEADERS).Err? ==> es == []
    ensures web.get(url, HEADERS).Ok? ==>
      var response := web.get(url, HEADERS).value;
      && (!Http.Succeeded(response) ==> es == [])
      && (Http.Succeeded(response) ==> es <= web.select(response.text, layout))
      && (Http.Succeeded(response) && limit >= 0 ==> |es| == Min(limit, |web.select(response.text, layout)|))
      && (Http.Succeeded(response) && limit < 0 ==> |es| == Max(0, |web.select(response.text, layout)| + limit))
  {
    match web.get(url, HEADERS)
    case Err(_) => []
    case Ok(response) =>
      if Http.Succeeded(response) then SliceTo(web.select(response.text, layout), limit) else []
  }

  /** What `_fetch_section_news` returns. */
  function SectionResult(web: Web, limit: int): (r: seq<NewsItem>)
    ensures limit >= 0 ==> |r| <= limit
    ensures web.get(SECTION_URL, HEADERS).Err? ==> r == []
    ensures web.get(SECTION_URL, HEADERS).Ok? && !Http.Succeeded(web.get(SECTION_URL, HEADERS).value) ==> r == []
  {
    SomesLength(Parsed(Examined(web, SECTION_URL, SECTION_SELECTORS, limit), SECTION_PRESS_DEFAULT));
    Somes(Parsed(Examined(web, SECTION_URL, SECTION_SELECTORS, limit), SECTION_PRESS_DEFAULT))
  }

  /** What `_search_news` returns. */
  function SearchResult(web: Web, query: string, limit: int): (r: seq<NewsItem>)
    ensures limit >= 0 ==> |r| <= limit
    ensures web.get(SearchUrl(web, query), HEADERS).Err? ==> r == []
    ensures (web.get(SearchUrl(web, query), HEADERS).Ok? &&
             !Http.Succeeded(web.get(SearchUrl(web, query), HEADERS).value)) ==> r == []
  {
    SomesLength(Parsed(Examined(web, SearchUrl(web, query), SEARCH_SELECTORS, limit), SEARCH_PRESS_DEFAULT));
    Somes(Parsed(Examined(web, SearchUrl(web, query), SEARCH_SELECTORS, limit), SEARCH_PRESS_DEFAULT))
  }

  /** Keeping the parsed items: never more than were examined, and exactly
      those that parse. */
  lemma KeptItems(es: seq<ItemElements>, pressDefault: string, item: NewsItem)
    ensures |Somes(Parsed(es, pressDefault))| <= |es|
    ensures item in Somes(Parsed(es, pressDefault)) <==>
      exists i :: 0 <= i < |es| && ParseItem(es[i], pressDefault) == Some(item)
  {
    var ps := Parsed(es, pressDefault);
    SomesLength(ps);
    SomesMembership(ps, item);
    if Some(item) in ps {
      var i :| 0 <= i < |ps| && ps[i] == Some(item);
      assert ParseItem(es[i], pressDefault) == Some(item);
    }
  }

  /** Every kept item has a title link and belongs to Naver News, and at most
      `limit` are kept. */
  lemma SectionResultSound(web: Web, limit: int, item: NewsItem)
    ensures limit >= 0 ==> |SectionResult(web, limit)| <= limit
    ensures item in SectionResult(web, limit) <==>
      exists i :: 0 <= i < |Examined(web, SECTION_URL, SECTION_SELECTORS, limit)|
        && ParseItem(Examined(web, SECTION_URL, SECTION_SELECTORS, limit)[i], SECTION_PRESS_DEFAULT) == Some(item)
  {
    KeptItems(Examined(web, SECTION_URL, SECTION_SELECTORS, limit), SECTION_PRESS_DEFAULT, item);
  }

  lemma SearchResultSound(web: Web, query: string, limit: int, item: NewsItem)
    ensures limit >= 0 ==> |SearchResult(web, query, limit)| <= limit
    ensures item in SearchResult(web, query, limit) <==>
      exists i :: 0 <= i < |Examined(web, SearchUrl(web, query), SEARCH_SELECTORS, limit)|
        && ParseItem(Examined(web, SearchUrl(web, query), SEARCH_SELECTORS, limit)[i], SEARCH_PRESS_DEFAULT) == Some(item)
  {
    KeptItems(Examined(web, SearchUrl(web, query), SEARCH_SELECTORS, limit), SEARCH_PRESS_DEFAULT, item);
  }

  /** A page whose items all have a title link keeps every one of them, in
      page order. */
  lemma AllTitledKept(es: seq<ItemElements>, pressDefault: string)
    requires forall i :: 0 <= i < |es| ==> es[i].title.Some?
    ensures |Somes(Parsed(es, pressDefault))| == |es|
    ensures forall i :: 0 <= i < |es| ==> Somes(Parsed(es, pressDefault))[i] == ParseItem(es[i], pressDefault).value
  {
    SomesAllSome(Parsed(es, pressDefault));
  }

  /** A page whose items all lack a title link yields nothing. */
  lemma UntitledDropped(es: seq<ItemElements>, pressDefault: string)
    requires forall i :: 0 <= i < |es| ==> es[i].title.None?
    ensures Somes(Parsed(es, pressDefault)) == []
  {
    SomesNone(Parsed(es, pressDefault));
  }

  /** The loop shared by both fetches: parse each examined item and keep
      those that parse, in page order. */
  method Collect(elements: seq<ItemElements>, pressDefault: string) returns (items: seq<NewsItem>)
    ensures items == Somes(Parsed(elements, pressDefault))
    ensures |items| <= |elements|
  {
    ghost var ps := Parsed(elements, pressDefault);
    items := [];
    for i := 0 to |elements|
      invariant items == Somes(ps[..i])
    {
      var item := ParseItem(elements[i], pressDefault);
      SomesSnoc(ps, i);
      if item.Some? {
        items := items + [item.value];
      }
    }
    assert ps[..|elements|] == ps;
    SomesLength(ps);
  }

  /** One GET of `url` with the browser headers; a transport error or a
      non-2xx status gives the empty list. */
  method FetchPage(web: Web, url: string, layout: Selectors, pressDefault: string, limit: int)
    returns (items: seq<NewsItem>)
    ensures items == Somes(Parsed(Examined(web, url, layout, limit), pressDefault))
    ensures limit >= 0 ==> |items| <= limit
  {
    var response := web.get(url, HEADERS);
    if response.Err? || !Http.Succeeded(response.value) {
      items := [];
    } else {
      var examined := SliceTo(web.select(response.value.text, layout), limit);
      assert examined == Examined(web, url, layout, limit);
      items := Collect(examined, pressDefault);
    }
  }

  /** `_fetch_section_news`. */
  method FetchSectionNews(web: Web, limit: int) returns (items: seq<NewsItem>)
    ensures items == SectionResult(web, limit)
    ensures limit >= 0 ==> |items| <= limit
  {
    items := FetchPage(web, SECTION_URL, SECTION_SELECTORS, SECTION_PRESS_DEFAULT, limit);
  }

  /** `_search_news`. */
  method SearchNews(web: Web, query: string, limit: int) returns (items: seq<NewsItem>)
    ensures items == SearchResult(web, query, limit)
    ensures limit >= 0 ==> |items| <= limit
  {
    var url := SearchUrl(web, query);
    items := FetchPage(web, url, SEARCH_SELECTORS, SEARCH_PRESS_DEFAULT, limit);
  }

  /** `fetch`: the empty query reads the section page, any other searches. */
  method Fetch(web: Web, query: string, limit: int) returns (items: seq<NewsItem>)
    ensures query == "" ==> items == SectionResult(web, limit)
    ensures query != "" ==> items == SearchResult(web, query, limit)
    ensures limit >= 0 ==> |items| <= limit
  {
    if query != "" {
      items := SearchNews(web, query, limit);
    } else {
      items := FetchSectionNews(web, limit);
    }
  }
}
