/** The Google News RSS crawler (src/crawlers/google_news.py): builds the
    feed URL, downloads and parses the feed, and turns up to `limit` entries
    into news items. */
module GoogleNews {
  import opened Wrappers
  import opened Lists
  import opened Text
  import opened Json
  import opened Models
  import Http

  const BASE_URL: string := "https://news.google.com/rss/search"
  /** The publisher name when the title carries none. */
  const UNKNOWN_SOURCE: string := "Unknown"
  /** Google News appends " - publisher" to every title. */
  const TITLE_SEPARATOR: string := " - "
  const SUMMARY_LIMIT: int := 500

  /** The crawler's configuration: the feed language and country. */
  datatype Crawler = Crawler(language: string, country: string)

  /** One feed entry as the feed parser gives it: its fields by name. */
  type FeedEntry = map<string, Value>

  /** The outside world the crawler talks to: the HTTP GET, the RSS parser
      and the RFC 2822 date parser (`None` where it raises). */
  datatype Web = Web(
    get: string -> Result<Http.Response, Error>,
    parseFeed: string -> seq<FeedEntry>,
    parseDate: string -> Option<Timestamp>)

  // ---------------------------------------------------------------- URL

  /** The query parameters, in their fixed order. */
  function QueryParams(c: Crawler, query: string): seq<(string, string)> {
    [("q", query), ("hl", c.language), ("gl", c.country), ("ceid", c.country + ":" + c.language)]
  }

  /** `k=v` for each parameter; the values are not URL-encoded. */
  function ParamFields(params: seq<(string, string)>): (r: seq<string>)
    ensures |r| == |params|
    ensures forall i :: 0 <= i < |params| ==> r[i] == params[i].0 + "=" + params[i].1
  {
    seq(|params|, i requires 0 <= i < |params| => params[i].0 + "=" + params[i].1)
  }

  /** The feed URL: the base URL, '?', and the fields joined by '&'. */
  function FeedUrl(c: Crawler, query: string): (url: string)
    ensures StartsWith(url, BASE_URL + "?")
  {
    BASE_URL + "?" + Join("&", ParamFields(QueryParams(c, query)))
  }

  /** The part of the feed URL after '?'. */
  function QueryPart(url: string): string
    requires |url| >= |BASE_URL| + 1
  {
    url[|BASE_URL| + 1..]
  }

  lemma FieldsOfParams(c: Crawler, query: string)
    ensures ParamFields(QueryParams(c, query))
      == ["q=" + query, "hl=" + c.language, "gl=" + c.country, "ceid=" + c.country + ":" + c.language]
  {
    var ps := QueryParams(c, query);
    var fields := ParamFields(ps);
    assert fields[0] == "q" + "=" + query;
    assert fields[1] == "hl" + "=" + c.language;
    assert fields[2] == "gl" + "=" + c.country;
    assert fields[3] == "ceid" + "=" + (c.country + ":" + c.language);
    assert "q" + "=" == "q=" && "hl" + "=" == "hl=" && "gl" + "=" == "gl=" && "ceid" + "=" == "ceid=";
    assert "ceid=" + (c.country + ":" + c.language) == "ceid=" + c.country + ":" + c.language;
    assert |fields| == 4;
  }

  /** With no '&' in the query or the configuration, splitting the URL's query
      part on '&' gives back exactly the four fields, in order. */
  lemma FeedUrlFields(c: Crawler, query: string)
    requires '&' !in query && '&' !in c.language && '&' !in c.country
    ensures Split(QueryPart(FeedUrl(c, query)), '&')
      == ["q=" + query, "hl=" + c.language, "gl=" + c.country, "ceid=" + c.country + ":" + c.language]
  {
    var fields := ParamFields(QueryParams(c, query));
    assert QueryPart(FeedUrl(c, query)) == Join("&", fields);
    FieldsOfParams(c, query);
    forall i | 0 <= i < |fields|
      ensures '&' !in fields[i]
    {
      assert fields[i] == QueryParams(c, query)[i].0 + "=" + QueryParams(c, query)[i].1;
    }
    SplitJoin(fields, '&');
  }

  /** Since nothing is encoded, an '&' in the query starts a parameter of its own. */
  lemma AmpersandInQuery(c: Crawler, a: string, b: string)
    requires '&' !in a && '&' !in b && '&' !in c.language && '&' !in c.country
    ensures Split(QueryPart(FeedUrl(c, a + "&" + b)), '&')
      == ["q=" + a, b, "hl=" + c.language, "gl=" + c.country, "ceid=" + c.country + ":" + c.language]
  {
    var hl, gl, ceid := "hl=" + c.language, "gl=" + c.country, "ceid=" + c.country + ":" + c.language;
    var tail := [b, hl, gl, ceid];
    AmpersandQueryPart(c, a, b);
    assert '&' !in hl && '&' !in gl && '&' !in ceid && '&' !in "q=" + a;
    SplitJoin(tail, '&');
    SplitLeadingPart("q=" + a, '&', Join("&", tail));
  }

  /** The query part of such a URL, written as the first field, the '&' and the rest. */
  lemma AmpersandQueryPart(c: Crawler, a: string, b: string)
    ensures QueryPart(FeedUrl(c, a + "&" + b)) == ("q=" + a) + ['&']
      + Join("&", [b, "hl=" + c.language, "gl=" + c.country, "ceid=" + c.country + ":" + c.language])
  {
    var query := a + "&" + b;
    var rest := ["hl=" + c.language, "gl=" + c.country, "ceid=" + c.country + ":" + c.language];
    FieldsOfParams(c, query);
    assert QueryPart(FeedUrl(c, query)) == Join("&", ["q=" + query] + rest);
    assert Join("&", ["q=" + query] + rest) == ("q=" + query) + "&" + Join("&", rest);
    assert Join("&", [b] + rest) == b + "&" + Join("&", rest);
  }

  // ---------------------------------------------------------------- titles

  /** The title and the publisher: a title containing " - " is cut at its
      last occurrence, otherwise the publisher is "Unknown". */
  function SplitTitle(title: string): (r: (string, string))
    ensures !Contains(title, TITLE_SEPARATOR) ==> r == (title, UNKNOWN_SOURCE)
    ensures Contains(title, TITLE_SEPARATOR) ==> title == r.0 + TITLE_SEPARATOR + r.1
    ensures Contains(title, TITLE_SEPARATOR) ==>
      OccursAt(title, TITLE_SEPARATOR, |r.0|) && forall j :: |r.0| < j ==> !OccursAt(title, TITLE_SEPARATOR, j)
  {
    match LastIndexOf(title, TITLE_SEPARATOR)
    case None => (title, UNKNOWN_SOURCE)
    case Some(k) =>
      assert title == title[..k] + TITLE_SEPARATOR + title[k + |TITLE_SEPARATOR|..];
      (title[..k], title[k + |TITLE_SEPARATOR|..])
  }

  /** The cut is at the last separator: the publisher part contains none. */
  lemma SplitTitleAtLast(title: string)
    requires Contains(title, TITLE_SEPARATOR)
    ensures !Contains(SplitTitle(title).1, TITLE_SEPARATOR)
  {
    var k := LastIndexOf(title, TITLE_SEPARATOR).value;
    var tail := SplitTitle(title).1;
    assert tail == title[k + 3..];
    forall j | 0 <= j <= |tail|
      ensures !OccursAt(tail, TITLE_SEPARATOR, j)
    {
      assert !OccursAt(title, TITLE_SEPARATOR, k + 3 + j);
      assert j + 3 <= |tail| ==> title[k + 3 + j..k + 3 + j + 3] == tail[j..j + 3];
    }
  }

  /** Overlapping separators: "a - - b" holds " - " at 1 and at 3, and the
      cut is at 3, as `rsplit(" - ", 1)` makes it. */
  lemma SplitTitleOverlap()
    ensures SplitTitle("a - - b") == ("a -", "b")
  {
    var t := "a - - b";
    assert OccursAt(t, TITLE_SEPARATOR, 3);
    assert LastIndexFrom(t, TITLE_SEPARATOR, 4) == LastIndexFrom(t, TITLE_SEPARATOR, 3) by {
      assert t[4..7][0] == '-';
      assert !OccursAt(t, TITLE_SEPARATOR, 4);
    }
    assert LastIndexFrom(t, TITLE_SEPARATOR, 3) == Some(3);
    assert t[..3] == "a -" && t[6..] == "b";
  }

  lemma SplitTitleExample()
    ensures SplitTitle("칩 - 삼성 - 연합") == ("칩 - 삼성", "연합")
    ensures SplitTitle("새 스마트폰 공개") == ("새 스마트폰 공개", "Unknown")
  {
    var t := "칩 - 삼성 - 연합";
    assert OccursAt(t, TITLE_SEPARATOR, 6);
    assert LastIndexFrom(t, TITLE_SEPARATOR, 6) == Some(6);
    assert t[7..10][0] == '-';
    assert !OccursAt(t, TITLE_SEPARATOR, 7);
    assert LastIndexFrom(t, TITLE_SEPARATOR, 7) == Some(6);
    assert t[8..11][1] == '연';
    assert !OccursAt(t, TITLE_SEPARATOR, 8);
    assert LastIndexFrom(t, TITLE_SEPARATOR, 8) == Some(6);
    assert LastIndexOf(t, TITLE_SEPARATOR) == Some(6);
    assert t[..6] == "칩 - 삼성" && t[9..] == "연합";
    var u := "새 스마트폰 공개";
    assert '-' !in u;
    forall k | 0 <= k <= |u|
      ensures !OccursAt(u, TITLE_SEPARATOR, k)
    {
      if k + 3 <= |u| {
        assert u[k..k + 3][1] == u[k + 1];
      }
    }
  }

  // ---------------------------------------------------------------- HTML

  /** No `<...>` tag is left: every '<' is directly followed by '>' or has no
      '>' after it. */
  predicate TagFree(s: string) {
    forall i :: 0 <= i < |s| && s[i] == '<' ==> (i + 1 < |s| && s[i + 1] == '>') || '>' !in s[i + 1..]
  }

  /** `re.sub(r'<[^>]+>', '', s)`: scanning left to right, a '<' followed by
      at least one character before the next '>' starts a tag, which is
      deleted up to and including that '>'. */
  function RemoveTags(s: string): (r: string)
    ensures forall c :: c in r ==> c in s
    ensures TagFree(r)
    decreases |s|
  {
    if s == "" then ""
    else if s[0] == '<' then
      match IndexOfChar(s[1..], '>')
      case Some(j) =>
        if j > 0 then RemoveTags(s[j + 2..])
        else
          var rest := RemoveTags(s[1..]);
          assert s[1..][0] == '>';
          ['<'] + rest
      case None =>
        var rest := RemoveTags(s[1..]);
        assert '>' !in rest;
        ['<'] + rest
    else
      [s[0]] + RemoveTags(s[1..])
  }

  /** Tag-free text passes through unchanged. */
  lemma {:induction false} RemoveTagsTagFree(s: string)
    requires TagFree(s)
    ensures RemoveTags(s) == s
    decreases |s|
  {
    if s != "" {
      assert TagFree(s[1..]) by {
        forall i | 0 <= i < |s[1..]| && s[1..][i] == '<'
          ensures (i + 1 < |s[1..]| && s[1..][i + 1] == '>') || '>' !in s[1..][i + 1..]
        {
          assert s[i + 1] == '<';
          assert s[1..][i + 1..] == s[i + 2..];
        }
      }
      RemoveTagsTagFree(s[1..]);
      if s[0] == '<' {
        assert (1 < |s| && s[1] == '>') || '>' !in s[1..];
      }
      assert s == [s[0]] + s[1..];
    }
  }

  /** Removing tags a second time changes nothing. */
  lemma RemoveTagsIdempotent(s: string)
    ensures RemoveTags(RemoveTags(s)) == RemoveTags(s)
  {
    RemoveTagsTagFree(RemoveTags(s));
  }

  /** Text before the first '<' is kept as it is. */
  lemma {:induction false} RemoveTagsPlainPrefix(a: string, b: string)
    requires '<' !in a
    ensures RemoveTags(a + b) == a + RemoveTags(b)
    decreases |a|
  {
    if a != "" {
      var s := a + b;
      assert s[0] == a[0] && s[1..] == a[1..] + b;
      RemoveTagsPlainPrefix(a[1..], b);
      assert a == [a[0]] + a[1..];
    } else {
      assert a + b == b;
    }
  }

  /** A tag, '<' then at least one character and the next '>', is deleted. */
  lemma RemoveTagsTag(m: string, b: string)
    requires m != "" && '>' !in m
    ensures RemoveTags("<" + m + ">" + b) == RemoveTags(b)
  {
    var s := "<" + m + ">" + b;
    var t := m + ">" + b;
    assert s[1..] == t && s[0] == '<';
    assert t[|m|] == '>' && t[..|m|] == m;
    assert IndexOfChar(t, '>') == Some(|m|);
    assert s[|m| + 2..] == b;
  }

  /** "<>" is no tag: both characters are kept. */
  lemma RemoveTagsEmptyBrackets(b: string)
    ensures RemoveTags("<>" + b) == "<>" + RemoveTags(b)
  {
    var s := "<>" + b;
    assert s[1..] == ">" + b && s[0] == '<';
    assert IndexOfChar(s[1..], '>') == Some(0);
    RemoveTagsPlainPrefix(">", b);
  }

  /** A '<' with no '>' anywhere after it is kept. */
  lemma RemoveTagsUnclosed(b: string)
    requires '>' !in b
    ensures RemoveTags("<" + b) == "<" + RemoveTags(b)
  {
    var s := "<" + b;
    assert s[1..] == b && s[0] == '<';
  }

  /** Text up to the first tag is kept and the tag is deleted; the rest is
      processed the same way. */
  lemma RemoveTagsSplit(a: string, m: string, b: string)
    requires '<' !in a && m != "" && '>' !in m
    ensures RemoveTags(a + "<" + m + ">" + b) == a + RemoveTags(b)
  {
    assert a + "<" + m + ">" + b == a + ("<" + m + ">" + b);
    RemoveTagsPlainPrefix(a, "<" + m + ">" + b);
    RemoveTagsTag(m, b);
  }

  /** The first two entity replacements: "&nbsp;" becomes a space, then
      "&amp;" becomes '&'. */
  function EarlyPasses(s: string): (r: string)
    ensures |r| <= |s|
    ensures '&' !in s ==> r == s
  {
    assert "&nbsp;"[0] == '&' && "&amp;"[0] == '&';
    ReplaceAll(ReplaceAll(s, "&nbsp;", " "), "&amp;", "&")
  }

  /** The last three: "&lt;" becomes '<', then "&gt;" '>', then "&quot;" '"'. */
  function LatePasses(s: string): (r: string)
    ensures |r| <= |s|
    ensures '&' !in s ==> r == s
  {
    assert "&lt;"[0] == '&' && "&gt;"[0] == '&' && "&quot;"[0] == '&';
    ReplaceAll(ReplaceAll(ReplaceAll(s, "&lt;", "<"), "&gt;", ">"), "&quot;", "\"")
  }

  /** The five entity replacements, in their fixed order. Each pass runs over
      the output of the one before, so an '&' produced by "&amp;" can start
      an entity of a later pass. */
  function DecodeEntities(s: string): (r: string)
    ensures |r| <= |s|
    ensures '&' !in s ==> r == s
  {
    LatePasses(EarlyPasses(s))
  }

  lemma EarlyPlainPrefix(a: string, b: string)
    requires '&' !in a
    ensures EarlyPasses(a + b) == a + EarlyPasses(b)
  {
    assert "&nbsp;"[0] == '&' && "&amp;"[0] == '&';
    ReplaceSkip(a, b, "&nbsp;", " ");
    ReplaceSkip(a, ReplaceAll(b, "&nbsp;", " "), "&amp;", "&");
  }

  lemma LatePlainPrefix(a: string, b: string)
    requires '&' !in a
    ensures LatePasses(a + b) == a + LatePasses(b)
  {
    assert "&lt;"[0] == '&' && "&gt;"[0] == '&' && "&quot;"[0] == '&';
    var s3 := ReplaceAll(b, "&lt;", "<");
    ReplaceSkip(a, b, "&lt;", "<");
    ReplaceSkip(a, s3, "&gt;", ">");
    ReplaceSkip(a, ReplaceAll(s3, "&gt;", ">"), "&quot;", "\"");
  }

  lemma EarlyNbsp(b: string)
    ensures EarlyPasses("&nbsp;" + b) == " " + EarlyPasses(b)
  {
    ReplaceHead("&nbsp;", b, " ");
    ReplaceSkip(" ", ReplaceAll(b, "&nbsp;", " "), "&amp;", "&");
  }

  lemma EarlyAmp(b: string)
    ensures EarlyPasses("&amp;" + b) == "&" + EarlyPasses(b)
  {
    ReplaceNearMiss("&amp;", b, "&nbsp;", " ");
    ReplaceHead("&amp;", ReplaceAll(b, "&nbsp;", " "), "&");
  }

  /** "&lt;", "&gt;" and "&quot;" pass the first two replacements intact. */
  lemma EarlyKeeps(e: string, b: string)
    requires e == "&lt;" || e == "&gt;" || e == "&quot;"
    ensures EarlyPasses(e + b) == e + EarlyPasses(b)
  {
    assert e[1] != 'n' && e[1] != 'a' && '&' !in e[1..];
    ReplaceNearMiss(e, b, "&nbsp;", " ");
    ReplaceNearMiss(e, ReplaceAll(b, "&nbsp;", " "), "&amp;", "&");
  }

  lemma LateLt(b: string)
    ensures LatePasses("&lt;" + b) == "<" + LatePasses(b)
  {
    var s3 := ReplaceAll(b, "&lt;", "<");
    ReplaceHead("&lt;", b, "<");
    ReplaceSkip("<", s3, "&gt;", ">");
    ReplaceSkip("<", ReplaceAll(s3, "&gt;", ">"), "&quot;", "\"");
  }

  lemma LateGt(b: string)
    ensures LatePasses("&gt;" + b) == ">" + LatePasses(b)
  {
    var s3 := ReplaceAll(b, "&lt;", "<");
    ReplaceNearMiss("&gt;", b, "&lt;", "<");
    ReplaceHead("&gt;", s3, ">");
    ReplaceSkip(">", ReplaceAll(s3, "&gt;", ">"), "&quot;", "\"");
  }

  lemma LateQuot(b: string)
    ensures LatePasses("&quot;" + b) == "\"" + LatePasses(b)
  {
    var s3 := ReplaceAll(b, "&lt;", "<");
    ReplaceNearMiss("&quot;", b, "&lt;", "<");
    ReplaceNearMiss("&quot;", s3, "&gt;", ">");
    ReplaceHead("&quot;", ReplaceAll(s3, "&gt;", ">"), "\"");
  }

  /** Text before the first '&' is kept as it is. */
  lemma DecodePlainPrefix(a: string, b: string)
    requires '&' !in a
    ensures DecodeEntities(a + b) == a + DecodeEntities(b)
  {
    EarlyPlainPrefix(a, b);
    LatePlainPrefix(a, EarlyPasses(b));
  }

  /** A leading "&nbsp;" becomes a space. */
  lemma DecodeNbsp(b: string)
    ensures DecodeEntities("&nbsp;" + b) == " " + DecodeEntities(b)
  {
    EarlyNbsp(b);
    LatePlainPrefix(" ", EarlyPasses(b));
  }

  /** A leading "&lt;" becomes '<'. */
  lemma DecodeLt(b: string)
    ensures DecodeEntities("&lt;" + b) == "<" + DecodeEntities(b)
  {
    EarlyKeeps("&lt;", b);
    LateLt(EarlyPasses(b));
  }

  /** A leading "&gt;" becomes '>'. */
  lemma DecodeGt(b: string)
    ensures DecodeEntities("&gt;" + b) == ">" + DecodeEntities(b)
  {
    EarlyKeeps("&gt;", b);
    LateGt(EarlyPasses(b));
  }

  /** A leading "&quot;" becomes '"'. */
  lemma DecodeQuot(b: string)
    ensures DecodeEntities("&quot;" + b) == "\"" + DecodeEntities(b)
  {
    EarlyKeeps("&quot;", b);
    LateQuot(EarlyPasses(b));
  }

  /** A leading "&amp;" becomes an '&' that the last three replacements
      still see, together with what follows it. */
  lemma DecodeAmp(b: string)
    ensures DecodeEntities("&amp;" + b) == LatePasses("&" + EarlyPasses(b))
  {
    EarlyAmp(b);
  }

  /** Because "&amp;" is decoded before "&lt;", "&amp;lt;" decodes twice, to '<'. */
  lemma DecodeAmpLt(b: string)
    ensures DecodeEntities("&amp;lt;" + b) == "<" + DecodeEntities(b)
  {
    assert "&amp;lt;" + b == "&amp;" + ("lt;" + b);
    EarlyAmp("lt;" + b);
    EarlyPlainPrefix("lt;", b);
    assert "&" + ("lt;" + EarlyPasses(b)) == "&lt;" + EarlyPasses(b);
    LateLt(EarlyPasses(b));
  }

  /** `_strip_html`: tags removed, entities decoded, whitespace stripped. */
  function StripHtml(text: string): (r: string)
    ensures r != "" ==> !IsWhitespace(r[0]) && !IsWhitespace(r[|r| - 1])
  {
    Strip(DecodeEntities(RemoveTags(text)))
  }

  /** Text with no '<' and no '&' is only stripped. */
  lemma StripHtmlPlain(text: string)
    requires '<' !in text && '&' !in text
    ensures StripHtml(text) == Strip(text)
  {
    assert TagFree(text);
    RemoveTagsTagFree(text);
  }

  /** `&amp;` is decoded before `&lt;`, so "&amp;lt;" decodes twice. */
  lemma DecodeEntitiesTwice()
    ensures DecodeEntities("&amp;lt;") == "<"
  {
    DecodeAmpLt("");
    assert "&amp;lt;" + "" == "&amp;lt;" && "<" + "" == "<";
  }

  /** A tag is deleted and the text before it, free of '<' and '&', is kept;
      the rest is cleaned in the same way, and the whole is stripped. */
  lemma StripHtmlDropsTag(a: string, m: string, b: string)
    requires '<' !in a && '&' !in a && m != "" && '>' !in m
    ensures StripHtml(a + "<" + m + ">" + b) == Strip(a + DecodeEntities(RemoveTags(b)))
  {
    RemoveTagsSplit(a, m, b);
    DecodePlainPrefix(a, RemoveTags(b));
  }

  lemma StripHtmlDecodesTwice()
    ensures StripHtml("&amp;lt;") == "<"
  {
    RemoveTagsTagFree("&amp;lt;");
    DecodeEntitiesTwice();
    StripUnpadded("<");
  }

  // ---------------------------------------------------------------- entries

  /** The summary text of an entry: "summary", else "description", else "". */
  function RawSummary(entry: FeedEntry): (r: Value)
    ensures "summary" in entry ==> r == entry["summary"]
    ensures "summary" !in entry && "description" in entry ==> r == entry["description"]
    ensures "summary" !in entry && "description" !in entry ==> r == Str("")
  {
    if "summary" in entry then entry["summary"] else Get(entry, "description", Str(""))
  }

  /** `_parse_entry`. A title or summary that is not text makes the string
      operations raise, and the entry is skipped (`None`). */
  function ParseEntry(entry: FeedEntry, parseDate: string -> Option<Timestamp>): (r: Option<NewsItem>)
    ensures r.Some? <==> Get(entry, "title", Str("")).Str? && RawSummary(entry).Str? && Get(entry, "link", Str("")).Str?
    ensures r.Some? ==> var raw := Get(entry, "title", Str("")).s;
      && (r.value.title, r.value.sourceName) == SplitTitle(raw)
      && r.value.summary == Take(StripHtml(RawSummary(entry).s), SUMMARY_LIMIT)
      && |r.value.summary| <= SUMMARY_LIMIT
      && r.value.source == GoogleNews
      && r.value.imageUrl == None
      && r.value.url == Get(entry, "link", Str("")).s
      && (r.value.publishedAt.Some? ==> "published" in entry && entry["published"].Str?)
      && ("published" in entry && entry["published"].Str? ==>
            r.value.publishedAt == parseDate(entry["published"].s))
  {
    var title := Get(entry, "title", Str(""));
    var summary := RawSummary(entry);
    var link := Get(entry, "link", Str(""));
    if !title.Str? || !summary.Str? || !link.Str? then None
    else
      var (t, sourceName) := SplitTitle(title.s);
      var clean := StripHtml(summary.s);
      var published :=
        if "published" in entry && entry["published"].Str? then parseDate(entry["published"].s) else None;
      Some(NewsItem(t, if clean == "" then "" else Take(clean, SUMMARY_LIMIT), link.s,
                    GoogleNews, sourceName, published, None))
  }

  /** The parse result of each examined entry, in feed order. */
  function Parsed(entries: seq<FeedEntry>, parseDate: string -> Option<Timestamp>): (ps: seq<Option<NewsItem>>)
    ensures |ps| == |entries|
    ensures forall i :: 0 <= i < |entries| ==> ps[i] == ParseEntry(entries[i], parseDate)
  {
    seq(|entries|, i requires 0 <= i < |entries| => ParseEntry(entries[i], parseDate))
  }

  /** The entries `fetch` examines: none when the request or its status
      fails, otherwise the first `limit` of the feed. */
  function Examined(c: Crawler, web: Web, query: string, limit: int): (es: seq<FeedEntry>)
    ensures limit >= 0 ==> |es| <= limit
    ensures web.get(FeedUrl(c, query)).Err? ==> es == []
    ensures web.get(FeedUrl(c, query)).Ok? ==>
      var response := web.get(FeedUrl(c, query)).value;
      && (!Http.Succeeded(response) ==> es == [])
      && (Http.Succeeded(response) ==> es <= web.parseFeed(response.text))
      && (Http.Succeeded(response) && limit >= 0 ==> |es| == Min(limit, |web.parseFeed(response.text)|))
      && (Http.Succeeded(response) && limit < 0 ==> |es| == Max(0, |web.parseFeed(response.text)| + limit))
  {
    match web.get(FeedUrl(c, query))
    case Err(_) => []
    case Ok(response) =>
      if Http.Succeeded(response) then SliceTo(web.parseFeed(response.text), limit) else []
  }

  /** What `fetch` returns: the examined entries that parse, in order. */
  function FetchResult(c: Crawler, web: Web, query: string, limit: int): (r: seq<NewsItem>)
    ensures limit >= 0 ==> |r| <= limit
    ensures web.get(FeedUrl(c, query)).Err? ==> r == []
    ensures web.get(FeedUrl(c, query)).Ok? && !Http.Succeeded(web.get(FeedUrl(c, query)).value) ==> r == []
  {
    SomesLength(Parsed(Examined(c, web, query, limit), web.parseDate));
    Somes(Parsed(Examined(c, web, query, limit), web.parseDate))
  }

  /** No more than `limit` items, and exactly the items parsed from examined entries. */
  lemma FetchResultSound(c: Crawler, web: Web, query: string, limit: int, item: NewsItem)
    ensures limit >= 0 ==> |FetchResult(c, web, query, limit)| <= limit
    ensures item in FetchResult(c, web, query, limit) <==>
      exists i :: 0 <= i < |Examined(c, web, query, limit)|
        && Parsed(Examined(c, web, query, limit), web.parseDate)[i] == Some(item)
  {
    KeptEntries(Examined(c, web, query, limit), web.parseDate, item);
  }

  /** The items kept from some entries: no more of them than entries, and
      exactly the items those entries parse to (`Parsed(es, d)[i]` is
      `ParseEntry(es[i], d)`). */
  lemma KeptEntries(es: seq<FeedEntry>, parseDate: string -> Option<Timestamp>, item: NewsItem)
    ensures |Somes(Parsed(es, parseDate))| <= |es|
    ensures item in Somes(Parsed(es, parseDate)) <==>
      exists i :: 0 <= i < |es| && Parsed(es, parseDate)[i] == Some(item)
  {
    var ps := Parsed(es, parseDate);
    SomesLength(ps);
    SomesMembership(ps, item);
  }

  /** A feed whose first `limit` entries all parse yields one item per entry,
      in feed order. */
  lemma FetchAllParse(c: Crawler, web: Web, query: string, limit: nat)
    requires web.get(FeedUrl(c, query)).Ok? && Http.Succeeded(web.get(FeedUrl(c, query)).value)
    requires var feed := web.parseFeed(web.get(FeedUrl(c, query)).value.text);
      forall i :: 0 <= i < Min(limit, |feed|) ==> ParseEntry(feed[i], web.parseDate).Some?
    ensures var feed := web.parseFeed(web.get(FeedUrl(c, query)).value.text);
      && |FetchResult(c, web, query, limit)| == Min(limit, |feed|)
      && forall i :: 0 <= i < Min(limit, |feed|) ==>
           FetchResult(c, web, query, limit)[i] == ParseEntry(feed[i], web.parseDate).value
  {
    var feed := web.parseFeed(web.get(FeedUrl(c, query)).value.text);
    var es := Examined(c, web, query, limit);
    assert forall i :: 0 <= i < |es| ==> es[i] == feed[i];
    SomesAllSome(Parsed(es, web.parseDate));
  }

  /** `fetch`: one GET, then a loop over the first `limit` entries that keeps
      those that parse. Any failure of the request gives the empty list. */
  method Fetch(c: Crawler, web: Web, query: string, limit: int) returns (items: seq<NewsItem>)
    ensures items == FetchResult(c, web, query, limit)
    ensures limit >= 0 ==> |items| <= limit
  {
    var url := FeedUrl(c, query);
    var response := web.get(url);
    if response.Err? || !Http.Succeeded(response.value) {
      items := [];
    } else {
      var entries := SliceTo(web.parseFeed(response.value.text), limit);
      assert entries == Examined(c, web, query, limit);
      ghost var ps := Parsed(entries, web.parseDate);
      items := [];
      for i := 0 to |entries|
        invariant items == Somes(ps[..i])
      {
        var item := ParseEntry(entries[i], web.parseDate);
        SomesSnoc(ps, i);
        if item.Some? {
          items := items + [item.value];
        }
      }
      assert ps[..|entries|] == ps;
      SomesLength(ps);
    }
  }
}
