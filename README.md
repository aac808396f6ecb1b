# YouTube Shorts pipeline core, modelled in Dafny

This project models the data-handling core of a YouTube Shorts pipeline:

- the news crawlers for Google News RSS and Naver News;
- the news selector, which asks a language model to pick the items worth a video;
- the script writer, which asks the model for a narration script;
- the JSON-fence handling of the model client;
- the serialisable records of `src/models.py`;
- the file-name sanitiser `safe_filename`.

The model then proves properties of these parts.

Modules, one per source file:

- `Models`: the records and their `to_dict` forms.
- `Client`: the chat request and `chat_json`.
- `Selector`: `select` and `_format_news_list`.
- `ScriptWriter`: `write` and `write_batch`.
- `GoogleNews`: the RSS crawler.
- `NaverNews`: the section and search crawler.
- `FileManager`: `safe_filename`.

Helper modules model Python behaviour the core relies on:

- `Wrappers`: `Option` and `Result`.
- `Lists`: slicing `s[:n]` with any integer `n`, and the keep-what-parsed filter.
- `Text`: `str.isspace`, `strip`, `replace`, `split`, `rsplit`/`rfind`, `join`.
- `Json`: the values `json.loads` produces.
- `Http`: the status and body of a response.

Everything outside the program is a function-valued parameter:

- the OpenAI completion call;
- `json.loads`;
- the HTTP GET;
- the RSS parser;
- the HTML parser with its CSS selectors;
- `urlencode`;
- the date parser;
- the prompt templates.

An exception the source raises becomes an `Err`. An exception the source catches becomes the value the handler returns: `None` for an entry, `[]` for a fetch, a logged failure for a batch.

Loops in the source stay loops in Dafny:

- `FormatNewsList` is `_format_news_list`.
- `ResolveAll` is the selection loop.
- `WriteBatch` is `write_batch`.
- `Fetch` and `Collect` are the crawler loops.
- `DeleteInvalid` is the forbidden-character loop of `safe_filename`, which `SafeFilename` runs before collapsing, cutting and stripping.

Each loop is proved equal to a specification function. The lemmas are stated about those functions.

Malformed selector entries are not dropped silently. The selection loop in `src/ai/selector.py:53-71` raises for them; only an index that compares as out of range (an integer, a float or a boolean) is skipped:

- a non-object entry raises;
- a non-numeric `index` raises;
- a float index within range raises (a float cannot index a list);
- the exception is re-raised.

`Selector.IndexValue` and `Selector.ResolveEntry` give `Err` in these cases. A Python `bool` index counts as 0 or 1, because `bool` is an `int`.

## Model

| member | source | states |
|---|---|---|
| Models.NewsSourceOf | src/models.py:7-9 | a string maps back to the source whose value it is, and to nothing when no source has that value |
| Models.UploadPrivacyOf | src/models.py:17-20 | a string maps back to the privacy level whose value it is, and to nothing otherwise |
| Models.NewsItem.ToDict | src/models.py:33-42 | the dictionary has exactly the seven keys; "source" holds the enum value; "published_at" is null exactly when there is no publication time |
| Models.NewsItemRoundTrip | src/models.py:23-42 | `to_dict` loses nothing: reading the dictionary back gives the same news item |
| Models.SelectedNews.ToDict | src/models.py:51-56 | exactly the three keys; "news" holds the item's own dictionary; the reason and hook idea are copied |
| Models.SelectedNewsRoundTrip | src/models.py:45-56 | reading the dictionary back gives the same selection |
| Models.Script.EstimatedDuration | src/models.py:74-76 | the duration is non-negative; it is zero exactly for an empty script; it equals 60 s per 350 characters |
| Models.Script.CharacterCount | src/models.py:71-72 | the character count is the length of the full script |
| Models.DurationMonotone | src/models.py:74-76 | a longer script never has a shorter estimated duration |
| Models.Script.ToDict | src/models.py:78-90 | exactly the ten keys; "character_count" is the length of the full script; "estimated_duration" is a float in the 60/350 ratio to that length |
| Models.ScriptRoundTrip | src/models.py:59-90 | reading the script dictionary back gives the same script |
| Models.ShortsVideo.ToDict | src/models.py:131-140 | exactly the seven keys; "script" holds the script's dictionary; "thumbnail_path" is null exactly when absent |
| Models.ShortsVideoRoundTrip | src/models.py:121-140 | reading the video dictionary back gives the same video |
| Models.UploadResult.ToDict | src/models.py:153-162 | exactly the seven keys; "privacy" holds the enum value; "error_message" is null exactly when absent |
| Models.UploadResultRoundTrip | src/models.py:143-162 | reading the upload dictionary back gives the same upload result |
| Models.PipelineResult.Duration | src/models.py:174-178 | zero while the run is unfinished; otherwise the elapsed time from start to finish |
| Models.PipelineResult.ToDict | src/models.py:180-189 | exactly the seven keys; the two counts are the list lengths; "finished_at" is null exactly when unfinished, and the duration is then 0.0; the errors are copied as a list of strings |
| Client.ChatRequest | src/ai/client.py:32-40 | the request carries exactly two messages, system then user, with the given prompts, plus the client's model, the temperature and the token limit |
| Client.Chat | src/ai/client.py:21-45 | the reply is the completion of exactly that request, returned unchanged |
| Client.ChatJson | src/ai/client.py:47-79 | a failed completion is passed on unchanged; a reply that parses yields the parsed value; a reply that does not parse becomes a malformed-output error |
| Client.JsonFenceIsFence | src/ai/client.py:67-70 | a reply that opens with "```json" also opens with "```" |
| Client.PlainPassThrough | src/ai/client.py:66-74 | a reply with no fence at either end is only whitespace-stripped before parsing |
| Client.JsonFencedPayload | src/ai/client.py:66-74 | a payload wrapped in a "```json" fence reaches the parser as the stripped payload |
| Client.BareFencedPayload | src/ai/client.py:69-74 | a payload wrapped in a bare "```" fence reaches the parser as the stripped payload |
| Client.FencingIsTransparent | src/ai/client.py:66-74 | wrapping an unfenced payload in a JSON fence does not change what is parsed |
| Client.StripFences | src/ai/client.py:66-74 | fence removal never lengthens the reply |
| Client.StripFencesUnpadded | src/ai/client.py:66-74 | the text handed to the JSON parser has no whitespace at either end |
| Client.SameStrippedReply | src/ai/client.py:56-79 | two replies that reduce to the same text give the same `chat_json` result |
| Client.ChatJsonIgnoresFence | src/ai/client.py:56-79 | two models that differ only in fencing their reply give the same `chat_json` result |
| Selector.ItemLines | src/ai/selector.py:76-81 | each item contributes three lines, or four when it has a summary, and the last line is empty |
| Selector.NewsListLines | src/ai/selector.py:75-81 | there are lines exactly when there are items, and the last line is the blank separator |
| Selector.NewsListPrefix | src/ai/selector.py:75-81 | the lines of a prefix of the items are a prefix of the lines of all items |
| Selector.NewsListBlock | src/ai/selector.py:75-81 | item `i`'s lines (index and title, publisher, the summary cut to 200 characters when present, a blank line) appear unchanged right after the lines of the items before it |
| Selector.NewsListLength | src/ai/selector.py:75-81 | a list of n items has between 3n and 4n lines |
| Selector.FormatNewsList | src/ai/selector.py:73-83 | the loop's text is the item lines joined by newlines |
| Selector.IndexValue | src/ai/selector.py:55-59 | an accepted index is below the number of items; an integer index is accepted exactly when it is in range, and then it selects that item; null, string, list and object indices raise |
| Selector.ResolveEntry | src/ai/selector.py:54-62 | a non-object entry raises; an object entry fails exactly when its index does; an index out of range drops the entry; an accepted index i gives exactly the selection of item i with the entry's "reason" and "hook_idea", "" when absent |
| Selector.StepConcat | src/ai/selector.py:53-63 | one loop step after a concatenation acts only on the later part |
| Selector.Resolve | src/ai/selector.py:53-63 | no entries select nothing; a successful run has at most one selection per entry, and every entry was accepted without error |
| Selector.ResolveAppend | src/ai/selector.py:53-63 | resolving two runs of entries one after the other is concatenating their results; the first error wins |
| Selector.ResolveSound | src/ai/selector.py:53-63 | a successful run selects no more items than there were entries, and every selected item is one of the candidates |
| Selector.ResolveAllAccepted | src/ai/selector.py:53-63 | when every entry is accepted, the selection has one element per entry, in entry order |
| Selector.ResolveDropsOutOfRange | src/ai/selector.py:57 | an entry whose integer index is out of range is skipped without affecting the rest |
| Selector.SelectedEntries | src/ai/selector.py:54 | a missing "selected" gives no entries; a list gives its elements; a non-object response raises |
| Selector.ResolveAll | src/ai/selector.py:53-67 | the loop returns exactly the specified resolution of the entries, stopping at the first error |
| Selector.Select | src/ai/selector.py:16-71 | with no candidates it returns [] and sends no request; otherwise it sends exactly one request (selection system prompt, user prompt, temperature 0.5, 2000 tokens); the result is that reply's resolution; every selected item is a candidate |
| Selector.SelectionOutcome | src/ai/selector.py:46-71 | a client failure or a malformed "selected" list fails the selection with that error; an empty list selects nothing; a resolved selection has at most one item per entry, each a candidate |
| Selector.SelectExample | src/ai/selector.py:47-67 | a reply choosing index 1 with reason and hook selects the second candidate with those texts |
| Selector.SelectDefaults | src/ai/selector.py:55-62 | an empty entry selects the first candidate with an empty reason and hook idea |
| ScriptWriter.PromptArgs | src/ai/script_writer.py:29-34 | the template receives title, url and hook idea as given, and the summary or "요약 없음" when it is empty, so the summary passed is never empty |
| ScriptWriter.AssembleScript | src/ai/script_writer.py:43-59 | it succeeds exactly when the response and its "script" part are objects and a present "full_script" has a length (the logged character count calls `len`); each present text field, and each present list of strings, is copied on its own; missing keys take their defaults: the news title, "" for texts and [] for lists |
| ScriptWriter.AssembleRoundTrip | src/ai/script_writer.py:43-54 | a response carrying every field yields exactly the script it describes |
| ScriptWriter.AssembleEmptyResponse | src/ai/script_writer.py:43-54 | an empty response yields the news title and empty parts |
| ScriptWriter.Write | src/ai/script_writer.py:16-65 | one model call at temperature 0.7 with 2000 tokens; a client or parse error is raised unchanged; otherwise the script is assembled from the reply, and a "full_script" without a length fails the write |
| ScriptWriter.Successes | src/ai/script_writer.py:73-83 | there are never more scripts than attempts |
| ScriptWriter.BatchStep | src/ai/script_writer.py:74-80 | one more attempt appends its script to the successes, or its error to the failures, and leaves the other list unchanged |
| ScriptWriter.SuccessesAndFailures | src/ai/script_writer.py:67-83 | every selection ends up either as a script or as a logged failure |
| ScriptWriter.SuccessesExactly | src/ai/script_writer.py:67-83 | a script is in the batch result exactly when some write produced it |
| ScriptWriter.AllSucceed | src/ai/script_writer.py:67-83 | when every write succeeds, the i-th script belongs to the i-th selection |
| ScriptWriter.SuccessesAppend | src/ai/script_writer.py:67-83 | the scripts keep the order of the selections |
| ScriptWriter.FailuresAppend | src/ai/script_writer.py:67-83 | the logged failures keep the order of the selections |
| ScriptWriter.ThirdOfFiveFails | src/ai/script_writer.py:67-83 | of five selections where the third fails, the other four scripts come back in order, with one failure logged |
| ScriptWriter.WriteBatch | src/ai/script_writer.py:67-83 | the loop returns the successful scripts in order and the failures in order, and together they number the selections |
| GoogleNews.ParamFields | src/crawlers/google_news.py:39 | one `k=v` field per parameter, unencoded |
| GoogleNews.FeedUrl | src/crawlers/google_news.py:39 | the URL starts with the RSS search base and '?' |
| GoogleNews.FieldsOfParams | src/crawlers/google_news.py:32-39 | the fields are q, hl, gl and ceid, in that order, with ceid being country:language |
| GoogleNews.FeedUrlFields | src/crawlers/google_news.py:32-39 | with no '&' in the inputs, splitting the query part on '&' gives exactly the four fields |
| GoogleNews.AmpersandQueryPart | src/crawlers/google_news.py:39 | a query "a&b" puts "q=a", then b and the three other fields joined by '&', after the '?' |
| GoogleNews.AmpersandInQuery | src/crawlers/google_news.py:39 | since values are not encoded, an '&' in the query splits it into an extra parameter |
| GoogleNews.SplitTitle | src/crawlers/google_news.py:75-79 | a title without " - " keeps its text and gets publisher "Unknown"; otherwise title, " - " and publisher concatenate back to the original, the cut being an occurrence with none after it, even where occurrences overlap |
| GoogleNews.SplitTitleAtLast | src/crawlers/google_news.py:77 | the cut is at the last " - ": the publisher part contains none |
| GoogleNews.SplitTitleExample | src/crawlers/google_news.py:75-79 | "칩 - 삼성 - 연합" splits into "칩 - 삼성" and "연합"; a title without the separator gets "Unknown" |
| GoogleNews.SplitTitleOverlap | src/crawlers/google_news.py:75-79 | with overlapping separators, "a - - b" splits into "a -" and "b", at the last occurrence |
| GoogleNews.RemoveTags | src/crawlers/google_news.py:110 | the result has only characters of the input and contains no complete tag |
| GoogleNews.RemoveTagsTagFree | src/crawlers/google_news.py:110 | text with no tag is left unchanged |
| GoogleNews.RemoveTagsIdempotent | src/crawlers/google_news.py:110 | removing tags twice is the same as once |
| GoogleNews.RemoveTagsPlainPrefix | src/crawlers/google_news.py:110 | text before the first '<' is kept as it is |
| GoogleNews.RemoveTagsTag | src/crawlers/google_news.py:110 | a '<', one or more characters other than '>', and the next '>' are deleted together |
| GoogleNews.RemoveTagsEmptyBrackets | src/crawlers/google_news.py:110 | "<>" is not a tag and is kept |
| GoogleNews.RemoveTagsUnclosed | src/crawlers/google_news.py:110 | a '<' with no '>' after it is kept |
| GoogleNews.RemoveTagsSplit | src/crawlers/google_news.py:110 | with no '<' before the first tag, that text is kept, the tag is deleted and the rest is processed in turn |
| GoogleNews.StripHtml | src/crawlers/google_news.py:107-116 | the result has no whitespace at either end |
| GoogleNews.DecodeEntities | src/crawlers/google_news.py:111-115 | decoding never lengthens the text, and text without '&' is unchanged |
| GoogleNews.EarlyPasses | src/crawlers/google_news.py:111-112 | the "&nbsp;" and "&amp;" passes never lengthen the text and leave text without '&' unchanged |
| GoogleNews.LatePasses | src/crawlers/google_news.py:113-115 | the "&lt;", "&gt;" and "&quot;" passes never lengthen the text and leave text without '&' unchanged |
| GoogleNews.DecodePlainPrefix | src/crawlers/google_news.py:111-115 | text before the first '&' is kept as it is |
| GoogleNews.DecodeNbsp | src/crawlers/google_news.py:111 | a leading "&nbsp;" becomes a space and the rest is decoded in turn |
| GoogleNews.DecodeLt | src/crawlers/google_news.py:113 | a leading "&lt;" becomes '<' and the rest is decoded in turn |
| GoogleNews.DecodeGt | src/crawlers/google_news.py:114 | a leading "&gt;" becomes '>' and the rest is decoded in turn |
| GoogleNews.DecodeQuot | src/crawlers/google_news.py:115 | a leading "&quot;" becomes '"' and the rest is decoded in turn |
| GoogleNews.DecodeAmp | src/crawlers/google_news.py:112-115 | a leading "&amp;" becomes an '&' that the "&lt;", "&gt;" and "&quot;" passes still see |
| GoogleNews.DecodeAmpLt | src/crawlers/google_news.py:112-113 | a leading "&amp;lt;" is decoded twice, to '<', and the rest is decoded in turn |
| GoogleNews.StripHtmlPlain | src/crawlers/google_news.py:107-116 | text with no '<' and no '&' is only whitespace-stripped |
| GoogleNews.StripHtmlDropsTag | src/crawlers/google_news.py:107-116 | with no '<' or '&' before the first tag, that text is kept, the tag is deleted, the rest is cleaned in turn and the whole is stripped |
| GoogleNews.DecodeEntitiesTwice | src/crawlers/google_news.py:111-115 | the fixed replacement order decodes "&amp;lt;" to "<" |
| GoogleNews.StripHtmlDecodesTwice | src/crawlers/google_news.py:107-116 | `_strip_html("&amp;lt;")` is "<" |
| GoogleNews.RawSummary | src/crawlers/google_news.py:81 | the summary is the "summary" field when present, else the "description" field, else "" |
| GoogleNews.ParseEntry | src/crawlers/google_news.py:69-105 | an entry is kept exactly when title, summary and link are text; title and publisher are split from the raw title; the summary is the cleaned "summary" or "description" cut to 500 characters; the url is the link; the source is Google News, with no image; a textual "published" field gives exactly the date parser's time, and there is no time without one |
| GoogleNews.Examined | src/crawlers/google_news.py:42-54 | a failed request or a non-2xx status examines nothing; otherwise a prefix of the feed is examined, of length min(limit, entries) for a non-negative limit and max(0, entries + limit) for a negative one |
| GoogleNews.FetchResult | src/crawlers/google_news.py:42-67 | at most `limit` items; a failed request or a non-2xx status gives [] |
| GoogleNews.FetchResultSound | src/crawlers/google_news.py:53-57 | at most `limit` items; an item is returned exactly when some examined entry parses to it |
| GoogleNews.Parsed | src/crawlers/google_news.py:54-55 | one parse result per examined entry, the i-th being entry i's parse |
| GoogleNews.KeptEntries | src/crawlers/google_news.py:53-57 | no more items are kept than entries, and an item is kept exactly when some entry parses to it |
| GoogleNews.FetchAllParse | src/crawlers/google_news.py:53-57 | when the first `limit` entries all parse, there is one item per entry, the i-th being entry i's parse |
| GoogleNews.Fetch | src/crawlers/google_news.py:29-67 | the loop returns the examined entries that parse, in feed order, and never more than `limit` |
| NaverNews.SearchUrl | src/crawlers/naver_news.py:80-86 | the search URL starts with the search base and '?' |
| NaverNews.ParseItem | src/crawlers/naver_news.py:118-188 | an item is kept exactly when it has a title link; the href defaults to ""; the summary is cut to 500 characters; the source is always Naver News; a missing press element gives the path's default; the image URL is the image's src |
| NaverNews.SectionItemDefaults | src/crawlers/naver_news.py:118-148 | a section item with only a title gets an empty summary and url and the publisher "네이버 뉴스" |
| NaverNews.Parsed | src/crawlers/naver_news.py:60-63 | one parse result per examined item, in page order |
| NaverNews.Examined | src/crawlers/naver_news.py:45-60 | a failed request or a non-2xx status examines nothing; otherwise a prefix of the selected items is examined, of length min(limit, items) for a non-negative limit and max(0, items + limit) for a negative one |
| NaverNews.KeptItems | src/crawlers/naver_news.py:60-63 | no more items are kept than examined, and an item is kept exactly when some examined element parses to it |
| NaverNews.SectionResultSound | src/crawlers/naver_news.py:40-73 | the section fetch returns at most `limit` items, exactly those parsed from examined elements |
| NaverNews.SearchResultSound | src/crawlers/naver_news.py:75-116 | the search returns at most `limit` items, exactly those parsed from examined results |
| NaverNews.SectionResult | src/crawlers/naver_news.py:40-73 | at most `limit` items; a failed request or a non-2xx status gives [] |
| NaverNews.SearchResult | src/crawlers/naver_news.py:75-116 | at most `limit` items; a failed request or a non-2xx status gives [] |
| NaverNews.UntitledDropped | src/crawlers/naver_news.py:122-124 | a page whose items all lack a title yields nothing |
| NaverNews.AllTitledKept | src/crawlers/naver_news.py:60-63 | a page whose examined items all have a title link keeps each of them, the i-th being item i's parse |
| NaverNews.Collect | src/crawlers/naver_news.py:60-63 | the loop keeps the items that parse, in order, and no more than it examined |
| NaverNews.FetchPage | src/crawlers/naver_news.py:45-73 | one GET with the browser headers; the result is the parsed examined items, at most `limit` of them |
| NaverNews.FetchSectionNews | src/crawlers/naver_news.py:40-73 | the section fetch returns its specification, never more than `limit` items |
| NaverNews.SearchNews | src/crawlers/naver_news.py:75-116 | the search returns its specification, never more than `limit` items |
| NaverNews.Fetch | src/crawlers/naver_news.py:32-38 | an empty query reads the section page and any other query searches; the bound on `limit` holds in both cases, as the interface promises |
| FileManager.RemoveChars | src/utils/file_manager.py:99-101 | the result has exactly the input's characters that are not forbidden |
| FileManager.ReplaceDeletes | src/utils/file_manager.py:101 | `replace(c, '')` deletes the character |
| FileManager.RemoveCharsThen | src/utils/file_manager.py:100-101 | deleting the characters one after another deletes them all |
| FileManager.RemoveCharsAbsent | src/utils/file_manager.py:99-101 | a name without forbidden characters is unchanged |
| FileManager.Normalize | src/utils/file_manager.py:103 | collapsing whitespace keeps the words of the input in order and gives single spaces between them and none at the ends |
| FileManager.WordsOfJoin | src/utils/file_manager.py:103 | splitting words that were joined by single spaces gives the words back |
| FileManager.WordsOfWordSpace | src/utils/file_manager.py:103 | splitting a word, a space and a rest that starts with a word gives that word followed by the rest's words |
| FileManager.LeadingWordLength | src/utils/file_manager.py:103 | the first word of a word followed by a space is that word |
| FileManager.NormalizeCanonicalFixed | src/utils/file_manager.py:103 | an already collapsed name is unchanged by collapsing |
| FileManager.CutAtSpace | src/utils/file_manager.py:106 | the result is a prefix; with no space it is all of the input; otherwise the character right after it is a space and no space follows that one, so the cut is at the last space |
| FileManager.Truncate | src/utils/file_manager.py:105-106 | the result is a prefix; with a non-negative limit it is within the limit; a name within the limit is unchanged |
| FileManager.TruncateAtWordBoundary | src/utils/file_manager.py:105-106 | when the first `max_length` characters hold no space, the name is cut to them; otherwise the result is shorter, is followed by a space, and no later space lies within the first `max_length` characters |
| FileManager.TruncateCanonical | src/utils/file_manager.py:105-106 | cutting keeps the collapsed shape |
| FileManager.SpaceOccurrences | src/utils/file_manager.py:106 | the pattern " " occurs at a position exactly when that character is a space |
| FileManager.PrefixAvoids | src/utils/file_manager.py:105-106 | cutting a name free of forbidden characters keeps it free of them |
| FileManager.SafeName | src/utils/file_manager.py:98-108 | the name holds none of the nine forbidden characters (angle brackets, colon, double quote, slash, backslash, vertical bar, question mark, asterisk), has no padding and only single spaces, and is within a non-negative `max_length` |
| FileManager.SafeNameFixpoint | src/utils/file_manager.py:98-108 | a name is unchanged exactly when it is free of forbidden characters, collapsed and within the length |
| FileManager.SafeNameIdempotent | src/utils/file_manager.py:98-108 | sanitising twice is the same as once |
| FileManager.SafeNamePrefix | src/utils/file_manager.py:98-108 | the safe name is a prefix of the cleaned, collapsed name, and all of it, with every word in order, when that fits within `max_length` |
| FileManager.DeleteStep | src/utils/file_manager.py:100-101 | one pass of the loop deletes the next forbidden character from what earlier passes left |
| FileManager.DeleteInvalid | src/utils/file_manager.py:99-101 | the loop leaves exactly the characters of the name that are not forbidden |
| FileManager.SafeFilename | src/utils/file_manager.py:98-108 | the method computes the specified name, which is free of forbidden characters, collapsed and within a non-negative length |
| Text.Strip | src/ai/client.py:66 | no whitespace (Python's `isspace` set) remains at either end |
| Text.LastIndexOf | src/crawlers/google_news.py:76-77 | the last occurrence, or none exactly when the pattern does not occur |
| Text.NatToString | src/ai/selector.py:76-77 | the rendering of an index is a non-empty string of decimal digits |
| Text.NatToStringValue | src/ai/selector.py:76-77 | the digits read back as the number: the rendering is exact |
| Text.SplitJoin | src/crawlers/google_news.py:39 | splitting on a separator absent from every part undoes joining |
| Text.ReplaceAll | src/utils/file_manager.py:101 | a replacement no longer than the pattern never lengthens the text, and text without the pattern's first character is unchanged |
| Text.ReplaceSkip | src/utils/file_manager.py:101 | text holding no character that could start the pattern is copied, and replacing continues after it |
| Text.ReplaceHead | src/utils/file_manager.py:101 | an occurrence at the front is replaced and scanning resumes after it |
| Text.ReplaceSplit | src/utils/file_manager.py:101 | text before the first occurrence is kept, the occurrence becomes the replacement, and the rest is replaced in turn |
| Text.ReplaceMiss | src/crawlers/google_news.py:111-115 | a text that does not start with the pattern keeps its first character and is replaced from the next one |
| Text.Join | src/utils/file_manager.py:103 | the join starts with the first part, and every character comes from the separator or a part |
| Text.Split | src/crawlers/google_news.py:39 | split gives at least one part and no part holds the separator |
| Text.Words | src/utils/file_manager.py:103 | `split()` gives nonempty words free of whitespace whose characters come from the input |
| Lists.SliceTo | src/crawlers/google_news.py:54 | `s[:n]` is a prefix of length min(n, len) for n >= 0, and of length max(0, len + n) for negative n |
| Lists.SomesMembership | src/crawlers/google_news.py:55-57 | after the filter, an item is present exactly when it parsed |

## Left out

- Network, HTTP client, RSS and HTML parsing, `urlencode`, the OpenAI API and `json.loads` are parameters, not modelled. The crawlers see only a status and a body; the HTML parser is given the selector strings and returns the matched elements.
- The `async`/`await` structure, logging, the per-request timeout of 10 s and the settings loading are left out. So are `main.py`, the TTS, media, video and upload code, and the abstract `src/crawlers/base.py`. Its `fetch` bound is stated on every crawler `fetch`.
- The prompt templates in `config/prompts.py` are not part of this model. They are parameters, as are the templates' `format` calls.
- Models.Script.EstimatedDuration: the duration uses exact real arithmetic, not IEEE floating point.
- Models.PipelineResult.Duration: the clock is left out. `datetime` subtraction is a parameter, and times are opaque ISO-8601 strings.
- `ShortsVideo.created_at` and `UploadResult.uploaded_at` default to the current time. In the model the caller supplies them.
- `get_text(strip=True)` and `select_one` are part of the HTML-parser parameter. `NaverNews.ParseItem` receives the element texts already stripped.
- httpx's `raise_for_status` is modelled as letting only 2xx statuses through, which is recent httpx behaviour.
- ScriptWriter.AssembleScript: a present but non-text "title", "hook", "body", "outro" or "description", or a non-list "keywords"/"hashtags", falls back to the default, where Python would store the foreign value in the dataclass unchanged. A "keywords" or "hashtags" list keeps only its text elements, where Python stores the list as it is. A null, boolean or number "full_script" fails, as `len` raises on it; a list or object "full_script" falls back to "", where Python would store it. Likewise, `Selector.ResolveEntry` uses "" for a non-text reason or hook idea.
- GoogleNews.ParseEntry: a non-text title, summary or link skips the entry. Python skips it only when a string operation actually raises; a non-text link, for instance, would be stored as is.
- GoogleNews.ParseEntry: the date parser receives only a textual "published" field. A failing parse, like any non-text value, leaves the time empty.
- NaverNews.ParseItem: the `except` branches of the parse helpers are not modelled. With elements reduced to text and attributes, nothing in them can raise in the model.
- Text.Strip and Text.Words: whitespace is Python's `str.isspace` set, written out character by character. The Unicode database is not consulted beyond that list.
- FileManager.SafeNameFixpoint, FileManager.SafeNameIdempotent: these hold for a non-negative `max_length` only, as does the length bound of `FileManager.SafeName`. A negative value counts from the end, as it does in Python, and is modelled by `Lists.SliceTo`.
- Default argument values are not modelled as defaults: `select`'s count of 3, the crawlers' limit of 10, Google's query "IT 테크", language "ko" and country "KR", and `safe_filename`'s `max_length` of 100. Every model member takes its arguments explicitly.
- `get_source_name` of both crawlers returns a constant display name ("Google News", "Naver News") and is not modelled.
- `select` passes `count` to the prompt template only; the template is a parameter, so the count appears nowhere else in the model.
- ScriptWriter.WriteBatch, ScriptWriter.Outcomes: the completion oracle is a function of the request, so two equal selections in one batch get the same outcome. The real call samples at temperature 0.7 and may answer each differently.
- RemoveTags: its own contract states only the shape of the result. What it keeps and deletes is stated for all inputs by `RemoveTagsPlainPrefix`, `RemoveTagsTag`, `RemoveTagsEmptyBrackets`, `RemoveTagsUnclosed` and `RemoveTagsSplit`.
- DecodeEntities: its own contract states only the length bound and the '&'-free case. The five passes and their order are stated for all inputs by `DecodePlainPrefix`, `DecodeNbsp`, `DecodeLt`, `DecodeGt`, `DecodeQuot`, `DecodeAmp` and `DecodeAmpLt`.
- StripHtml: its own contract states only that the result is unpadded. Its content is stated by `StripHtmlDropsTag`, `StripHtmlPlain` and the tag and entity lemmas above.
- ReplaceAll: its own contract states only the length bound and the unchanged case. The left-to-right replacement is stated for all inputs by `ReplaceSkip`, `ReplaceHead`, `ReplaceSplit` and `ReplaceMiss`.
