/** The records passed between the pipeline's stages (src/models.py): news
    items, selections, scripts and the downstream video, upload and run
    records, each with the dictionary its `to_dict` builds. */
module Models {
  import opened Wrappers
  import opened Json

  /** The kinds of failure the core raises or absorbs. */
  datatype Error =
    | TransportFailure(detail: string)      // an HTTP or network error
    | MalformedModelOutput(detail: string)  // the model's text is not JSON
    | UnexpectedShape(detail: string)       // JSON of the wrong shape (Python's AttributeError or TypeError)

  /** A point in time; the model keeps only the ISO-8601 text `isoformat()` gives. */
  datatype Timestamp = Timestamp(iso: string)

  /** Which news source produced an item. */
  datatype NewsSource = GoogleNews | NaverNews {
    /** The enum member's value. */
    function Value(): string {
      match this
      case GoogleNews => "google_news"
      case NaverNews => "naver_news"
    }
  }

  /** Python's `NewsSource(value)`: the member with that value, if any. */
  function NewsSourceOf(value: string): (r: Option<NewsSource>)
    ensures r.Some? ==> r.value.Value() == value
    ensures r.None? ==> forall src: NewsSource :: src.Value() != value
  {
    if value == "google_news" then Some(GoogleNews)
    else if value == "naver_news" then Some(NaverNews)
    else None
  }

  datatype UploadPrivacy = Public | Unlisted | Private {
    function Value(): string {
      match this
      case Public => "public"
      case Unlisted => "unlisted"
      case Private => "private"
    }
  }

  function UploadPrivacyOf(value: string): (r: Option<UploadPrivacy>)
    ensures r.Some? ==> r.value.Value() == value
    ensures r.None? ==> forall p: UploadPrivacy :: p.Value() != value
  {
    if value == "public" then Some(Public)
    else if value == "unlisted" then Some(Unlisted)
    else if value == "private" then Some(Private)
    else None
  }

  const NEWS_KEYS: set<string> := {"title", "summary", "url", "source", "source_name", "published_at", "image_url"}

  datatype NewsItem = NewsItem(
    title: string,
    summary: string,
    url: string,
    source: NewsSource,
    sourceName: string,
    publishedAt: Option<Timestamp>,
    imageUrl: Option<string>)
  {
    function ToDict(): (d: Value)
      ensures d.Obj? && d.fields.Keys == NEWS_KEYS
      ensures d.fields["source"] == Str(source.Value())
      ensures d.fields["published_at"] == Null <==> publishedAt.None?
    {
      Obj(map[
        "title" := Str(title),
        "summary" := Str(summary),
        "url" := Str(url),
        "source" := Str(source.Value()),
        "source_name" := Str(sourceName),
        "published_at" := OptText(if publishedAt.Some? then Some(publishedAt.value.iso) else None),
        "image_url" := OptText(imageUrl)])
    }
  }

  /** Reads a news item back from the dictionary `NewsItem.ToDict` builds. */
  function NewsItemFromDict(d: Value): Option<NewsItem> {
    if !d.Obj? || !(NEWS_KEYS <= d.fields.Keys) then None
    else
      var f := d.fields;
      var title := AsText(f["title"]);
      var summary := AsText(f["summary"]);
      var url := AsText(f["url"]);
      var source := AsText(f["source"]);
      var sourceName := AsText(f["source_name"]);
      var published := AsOptText(f["published_at"]);
      var image := AsOptText(f["image_url"]);
      if title.None? || summary.None? || url.None? || source.None? || sourceName.None?
        || published.None? || image.None? || NewsSourceOf(source.value).None?
      then None
      else
        Some(NewsItem(title.value, summary.value, url.value, NewsSourceOf(source.value).value,
          sourceName.value,
          if published.value.Some? then Some(Timestamp(published.value.value)) else None,
          image.value))
  }

  /** `to_dict` loses nothing: the item can be read back from it. */
  lemma NewsItemRoundTrip(n: NewsItem)
    ensures NewsItemFromDict(n.ToDict()) == Some(n)
  {
  }

  const SELECTED_KEYS: set<string> := {"news", "selection_reason", "hook_idea"}

  /** A candidate the model chose, with its stated reason and hook idea. */
  datatype SelectedNews = SelectedNews(newsItem: NewsItem, selectionReason: string, hookIdea: string) {
    function ToDict(): (d: Value)
      ensures d.Obj? && d.fields.Keys == SELECTED_KEYS
      ensures d.fields["news"] == newsItem.ToDict()
      ensures d.fields["selection_reason"] == Str(selectionReason)
      ensures d.fields["hook_idea"] == Str(hookIdea)
    {
      Obj(map[
        "news" := newsItem.ToDict(),
        "selection_reason" := Str(selectionReason),
        "hook_idea" := Str(hookIdea)])
    }
  }

  function SelectedNewsFromDict(d: Value): Option<SelectedNews> {
    if !d.Obj? || !(SELECTED_KEYS <= d.fields.Keys) then None
    else
      var news := NewsItemFromDict(d.fields["news"]);
      var reason := AsText(d.fields["selection_reason"]);
      var hook := AsText(d.fields["hook_idea"]);
      if news.None? || reason.None? || hook.None? then None
      else Some(SelectedNews(news.value, reason.value, hook.value))
  }

  lemma SelectedNewsRoundTrip(s: SelectedNews)
    ensures SelectedNewsFromDict(s.ToDict()) == Some(s)
  {
    NewsItemRoundTrip(s.newsItem);
  }

  /** Characters of narration per minute of speech. */
  const CHARS_PER_MINUTE: real := 350.0

  const SCRIPT_KEYS: set<string> := {"title", "hook", "body", "outro", "full_script", "keywords",
    "hashtags", "description", "character_count", "estimated_duration"}

  /** A narration script. Its character count and duration are always derived
      from `fullScript`, never stored. */
  datatype Script = Script(
    title: string,
    hook: string,
    body: string,
    outro: string,
    fullScript: string,
    keywords: seq<string>,
    hashtags: seq<string>,
    description: string)
  {
    /** `character_count`: the length of the full script. */
    function CharacterCount(): (n: nat)
      ensures n == |fullScript|
    {
      |fullScript|
    }

    /** Estimated spoken length in seconds, in exact arithmetic. */
    function EstimatedDuration(): (d: real)
      ensures d >= 0.0
      ensures d == 0.0 <==> fullScript == ""
      ensures d * 35.0 == (|fullScript| as real) * 6.0
    {
      (CharacterCount() as real) / CHARS_PER_MINUTE * 60.0
    }

    function ToDict(): (d: Value)
      ensures d.Obj? && d.fields.Keys == SCRIPT_KEYS
      ensures d.fields["character_count"] == Int(|fullScript|)
      ensures d.fields["estimated_duration"].Float?
      ensures d.fields["estimated_duration"].r * 35.0 == (|fullScript| as real) * 6.0
    {
      Obj(map[
        "title" := Str(title),
        "hook" := Str(hook),
        "body" := Str(body),
        "outro" := Str(outro),
        "full_script" := Str(fullScript),
        "keywords" := TextList(keywords),
        "hashtags" := TextList(hashtags),
        "description" := Str(description),
        "character_count" := Int(CharacterCount()),
        "estimated_duration" := Float(EstimatedDuration())])
    }
  }

  /** A longer script never has a shorter estimated duration. */
  lemma DurationMonotone(a: Script, b: Script)
    requires |a.fullScript| <= |b.fullScript|
    ensures a.EstimatedDuration() <= b.EstimatedDuration()
  {
  }

  /** Reads a script back from its dictionary; the derived entries are not read. */
  function ScriptFromDict(d: Value): Option<Script> {
    if !d.Obj? || !(SCRIPT_KEYS <= d.fields.Keys) then None
    else
      var f := d.fields;
      var title := AsText(f["title"]);
      var hook := AsText(f["hook"]);
      var body := AsText(f["body"]);
      var outro := AsText(f["outro"]);
      var full := AsText(f["full_script"]);
      var keywords := AsTextList(f["keywords"]);
      var hashtags := AsTextList(f["hashtags"]);
      var description := AsText(f["description"]);
      if title.None? || hook.None? || body.None? || outro.None? || full.None? || keywords.None?
        || hashtags.None? || description.None?
      then None
      else Some(Script(title.value, hook.value, body.value, outro.value, full.value,
        keywords.value, hashtags.value, description.value))
  }

  /** `to_dict` copies the eight stored fields unchanged. */
  lemma ScriptRoundTrip(s: Script)
    ensures ScriptFromDict(s.ToDict()) == Some(s)
  {
    TextListRoundTrip(s.keywords);
    TextListRoundTrip(s.hashtags);
  }

  const VIDEO_KEYS: set<string> := {"script", "audio_path", "video_path", "thumbnail_path", "duration",
    "file_size_mb", "created_at"}

  datatype ShortsVideo = ShortsVideo(
    script: Script,
    audioPath: string,
    videoPath: string,
    thumbnailPath: Option<string>,
    duration: real,
    fileSizeMb: real,
    createdAt: Timestamp)
  {
    function ToDict(): (d: Value)
      ensures d.Obj? && d.fields.Keys == VIDEO_KEYS
      ensures d.fields["script"] == script.ToDict()
      ensures d.fields["thumbnail_path"] == Null <==> thumbnailPath.None?
    {
      Obj(map[
        "script" := script.ToDict(),
        "audio_path" := Str(audioPath),
        "video_path" := Str(videoPath),
        "thumbnail_path" := OptText(thumbnailPath),
        "duration" := Float(duration),
        "file_size_mb" := Float(fileSizeMb),
        "created_at" := Str(createdAt.iso)])
    }
  }

  function ShortsVideoFromDict(d: Value): Option<ShortsVideo> {
    if !d.Obj? || !(VIDEO_KEYS <= d.fields.Keys) then None
    else
      var f := d.fields;
      var script := ScriptFromDict(f["script"]);
      var audio := AsText(f["audio_path"]);
      var video := AsText(f["video_path"]);
      var thumb := AsOptText(f["thumbnail_path"]);
      var created := AsText(f["created_at"]);
      if script.None? || audio.None? || video.None? || thumb.None? || created.None?
        || !f["duration"].Float? || !f["file_size_mb"].Float?
      then None
      else Some(ShortsVideo(script.value, audio.value, video.value, thumb.value,
        f["duration"].r, f["file_size_mb"].r, Timestamp(created.value)))
  }

  lemma ShortsVideoRoundTrip(v: ShortsVideo)
    ensures ShortsVideoFromDict(v.ToDict()) == Some(v)
  {
    ScriptRoundTrip(v.script);
  }

  const UPLOAD_KEYS: set<string> := {"video_id", "video_url", "title", "privacy", "uploaded_at",
    "success", "error_message"}

  datatype UploadResult = UploadResult(
    videoId: string,
    videoUrl: string,
    title: string,
    privacy: UploadPrivacy,
    uploadedAt: Timestamp,
    success: bool,
    errorMessage: Option<string>)
  {
    function ToDict(): (d: Value)
      ensures d.Obj? && d.fields.Keys == UPLOAD_KEYS
      ensures d.fields["privacy"] == Str(privacy.Value())
      ensures d.fields["error_message"] == Null <==> errorMessage.None?
    {
      Obj(map[
        "video_id" := Str(videoId),
        "video_url" := Str(videoUrl),
        "title" := Str(title),
        "privacy" := Str(privacy.Value()),
        "uploaded_at" := Str(uploadedAt.iso),
        "success" := Bool(success),
        "error_message" := OptText(errorMessage)])
    }
  }

  function UploadResultFromDict(d: Value): Option<UploadResult> {
    if !d.Obj? || !(UPLOAD_KEYS <= d.fields.Keys) then None
    else
      var f := d.fields;
      var id := AsText(f["video_id"]);
      var url := AsText(f["video_url"]);
      var title := AsText(f["title"]);
      var privacy := AsText(f["privacy"]);
      var uploaded := AsText(f["uploaded_at"]);
      var error := AsOptText(f["error_message"]);
      if id.None? || url.None? || title.None? || privacy.None? || uploaded.None? || error.None?
        || !f["success"].Bool? || UploadPrivacyOf(privacy.value).None?
      then None
      else Some(UploadResult(id.value, url.value, title.value, UploadPrivacyOf(privacy.value).value,
        Timestamp(uploaded.value), f["success"].b, error.value))
  }

  lemma UploadResultRoundTrip(u: UploadResult)
    ensures UploadResultFromDict(u.ToDict()) == Some(u)
  {
  }

  const PIPELINE_KEYS: set<string> := {"shorts_count", "upload_count", "started_at", "finished_at",
    "duration_seconds", "success", "errors"}

  /** The outcome of one pipeline run. Clock arithmetic is left to `elapsed`,
      the seconds from its second argument to its first. */
  datatype PipelineResult = PipelineResult(
    shortsVideos: seq<ShortsVideo>,
    uploadResults: seq<UploadResult>,
    startedAt: Timestamp,
    finishedAt: Option<Timestamp>,
    success: bool,
    errors: seq<string>)
  {
    function Duration(elapsed: (Timestamp, Timestamp) -> real): (r: real)
      ensures finishedAt.None? ==> r == 0.0
      ensures finishedAt.Some? ==> r == elapsed(finishedAt.value, startedAt)
    {
      match finishedAt
      case None => 0.0
      case Some(end) => elapsed(end, startedAt)
    }

    function ToDict(elapsed: (Timestamp, Timestamp) -> real): (d: Value)
      ensures d.Obj? && d.fields.Keys == PIPELINE_KEYS
      ensures d.fields["shorts_count"] == Int(|shortsVideos|)
      ensures d.fields["upload_count"] == Int(|uploadResults|)
      ensures d.fields["finished_at"] == Null <==> finishedAt.None?
      ensures finishedAt.None? ==> d.fields["duration_seconds"] == Float(0.0)
      ensures d.fields["errors"] == TextList(errors)
    {
      Obj(map[
        "shorts_count" := Int(|shortsVideos|),
        "upload_count" := Int(|uploadResults|),
        "started_at" := Str(startedAt.iso),
        "finished_at" := OptText(if finishedAt.Some? then Some(finishedAt.value.iso) else None),
        "duration_seconds" := Float(Duration(elapsed)),
        "success" := Bool(success),
        "errors" := TextList(errors)])
    }
  }
}
