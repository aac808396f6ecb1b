/** The script generator (src/ai/script_writer.py): turns one selection into
    a narration script through one model call, and a list of selections into
    the scripts that succeeded. */
module ScriptWriter {
  import opened Wrappers
  import opened Lists
  import opened Json
  import opened Models
  import opened Client

  /** The fields the script-generation prompt template is filled with. */
  datatype ScriptPromptArgs = ScriptPromptArgs(title: string, summary: string, url: string, hookIdea: string)

  /** The script prompts: the system prompt and the user-prompt template. */
  datatype ScriptPrompts = ScriptPrompts(system: string, user: ScriptPromptArgs -> string)

  const SCRIPT_TEMPERATURE: real := 0.7
  /** Shown to the model in place of an empty summary. */
  const NO_SUMMARY: string := "요약 없음"

  /** The template fields for one selection: the news title, its summary or
      the placeholder, its url, and the selector's hook idea. */
  function PromptArgs(selected: SelectedNews): (a: ScriptPromptArgs)
    ensures a.title == selected.newsItem.title && a.url == selected.newsItem.url
    ensures a.hookIdea == selected.hookIdea
    ensures a.summary == (if selected.newsItem.summary == "" then NO_SUMMARY else selected.newsItem.summary)
    ensures a.summary != ""
  {
    var news := selected.newsItem;
    ScriptPromptArgs(news.title, if news.summary == "" then NO_SUMMARY else news.summary, news.url, selected.hookIdea)
  }

  /** Whether `len` accepts the value: strings, lists and objects have a
      length, null, booleans and numbers do not. */
  predicate HasLength(v: Value) {
    v.Str? || v.Arr? || v.Obj?
  }

  /** The response object `write` reads: its "title", the "script" object
      with "hook", "body" and "outro", and "full_script", "keywords",
      "hashtags", "description". A missing key takes its default; a response
      or "script" value that is not an object has no `get` and fails, and a
      "full_script" without a length fails the character count that `write`
      logs before it returns. */
  function AssembleScript(response: Value, news: NewsItem): (r: Result<Script, Error>)
    ensures r.Ok? <==>
      && response.Obj?
      && ("script" in response.fields ==> response.fields["script"].Obj?)
      && ("full_script" in response.fields ==> HasLength(response.fields["full_script"]))
    ensures r.Ok? && "title" !in response.fields ==> r.value.title == news.title
    ensures r.Ok? && "script" !in response.fields ==> r.value.hook == r.value.body == r.value.outro == ""
    ensures r.Ok? && "full_script" !in response.fields ==> r.value.fullScript == ""
    ensures r.Ok? && "description" !in response.fields ==> r.value.description == ""
    ensures r.Ok? && "keywords" !in response.fields ==> r.value.keywords == []
    ensures r.Ok? && "hashtags" !in response.fields ==> r.value.hashtags == []
    ensures r.Ok? && "title" in response.fields && response.fields["title"].Str? ==>
      r.value.title == response.fields["title"].s
    ensures r.Ok? && "full_script" in response.fields && response.fields["full_script"].Str? ==>
      r.value.fullScript == response.fields["full_script"].s
    ensures r.Ok? && "description" in response.fields && response.fields["description"].Str? ==>
      r.value.description == response.fields["description"].s
    ensures r.Ok? && "keywords" in response.fields && AsTextList(response.fields["keywords"]).Some? ==>
      r.value.keywords == AsTextList(response.fields["keywords"]).value
    ensures r.Ok? && "hashtags" in response.fields && AsTextList(response.fields["hashtags"]).Some? ==>
      r.value.hashtags == AsTextList(response.fields["hashtags"]).value
    ensures r.Ok? && "script" in response.fields && response.fields["script"].Obj? ==>
      var part := response.fields["script"].fields;
      && ("hook" in part && part["hook"].Str? ==> r.value.hook == part["hook"].s)
      && ("body" in part && part["body"].Str? ==> r.value.body == part["body"].s)
      && ("outro" in part && part["outro"].Str? ==> r.value.outro == part["outro"].s)
  {
    if !response.Obj? then Err(UnexpectedShape("response has no attribute 'get'"))
    else
      var f := response.fields;
      var scriptData := Get(f, "script", Obj(map[]));
      if !scriptData.Obj? then Err(UnexpectedShape("'script' has no attribute 'get'"))
      else if !HasLength(Get(f, "full_script", Str(""))) then Err(UnexpectedShape("'full_script' has no len()"))
      else
        var s := scriptData.fields;
        Ok(Script(
          GetText(f, "title", news.title),
          GetText(s, "hook", ""),
          GetText(s, "body", ""),
          GetText(s, "outro", ""),
          GetText(f, "full_script", ""),
          GetTextList(f, "keywords"),
          GetTextList(f, "hashtags"),
          GetText(f, "description", "")))
  }

  /** The response a model following the prompt's JSON contract gives for `s`. */
  function ScriptResponse(s: Script): Value {
    Obj(map[
      "title" := Str(s.title),
      "script" := Obj(map["hook" := Str(s.hook), "body" := Str(s.body), "outro" := Str(s.outro)]),
      "full_script" := Str(s.fullScript),
      "keywords" := TextList(s.keywords),
      "hashtags" := TextList(s.hashtags),
      "description" := Str(s.description)])
  }

  /** A complete response is copied into the script field for field. */
  lemma AssembleRoundTrip(s: Script, news: NewsItem)
    ensures AssembleScript(ScriptResponse(s), news) == Ok(s)
  {
    TextListRoundTrip(s.keywords);
    TextListRoundTrip(s.hashtags);
  }

  /** An empty response object gives the news title and empty everything else. */
  lemma AssembleEmptyResponse(news: NewsItem)
    ensures AssembleScript(Obj(map[]), news) == Ok(Script(news.title, "", "", "", "", [], [], ""))
  {
  }

  /** The user prompt `write` sends for a selection. */
  function ScriptUserPrompt(prompts: ScriptPrompts, selected: SelectedNews): string {
    prompts.user(PromptArgs(selected))
  }

  /** `write`: one model call, then assembly. A client or parse failure, or a
      response of the wrong shape, fails the whole script. */
  function Write(llm: Llm, prompts: ScriptPrompts, selected: SelectedNews): (r: Result<Script, Error>)
    ensures var response := ChatJson(llm, prompts.system, ScriptUserPrompt(prompts, selected),
                                     SCRIPT_TEMPERATURE, DEFAULT_MAX_TOKENS);
      && (response.Err? ==> r == Err(response.error))
      && (response.Ok? ==> r == AssembleScript(response.value, selected.newsItem))
      && (response.Ok? && response.value.Obj? && "full_script" in response.value.fields ==>
            (!HasLength(response.value.fields["full_script"]) ==> r.Err?))
  {
    match ChatJson(llm, prompts.system, ScriptUserPrompt(prompts, selected), SCRIPT_TEMPERATURE, DEFAULT_MAX_TOKENS)
    case Err(e) => Err(e)
    case Ok(v) => AssembleScript(v, selected.newsItem)
  }

  /** The outcome of `write` for each selection, in input order. */
  function Outcomes(llm: Llm, prompts: ScriptPrompts, selections: seq<SelectedNews>): (rs: seq<Result<Script, Error>>)
    ensures |rs| == |selections|
    ensures forall i :: 0 <= i < |selections| ==> rs[i] == Write(llm, prompts, selections[i])
  {
    seq(|selections|, i requires 0 <= i < |selections| => Write(llm, prompts, selections[i]))
  }

  /** The scripts among the outcomes, in order. */
  function Successes(rs: seq<Result<Script, Error>>): (r: seq<Script>)
    ensures |r| <= |rs|
  {
    SomesLength(seq(|rs|, i requires 0 <= i < |rs| => rs[i].ToOption()));
    Somes(seq(|rs|, i requires 0 <= i < |rs| => rs[i].ToOption()))
  }

  /** The errors among the outcomes, in order. */
  function Failures(rs: seq<Result<Script, Error>>): seq<Error> {
    Somes(seq(|rs|, i requires 0 <= i < |rs| => rs[i].ErrorOption()))
  }

  /** Every outcome is either a success or a failure. */
  lemma {:induction false} SuccessesAndFailures(rs: seq<Result<Script, Error>>)
    ensures |Successes(rs)| + |Failures(rs)| == |rs|
    decreases |rs|
  {
    if |rs| > 0 {
      var init := rs[..|rs| - 1];
      SuccessesAndFailures(init);
      assert seq(|rs|, i requires 0 <= i < |rs| => rs[i].ToOption())[..|rs| - 1]
        == seq(|init|, i requires 0 <= i < |init| => init[i].ToOption());
      assert seq(|rs|, i requires 0 <= i < |rs| => rs[i].ErrorOption())[..|rs| - 1]
        == seq(|init|, i requires 0 <= i < |init| => init[i].ErrorOption());
    }
  }

  /** A script is among the successes exactly when some outcome produced it. */
  lemma SuccessesExactly(rs: seq<Result<Script, Error>>, s: Script)
    ensures s in Successes(rs) <==> Ok(s) in rs
  {
    var opts := seq(|rs|, i requires 0 <= i < |rs| => rs[i].ToOption());
    SomesMembership(opts, s);
    if Ok(s) in rs {
      var i :| 0 <= i < |rs| && rs[i] == Ok(s);
      assert opts[i] == Some(s);
    }
    if Some(s) in opts {
      var i :| 0 <= i < |opts| && opts[i] == Some(s);
      assert rs[i] == Ok(s);
    }
  }

  /** When every write succeeds, every selection gets its script, in order. */
  lemma AllSucceed(rs: seq<Result<Script, Error>>)
    requires forall i :: 0 <= i < |rs| ==> rs[i].Ok?
    ensures |Successes(rs)| == |rs|
    ensures forall i :: 0 <= i < |rs| ==> Successes(rs)[i] == rs[i].value
  {
    SomesAllSome(seq(|rs|, i requires 0 <= i < |rs| => rs[i].ToOption()));
  }

  /** Successes of an earlier part of the batch come before those of a later part. */
  lemma SuccessesAppend(a: seq<Result<Script, Error>>, b: seq<Result<Script, Error>>)
    ensures Successes(a + b) == Successes(a) + Successes(b)
  {
    var oa := seq(|a|, i requires 0 <= i < |a| => a[i].ToOption());
    var ob := seq(|b|, i requires 0 <= i < |b| => b[i].ToOption());
    assert seq(|a + b|, i requires 0 <= i < |a + b| => (a + b)[i].ToOption()) == oa + ob;
    SomesAppend(oa, ob);
  }

  /** Failures of an earlier part of the batch come before those of a later part. */
  lemma FailuresAppend(a: seq<Result<Script, Error>>, b: seq<Result<Script, Error>>)
    ensures Failures(a + b) == Failures(a) + Failures(b)
  {
    var oa := seq(|a|, i requires 0 <= i < |a| => a[i].ErrorOption());
    var ob := seq(|b|, i requires 0 <= i < |b| => b[i].ErrorOption());
    assert seq(|a + b|, i requires 0 <= i < |a + b| => (a + b)[i].ErrorOption()) == oa + ob;
    SomesAppend(oa, ob);
  }

  /** Five selections of which the third fails give the other four scripts
      in order, and one logged error. */
  lemma ThirdOfFiveFails(rs: seq<Result<Script, Error>>)
    requires |rs| == 5 && rs[2].Err?
    requires rs[0].Ok? && rs[1].Ok? && rs[3].Ok? && rs[4].Ok?
    ensures Successes(rs) == [rs[0].value, rs[1].value, rs[3].value, rs[4].value]
    ensures Failures(rs) == [rs[2].error]
  {
    assert rs == rs[..2] + [rs[2]] + rs[3..];
    SuccessesAppend(rs[..2] + [rs[2]], rs[3..]);
    SuccessesAppend(rs[..2], [rs[2]]);
    AllSucceed(rs[..2]);
    AllSucceed(rs[3..]);
    var one := [rs[2]];
    SomesNone(seq(|one|, i requires 0 <= i < |one| => one[i].ToOption()));
    var fo := seq(|rs|, i requires 0 <= i < |rs| => rs[i].ErrorOption());
    assert fo == [None, None, Some(rs[2].error), None, None];
    var none2: seq<Option<Error>> := [None, None];
    var fail: seq<Option<Error>> := [Some(rs[2].error)];
    assert fo == none2 + fail + none2;
    SomesAppend(none2 + fail, none2);
    SomesAppend(none2, fail);
    SomesNone(none2);
    var empty: seq<Option<Error>> := [];
    assert fail == empty + [Some(rs[2].error)];
    SomesNone(empty);
  }

  /** One more outcome extends the successes or the failures by one. */
  lemma BatchStep(rs: seq<Result<Script, Error>>, i: nat)
    requires i < |rs|
    ensures rs[i].Ok? ==> Successes(rs[..i + 1]) == Successes(rs[..i]) + [rs[i].value]
    ensures rs[i].Ok? ==> Failures(rs[..i + 1]) == Failures(rs[..i])
    ensures rs[i].Err? ==> Successes(rs[..i + 1]) == Successes(rs[..i])
    ensures rs[i].Err? ==> Failures(rs[..i + 1]) == Failures(rs[..i]) + [rs[i].error]
  {
    var os := seq(|rs|, k requires 0 <= k < |rs| => rs[k].ToOption());
    var es := seq(|rs|, k requires 0 <= k < |rs| => rs[k].ErrorOption());
    assert seq(i + 1, k requires 0 <= k < i + 1 => rs[..i + 1][k].ToOption()) == os[..i + 1];
    assert seq(i, k requires 0 <= k < i => rs[..i][k].ToOption()) == os[..i];
    assert seq(i + 1, k requires 0 <= k < i + 1 => rs[..i + 1][k].ErrorOption()) == es[..i + 1];
    assert seq(i, k requires 0 <= k < i => rs[..i][k].ErrorOption()) == es[..i];
    SomesSnoc(os, i);
    SomesSnoc(es, i);
  }

  /** `write_batch`: each selection is attempted in turn; a failure is logged
      in `failures` and skipped, never raised. */
  method WriteBatch(llm: Llm, prompts: ScriptPrompts, selections: seq<SelectedNews>)
    returns (scripts: seq<Script>, failures: seq<Error>)
    ensures scripts == Successes(Outcomes(llm, prompts, selections))
    ensures failures == Failures(Outcomes(llm, prompts, selections))
    ensures |scripts| + |failures| == |selections|
  {
    ghost var rs := Outcomes(llm, prompts, selections);
    scripts, failures := [], [];
    for i := 0 to |selections|
      invariant scripts == Successes(rs[..i])
      invariant failures == Failures(rs[..i])
    {
      var outcome := Write(llm, prompts, selections[i]);
      BatchStep(rs, i);
      if outcome.Ok? {
        scripts := scripts + [outcome.value];
      } else {
        failures := failures + [outcome.error];
      }
    }
    assert rs[..|selections|] == rs;
    SuccessesAndFailures(rs);
  }

}
