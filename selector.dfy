/** The selector (src/ai/selector.py): numbers the candidates in a prompt,
    asks the model which to use, and resolves the indices it returns back to
    the candidates, dropping those out of range. */
module Selector {
  import opened Wrappers
  import opened Lists
  import opened Text
  import opened Json
  import opened Models
  import opened Client

  /** The selection prompts: the system prompt, and the user-prompt template
      filled with the requested count and the numbered news list. */
  datatype SelectionPrompts = SelectionPrompts(system: string, user: (int, string) -> string)

  const SELECTION_TEMPERATURE: real := 0.5
  /** Characters of each summary shown in the prompt. */
  const SUMMARY_EXCERPT: int := 200

  /** The prompt lines for candidate `i`: its number and title, its
      publisher, its summary excerpt when it has one, then a blank line. */
  function ItemLines(i: nat, item: NewsItem): (r: seq<string>)
    ensures |r| == (if item.summary == "" then 3 else 4)
    ensures r[|r| - 1] == ""
  {
    ["[" + NatToString(i) + "] 제목: " + item.title, "    출처: " + item.sourceName]
    + (if item.summary != "" then ["    요약: " + Take(item.summary, SUMMARY_EXCERPT)] else [])
    + [""]
  }

  /** All prompt lines, candidate by candidate in input order. */
  function NewsListLines(items: seq<NewsItem>): (r: seq<string>)
    ensures r == [] <==> items == []
    ensures items != [] ==> r[|r| - 1] == ""
    decreases |items|
  {
    if |items| == 0 then []
    else NewsListLines(items[..|items| - 1]) + ItemLines(|items| - 1, items[|items| - 1])
  }

  lemma {:induction false} NewsListPrefix(items: seq<NewsItem>, j: nat)
    requires j <= |items|
    ensures NewsListLines(items[..j]) <= NewsListLines(items)
    decreases |items| - j
  {
    if j < |items| {
      NewsListPrefix(items, j + 1);
      assert items[..j + 1][..j] == items[..j];
    } else {
      assert items[..j] == items;
    }
  }

  lemma NewsListSnoc(items: seq<NewsItem>, i: nat)
    requires i < |items|
    ensures NewsListLines(items[..i + 1]) == NewsListLines(items[..i]) + ItemLines(i, items[i])
  {
    var pre := items[..i + 1];
    assert pre[..|pre| - 1] == items[..i] && pre[|pre| - 1] == items[i];
  }

  /** Candidate `i`'s lines appear as one block, after those of the
      candidates before it. */
  lemma NewsListBlock(items: seq<NewsItem>, i: nat)
    requires i < |items|
    ensures var off := |NewsListLines(items[..i])|;
      var block := ItemLines(i, items[i]);
      && off + |block| <= |NewsListLines(items)|
      && NewsListLines(items)[off..off + |block|] == block
  {
    var head := NewsListLines(items[..i]);
    var block := ItemLines(i, items[i]);
    NewsListPrefix(items, i + 1);
    NewsListSnoc(items, i);
    var all := NewsListLines(items);
    assert all[..|head| + |block|] == head + block;
    assert all[|head|..|head| + |block|] == (head + block)[|head|..];
  }

  /** Each candidate contributes three or four lines. */
  lemma {:induction false} NewsListLength(items: seq<NewsItem>)
    ensures 3 * |items| <= |NewsListLines(items)| <= 4 * |items|
    decreases |items|
  {
    if |items| > 0 {
      NewsListLength(items[..|items| - 1]);
    }
  }

  /** `_format_news_list`. */
  method FormatNewsList(items: seq<NewsItem>) returns (text: string)
    ensures text == Join("\n", NewsListLines(items))
  {
    var lines: seq<string> := [];
    for i := 0 to |items|
      invariant lines == NewsListLines(items[..i])
    {
      assert items[..i + 1][..i] == items[..i];
      lines := lines + ["[" + NatToString(i) + "] 제목: " + items[i].title];
      lines := lines + ["    출처: " + items[i].sourceName];
      if items[i].summary != "" {
        lines := lines + ["    요약: " + Take(items[i].summary, SUMMARY_EXCERPT)];
      }
      lines := lines + [""];
    }
    assert items[..|items|] == items;
    text := Join("\n", lines);
  }

  /** What `0 <= index < len(news_items)` and `news_items[index]` do with the
      model's index: accept a position, drop the entry, or raise a TypeError.
      A bool counts as 0 or 1, as in Python; a float in range fails the
      indexing, one out of range is dropped; any other value fails the
      comparison. */
  function IndexValue(v: Value, n: nat): (r: Result<Option<nat>, Error>)
    ensures r.Ok? && r.value.Some? ==> r.value.value < n
    ensures v.Int? ==> r.Ok? && (r.value.Some? <==> 0 <= v.i < n) && (r.value.Some? ==> r.value.value == v.i)
    ensures v.Null? || v.Str? || v.Arr? || v.Obj? ==> r.Err?
  {
    match v
    case Int(i) => if 0 <= i < n then Ok(Some(i as nat)) else Ok(None)
    case Bool(b) =>
      var i: nat := if b then 1 else 0;
      if i < n then Ok(Some(i)) else Ok(None)
    case Float(x) =>
      if 0.0 <= x < n as real then Err(UnexpectedShape("list indices must be integers or slices, not float"))
      else Ok(None)
    case _ => Err(UnexpectedShape("'<=' not supported for this index"))
  }

  /** One entry of "selected": a selection, a silent drop, or an error. A
      missing "index" counts as 0 and a missing "reason" or "hook_idea" as "". */
  function ResolveEntry(entry: Value, items: seq<NewsItem>): (r: Result<Option<SelectedNews>, Error>)
    ensures !entry.Obj? ==> r.Err?
    ensures entry.Obj? ==> (r.Ok? <==> IndexValue(Get(entry.fields, "index", Int(0)), |items|).Ok?)
    ensures entry.Obj? && IndexValue(Get(entry.fields, "index", Int(0)), |items|) == Ok(None) ==> r == Ok(None)
    ensures forall i :: entry.Obj? && IndexValue(Get(entry.fields, "index", Int(0)), |items|) == Ok(Some(i)) ==>
      i < |items| && r == Ok(Some(SelectedNews(items[i], GetText(entry.fields, "reason", ""), GetText(entry.fields, "hook_idea", ""))))
  {
    if !entry.Obj? then Err(UnexpectedShape("entry has no attribute 'get'"))
    else
      var f := entry.fields;
      match IndexValue(Get(f, "index", Int(0)), |items|)
      case Err(e) => Err(e)
      case Ok(None) => Ok(None)
      case Ok(Some(i)) => Ok(Some(SelectedNews(items[i], GetText(f, "reason", ""), GetText(f, "hook_idea", ""))))
  }

  /** One step of the selection loop: the first error aborts, dropped
      entries leave no trace, accepted ones are appended. */
  function Step(acc: Result<seq<SelectedNews>, Error>, entry: Value, items: seq<NewsItem>)
    : Result<seq<SelectedNews>, Error>
  {
    match acc
    case Err(e) => Err(e)
    case Ok(sel) =>
      match ResolveEntry(entry, items)
      case Err(e) => Err(e)
      case Ok(None) => Ok(sel)
      case Ok(Some(s)) => Ok(sel + [s])
  }

  /** The selection loop over all of the model's entries, in its order. */
  function Resolve(entries: seq<Value>, items: seq<NewsItem>): (r: Result<seq<SelectedNews>, Error>)
    ensures entries == [] ==> r == Ok([])
    ensures r.Ok? ==> |r.value| <= |entries|
    ensures r.Ok? ==> forall j :: 0 <= j < |entries| ==> ResolveEntry(entries[j], items).Ok?
    decreases |entries|
  {
    if |entries| == 0 then Ok([])
    else Step(Resolve(entries[..|entries| - 1], items), entries[|entries| - 1], items)
  }

  /** Two selection outcomes, one after the other. */
  function Concat(a: Result<seq<SelectedNews>, Error>, b: Result<seq<SelectedNews>, Error>)
    : Result<seq<SelectedNews>, Error>
  {
    match a
    case Err(e) => Err(e)
    case Ok(x) =>
      match b
      case Err(e) => Err(e)
      case Ok(y) => Ok(x + y)
  }

  /** Resolving is compositional: the selections from earlier entries come
      first, and the first failing entry decides the error. */
  lemma {:induction false} ResolveAppend(a: seq<Value>, b: seq<Value>, items: seq<NewsItem>)
    ensures Resolve(a + b, items) == Concat(Resolve(a, items), Resolve(b, items))
    decreases |b|
  {
    if |b| == 0 {
      assert a + b == a;
      if Resolve(a, items).Ok? {
        assert Resolve(a, items).value + [] == Resolve(a, items).value;
      }
    } else {
      var b' := b[..|b| - 1];
      var e := b[|b| - 1];
      assert (a + b)[..|a + b| - 1] == a + b';
      assert (a + b)[|a + b| - 1] == e;
      ResolveAppend(a, b', items);
      assert Resolve(a + b, items) == Step(Resolve(a + b', items), e, items);
      assert Resolve(b, items) == Step(Resolve(b', items), e, items);
      StepConcat(Resolve(a, items), Resolve(b', items), e, items);
    }
  }

  lemma StepConcat(x: Result<seq<SelectedNews>, Error>, y: Result<seq<SelectedNews>, Error>, e: Value, items: seq<NewsItem>)
    ensures Step(Concat(x, y), e, items) == Concat(x, Step(y, e, items))
  {
    if x.Ok? && y.Ok? && ResolveEntry(e, items).Ok? && ResolveEntry(e, items).value.Some? {
      assert x.value + y.value + [ResolveEntry(e, items).value.value]
        == x.value + (y.value + [ResolveEntry(e, items).value.value]);
    }
  }

  /** Every selection refers to a candidate, and there are no more selections
      than entries. */
  lemma {:induction false} ResolveSound(entries: seq<Value>, items: seq<NewsItem>)
    requires Resolve(entries, items).Ok?
    ensures |Resolve(entries, items).value| <= |entries|
    ensures forall k :: 0 <= k < |Resolve(entries, items).value| ==> Resolve(entries, items).value[k].newsItem in items
    decreases |entries|
  {
    if |entries| > 0 {
      ResolveSound(entries[..|entries| - 1], items);
    }
  }

  /** When every entry is accepted, the selections are those entries'
      candidates, one for one, in the model's order. */
  lemma {:induction false} ResolveAllAccepted(entries: seq<Value>, items: seq<NewsItem>)
    requires forall j :: 0 <= j < |entries| ==> ResolveEntry(entries[j], items).Ok? && ResolveEntry(entries[j], items).value.Some?
    ensures Resolve(entries, items).Ok?
    ensures |Resolve(entries, items).value| == |entries|
    ensures forall j :: 0 <= j < |entries| ==> Resolve(entries, items).value[j] == ResolveEntry(entries[j], items).value.value
    decreases |entries|
  {
    if |entries| > 0 {
      ResolveAllAccepted(entries[..|entries| - 1], items);
    }
  }

  /** An entry whose integer index is out of range is dropped without trace. */
  lemma ResolveDropsOutOfRange(a: seq<Value>, e: Value, b: seq<Value>, items: seq<NewsItem>)
    requires e.Obj? && "index" in e.fields && e.fields["index"].Int?
    requires !(0 <= e.fields["index"].i < |items|)
    ensures Resolve(a + [e] + b, items) == Resolve(a + b, items)
  {
    ResolveAppend(a + [e], b, items);
    ResolveAppend(a, [e], items);
    ResolveAppend(a, b, items);
    assert [e][..0] == [];
  }

  /** The entries `result.get("selected", [])` iterates. An empty string or
      dict iterates nothing; a non-empty one yields strings, which have no
      `get`; other values are not iterable. */
  function SelectedEntries(response: Value): (r: Result<seq<Value>, Error>)
    ensures response.Obj? && "selected" !in response.fields ==> r == Ok([])
    ensures response.Obj? && "selected" in response.fields && response.fields["selected"].Arr? ==>
      r == Ok(response.fields["selected"].items)
    ensures !response.Obj? ==> r.Err?
  {
    if !response.Obj? then Err(UnexpectedShape("response has no attribute 'get'"))
    else
      match Get(response.fields, "selected", Arr([]))
      case Arr(vs) => Ok(vs)
      case Str(s) => if s == "" then Ok([]) else Err(UnexpectedShape("'str' object has no attribute 'get'"))
      case Obj(m) => if |m| == 0 then Ok([]) else Err(UnexpectedShape("'str' object has no attribute 'get'"))
      case _ => Err(UnexpectedShape("'selected' is not iterable"))
  }

  /** What `select` makes of the client's answer. */
  function SelectionOutcome(response: Result<Value, Error>, items: seq<NewsItem>): (r: Result<seq<SelectedNews>, Error>)
    ensures response.Err? ==> r == Err(response.error)
    ensures response.Ok? && SelectedEntries(response.value).Err? ==> r == Err(SelectedEntries(response.value).error)
    ensures response.Ok? && SelectedEntries(response.value) == Ok([]) ==> r == Ok([])
    ensures r.Ok? ==> response.Ok? && SelectedEntries(response.value).Ok?
    ensures r.Ok? ==> |r.value| <= |SelectedEntries(response.value).value|
    ensures r.Ok? ==> forall k :: 0 <= k < |r.value| ==> r.value[k].newsItem in items
  {
    match response
    case Err(e) => Err(e)
    case Ok(v) =>
      match SelectedEntries(v)
      case Err(e) => Err(e)
      case Ok(entries) =>
        if Resolve(entries, items).Ok? then
          ResolveSound(entries, items);
          Resolve(entries, items)
        else Resolve(entries, items)
  }

  /** The user prompt `select` fills in. */
  function SelectionUserPrompt(prompts: SelectionPrompts, items: seq<NewsItem>, count: int): string {
    prompts.user(count, Join("\n", NewsListLines(items)))
  }

  /** `select`: with no candidates, returns no selections and sends nothing;
      otherwise sends one request and resolves its answer. Any client or
      parse failure, and any malformed entry, fails the whole selection.
      `sent` lists the requests sent to the model. `count` only shapes the
      prompt; it does not cap the result. */
  method Select(llm: Llm, prompts: SelectionPrompts, newsItems: seq<NewsItem>, count: int)
    returns (r: Result<seq<SelectedNews>, Error>, sent: seq<CompletionRequest>)
    ensures newsItems == [] ==> r == Ok([]) && sent == []
    ensures newsItems != [] ==>
      var user := SelectionUserPrompt(prompts, newsItems, count);
      && sent == [ChatRequest(llm.model, prompts.system, user, SELECTION_TEMPERATURE, DEFAULT_MAX_TOKENS)]
      && r == SelectionOutcome(ChatJson(llm, prompts.system, user, SELECTION_TEMPERATURE, DEFAULT_MAX_TOKENS), newsItems)
    ensures r.Ok? ==> forall k :: 0 <= k < |r.value| ==> r.value[k].newsItem in newsItems
  {
    if |newsItems| == 0 {
      return Ok([]), [];
    }
    var text := FormatNewsList(newsItems);
    var user := prompts.user(count, text);
    sent := [ChatRequest(llm.model, prompts.system, user, SELECTION_TEMPERATURE, DEFAULT_MAX_TOKENS)];
    var response := ChatJson(llm, prompts.system, user, SELECTION_TEMPERATURE, DEFAULT_MAX_TOKENS);
    if response.Err? {
      return Err(response.error), sent;
    }
    var entries := SelectedEntries(response.value);
    if entries.Err? {
      return Err(entries.error), sent;
    }
    r := ResolveAll(entries.value, newsItems);
    if r.Ok? {
      ResolveSound(entries.value, newsItems);
    }
  }

  /** The loop of `select` over the model's entries. */
  method ResolveAll(es: seq<Value>, newsItems: seq<NewsItem>) returns (r: Result<seq<SelectedNews>, Error>)
    ensures r == Resolve(es, newsItems)
  {
    var selected: seq<SelectedNews> := [];
    for i := 0 to |es|
      invariant Resolve(es[..i], newsItems) == Ok(selected)
    {
      assert es[..i + 1][..i] == es[..i];
      var one := ResolveEntry(es[i], newsItems);
      if one.Err? {
        ResolveAppend(es[..i + 1], es[i + 1..], newsItems);
        assert es[..i + 1] + es[i + 1..] == es;
        return Err(one.error);
      }
      if one.value.Some? {
        selected := selected + [one.value.value];
      }
    }
    assert es[..|es|] == es;
    r := Ok(selected);
  }

  /** The worked example: of candidates "A" and "B", the model picks index 1
      with reason "r" and hook "h"; the result is the one selection of "B". */
  lemma SelectExample(a: NewsItem, b: NewsItem)
    requires a.title == "A" && a.url == "u1" && b.title == "B" && b.url == "u2"
    ensures var entry := Obj(map["index" := Int(1), "reason" := Str("r"), "hook_idea" := Str("h")]);
      SelectionOutcome(Ok(Obj(map["selected" := Arr([entry])])), [a, b]) == Ok([SelectedNews(b, "r", "h")])
  {
    var entry := Obj(map["index" := Int(1), "reason" := Str("r"), "hook_idea" := Str("h")]);
    var response := Obj(map["selected" := Arr([entry])]);
    assert SelectedEntries(response) == Ok([entry]);
    assert [entry][..0] == [];
    assert IndexValue(Int(1), 2) == Ok(Some(1));
    assert ResolveEntry(entry, [a, b]) == Ok(Some(SelectedNews(b, "r", "h")));
    assert Resolve([entry], [a, b]) == Step(Resolve([], [a, b]), entry, [a, b]);
    var empty: seq<SelectedNews> := [];
    assert empty + [SelectedNews(b, "r", "h")] == [SelectedNews(b, "r", "h")];
    assert Step(Ok(empty), entry, [a, b]) == Ok(empty + [SelectedNews(b, "r", "h")]);
  }

  /** An entry with no keys at all selects the first candidate with an empty
      reason and hook idea. */
  lemma SelectDefaults(items: seq<NewsItem>)
    requires items != []
    ensures Resolve([Obj(map[])], items) == Ok([SelectedNews(items[0], "", "")])
  {
    var e := Obj(map[]);
    assert [e][..0] == [];
    assert Get(e.fields, "index", Int(0)) == Int(0);
    assert IndexValue(Int(0), |items|) == Ok(Some(0));
    assert ResolveEntry(e, items) == Ok(Some(SelectedNews(items[0], "", "")));
    assert Resolve([e], items) == Step(Resolve([], items), e, items);
    var empty: seq<SelectedNews> := [];
    assert empty + [SelectedNews(items[0], "", "")] == [SelectedNews(items[0], "", "")];
    assert Step(Ok(empty), e, items) == Ok(empty + [SelectedNews(items[0], "", "")]);
  }
}
