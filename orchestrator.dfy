/** `onRequestPost` of the recognition endpoint: the checks made before the
    stream opens, and the events the stream carries once the recognition
    workers and the consolidation call have answered. The calls to the vision
    model are not modelled: what they answer is given as parameters, and the
    calls made are returned so that their number and prompts can be stated. */
module Orchestrator {
  import opened Options
  import opened Text
  import opened Json
  import JsonRoundTrip
  import ResultParser
  import opened Events

  // ---------------------------------------------------------------- configuration

  /** The part of `config.json` the endpoint reads itself: `ocr.concurrency`
      and the two instructions. Model names, the timeout and the thinking flag
      are only handed on to the model API. */
  datatype Config = Config(concurrency: int, ocrInstruction: string, decisionInstruction: string)

  const DefaultConcurrency := 5
  const MinConcurrency := 1
  const MaxConcurrency := 10

  /** The built-in configuration `loadConfig` returns when `config.json`
      cannot be fetched. */
  function FallbackConfig(): Config
  {
    Config(DefaultConcurrency, FallbackOcrInstruction, FallbackDecisionInstruction)
  }

  const FallbackOcrInstruction :=
    "请识别图片中的手写文字内容，这是一份购物清单或库存清单。\n\n要求：\n1. 识别所有手写的中文文字\n2. 按照【物品名称、数量、单位、备注】的格式整理\n3. 单位是指计量单位，如：个、瓶、袋、包、斤、公斤、克、箱、盒等\n4. 如果某项没有数量、单位或备注，用空字符串表示\n5. 返回JSON数组格式[[\"物品\", \"数量\", \"单位\", \"备注\"], ...]\n\n直接返回JSON数组，不要任何其他解释文字。"
  const FallbackDecisionInstruction :=
    "以下是多次OCR识别的结果，请基于原图和这些结果，给出最准确的最终结果。\n\n要求：\n1. 综合所有识别结果，选择最准确的内容\n2. 返回JSON数组格式：[[\"物品\", \"数量\", \"单位\", \"备注\"], ...]\n3. 单位是指计量单位，如：个、瓶、袋、包、斤、公斤、克、箱、盒等\n4. 直接返回JSON数组，不要任何其他解释文字"

  // ---------------------------------------------------------------- before the stream

  /** The request body after `request.json()` and the destructuring of
      `image` and `concurrency`. `Unreadable` is a body that makes either of
      them throw, with the thrown error's `message`; `None` is an absent or
      `null` field. */
  datatype Body =
    | Unreadable(error: string)
    | Body(image: Option<string>, concurrency: Option<int>)

  /** A JSON error answered instead of a stream. */
  datatype Rejection = Rejection(status: nat, code: string, message: string)

  datatype Admission = Refused(rejection: Rejection) | Admitted(n: nat)

  const InternalError := "INTERNAL_ERROR"
  const FallbackMessage := "识别服务暂时不可用，请稍后重试"

  /** `error.message || '识别服务暂时不可用，请稍后重试'`. */
  function ErrorMessage(m: string): (r: string)
    ensures |r| > 0
    ensures |m| > 0 ==> r == m
  {
    if m == "" then FallbackMessage else m
  }

  /** `{success: false, error: {code, message}}`. */
  function RejectionJson(r: Rejection): Json
  {
    JObj([Member("success", JBool(false)),
          Member("error", JObj([Member("code", JStr(r.code)), Member("message", JStr(r.message))]))])
  }

  /** `concurrency || config.ocr.concurrency || 5`: zero and absence are falsy. */
  function EffectiveConcurrency(requested: Option<int>, configured: int): int
  {
    if requested.Some? && requested.value != 0 then requested.value
    else if configured != 0 then configured
    else DefaultConcurrency
  }

  /** JavaScript truthiness of an optional string. */
  predicate Present(s: Option<string>)
  {
    s.Some? && |s.value| > 0
  }

  /** The checks of `onRequestPost` before the stream opens, in their order:
      a readable body, an image, a concurrency in 1..10, an API key. */
  function Admit(body: Body, config: Config, apiKey: Option<string>): (a: Admission)
    ensures a.Admitted? ==> MinConcurrency <= a.n <= MaxConcurrency
  {
    match body
    case Unreadable(m) => Refused(Rejection(500, InternalError, ErrorMessage(m)))
    case Body(image, requested) =>
      if !Present(image) then Refused(Rejection(400, "NO_IMAGE", "请提供图片数据"))
      else
        var n := EffectiveConcurrency(requested, config.concurrency);
        if n < MinConcurrency || n > MaxConcurrency then
          Refused(Rejection(400, "INVALID_CONCURRENCY", "并发次数必须在1-10之间"))
        else if !Present(apiKey) then Refused(Rejection(500, "NO_API_KEY", "API密钥未配置"))
        else Admitted(n)
  }

  // ---------------------------------------------------------------- the stream, as specified

  /** How one recognition worker settled: the model's reply text, or the
      `message` of what it threw. */
  datatype Outcome = Done(worker: nat, text: string) | Failed(worker: nat, message: string)

  /** What the consolidation call does with a prompt: a reply whose content is
      text, a reply whose content is `null`, or a throw. */
  datatype Reply = Content(text: string) | NoContent | Threw(message: string)

  /** A call to the model API, with the text part of its prompt. */
  datatype Call = Recognise(worker: nat, prompt: string) | Consolidate(prompt: string)

  /** The `n` workers settle in some order, each exactly once. */
  predicate Settlements(outcomes: seq<Outcome>, n: nat)
  {
    |outcomes| == n
    && (forall j :: 0 <= j < |outcomes| ==> outcomes[j].worker < n)
    && (forall j, k :: 0 <= j < k < |outcomes| ==> outcomes[j].worker != outcomes[k].worker)
  }

  /** The position of the first failure in settlement order, which is where
      `Promise.all` rejects. */
  function FirstFailure(outcomes: seq<Outcome>): (r: Option<nat>)
    ensures r.Some? ==>
      r.value < |outcomes| && outcomes[r.value].Failed? && forall j :: 0 <= j < r.value ==> outcomes[j].Done?
    ensures r.None? ==> forall j :: 0 <= j < |outcomes| ==> outcomes[j].Done?
  {
    if |outcomes| == 0 then None
    else if outcomes[0].Failed? then Some(0)
    else match FirstFailure(outcomes[1..])
      case None => None
      case Some(k) => Some(k + 1)
  }

  /** The reply text in worker `w`'s slot of `Promise.all`'s result array. */
  function TextOf(outcomes: seq<Outcome>, w: nat): string
  {
    if |outcomes| == 0 then ""
    else
      var o := Last(outcomes);
      if o.Done? && o.worker == w then o.text else TextOf(outcomes[..|outcomes| - 1], w)
  }

  /** `ocrResults`: the replies in worker order, whatever the completion order. */
  function Texts(outcomes: seq<Outcome>, n: nat): seq<string>
  {
    seq(n, w requires 0 <= w => TextOf(outcomes, w))
  }

  /** `ocrResults.map(parseJSONResult).filter(r => r !== null)`. */
  function ValidTables(texts: seq<string>): (valid: seq<seq<Json>>)
    ensures |valid| <= |texts|
    ensures forall i :: 0 <= i < |valid| ==> |valid[i]| > 0
  {
    if |texts| == 0 then []
    else
      var rest := ValidTables(texts[1..]);
      match ResultParser.ParseJsonResult(texts[0])
      case None => rest
      case Some(t) => [t] + rest
  }

  /** `第${i + 1}次识别结果：\n`, the label in front of the `i`-th table. */
  function ResultLabel(i: nat): string
  {
    LabelHead + NatToString(i + 1) + LabelTail
  }

  const LabelHead := "第"
  const LabelTail := "次识别结果：\n"

  /** The label, then `JSON.stringify(result, null, 2)`. */
  function ResultBlock(i: nat, table: seq<Json>): string
  {
    ResultLabel(i) + Serialize(JArr(table), "  ", "")
  }

  function PromptBlocks(tables: seq<seq<Json>>): seq<string>
  {
    seq(|tables|, i requires 0 <= i < |tables| => ResultBlock(i, tables[i]))
  }

  /** The consolidation prompt: the instruction, a blank line, and the
      numbered tables separated by blank lines. */
  function ConsolidationPrompt(instruction: string, tables: seq<seq<Json>>): string
  {
    instruction + "\n\n" + Join(PromptBlocks(tables), "\n\n")
  }

  /** Where the block of the `i`-th table starts in the prompt. */
  function BlockStart(instruction: string, tables: seq<seq<Json>>, i: nat): nat
    requires i < |tables|
  {
    |instruction| + 2 + JoinOffset(PromptBlocks(tables), "\n\n", i)
  }

  /** Where the block of the `i`-th table ends in the prompt. */
  function BlockEnd(instruction: string, tables: seq<seq<Json>>, i: nat): nat
    requires i < |tables|
  {
    BlockStart(instruction, tables, i) + |ResultBlock(i, tables[i])|
  }

  /** Between `o` and `e`, `prompt` holds the label of the `i`-th result
      followed by a JSON text that reads back as `table`. */
  predicate TableAt(prompt: string, o: nat, e: nat, i: nat, table: seq<Json>)
  {
    o + |ResultLabel(i)| <= e <= |prompt|
    && prompt[o..o + |ResultLabel(i)|] == ResultLabel(i)
    && Decode(prompt[o + |ResultLabel(i)|..e]) == Some(JArr(table))
  }

  function Opening(n: nat): seq<Event>
  {
    [Progress(5, "正在准备识别..."), Progress(10, "开始" + NatToString(n) + "次并发识别...")]
  }

  /** The progress sent when the `c`-th of `n` workers completes; with `n`
      at most 10, `Math.floor((c / n) * 60)` is the integer quotient. */
  function CountEvent(c: nat, n: nat): Event
    requires n > 0
  {
    Progress(CompletionPercent(c, n), "识别进度：" + NatToString(c) + "/" + NatToString(n))
  }

  function CompletionPercent(c: nat, n: nat): nat
    requires n > 0
  {
    10 + (60 * c) / n
  }

  /** The progress events of the first `k` completions. */
  function Counts(k: nat, n: nat): seq<Event>
    requires n > 0
  {
    seq(k, i requires 0 <= i => CountEvent(i + 1, n))
  }

  function Closing(n: nat, v: nat): seq<Event>
  {
    [Progress(70, "所有识别请求已完成"),
     Progress(75, "解析完成，有效结果：" + NatToString(v) + "/" + NatToString(n))]
  }

  const NoValidResults := Failure("NO_VALID_RESULTS", "未能识别出有效内容，请检查图片清晰度")
  const ConsolidationFailed := Failure("CONSOLIDATION_FAILED", "结果整合失败")

  /** The end of the stream once the tables are known: the final result, or
      the error that replaces it. */
  function Decision(n: nat, instruction: string, valid: seq<seq<Json>>, consolidate: string -> Reply, centis: nat): seq<Event>
  {
    if |valid| == 0 then [NoValidResults]
    else if |valid| == 1 then
      [Progress(90, "准备返回识别结果..."), Success(valid[0], Metadata(n, 1, centis))]
    else
      [Progress(80, "正在整合多个识别结果...")]
      + match consolidate(ConsolidationPrompt(instruction, valid))
        case Threw(m) => [Failure(InternalError, ErrorMessage(m))]
        case NoContent => [Progress(95, "结果整合完成"), ConsolidationFailed]
        case Content(t) =>
          [Progress(95, "结果整合完成")]
          + match ResultParser.ParseJsonResult(t)
            case None => [ConsolidationFailed]
            case Some(items) => [Success(items, Metadata(n, |valid|, centis))]
  }

  /** Every event the stream carries, in order. */
  function StreamEvents(n: nat, config: Config, outcomes: seq<Outcome>, consolidate: string -> Reply, centis: nat): seq<Event>
    requires n > 0
  {
    match FirstFailure(outcomes)
    case Some(f) => Opening(n) + Counts(f, n) + [Failure(InternalError, ErrorMessage(outcomes[f].message))]
    case None =>
      var valid := ValidTables(Texts(outcomes, n));
      Opening(n) + Counts(|outcomes|, n) + Closing(n, |valid|)
      + Decision(n, config.decisionInstruction, valid, consolidate, centis)
  }

  /** Whether the consolidation model is asked at all. */
  predicate Consolidates(n: nat, outcomes: seq<Outcome>)
  {
    FirstFailure(outcomes).None? && |ValidTables(Texts(outcomes, n))| >= 2
  }

  /** The model calls made: one per worker with the OCR instruction, then
      the consolidation call when it happens. */
  function CallsMade(n: nat, config: Config, outcomes: seq<Outcome>): seq<Call>
  {
    seq(n, w requires 0 <= w => Recognise(w, config.ocrInstruction))
    + if Consolidates(n, outcomes)
      then [Consolidate(ConsolidationPrompt(config.decisionInstruction, ValidTables(Texts(outcomes, n))))]
      else []
  }

  // ---------------------------------------------------------------- the stream, as run

  /** The `start` callback of the response stream. The workers are
      dispatched together; their settlements then arrive one at a time in
      `outcomes`, each running the code after `await performOCR`, until the
      first failure rejects `Promise.all`. */
  method RunStream(n: nat, config: Config, outcomes: seq<Outcome>, consolidate: string -> Reply, centis: nat)
    returns (events: seq<Event>, calls: seq<Call>)
    requires n > 0 && Settlements(outcomes, n)
    ensures events == StreamEvents(n, config, outcomes, consolidate, centis)
    ensures calls == CallsMade(n, config, outcomes)
  {
    events := Opening(n);
    calls := Dispatch(n, config.ocrInstruction);
    var counts, failure, texts := AwaitAll(n, outcomes);
    events := events + counts;
    if failure.Some? {
      events := events + [failure.value];
      return;
    }
    events := events + [Progress(70, "所有识别请求已完成")];
    var valid := ValidTables(texts);
    events := events + [Progress(75, "解析完成，有效结果：" + NatToString(|valid|) + "/" + NatToString(n))];
    assert events == Opening(n) + Counts(|outcomes|, n) + Closing(n, |valid|);
    var tail, consolidation := Decide(n, config.decisionInstruction, valid, consolidate, centis);
    events := events + tail;
    calls := calls + consolidation;
  }

  /** `Array.from({length: n}, …)`: one recognition call per worker, all
      with the OCR instruction. */
  method Dispatch(n: nat, instruction: string) returns (calls: seq<Call>)
    ensures |calls| == n
    ensures forall w :: 0 <= w < n ==> calls[w] == Recognise(w, instruction)
  {
    calls := [];
    var w := 0;
    while w < n
      invariant 0 <= w <= n && |calls| == w
      invariant forall v :: 0 <= v < w ==> calls[v] == Recognise(v, instruction)
    {
      calls := calls + [Recognise(w, instruction)];
      w := w + 1;
    }
  }

  /** `await Promise.all(ocrPromises)`: each completion counts and reports
      its progress and fills its worker's slot; the first failure ends the
      wait with its error. */
  method AwaitAll(n: nat, outcomes: seq<Outcome>) returns (counts: seq<Event>, failure: Option<Event>, texts: seq<string>)
    requires n > 0 && Settlements(outcomes, n)
    ensures FirstFailure(outcomes).Some? ==>
      var f := FirstFailure(outcomes).value;
      counts == Counts(f, n) && failure == Some(Failure(InternalError, ErrorMessage(outcomes[f].message)))
    ensures FirstFailure(outcomes).None? ==>
      counts == Counts(|outcomes|, n) && failure.None? && texts == Texts(outcomes, n)
  {
    var results := new string[n](_ => "");
    var completed := 0;
    counts := [];
    texts := [];
    var i := 0;
    while i < |outcomes|
      invariant 0 <= i <= |outcomes| && completed == i
      invariant forall j :: 0 <= j < i ==> outcomes[j].Done?
      invariant counts == Counts(i, n)
      invariant forall v :: 0 <= v < n ==> results[v] == TextOf(outcomes[..i], v)
    {
      if outcomes[i].Failed? {
        FirstFailureAt(outcomes, i);
        failure := Some(Failure(InternalError, ErrorMessage(outcomes[i].message)));
        return;
      }
      var w := outcomes[i].worker;
      results[w] := outcomes[i].text;
      completed := completed + 1;
      counts := counts + [CountEvent(completed, n)];
      TextOfStep(outcomes, i);
      CountsStep(i, n);
      i := i + 1;
    }
    assert outcomes[..i] == outcomes;
    failure := None;
    texts := results[..];
  }

  /** The code after the 75% progress: the single table is returned, several
      are sent to the consolidation model, none is an error. */
  method Decide(n: nat, instruction: string, valid: seq<seq<Json>>, consolidate: string -> Reply, centis: nat)
    returns (events: seq<Event>, calls: seq<Call>)
    ensures events == Decision(n, instruction, valid, consolidate, centis)
    ensures calls == if |valid| >= 2 then [Consolidate(ConsolidationPrompt(instruction, valid))] else []
  {
    calls := [];
    if |valid| == 0 {
      events := [NoValidResults];
      return;
    }
    var final: Option<seq<Json>>;
    if |valid| == 1 {
      events := [Progress(90, "准备返回识别结果...")];
      final := Some(valid[0]);
    } else {
      events := [Progress(80, "正在整合多个识别结果...")];
      var prompt := ConsolidationPrompt(instruction, valid);
      calls := [Consolidate(prompt)];
      match consolidate(prompt) {
        case Threw(m) =>
          events := events + [Failure(InternalError, ErrorMessage(m))];
          return;
        case NoContent =>
          final := None;
        case Content(t) =>
          final := ResultParser.ParseJsonResult(t);
      }
      events := events + [Progress(95, "结果整合完成")];
    }
    if final.None? {
      events := events + [ConsolidationFailed];
      return;
    }
    events := events + [Success(final.value, Metadata(n, |valid|, centis))];
  }

  lemma TextOfStep(outcomes: seq<Outcome>, i: nat)
    requires i < |outcomes| && outcomes[i].Done?
    ensures forall v :: TextOf(outcomes[..i + 1], v) == (if v == outcomes[i].worker then outcomes[i].text else TextOf(outcomes[..i], v))
  {
    var p := outcomes[..i + 1];
    assert Last(p) == outcomes[i];
    assert p[..|p| - 1] == outcomes[..i];
    forall v: nat
      ensures TextOf(p, v) == (if v == outcomes[i].worker then outcomes[i].text else TextOf(outcomes[..i], v))
    {
      assert TextOf(p, v) == if Last(p).Done? && Last(p).worker == v then Last(p).text else TextOf(p[..|p| - 1], v);
    }
  }

  lemma CountsStep(i: nat, n: nat)
    requires n > 0
    ensures Counts(i + 1, n) == Counts(i, n) + [CountEvent(i + 1, n)]
  {
  }

  /** The first failure is the failed settlement all of whose predecessors
      completed. */
  lemma FirstFailureAt(outcomes: seq<Outcome>, i: nat)
    requires i < |outcomes| && outcomes[i].Failed?
    requires forall j :: 0 <= j < i ==> outcomes[j].Done?
    ensures FirstFailure(outcomes) == Some(i)
  {
  }

  // ---------------------------------------------------------------- the whole endpoint

  /** What `onRequestPost` answers: a JSON error with its status, or the
      NDJSON stream with the events it carries. */
  datatype Response = JsonError(status: nat, body: string) | Streamed(body: string, events: seq<Event>)

  method OnRequestPost(body: Body, config: Config, apiKey: Option<string>,
                       outcomes: seq<Outcome>, consolidate: string -> Reply, centis: nat)
    returns (response: Response, calls: seq<Call>)
    requires Admit(body, config, apiKey).Admitted? ==> Settlements(outcomes, Admit(body, config, apiKey).n)
    ensures Admit(body, config, apiKey).Refused? ==>
      var r := Admit(body, config, apiKey).rejection;
      response == JsonError(r.status, Stringify(RejectionJson(r))) && calls == []
    ensures Admit(body, config, apiKey).Admitted? ==>
      var n := Admit(body, config, apiKey).n;
      var evs := StreamEvents(n, config, outcomes, consolidate, centis);
      response == Streamed(EncodeAll(evs), evs) && calls == CallsMade(n, config, outcomes)
  {
    match Admit(body, config, apiKey) {
      case Refused(r) =>
        response := JsonError(r.status, Stringify(RejectionJson(r)));
        calls := [];
      case Admitted(n) =>
        var events;
        events, calls := RunStream(n, config, outcomes, consolidate, centis);
        response := Streamed(EncodeAll(events), events);
    }
  }

  // ---------------------------------------------------------------- admission

  /** A missing image is reported first, whatever the concurrency, the
      configuration and the key. */
  lemma ImageCheckedFirst(image: Option<string>, requested: Option<int>, config: Config, apiKey: Option<string>)
    requires !Present(image)
    ensures Admit(Body(image, requested), config, apiKey) == Refused(Rejection(400, "NO_IMAGE", "请提供图片数据"))
  {
  }

  /** A concurrency outside 1..10 is reported before a missing key, and both
      the request's and the configured value count, in that order. */
  lemma ConcurrencyCheckedBeforeKey(image: string, requested: Option<int>, config: Config, apiKey: Option<string>)
    requires |image| > 0
    requires (requested.Some? && requested.value != 0 && (requested.value < 1 || requested.value > 10))
      || ((requested.None? || requested == Some(0)) && (config.concurrency < 0 || config.concurrency > 10))
    ensures Admit(Body(Some(image), requested), config, apiKey).Refused?
    ensures Admit(Body(Some(image), requested), config, apiKey).rejection
      == Rejection(400, "INVALID_CONCURRENCY", "并发次数必须在1-10之间")
  {
  }

  /** With an image and a concurrency in range, a missing or empty API key is
      answered with 500 `NO_API_KEY`. */
  lemma KeyCheckedLast(image: string, requested: Option<int>, config: Config, apiKey: Option<string>)
    requires |image| > 0 && 1 <= EffectiveConcurrency(requested, config.concurrency) <= 10
    requires !Present(apiKey)
    ensures Admit(Body(Some(image), requested), config, apiKey) == Refused(Rejection(500, "NO_API_KEY", "API密钥未配置"))
  {
  }

  /** A body that cannot be read as JSON is answered with 500
      `INTERNAL_ERROR`, carrying the thrown message or the fallback. */
  lemma UnreadableIsInternal(m: string, config: Config, apiKey: Option<string>)
    ensures Admit(Unreadable(m), config, apiKey) == Refused(Rejection(500, InternalError, ErrorMessage(m)))
    ensures m != "" ==> Admit(Unreadable(m), config, apiKey).rejection.message == m
  {
  }

  /** The stream opens exactly when there is an image, a concurrency in
      range and a key; the request's own concurrency wins when it is set. */
  lemma AdmittedMeans(body: Body, config: Config, apiKey: Option<string>)
    ensures Admit(body, config, apiKey).Admitted? <==>
      body.Body? && Present(body.image) && Present(apiKey)
      && 1 <= EffectiveConcurrency(body.concurrency, config.concurrency) <= 10
    ensures Admit(body, config, apiKey).Admitted? && body.concurrency.Some? && body.concurrency.value != 0 ==>
      Admit(body, config, apiKey).n == body.concurrency.value
    ensures Admit(body, config, apiKey).Admitted? && (body.concurrency.None? || body.concurrency == Some(0)) ==>
      Admit(body, config, apiKey).n == if config.concurrency != 0 then config.concurrency else DefaultConcurrency
  {
  }

  /** Without `config.json` and without a requested concurrency, five
      workers run. */
  lemma FallbackRunsFive(image: string, apiKey: string)
    requires |image| > 0 && |apiKey| > 0
    ensures Admit(Body(Some(image), None), FallbackConfig(), Some(apiKey)) == Admitted(5)
  {
  }

  /** Refusals are reported with status 400 for the caller's mistakes and 500
      otherwise. */
  lemma RefusalStatus(body: Body, config: Config, apiKey: Option<string>)
    ensures Admit(body, config, apiKey).Refused? ==>
      var r := Admit(body, config, apiKey).rejection;
      (r.status == 400 <==> r.code == "NO_IMAGE" || r.code == "INVALID_CONCURRENCY")
      && (r.status == 500 <==> r.code == InternalError || r.code == "NO_API_KEY")
  {
  }

  /** The JSON error body reads back with its code and message. */
  lemma RejectionReadsBack(r: Rejection)
    ensures Decode(Stringify(RejectionJson(r))) == Some(RejectionJson(r))
    ensures Property(RejectionJson(r), "success") == Some(JBool(false))
    ensures Property(RejectionJson(r), "error").Some?
    ensures Property(Property(RejectionJson(r), "error").value, "code") == Some(JStr(r.code))
    ensures Property(Property(RejectionJson(r), "error").value, "message") == Some(JStr(r.message))
  {
    var v := RejectionJson(r);
    assert WellFormed(v.members[1].value);
    JsonRoundTrip.DecodeStringify(v);
    LookupUnique(v.members, 0);
    LookupUnique(v.members, 1);
    LookupUnique(v.members[1].value.members, 0);
    LookupUnique(v.members[1].value.members, 1);
  }

  // ---------------------------------------------------------------- worker results

  /** `Promise.all` puts each reply in its worker's slot, whatever the order
      in which the workers completed. */
  lemma {:induction false} TextsInWorkerOrder(outcomes: seq<Outcome>, n: nat, j: nat)
    requires Settlements(outcomes, n) && j < |outcomes| && outcomes[j].Done?
    ensures Texts(outcomes, n)[outcomes[j].worker] == outcomes[j].text
  {
    TextOfAt(outcomes, j);
  }

  lemma {:induction false} TextOfAt(outcomes: seq<Outcome>, j: nat)
    requires j < |outcomes| && outcomes[j].Done?
    requires forall a, b :: 0 <= a < b < |outcomes| ==> outcomes[a].worker != outcomes[b].worker
    ensures TextOf(outcomes, outcomes[j].worker) == outcomes[j].text
    decreases |outcomes|
  {
    if j < |outcomes| - 1 {
      var init := outcomes[..|outcomes| - 1];
      assert Last(outcomes).worker != outcomes[j].worker;
      assert init[j] == outcomes[j];
      TextOfAt(init, j);
    }
  }

  /** Filtering keeps the order of the replies: the tables of a longer list
      of replies extend those of its beginning. */
  lemma {:induction false} ValidTablesAppend(a: seq<string>, b: seq<string>)
    ensures ValidTables(a + b) == ValidTables(a) + ValidTables(b)
    decreases |a|
  {
    if |a| == 0 {
      assert a + b == b;
    } else {
      assert (a + b)[0] == a[0] && (a + b)[1..] == a[1..] + b;
      ValidTablesAppend(a[1..], b);
      match ResultParser.ParseJsonResult(a[0])
      case None =>
      case Some(t) =>
        assert [t] + (ValidTables(a[1..]) + ValidTables(b)) == [t] + ValidTables(a[1..]) + ValidTables(b);
    }
  }

  /** All replies parse exactly when every one of them yields a table, and
      none does exactly when no table is left. */
  lemma {:induction false} ValidTablesCount(texts: seq<string>)
    ensures |ValidTables(texts)| == |texts| <==>
      forall i :: 0 <= i < |texts| ==> ResultParser.ParseJsonResult(texts[i]).Some?
    ensures |ValidTables(texts)| == 0 <==>
      forall i :: 0 <= i < |texts| ==> ResultParser.ParseJsonResult(texts[i]).None?
    decreases |texts|
  {
    if |texts| > 0 {
      ValidTablesCount(texts[1..]);
      assert forall i :: 1 <= i < |texts| ==> texts[i] == texts[1..][i - 1];
    }
  }

  /** A table `parseJSONResult` returns holds only well-formed values. */
  lemma ParsedWellFormed(text: string)
    ensures ResultParser.ParseJsonResult(text).Some? ==>
      forall i :: 0 <= i < |ResultParser.ParseJsonResult(text).value| ==> WellFormed(ResultParser.ParseJsonResult(text).value[i])
  {
    match ResultParser.FirstMatch(text)
    case None =>
    case Some((p, e)) => JsonRoundTrip.DecodeWellFormed(text[p..e]);
  }

  lemma {:induction false} ValidTablesWellFormed(texts: seq<string>)
    ensures forall i, k :: 0 <= i < |ValidTables(texts)| && 0 <= k < |ValidTables(texts)[i]| ==>
      WellFormed(ValidTables(texts)[i][k])
    decreases |texts|
  {
    if |texts| > 0 {
      ValidTablesWellFormed(texts[1..]);
      ParsedWellFormed(texts[0]);
    }
  }

  /** The consolidation prompt is the instruction, a blank line, and then
      each valid table in turn, labelled with its number and pretty-printed
      so that it reads back as that table, with a blank line between two
      tables and nothing after the last. */
  lemma PromptCarriesTables(instruction: string, texts: seq<string>)
    ensures var valid := ValidTables(texts);
      var prompt := ConsolidationPrompt(instruction, valid);
      |prompt| >= |instruction| + 2 && prompt[..|instruction| + 2] == instruction + "\n\n"
      && (|valid| == 0 ==> |prompt| == |instruction| + 2)
      && (|valid| > 0 ==>
            BlockStart(instruction, valid, 0) == |instruction| + 2
            && BlockEnd(instruction, valid, |valid| - 1) == |prompt|)
      && (forall i :: 0 <= i < |valid| ==>
            TableAt(prompt, BlockStart(instruction, valid, i), BlockEnd(instruction, valid, i), i, valid[i]))
      && (forall i :: 0 <= i < |valid| - 1 ==>
            BlockStart(instruction, valid, i + 1) == BlockEnd(instruction, valid, i) + 2 <= |prompt|
            && prompt[BlockEnd(instruction, valid, i)..BlockStart(instruction, valid, i + 1)] == "\n\n")
  {
    var valid := ValidTables(texts);
    ValidTablesWellFormed(texts);
    PromptHead(instruction, valid);
    TablesInPrompt(instruction, valid);
    GapsInPrompt(instruction, valid);
  }

  /** The prompt opens with the instruction and a blank line, and the first
      block follows at once. */
  lemma PromptHead(instruction: string, tables: seq<seq<Json>>)
    ensures var prompt := ConsolidationPrompt(instruction, tables);
      |prompt| >= |instruction| + 2 && prompt[..|instruction| + 2] == instruction + "\n\n"
      && (|tables| == 0 ==> |prompt| == |instruction| + 2)
      && (|tables| > 0 ==>
            BlockStart(instruction, tables, 0) == |instruction| + 2
            && BlockEnd(instruction, tables, |tables| - 1) == |prompt|)
  {
    if |tables| > 0 {
      LastBlockEnds(instruction, tables);
    }
  }

  lemma TablesInPrompt(instruction: string, tables: seq<seq<Json>>)
    requires forall i, k :: 0 <= i < |tables| && 0 <= k < |tables[i]| ==> WellFormed(tables[i][k])
    ensures forall i :: 0 <= i < |tables| ==>
      TableAt(ConsolidationPrompt(instruction, tables), BlockStart(instruction, tables, i),
              BlockEnd(instruction, tables, i), i, tables[i])
  {
    forall i | 0 <= i < |tables|
      ensures TableAt(ConsolidationPrompt(instruction, tables), BlockStart(instruction, tables, i),
                      BlockEnd(instruction, tables, i), i, tables[i])
    {
      assert WellFormed(JArr(tables[i]));
      TableInPrompt(instruction, tables, i);
    }
  }

  lemma GapsInPrompt(instruction: string, tables: seq<seq<Json>>)
    ensures var prompt := ConsolidationPrompt(instruction, tables);
      forall i :: 0 <= i < |tables| - 1 ==>
        BlockStart(instruction, tables, i + 1) == BlockEnd(instruction, tables, i) + 2 <= |prompt|
        && prompt[BlockEnd(instruction, tables, i)..BlockStart(instruction, tables, i + 1)] == "\n\n"
  {
    forall i | 0 <= i < |tables| - 1
      ensures var prompt := ConsolidationPrompt(instruction, tables);
        BlockStart(instruction, tables, i + 1) == BlockEnd(instruction, tables, i) + 2 <= |prompt|
        && prompt[BlockEnd(instruction, tables, i)..BlockStart(instruction, tables, i + 1)] == "\n\n"
    {
      GapInPrompt(instruction, tables, i);
    }
  }

  /** Nothing follows the block of the last table. */
  lemma LastBlockEnds(instruction: string, tables: seq<seq<Json>>)
    requires |tables| > 0
    ensures BlockEnd(instruction, tables, |tables| - 1) == |ConsolidationPrompt(instruction, tables)|
  {
    var blocks, k := PromptBlocks(tables), |tables| - 1;
    JoinLast(blocks, "\n\n");
    assert blocks[k] == ResultBlock(k, tables[k]);
    assert |ConsolidationPrompt(instruction, tables)| == |instruction| + 2 + |Join(blocks, "\n\n")|;
  }

  /** The `i`-th well-formed table stands, labelled, at its place in the
      prompt. */
  lemma TableInPrompt(instruction: string, tables: seq<seq<Json>>, i: nat)
    requires i < |tables| && WellFormed(JArr(tables[i]))
    ensures TableAt(ConsolidationPrompt(instruction, tables), BlockStart(instruction, tables, i),
                    BlockEnd(instruction, tables, i), i, tables[i])
  {
    BlockInPrompt(instruction, tables, i);
    TableInBlock(ConsolidationPrompt(instruction, tables), BlockStart(instruction, tables, i),
                 BlockEnd(instruction, tables, i), i, tables[i]);
  }

  /** The text of the `i`-th block stands between its start and its end. */
  lemma BlockInPrompt(instruction: string, tables: seq<seq<Json>>, i: nat)
    requires i < |tables|
    ensures var prompt := ConsolidationPrompt(instruction, tables);
      BlockEnd(instruction, tables, i) <= |prompt|
      && prompt[BlockStart(instruction, tables, i)..BlockEnd(instruction, tables, i)] == ResultBlock(i, tables[i])
  {
    var blocks := PromptBlocks(tables);
    var head, body := instruction + "\n\n", Join(blocks, "\n\n");
    var jo := JoinOffset(blocks, "\n\n", i);
    JoinPart(blocks, "\n\n", i);
    assert blocks[i] == ResultBlock(i, tables[i]);
    PlacedAfterHead(ConsolidationPrompt(instruction, tables), head, body, jo, blocks[i],
                    BlockStart(instruction, tables, i), BlockEnd(instruction, tables, i));
  }

  /** Text placed at `jo` in `body` stands at `|head| + jo` in `head + body`. */
  lemma PlacedAfterHead(prompt: string, head: string, body: string, jo: nat, block: string, o: nat, e: nat)
    requires prompt == head + body && o == |head| + jo && e == o + |block|
    requires jo + |block| <= |body| && body[jo..jo + |block|] == block
    ensures e <= |prompt| && prompt[o..e] == block
  {
    SliceAfter(head, body, jo, jo + |block|);
  }

  /** A labelled, pretty-printed table, wherever it stands, is found there. */
  lemma TableInBlock(prompt: string, o: nat, e: nat, i: nat, table: seq<Json>)
    requires WellFormed(JArr(table))
    requires o <= e <= |prompt| && prompt[o..e] == ResultBlock(i, table)
    ensures TableAt(prompt, o, e, i, table)
  {
    var tag, js := ResultLabel(i), Serialize(JArr(table), "  ", "");
    assert prompt[o..e] == tag + js;
    assert prompt[o..o + |tag|] == (tag + js)[..|tag|];
    assert prompt[o + |tag|..e] == (tag + js)[|tag|..];
    JsonRoundTrip.DecodeSerialize(JArr(table), "  ");
  }

  /** A blank line separates the blocks of tables `i` and `i + 1`. */
  lemma GapInPrompt(instruction: string, tables: seq<seq<Json>>, i: nat)
    requires i + 1 < |tables|
    ensures var prompt := ConsolidationPrompt(instruction, tables);
      BlockStart(instruction, tables, i + 1) == BlockEnd(instruction, tables, i) + 2 <= |prompt|
      && prompt[BlockEnd(instruction, tables, i)..BlockStart(instruction, tables, i + 1)] == "\n\n"
  {
    var blocks := PromptBlocks(tables);
    var head, body := instruction + "\n\n", Join(blocks, "\n\n");
    var je := JoinOffset(blocks, "\n\n", i) + |blocks[i]|;
    assert blocks[i] == ResultBlock(i, tables[i]);
    JoinOffsetStep(blocks, "\n\n", i);
    JoinGap(blocks, "\n\n", i);
    SliceAfter(head, body, je, je + 2);
  }

  // ---------------------------------------------------------------- progress

  /** The `c`-th completion reports between 10 and 70 percent, 70 exactly
      when it is the last one, and later completions never report less. */
  lemma CountPercent(c: nat, d: nat, n: nat)
    requires 1 <= c <= d <= n
    ensures 10 <= CountEvent(c, n).percent <= 70
    ensures CountEvent(c, n).percent == 70 <==> c == n
    ensures CountEvent(c, n).percent <= CountEvent(d, n).percent
  {
    ScaledQuotient(c, d, n);
  }

  /** `(60 * c) / n` grows with `c` and reaches 60 only at `c == n`. */
  lemma ScaledQuotient(c: nat, d: nat, n: nat)
    requires 1 <= c <= d <= n
    ensures 10 <= CompletionPercent(c, n) <= CompletionPercent(d, n) <= 70
    ensures CompletionPercent(c, n) == 70 <==> c == n
  {
    var x, y, z := 60 * c, 60 * d, 60 * n;
    assert x <= y <= z;
    DivMonotone(x, y, n);
    DivMonotone(y, z, n);
    MultipleDiv(60, n);
    if c < n {
      DivBelow(x, 60, n);
    }
  }

  lemma {:induction false} MulMonotone(n: nat, x: nat, y: nat)
    ensures x <= y ==> n * x <= n * y
    decreases y
  {
    if x < y {
      MulMonotone(n, x, y - 1);
      assert n * y == n * (y - 1) + n;
    }
  }

  lemma DivMonotone(a: nat, b: nat, n: nat)
    requires a <= b && n > 0
    ensures a / n <= b / n
  {
    var qa, qb := a / n, b / n;
    MulMonotone(n, qb + 1, qa);
    assert n * (qb + 1) == n * qb + n;
  }

  lemma MultipleDiv(q: nat, n: nat)
    requires n > 0
    ensures (q * n) / n == q
  {
    var r := (q * n) / n;
    MulMonotone(n, r + 1, q);
    MulMonotone(n, q + 1, r);
    assert n * (r + 1) == n * r + n;
    assert n * (q + 1) == n * q + n;
  }

  lemma DivBelow(a: nat, q: nat, n: nat)
    requires n > 0 && a < q * n
    ensures a / n < q
  {
    MulMonotone(n, q, a / n);
  }

  /** Every event is a progress report. */
  predicate Reporting(evs: seq<Event>)
  {
    forall i :: 0 <= i < |evs| ==> evs[i].Progress?
  }

  /** The progress reports never go back. */
  predicate Rising(evs: seq<Event>)
  {
    forall i, j :: 0 <= i < j < |evs| && evs[i].Progress? && evs[j].Progress? ==> evs[i].percent <= evs[j].percent
  }

  /** Every progress report lies between `lo` and `hi` percent. */
  predicate Within(evs: seq<Event>, lo: nat, hi: nat)
  {
    forall i :: 0 <= i < |evs| && evs[i].Progress? ==> lo <= evs[i].percent <= hi
  }

  /** A stream ends with exactly one error or result. */
  predicate Terminated(evs: seq<Event>)
  {
    |evs| > 0 && Reporting(evs[..|evs| - 1]) && !Last(evs).Progress?
  }

  lemma Chain(a: seq<Event>, b: seq<Event>, lo: nat, mid: nat, hi: nat)
    requires lo <= mid <= hi
    requires Rising(a) && Within(a, lo, mid) && Rising(b) && Within(b, mid, hi)
    ensures Rising(a + b) && Within(a + b, lo, hi)
  {
    var ab := a + b;
    forall i | 0 <= i < |ab| && ab[i].Progress?
      ensures lo <= ab[i].percent <= hi
    {
      if i < |a| {
        assert ab[i] == a[i];
      } else {
        assert ab[i] == b[i - |a|];
      }
    }
    forall i, j | 0 <= i < j < |ab| && ab[i].Progress? && ab[j].Progress?
      ensures ab[i].percent <= ab[j].percent
    {
      if j < |a| {
        assert ab[i] == a[i] && ab[j] == a[j];
      } else if i >= |a| {
        assert ab[i] == b[i - |a|] && ab[j] == b[j - |a|];
      } else {
        assert ab[i] == a[i] && ab[j] == b[j - |a|];
      }
    }
  }

  lemma ReportingThenEnd(a: seq<Event>, b: seq<Event>)
    requires Reporting(a) && Terminated(b)
    ensures Terminated(a + b) && Last(a + b) == Last(b)
  {
    assert (a + b)[..|a + b| - 1] == a + b[..|b| - 1];
  }

  lemma CountsRise(k: nat, n: nat)
    requires 0 < n && k <= n
    ensures Reporting(Counts(k, n)) && Rising(Counts(k, n)) && Within(Counts(k, n), 10, 70)
  {
    var cs := Counts(k, n);
    forall i | 0 <= i < k
      ensures 10 <= cs[i].percent <= 70
    {
      CountPercent(i + 1, i + 1, n);
    }
    forall i, j | 0 <= i < j < k
      ensures cs[i].percent <= cs[j].percent
    {
      CountPercent(i + 1, j + 1, n);
    }
  }

  lemma DecisionShape(n: nat, instruction: string, valid: seq<seq<Json>>, consolidate: string -> Reply, centis: nat)
    ensures var d := Decision(n, instruction, valid, consolidate, centis);
      Terminated(d) && Rising(d) && Within(d, 80, 95)
  {
    var d := Decision(n, instruction, valid, consolidate, centis);
    if |valid| >= 2 {
      var reply := consolidate(ConsolidationPrompt(instruction, valid));
      if reply.Content? {
        assert |d| == 3;
      }
    }
  }

  /** The shape of every stream: the two opening reports, progress that only
      rises and stays within 5..95 percent, and exactly one error or result,
      which is the last event. */
  lemma StreamShape(n: nat, config: Config, outcomes: seq<Outcome>, consolidate: string -> Reply, centis: nat)
    requires n > 0 && Settlements(outcomes, n)
    ensures var evs := StreamEvents(n, config, outcomes, consolidate, centis);
      |evs| >= 3 && evs[..2] == Opening(n) && Terminated(evs) && Rising(evs) && Within(evs, 5, 95)
  {
    match FirstFailure(outcomes)
    case Some(f) =>
      CountsRise(f, n);
      Assemble(n, Counts(f, n), [Failure(InternalError, ErrorMessage(outcomes[f].message))]);
    case None =>
      var valid := ValidTables(Texts(outcomes, n));
      var cs := Counts(|outcomes|, n);
      var close := Closing(n, |valid|);
      var d := Decision(n, config.decisionInstruction, valid, consolidate, centis);
      CountsRise(|outcomes|, n);
      DecisionShape(n, config.decisionInstruction, valid, consolidate, centis);
      Chain(cs, close, 10, 70, 75);
      assert Reporting(cs + close);
      assert Opening(n) + cs + close + d == Opening(n) + (cs + close) + d;
      Assemble(n, cs + close, d);
  }

  /** The opening reports, then reports between 10 and 75 percent, then an
      end between 75 and 95 percent make a well-shaped stream. */
  lemma Assemble(n: nat, middle: seq<Event>, end: seq<Event>)
    requires Reporting(middle) && Rising(middle) && Within(middle, 10, 75)
    requires Terminated(end) && Rising(end) && Within(end, 75, 95)
    ensures var evs := Opening(n) + middle + end;
      |evs| >= 3 && evs[..2] == Opening(n) && Terminated(evs) && Rising(evs) && Within(evs, 5, 95)
  {
    var open := Opening(n);
    assert Rising(open) && Within(open, 5, 10) && Reporting(open);
    Chain(open, middle, 5, 10, 75);
    Chain(open + middle, end, 5, 75, 95);
    assert Reporting(open + middle);
    ReportingThenEnd(open + middle, end);
    assert (open + middle + end)[..2] == open;
  }

  // ---------------------------------------------------------------- how a stream ends

  /** The last event of the decision part is the last event of the stream. */
  lemma DecisionLast(n: nat, config: Config, outcomes: seq<Outcome>, consolidate: string -> Reply, centis: nat)
    requires n > 0 && Settlements(outcomes, n) && FirstFailure(outcomes).None?
    ensures var valid := ValidTables(Texts(outcomes, n));
      var d := Decision(n, config.decisionInstruction, valid, consolidate, centis);
      |d| > 0 && Last(StreamEvents(n, config, outcomes, consolidate, centis)) == Last(d)
  {
    var valid := ValidTables(Texts(outcomes, n));
    DecisionShape(n, config.decisionInstruction, valid, consolidate, centis);
  }

  /** When a worker fails, the stream stops at that failure: the completions
      before it were reported, the error carries the worker's message, and
      the consolidation model is not asked. */
  lemma WorkerFailureMeans(n: nat, config: Config, outcomes: seq<Outcome>, consolidate: string -> Reply, centis: nat)
    requires n > 0 && Settlements(outcomes, n)
    ensures var evs := StreamEvents(n, config, outcomes, consolidate, centis);
      FirstFailure(outcomes).Some? ==>
        var f := FirstFailure(outcomes).value;
        |evs| == f + 3 && Last(evs) == Failure(InternalError, ErrorMessage(outcomes[f].message))
        && !Consolidates(n, outcomes) && |CallsMade(n, config, outcomes)| == n
  {
  }

  /** A result is sent only when every worker completed; its metadata reports
      the concurrency used and the number of usable tables, and its items are
      the single table or the table read from the consolidation reply. */
  lemma SuccessMeans(n: nat, config: Config, outcomes: seq<Outcome>, consolidate: string -> Reply, centis: nat)
    requires n > 0 && Settlements(outcomes, n)
    ensures var evs := StreamEvents(n, config, outcomes, consolidate, centis);
      |evs| > 0 && (Last(evs).Success? ==>
        var valid := ValidTables(Texts(outcomes, n));
        var reply := consolidate(ConsolidationPrompt(config.decisionInstruction, valid));
        FirstFailure(outcomes).None? && |valid| >= 1 && |Last(evs).items| > 0
        && Last(evs).metadata == Metadata(n, |valid|, centis)
        && (|valid| == 1 ==> Last(evs).items == valid[0])
        && (|valid| >= 2 ==> reply.Content? && ResultParser.ParseJsonResult(reply.text) == Some(Last(evs).items)))
  {
    if FirstFailure(outcomes).None? {
      DecisionLast(n, config, outcomes, consolidate, centis);
    }
  }

  /** `NO_VALID_RESULTS` ends the stream exactly when all workers completed
      and no reply held a table. */
  lemma NoValidResultsMeans(n: nat, config: Config, outcomes: seq<Outcome>, consolidate: string -> Reply, centis: nat)
    requires n > 0 && Settlements(outcomes, n)
    ensures var evs := StreamEvents(n, config, outcomes, consolidate, centis);
      |evs| > 0 && (Last(evs) == NoValidResults <==>
        FirstFailure(outcomes).None? && |ValidTables(Texts(outcomes, n))| == 0)
  {
    if FirstFailure(outcomes).None? {
      DecisionLast(n, config, outcomes, consolidate, centis);
    }
  }

  /** `CONSOLIDATION_FAILED` ends the stream exactly when the consolidation
      model was asked and its reply held no table. */
  lemma ConsolidationFailedMeans(n: nat, config: Config, outcomes: seq<Outcome>, consolidate: string -> Reply, centis: nat)
    requires n > 0 && Settlements(outcomes, n)
    ensures var evs := StreamEvents(n, config, outcomes, consolidate, centis);
      var reply := consolidate(ConsolidationPrompt(config.decisionInstruction, ValidTables(Texts(outcomes, n))));
      |evs| > 0 && (Last(evs) == ConsolidationFailed <==>
        Consolidates(n, outcomes)
        && (reply.NoContent? || (reply.Content? && ResultParser.ParseJsonResult(reply.text).None?)))
  {
    if FirstFailure(outcomes).None? {
      DecisionLast(n, config, outcomes, consolidate, centis);
    }
  }

  /** The consolidation model is called exactly when the stream reports the
      80% step. */
  lemma ConsolidationReported(n: nat, config: Config, outcomes: seq<Outcome>, consolidate: string -> Reply, centis: nat)
    requires n > 0 && Settlements(outcomes, n)
    ensures var evs := StreamEvents(n, config, outcomes, consolidate, centis);
      Consolidates(n, outcomes) <==> exists i :: 0 <= i < |evs| && evs[i].Progress? && evs[i].percent == 80
  {
    var open := Opening(n);
    assert Rising(open) && Within(open, 5, 10);
    match FirstFailure(outcomes)
    case Some(f) =>
      CountsRise(f, n);
      Chain(open, Counts(f, n), 5, 10, 70);
      NoEighty(open + Counts(f, n), [Failure(InternalError, ErrorMessage(outcomes[f].message))]);
    case None =>
      var valid := ValidTables(Texts(outcomes, n));
      var d := Decision(n, config.decisionInstruction, valid, consolidate, centis);
      CountsRise(|outcomes|, n);
      Chain(open, Counts(|outcomes|, n), 5, 10, 70);
      Chain(open + Counts(|outcomes|, n), Closing(n, |valid|), 5, 70, 75);
      var prefix := open + Counts(|outcomes|, n) + Closing(n, |valid|);
      assert StreamEvents(n, config, outcomes, consolidate, centis) == prefix + d;
      NoEighty(prefix, d);
      DecisionEighty(n, config.decisionInstruction, valid, consolidate, centis);
  }

  /** Reports below 80 percent followed by `b`: 80 percent is reported exactly
      when `b` reports it. */
  lemma NoEighty(a: seq<Event>, b: seq<Event>)
    requires Within(a, 5, 75)
    ensures (exists i :: 0 <= i < |a + b| && (a + b)[i].Progress? && (a + b)[i].percent == 80)
      <==> (exists i :: 0 <= i < |b| && b[i].Progress? && b[i].percent == 80)
  {
    var ab := a + b;
    forall i | 0 <= i < |ab| && ab[i].Progress? && ab[i].percent == 80
      ensures i >= |a| && b[i - |a|] == ab[i]
    {
    }
    forall i | 0 <= i < |b| && b[i].Progress? && b[i].percent == 80
      ensures ab[|a| + i] == b[i]
    {
    }
  }

  /** The end of the stream reports 80 percent exactly when there are two or
      more tables to consolidate. */
  lemma DecisionEighty(n: nat, instruction: string, valid: seq<seq<Json>>, consolidate: string -> Reply, centis: nat)
    ensures var d := Decision(n, instruction, valid, consolidate, centis);
      |valid| >= 2 <==> exists i :: 0 <= i < |d| && d[i].Progress? && d[i].percent == 80
  {
    var d := Decision(n, instruction, valid, consolidate, centis);
    if |valid| >= 2 {
      assert d[0] == Progress(80, "正在整合多个识别结果...");
    } else if |valid| == 1 {
      assert d == [Progress(90, "准备返回识别结果..."), Success(valid[0], Metadata(n, 1, centis))];
    }
  }

  /** Every event of the stream is well formed, so each one is a single line
      that reads back. */
  lemma StreamWellFormed(n: nat, config: Config, outcomes: seq<Outcome>, consolidate: string -> Reply, centis: nat)
    requires n > 0 && Settlements(outcomes, n)
    ensures var evs := StreamEvents(n, config, outcomes, consolidate, centis);
      forall i :: 0 <= i < |evs| ==> EventWellFormed(evs[i])
  {
    var evs := StreamEvents(n, config, outcomes, consolidate, centis);
    SuccessMeans(n, config, outcomes, consolidate, centis);
    StreamShape(n, config, outcomes, consolidate, centis);
    var valid := ValidTables(Texts(outcomes, n));
    ValidTablesWellFormed(Texts(outcomes, n));
    var reply := consolidate(ConsolidationPrompt(config.decisionInstruction, valid));
    if reply.Content? {
      ParsedWellFormed(reply.text);
    }
    SuccessWellFormed(Last(evs), valid, reply);
    TerminatedWellFormed(evs);
  }

  /** A result carries either the one valid table or what the consolidation
      reply parsed to, and both are well formed. */
  lemma SuccessWellFormed(last: Event, valid: seq<seq<Json>>, reply: Reply)
    requires forall i, k :: 0 <= i < |valid| && 0 <= k < |valid[i]| ==> WellFormed(valid[i][k])
    requires reply.Content? && ResultParser.ParseJsonResult(reply.text).Some? ==>
      forall k :: 0 <= k < |ResultParser.ParseJsonResult(reply.text).value| ==> WellFormed(ResultParser.ParseJsonResult(reply.text).value[k])
    requires last.Success? ==>
      |valid| >= 1
      && (|valid| == 1 ==> last.items == valid[0])
      && (|valid| >= 2 ==> reply.Content? && ResultParser.ParseJsonResult(reply.text) == Some(last.items))
    ensures EventWellFormed(last)
  {
  }

  /** Progress reports and errors carry no tables, so a stream whose last
      event is well formed is well formed throughout. */
  lemma TerminatedWellFormed(evs: seq<Event>)
    requires Terminated(evs) && EventWellFormed(Last(evs))
    ensures forall i :: 0 <= i < |evs| ==> EventWellFormed(evs[i])
  {
    forall i | 0 <= i < |evs|
      ensures EventWellFormed(evs[i])
    {
      if i < |evs| - 1 {
        assert evs[i] == evs[..|evs| - 1][i];
      }
    }
  }
}
