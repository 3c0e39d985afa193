/**
 The attempt loop and the reading of the reply: app/llm/openrouter_qwen.py, lines 381 to 385 and 436 to 633.

 What each POST would come back with is an input. A body is either JSON or not; the delay before the second
 attempt, logging and the pieces of metadata that only go to the log are not modelled.
 */
module Gateway {
  import opened Text

  datatype Json =
    | JNull
    | JBool(b: bool)
    | JNumber(literal: string)
    | JString(s: string)
    | JList(items: seq<Json>)
    | JObject(fields: map<string, Json>)

  /** dict.get(key): null and absent are the same */
  function Get(j: Json, key: string): Json {
    if j.JObject? && key in j.fields then j.fields[key] else JNull
  }

  datatype Reply = Reply(status: int, text: string, body: Option<Json>)

  datatype Outcome = Response(reply: Reply) | TimedOut | RequestFailed | OtherFailure

  datatype Stage =
    | HttpStage | TimeoutStage | TokenLimit | Network | EmptyResponse | ContentExtraction | JsonParse
    | StructuredOutput | InternalRuntime

  datatype Result = Parsed(fields: map<string, Json>) | Failed(stage: Stage, httpStatus: int)

  /** What json.loads accepts, and what str() gives for a JSON value that is not a text. */
  datatype Environment = Environment(
    unicode: Unicode, loads: string -> Option<Json>, show: Json -> string, structuredOutput: bool)

  // ---------- reading a body ----------

  /** choices[0], JNull when it is not an object */
  function Choice(body: Json): Json {
    var choices := Get(body, "choices");
    if choices.JList? && choices.items != [] && choices.items[0].JObject? then choices.items[0] else JNull
  }

  function Content(body: Json): Json {
    Get(Get(Choice(body), "message"), "content")
  }

  predicate NotBlank(e: Environment, content: Json) {
    content.JString? && Strip(e.unicode, content.s) != ""
  }

  predicate HasContent(e: Environment, body: Json) {
    NotBlank(e, Content(body))
  }

  function ReasonText(e: Environment, value: Json): string {
    Lower(e.unicode, Strip(e.unicode, if value.JString? then value.s else if value.JNull? then "" else e.show(value)))
  }

  predicate IsLimit(reason: string) {
    reason == "length" || reason == "max_tokens" || reason == "max_token" || reason == "token_limit"
  }

  /** _is_token_limit */
  predicate TokenLimited(e: Environment, body: Json) {
    || IsLimit(ReasonText(e, Get(Choice(body), "finish_reason")))
    || IsLimit(ReasonText(e, Get(Choice(body), "native_finish_reason")))
  }

  /** Position of the last "```", |s| when there is none. */
  function LastFence(s: string, i: nat): (k: nat)
    requires i <= |s|
    ensures k <= |s|
    decreases i
  {
    if At(s, i, "```") then i else if i == 0 then |s| else LastFence(s, i - 1)
  }

  function FirstLineEnd(s: string, i: nat): (k: nat)
    requires i <= |s|
    ensures k <= |s|
    decreases |s| - i
  {
    if i == |s| || s[i] == '\n' then i else FirstLineEnd(s, i + 1)
  }

  /** The text between Markdown fences, or the stripped text when it does not start with one. */
  function Unfenced(u: Unicode, raw: string): string {
    var content := Strip(u, raw);
    if !StartsWith(content, "```") then content
    else
      var k := FirstLineEnd(content, 0);
      var body := if k < |content| then content[k + 1..] else content;
      Strip(u, body[..LastFence(body, |body|)])
  }

  // ---------- the outcome of one reply ----------

  function ErrorStatus(status: int): int {
    if status == 401 || status == 403 then 401
    else if status == 402 then 402
    else if status == 429 then 429
    else if status >= 500 then 502
    else status
  }

  predicate SaysTokenLimit(e: Environment, text: string) {
    ContainsAny(Lower(e.unicode, text), ["max_tokens", "token limit", "context length", "token quota"])
  }

  function ErrorStage(e: Environment, r: Reply): Stage {
    if r.status == 400 && SaysTokenLimit(e, r.text) then TokenLimit
    else if r.status == 400 && e.structuredOutput then StructuredOutput
    else HttpStage
  }

  predicate RetryStatus(status: int) {
    status == 429 || status >= 500
  }

  /** Outcomes of a first attempt that are tried again. */
  predicate Retryable(e: Environment, o: Outcome) {
    match o
    case TimedOut => true
    case RequestFailed => true
    case OtherFailure => false
    case Response(r) => RetryStatus(r.status) || (r.status < 400 && r.body.Some? && !HasContent(e, r.body.value))
  }

  /** A reply that carries an answer. */
  predicate Answers(e: Environment, o: Outcome) {
    && o.Response? && o.reply.status < 400 && o.reply.body.Some?
    && HasContent(e, o.reply.body.value) && !TokenLimited(e, o.reply.body.value)
    && var parsed := e.loads(Unfenced(e.unicode, Content(o.reply.body.value).s)); parsed.Some? && parsed.value.JObject?
  }

  // ---------- the machine ----------

  /** request_context: what the gateway leaves behind for its caller. */
  class Context {
    var attemptCount: nat
    var rawResponsePresent: bool
    var contentPresent: bool
    var failureCategory: Option<string>
    var validationStage: string
    var rawResponse: Option<string>
    var rawContent: Option<string>

    constructor ()
    {
      attemptCount, rawResponsePresent, contentPresent := 0, false, false;
      failureCategory, validationStage, rawResponse, rawContent := None, "", None, None;
    }
  }

  /** The attempt that decides: the second one exactly when the first is tried again. */
  function Deciding(e: Environment, first: Outcome, second: Outcome): Outcome {
    if Retryable(e, first) then second else first
  }

  /** A first reply whose blank content is tried again; its text is kept. */
  predicate BlankFirst(e: Environment, o: Outcome) {
    o.Response? && o.reply.status < 400 && o.reply.body.Some? && !HasContent(e, o.reply.body.value)
  }

  /** The category a deciding outcome leaves behind; None where it leaves what was there. */
  function Category(e: Environment, o: Outcome): Option<string> {
    match o
    case TimedOut => Some("TIMEOUT")
    case RequestFailed => Some("NETWORK")
    case OtherFailure => Some("INTERNAL_RUNTIME")
    case Response(r) =>
      if r.status >= 400 then Some("http")
      else if r.body.None? then Some("JSON_PARSE")
      else if !r.body.value.JObject? then Some("CONTENT_EXTRACTION")
      else if !Choice(r.body.value).JObject? then Some("empty_choices")
      else if !Get(Choice(r.body.value), "message").JObject? then Some("missing_message")
      else if !HasContent(e, r.body.value) then Some("EMPTY_RESPONSE")
      else if Answers(e, o) then Some("none")
      else None
  }

  /** How far the deciding outcome got. */
  function StageReached(e: Environment, o: Outcome): string {
    if o.OtherFailure? then "runtime" else if Answers(e, o) then "json" else if Carries(e, o) then "content" else "transport"
  }

  /** The text that an error reply or a reply that is not JSON leaves behind. */
  function KeptText(o: Outcome): Option<string> {
    if o.Response? && (o.reply.status >= 400 || o.reply.body.None?) then Some(o.reply.text) else None
  }

  function Or<T>(a: Option<T>, b: Option<T>): Option<T> {
    if a.Some? then a else b
  }

  /**
   _generate_json_on_owner_loop from its first POST on: `first` and `second` are what the two POSTs would return.
   */
  method GenerateJson(e: Environment, first: Outcome, second: Outcome,
      context: Context) returns (result: Result, posts: nat)
    modifies context
    ensures posts == if Retryable(e, first) then 2 else 1
    ensures Concludes(e, Deciding(e, first, second), result)
    ensures context.attemptCount == posts
    ensures context.validationStage == StageReached(e, Deciding(e, first, second))
    ensures context.failureCategory == Or(Category(e, Deciding(e, first, second)),
      if BlankFirst(e, first) then Some("EMPTY_RESPONSE") else old(context.failureCategory))
    ensures context.rawResponse == Or(KeptText(Deciding(e, first, second)),
      if BlankFirst(e, first) then Some(first.reply.text) else old(context.rawResponse))
    ensures context.rawResponsePresent <==>
      Deciding(e, first, second).Response? || (BlankFirst(e, first) && !Deciding(e, first, second).OtherFailure?)
    ensures context.contentPresent <==> Carries(e, Deciding(e, first, second))
    ensures context.rawContent ==
      if Carries(e, Deciding(e, first, second)) then Some(Content(Deciding(e, first, second).reply.body.value).s)
      else old(context.rawContent)
  {
    hide Unfenced, Strip, TokenLimited, ErrorStage, Content, LastFence;
    posts := 0;
    context.attemptCount, context.rawResponsePresent, context.contentPresent := 0, false, false;
    context.validationStage := "transport";
    var response: Option<Reply> := None;
    for attempt := 0 to 2
      invariant attempt < 2 && posts == attempt
      invariant attempt == 1 ==> Retryable(e, first)
      invariant !context.contentPresent && context.validationStage == "transport"
      invariant context.rawContent == old(context.rawContent)
      invariant attempt == 0 ==> !context.rawResponsePresent
      invariant attempt == 1 ==> (context.rawResponsePresent <==> BlankFirst(e, first))
      invariant context.failureCategory
             == if attempt == 1 && BlankFirst(e, first) then Some("EMPTY_RESPONSE") else old(context.failureCategory)
      invariant context.rawResponse
             == if attempt == 1 && BlankFirst(e, first) then Some(first.reply.text) else old(context.rawResponse)
    {
      context.attemptCount := attempt + 1;
      posts := posts + 1;
      var outcome := if attempt == 0 then first else second;
      match outcome {
        case TimedOut =>
          if attempt == 0 { continue; }
          context.failureCategory := Some("TIMEOUT");
          return Failed(TimeoutStage, 504), posts;
        case RequestFailed =>
          if attempt == 0 { continue; }
          context.failureCategory := Some("NETWORK");
          return Failed(Network, 502), posts;
        case OtherFailure =>
          context.failureCategory, context.validationStage := Some("INTERNAL_RUNTIME"), "runtime";
          context.rawResponsePresent := false;
          return Failed(InternalRuntime, 502), posts;
        case Response(r) =>
          response := Some(r);
          if RetryStatus(r.status) {
            if attempt == 0 { continue; }
          }
          if r.status < 400 && attempt == 0 {
            if r.body.Some? && !HasContent(e, r.body.value) {
              context.rawResponse, context.rawResponsePresent := Some(r.text), true;
              context.failureCategory := Some("EMPTY_RESPONSE");
              continue;
            }
          }
      }
      break;
    }
    assert response.Some?;
    result := ReadReply(e, response.value, context);
  }

  lemma NoMembers(j: Json, key: string)
    requires !j.JObject?
    ensures Get(j, key) == JNull
  {}

  /** The reply after the loop: an error status, or the answer out of the envelope. */
  method ReadReply(e: Environment, r: Reply, context: Context) returns (result: Result)
    requires !context.contentPresent && context.validationStage == "transport"
    modifies context
    ensures Concludes(e, Response(r), result)
    ensures context.attemptCount == old(context.attemptCount)
    ensures context.validationStage == StageReached(e, Response(r)) && context.rawResponsePresent
    ensures context.failureCategory == Or(Category(e, Response(r)), old(context.failureCategory))
    ensures context.rawResponse == Or(KeptText(Response(r)), old(context.rawResponse))
    ensures context.contentPresent <==> Carries(e, Response(r))
    ensures context.rawContent == if Carries(e, Response(r)) then Some(Content(r.body.value).s) else old(context.rawContent)
  {
    hide Unfenced, Strip, TokenLimited, SaysTokenLimit, LastFence, Get;
    context.rawResponsePresent := true;
    if r.status >= 400 {
      context.rawResponse, context.failureCategory := Some(r.text), Some("http");
      return Failed(ErrorStage(e, r), ErrorStatus(r.status));
    }
    if r.body.None? {
      context.rawResponse, context.failureCategory := Some(r.text), Some("JSON_PARSE");
      return Failed(JsonParse, 502);
    }
    var data := r.body.value;
    if !data.JObject? {
      NoMembers(data, "choices");
      NoMembers(JNull, "message");
      NoMembers(JNull, "content");
      context.failureCategory := Some("CONTENT_EXTRACTION");
      return Failed(ContentExtraction, 502);
    }
    var choices := Get(data, "choices");
    if !choices.JList? || choices.items == [] || !choices.items[0].JObject? {
      NoMembers(JNull, "message");
      NoMembers(JNull, "content");
      context.failureCategory := Some("empty_choices");
      return Failed(ContentExtraction, 502);
    }
    var message := Get(choices.items[0], "message");
    if !message.JObject? {
      NoMembers(message, "content");
      context.failureCategory := Some("missing_message");
      return Failed(ContentExtraction, 502);
    }
    var raw := Get(message, "content");
    if !raw.JString? || Strip(e.unicode, raw.s) == "" {
      context.failureCategory := Some("EMPTY_RESPONSE");
      return Failed(EmptyResponse, 502);
    }
    context.rawContent := Some(raw.s);
    context.contentPresent, context.validationStage := true, "content";
    if TokenLimited(e, data) {
      return Failed(TokenLimit, 502);
    }
    var parsed := e.loads(Unfenced(e.unicode, raw.s));
    if parsed.None? || !parsed.value.JObject? {
      return Failed(JsonParse, 502);
    }
    context.validationStage, context.failureCategory := "json", Some("none");
    result := Parsed(parsed.value.fields);
  }

  // ---------- what a run concludes ----------

  /** The reply is below 400 and has content that is not blank. */
  predicate Carries(e: Environment, o: Outcome) {
    o.Response? && o.reply.status < 400 && o.reply.body.Some? && HasContent(e, o.reply.body.value)
  }

  predicate Enveloped(body: Json) {
    body.JObject? && Choice(body).JObject? && Get(Choice(body), "message").JObject?
  }

  /** The result that the deciding outcome asks for: an object for an answer, else one error of a fixed stage. */
  ghost predicate Concludes(e: Environment, o: Outcome, result: Result) {
    && (result.Parsed? <==> Answers(e, o))
    && (Answers(e, o) ==>
          e.loads(Unfenced(e.unicode, Content(o.reply.body.value).s)) == Some(JObject(result.fields)))
    && (result.Failed? ==>
          && (result.stage == TimeoutStage <==> o.TimedOut?)
          && (result.stage == Network <==> o.RequestFailed?)
          && (result.stage == InternalRuntime <==> o.OtherFailure?)
          && (!o.Response? ==> result.httpStatus == if o.TimedOut? then 504 else 502)
          && (o.Response? ==> ReplyStage(e, o.reply, result)))
  }

  ghost predicate ReplyStage(e: Environment, r: Reply, result: Result)
    requires result.Failed?
  {
    if r.status >= 400 then result == Failed(ErrorStage(e, r), ErrorStatus(r.status))
    else
      && result.httpStatus == 502
      && (result.stage == ContentExtraction <==> r.body.Some? && !Enveloped(r.body.value))
      && (result.stage == EmptyResponse <==> r.body.Some? && Enveloped(r.body.value) && !HasContent(e, r.body.value))
      && (result.stage == TokenLimit <==> r.body.Some? && HasContent(e, r.body.value) && TokenLimited(e, r.body.value))
      && (result.stage == JsonParse <==>
            r.body.None? || (HasContent(e, r.body.value) && !TokenLimited(e, r.body.value)))
  }

  /** What a run concludes is determined: two results for the same outcome are the same. */
  lemma OneConclusion(e: Environment, o: Outcome, a: Result, b: Result)
    requires Concludes(e, o, a) && Concludes(e, o, b)
    ensures a == b
  {
    hide Unfenced, TokenLimited, ErrorStage, HasContent, Choice;
    if a.Failed? && o.Response? { OneStage(e, o.reply, a, b); }
  }

  lemma OneStage(e: Environment, r: Reply, a: Result, b: Result)
    requires a.Failed? && b.Failed? && ReplyStage(e, r, a) && ReplyStage(e, r, b)
    ensures a == b
  {
    hide TokenLimited, ErrorStage, Content, Choice;
    ContentNeedsEnvelope(e, r);
  }

  lemma ContentNeedsEnvelope(e: Environment, r: Reply)
    ensures r.body.Some? && HasContent(e, r.body.value) ==> Enveloped(r.body.value)
  {}

  /**
   Blank content reaches the caller only when two attempts in a row ended without an answer to read; a first
   reply that is not JSON, or is a 4xx other than 429, ends the run at once.
   */
  lemma EmptyOnlyAfterRetry(e: Environment, first: Outcome, second: Outcome, result: Result)
    requires Concludes(e, Deciding(e, first, second), result)
    requires result.Failed? && (result.stage == EmptyResponse || result.stage == ContentExtraction)
    ensures Retryable(e, first)
    ensures second.Response? && second.reply.status < 400 && !Carries(e, second)
  {
    hide Unfenced, TokenLimited, HasContent, Choice;
    var o := Deciding(e, first, second);
    assert o.Response?;
    NotAnErrorStage(e, o.reply);
    ContentNeedsEnvelope(e, o.reply);
  }

  lemma NotAnErrorStage(e: Environment, r: Reply)
    ensures ErrorStage(e, r) != EmptyResponse && ErrorStage(e, r) != ContentExtraction
  {}

  // ---------- fences ----------

  /** A body in Markdown fences, whatever it contains and whatever language is named, is read as that body. */
  lemma FencesRemoved(u: Unicode, language: string, body: string)
    requires !u.space('`') && '\n' !in language
    ensures Unfenced(u, "```" + language + "\n" + body + "```") == Strip(u, body)
  {
    hide LastFence, FirstLineEnd;
    var opening := "```" + language;
    var raw := opening + "\n" + body + "```";
    assert raw == "```" + language + "\n" + body + "```";
    assert raw[0] == '`' && raw[|raw| - 1] == '`';
    assert Strip(u, raw) == raw by { NotStripped(u, raw); }
    assert StartsWith(raw, "```") by { assert raw[..3] == "```"; }
    FirstLine(opening, "\n" + body + "```", 0);
    assert raw == opening + ("\n" + body + "```");
    assert raw[|opening| + 1..] == body + "```";
    LastFenceAt(body, |body| + 3);
    assert (body + "```")[..|body|] == body;
  }

  lemma NotStripped(u: Unicode, s: string)
    requires s != "" && !u.space(s[0]) && !u.space(s[|s| - 1])
    ensures Strip(u, s) == s
  {}

  lemma {:induction false} FirstLine(line: string, rest: string, i: nat)
    requires i <= |line| && '\n' !in line && rest != "" && rest[0] == '\n'
    ensures FirstLineEnd(line + rest, i) == |line|
    decreases |line| - i
  {
    if i < |line| {
      assert (line + rest)[i] == line[i] && line[i] in line;
      FirstLine(line, rest, i + 1);
    }
  }

  lemma {:induction false} LastFenceAt(body: string, i: nat)
    requires |body| <= i <= |body| + 3
    ensures LastFence(body + "```", i) == |body|
    decreases i
  {
    var s := body + "```";
    if i == |body| {
      assert s[i..i + 3] == "```";
    } else {
      LastFenceAt(body, i - 1);
    }
  }
}
