/** What an exchange with the provider comes to, said of the bytes of the reply: statuses, members of the body, words. */
module GatewayLaws {
  import opened Text
  import opened Gateway

  // ---------- the members of a body ----------

  ghost predicate Member(j: Json, key: string, value: Json) {
    j.JObject? && key in j.fields && j.fields[key] == value
  }

  /** The first choice of the body is this object. */
  ghost predicate FirstChoice(body: Json, choice: Json) {
    choice.JObject? && exists rest :: Member(body, "choices", JList([choice] + rest))
  }

  /** The message of the first choice has this content. */
  ghost predicate Says(body: Json, content: string) {
    exists choice, message ::
      FirstChoice(body, choice) && Member(choice, "message", message) && Member(message, "content", JString(content))
  }

  lemma ChoiceIff(body: Json, choice: Json)
    ensures FirstChoice(body, choice) <==> choice.JObject? && Choice(body) == choice
  {
    if choice.JObject? && Choice(body) == choice {
      var items := body.fields["choices"].items;
      assert items == [choice] + items[1..];
      assert Member(body, "choices", JList([choice] + items[1..]));
    }
  }

  lemma GetIff(j: Json, key: string, value: Json)
    requires value != JNull
    ensures Get(j, key) == value <==> Member(j, key, value)
  {}

  lemma ContentIff(body: Json, content: string)
    ensures Content(body) == JString(content) <==> Says(body, content)
  {
    hide Choice, FirstChoice;
    var choice := Choice(body);
    if Content(body) == JString(content) {
      var message := Get(choice, "message");
      assert message.JObject? && choice.JObject?;
      ChoiceIff(body, choice);
      GetIff(choice, "message", message);
      GetIff(message, "content", JString(content));
    }
    if c, message :| FirstChoice(body, c) && Member(c, "message", message) && Member(message, "content", JString(content)) {
      ChoiceIff(body, c);
    }
  }

  // ---------- finish reasons ----------

  /** The text that a finish reason amounts to. */
  ghost predicate ReasonSays(e: Environment, value: Json, word: string) {
    word == Lower(e.unicode, Strip(e.unicode,
      match value case JString(s) => s case JNull => "" case _ => e.show(value)))
  }

  ghost predicate EndsBy(e: Environment, value: Json) {
    || ReasonSays(e, value, "length") || ReasonSays(e, value, "max_tokens")
    || ReasonSays(e, value, "max_token") || ReasonSays(e, value, "token_limit")
  }

  /** The first choice names a token limit as the reason it finished, in the provider's words or the model's own. */
  ghost predicate CutShort(e: Environment, body: Json) {
    exists choice :: FirstChoice(body, choice) &&
      ((exists reason :: Member(choice, "finish_reason", reason) && EndsBy(e, reason))
       || (exists reason :: Member(choice, "native_finish_reason", reason) && EndsBy(e, reason)))
  }

  lemma ReasonIff(e: Environment, value: Json)
    ensures IsLimit(ReasonText(e, value)) <==> EndsBy(e, value)
  {}

  lemma NullIsNoLimit(e: Environment)
    ensures !EndsBy(e, JNull)
  {
    assert Strip(e.unicode, "") == "" && Lower(e.unicode, "") == "";
    assert |"length"| == 6 && |"max_tokens"| == 10 && |"max_token"| == 9 && |"token_limit"| == 11;
  }

  lemma MemberReason(e: Environment, choice: Json, key: string)
    ensures EndsBy(e, Get(choice, key)) <==> exists reason :: Member(choice, key, reason) && EndsBy(e, reason)
  {
    hide EndsBy;
    NullIsNoLimit(e);
    if EndsBy(e, Get(choice, key)) { GetIff(choice, key, Get(choice, key)); }
  }

  lemma CutShortIff(e: Environment, body: Json)
    ensures TokenLimited(e, body) <==> CutShort(e, body)
  {
    hide EndsBy, Choice, FirstChoice, IsLimit, ReasonText;
    var choice := Choice(body);
    ReasonIff(e, Get(choice, "finish_reason"));
    ReasonIff(e, Get(choice, "native_finish_reason"));
    MemberReason(e, choice, "finish_reason");
    MemberReason(e, choice, "native_finish_reason");
    forall c
      ensures FirstChoice(body, c) <==> c.JObject? && choice == c
    {
      ChoiceIff(body, c);
    }
  }

  // ---------- statuses ----------

  /** The status an error reply is reported under. */
  ghost predicate ReportedAs(status: int, shown: int) {
    && (status == 401 || status == 403 ==> shown == 401)
    && (status >= 500 ==> shown == 502)
    && (status != 401 && status != 403 && status < 500 ==> shown == status)
  }

  lemma StatusIs(status: int, shown: int)
    ensures ErrorStatus(status) == shown <==> ReportedAs(status, shown)
  {}

  /** The body of a bad request speaks of tokens. */
  predicate SpeaksOfTokens(u: Unicode, text: string) {
    || Contains(Lower(u, text), "max_tokens") || Contains(Lower(u, text), "token limit")
    || Contains(Lower(u, text), "context length") || Contains(Lower(u, text), "token quota")
  }

  lemma StageIs(e: Environment, r: Reply)
    ensures ErrorStage(e, r) == TokenLimit <==> r.status == 400 && SpeaksOfTokens(e.unicode, r.text)
    ensures ErrorStage(e, r) == StructuredOutput
       <==> r.status == 400 && !SpeaksOfTokens(e.unicode, r.text) && e.structuredOutput
    ensures ErrorStage(e, r) == HttpStage
       <==> r.status != 400 || (!SpeaksOfTokens(e.unicode, r.text) && !e.structuredOutput)
  {
    hide Contains, Lower;
  }

  // ---------- fences ----------

  /** `s` without its first line, or all of it when it has one line. */
  ghost predicate AfterFirstLine(s: string, body: string) {
    || ('\n' !in s && body == s)
    || exists line :: '\n' !in line && s == line + "\n" + body
  }

  /** `s` up to the last fence in it, or all of it. */
  ghost predicate BeforeLastFence(s: string, inner: string) {
    || (!Contains(s, "```") && inner == s)
    || (inner + "```" <= s && forall i | |inner| < i <= |s| :: !At(s, i, "```"))
  }

  lemma {:induction false} LineEndIs(s: string, i: nat)
    requires i <= |s|
    ensures var k := FirstLineEnd(s, i); i <= k <= |s| && (k < |s| ==> s[k] == '\n') && forall j | i <= j < k :: s[j] != '\n'
    decreases |s| - i
  {
    if i < |s| && s[i] != '\n' { LineEndIs(s, i + 1); }
  }

  lemma {:induction false} LastFenceIs(s: string, i: nat)
    requires i <= |s|
    ensures var k := LastFence(s, i);
      && (k < |s| ==> k <= i && At(s, k, "```") && forall j | k < j <= i :: !At(s, j, "```"))
      && (k == |s| ==> forall j | 0 <= j <= i :: !At(s, j, "```"))
    decreases i
  {
    hide At;
    NoFenceAtEnd(s);
    if !At(s, i, "```") && i > 0 { LastFenceIs(s, i - 1); }
  }

  lemma NoFenceAtEnd(s: string)
    ensures !At(s, |s|, "```")
  {}

  /** Content in fences is what stands between the first line and the last fence; other content is all of it, stripped. */
  lemma UnfencedIs(u: Unicode, raw: string)
    ensures var content := Strip(u, raw);
      if "```" <= content then
        exists body, inner ::
          AfterFirstLine(content, body) && BeforeLastFence(body, inner) && Unfenced(u, raw) == Strip(u, inner)
      else Unfenced(u, raw) == content
  {
    hide Strip, FirstLineEnd, LastFence;
    var content := Strip(u, raw);
    assert |content| >= 3 ==> content[0..3] == content[..3];
    if "```" <= content {
      var k := FirstLineEnd(content, 0);
      LineEndIs(content, 0);
      var body := if k < |content| then content[k + 1..] else content;
      if k < |content| {
        assert content == content[..k] + "\n" + body;
        assert '\n' !in content[..k];
      }
      assert AfterFirstLine(content, body);
      var f := LastFence(body, |body|);
      LastFenceIs(body, |body|);
      FenceCuts(body, f);
      assert BeforeLastFence(body, body[..f]);
    }
  }

  lemma FenceCuts(s: string, f: nat)
    requires f <= |s|
    requires f < |s| ==> At(s, f, "```") && forall j | f < j <= |s| :: !At(s, j, "```")
    requires f == |s| ==> forall j | 0 <= j <= |s| :: !At(s, j, "```")
    ensures BeforeLastFence(s, s[..f])
  {
    if f < |s| {
      assert s[f..f + 3] == "```";
      assert s[..f] + "```" == s[..f + 3];
    } else {
      assert s[..f] == s;
    }
  }

  // ---------- the exchange ----------

  /** The outcome is a reply below 400 whose content is not blank. */
  ghost predicate Delivers(e: Environment, o: Outcome, content: string) {
    && o.Response? && o.reply.status < 400 && o.reply.body.Some?
    && Says(o.reply.body.value, content) && Strip(e.unicode, content) != ""
  }

  lemma DeliversIff(e: Environment, o: Outcome)
    ensures Carries(e, o) <==> exists content :: Delivers(e, o, content)
    ensures forall content :: Delivers(e, o, content) ==> Content(o.reply.body.value) == JString(content)
  {
    hide Content, Strip, Says;
    if o.Response? && o.reply.body.Some? {
      forall content
        ensures Content(o.reply.body.value) == JString(content) <==> Says(o.reply.body.value, content)
      {
        ContentIff(o.reply.body.value, content);
      }
      if Carries(e, o) { assert Delivers(e, o, Content(o.reply.body.value).s); }
    }
  }

  /** The first attempt is tried again. */
  ghost predicate TriedAgain(e: Environment, o: Outcome) {
    || o.TimedOut? || o.RequestFailed?
    || (o.Response? && (o.reply.status == 429 || o.reply.status >= 500))
    || (o.Response? && o.reply.status < 400 && o.reply.body.Some? && !exists content :: Delivers(e, o, content))
  }

  lemma TriedAgainIff(e: Environment, o: Outcome)
    ensures Retryable(e, o) <==> TriedAgain(e, o)
  {
    hide HasContent, Delivers;
    DeliversIff(e, o);
  }

  /** The content, freed of its fences, is JSON and this object. */
  ghost predicate AnswersWith(e: Environment, o: Outcome, fields: map<string, Json>) {
    exists content :: Delivers(e, o, content) && e.loads(Unfenced(e.unicode, content)) == Some(JObject(fields))
  }

  /** Every result of an exchange, in terms of the outcome that decides. */
  ghost predicate Comes(e: Environment, o: Outcome, result: Result) {
    var delivered := exists content :: Delivers(e, o, content);
    var cut := o.Response? && o.reply.body.Some? && CutShort(e, o.reply.body.value);
    var error := o.Response? && o.reply.status >= 400;
    && (forall fields :: result == Gateway.Parsed(fields) <==> AnswersWith(e, o, fields) && !cut)
    && (result == Failed(TimeoutStage, 504) <==> o.TimedOut?)
    && (result == Failed(Network, 502) <==> o.RequestFailed?)
    && (result == Failed(InternalRuntime, 502) <==> o.OtherFailure?)
    && (error ==> exists shown :: ReportedAs(o.reply.status, shown) && result == Failed(ErrorStage(e, o.reply), shown))
    && (o.Response? && !error ==>
          && (result == Failed(TokenLimit, 502) <==> delivered && cut)
          && (result == Failed(EmptyResponse, 502) || result == Failed(ContentExtraction, 502)
              <==> o.reply.body.Some? && !delivered)
          && (result == Failed(JsonParse, 502)
              <==> o.reply.body.None? || (delivered && !cut && !exists fields :: AnswersWith(e, o, fields))))
  }

  lemma AnswersIff(e: Environment, o: Outcome)
    ensures Answers(e, o) <==>
      (exists fields :: AnswersWith(e, o, fields)) && !CutShort(e, o.reply.body.value)
    ensures Answers(e, o) ==> forall fields ::
      AnswersWith(e, o, fields) <==> e.loads(Unfenced(e.unicode, Content(o.reply.body.value).s)) == Some(JObject(fields))
  {
    hide Content, Strip, Says, Unfenced, TokenLimited, CutShort;
    DeliversIff(e, o);
    if o.Response? && o.reply.body.Some? { CutShortIff(e, o.reply.body.value); }
    if Answers(e, o) {
      var content := Content(o.reply.body.value).s;
      assert Carries(e, o);
      var c :| Delivers(e, o, c);
      assert c == content;
      var fields := e.loads(Unfenced(e.unicode, content)).value.fields;
      assert AnswersWith(e, o, fields);
    }
    if fields :| AnswersWith(e, o, fields) {
      var content :| Delivers(e, o, content) && e.loads(Unfenced(e.unicode, content)) == Some(JObject(fields));
      assert Carries(e, o);
    }
  }

  lemma ParsedComes(e: Environment, o: Outcome, result: Result, fields: map<string, Json>)
    requires Concludes(e, o, result)
    ensures result == Gateway.Parsed(fields) <==>
      AnswersWith(e, o, fields) && !(o.Response? && o.reply.body.Some? && CutShort(e, o.reply.body.value))
  {
    hide Unfenced, CutShort, Delivers, Answers, Content, AnswersWith, ReplyStage;
    AnswersIff(e, o);
    AnswersNeedsReply(e, o, fields);
  }

  lemma AnswersNeedsReply(e: Environment, o: Outcome, fields: map<string, Json>)
    ensures AnswersWith(e, o, fields) ==> o.Response? && o.reply.status < 400 && o.reply.body.Some?
  {
    hide Unfenced, Says, Strip;
  }

  lemma SilentComes(e: Environment, o: Outcome, result: Result)
    requires Concludes(e, o, result)
    ensures result == Failed(TimeoutStage, 504) <==> o.TimedOut?
    ensures result == Failed(Network, 502) <==> o.RequestFailed?
    ensures result == Failed(InternalRuntime, 502) <==> o.OtherFailure?
  {
    hide Unfenced, TokenLimited, ErrorStage, HasContent, Enveloped;
    if o.Response? { NoTransportStage(e, o.reply); }
  }

  lemma NoTransportStage(e: Environment, r: Reply)
    ensures var t := ErrorStage(e, r); t == TokenLimit || t == StructuredOutput || t == HttpStage
  {
    hide SaysTokenLimit;
  }

  lemma ErrorComes(e: Environment, r: Reply, result: Result)
    requires Concludes(e, Response(r), result) && r.status >= 400
    ensures ReportedAs(r.status, ErrorStatus(r.status)) && result == Failed(ErrorStage(e, r), ErrorStatus(r.status))
  {
    hide Unfenced, TokenLimited, ErrorStage, HasContent, Enveloped;
    StatusIs(r.status, ErrorStatus(r.status));
  }

  lemma ReplyComes(e: Environment, r: Reply, result: Result)
    requires Concludes(e, Response(r), result) && r.status < 400
    ensures result == Failed(TokenLimit, 502) <==> Carries(e, Response(r)) && TokenLimited(e, r.body.value)
    ensures result == Failed(EmptyResponse, 502) || result == Failed(ContentExtraction, 502)
       <==> r.body.Some? && !Carries(e, Response(r))
    ensures result == Failed(JsonParse, 502) <==>
      r.body.None? || (Carries(e, Response(r)) && !TokenLimited(e, r.body.value) && !Answers(e, Response(r)))
  {
    hide Unfenced, TokenLimited, HasContent, ErrorStage, Choice;
    ContentNeedsEnvelope(e, r);
  }

  /** What the gateway returns is what the deciding outcome comes to. */
  lemma ResultComes(e: Environment, first: Outcome, second: Outcome, result: Result)
    requires Concludes(e, Deciding(e, first, second), result)
    ensures Comes(e, if TriedAgain(e, first) then second else first, result)
  {
    hide Concludes, CutShort, ErrorStage, HasContent, Delivers, TriedAgain, ReportedAs, Retryable, Answers, AnswersWith, Carries;
    hide TokenLimited, ErrorStatus;
    TriedAgainIff(e, first);
    var o := Deciding(e, first, second);
    forall fields
      ensures result == Gateway.Parsed(fields) <==>
        AnswersWith(e, o, fields) && !(o.Response? && o.reply.body.Some? && CutShort(e, o.reply.body.value))
    {
      ParsedComes(e, o, result, fields);
    }
    SilentComes(e, o, result);
    if o.Response? {
      if o.reply.status >= 400 {
        ErrorComes(e, o.reply, result);
      } else {
        DeliversIff(e, o);
        AnswersIff(e, o);
        ReplyComes(e, o.reply, result);
        if o.reply.body.Some? { CutShortIff(e, o.reply.body.value); }
      }
    }
  }
}
