/**
 * The `POST /api/grade` handler: read the essay from the request body, send
 * it to the completion API once, and turn the model's reply into a response
 * status and JSON payload.
 *
 * The two foreign calls are parameters: `complete` is the completion API,
 * given the user prompt (the rubric, model and temperature never change), and
 * `loads` is `json.loads`. The request body is what
 * `request.get_json(force=True, silent=True)` returned, `None` when the body
 * was not JSON.
 */
module Grade {
  import opened Wrappers
  import opened PyText
  import opened Json
  import opened BraceSpan

  /** What the completion call gives: the reply's `message.content`, or the exception it raised. */
  datatype Upstream = Completion(content: Option<Str>) | Raised(message: Str)

  /**
   * What `json.loads` does with a text: a value, a `JSONDecodeError`, or
   * another exception (a `RecursionError` on deep nesting), each exception
   * with its `str()`.
   */
  datatype Loads = Loaded(value: JsonValue) | DecodeError(message: Str) | Crashed(message: Str)

  /** How the reply text resolved to a value, before the key check. */
  datatype Resolution = Parsed(value: JsonValue) | NotJson | Failed(message: Str)

  datatype Reply = Reply(status: nat, payload: JsonValue)

  /** One handled request: the user prompts sent upstream, then the response. */
  datatype Exchange = Exchange(prompts: seq<Str>, status: nat, payload: JsonValue)

  const EssayKey: Str := Lit("essay")
  const EssayRequired: Str := Lit("Essay text required")
  const NonJsonMessage: Str := Lit("Model returned non-JSON response")
  const MissingKeysMessage: Str := Lit("Missing keys in model output")

  /** The seven keys a grading result must carry. */
  const RequiredKeys: set<Str> := {
    Lit("task_response"), Lit("organization"), Lit("language_use"),
    Lit("development"), Lit("mechanics"), Lit("overall_score"), Lit("concise_rationale")
  }

  function ErrorBody(message: Str): JsonValue {
    JObject(map[Lit("error") := JStr(message)])
  }

  function ErrorWithRaw(message: Str, raw: JsonValue): JsonValue {
    JObject(map[Lit("error") := JStr(message), Lit("raw") := raw])
  }

  // ------------------------------------------------------------- the request

  /**
   * `data.get("essay") or ""` for a dict `data`: the essay field when it is
   * there and truthy, else the empty string.
   */
  function EssayField(fields: map<Str, JsonValue>): (e: JsonValue)
    ensures Truthy(e) || e == JStr([])
    ensures EssayKey in fields && Truthy(fields[EssayKey]) ==> e == fields[EssayKey]
    ensures !(EssayKey in fields && Truthy(fields[EssayKey])) ==> e == JStr([])
  {
    if EssayKey in fields && Truthy(fields[EssayKey]) then fields[EssayKey] else JStr([])
  }

  /**
   * `(data.get("essay") or "").strip()`. A `Failure` is the AttributeError
   * raised when `data` is not a dict (no `get`) or the essay is a non-empty
   * value that is not a string (no `strip`).
   */
  function EssayOf(body: Option<JsonValue>): (r: Result<Str, Str>)
    ensures body.None? || !Truthy(body.value) ==> r == Success([])
    ensures body.Some? && Truthy(body.value) && !body.value.JObject? ==>
      r == Failure(AttributeError(body.value, "get"))
    ensures body.Some? && body.value.JObject? ==>
      var e := EssayField(body.value.fields);
      r == if e.JStr? then Success(Strip(e.s)) else Failure(AttributeError(e, "strip"))
  {
    assert Strip([]) == [] by {
      assert AllWhitespace([]);
    }
    // `request.get_json(...) or {}`: a missing or falsy body reads as `{}`,
    // whose essay is "" and strips to "".
    if body.None? || !Truthy(body.value) then
      assert body.Some? && body.value.JObject? ==> body.value.fields == map[];
      Success([])
    else
    if !body.value.JObject? then Failure(AttributeError(body.value, "get"))
    else
      var essay := EssayField(body.value.fields);
      if essay.JStr? then Success(Strip(essay.s)) else Failure(AttributeError(essay, "strip"))
  }

  const PromptHead: Str := Lit("Essay:\n\"\"\"")
  const PromptTail: Str := Lit("\"\"\"\n\nRespond with ONLY JSON, no extra text.\n")

  /** The user message: the essay, verbatim, between triple quotes. */
  function UserPrompt(essay: Str): (p: Str)
    ensures |p| == |PromptHead| + |essay| + |PromptTail|
    ensures p[|PromptHead|..|PromptHead| + |essay|] == essay
  {
    PromptHead + essay + PromptTail
  }

  /** `(resp.choices[0].message.content or "").strip()`. */
  function ReplyText(content: Option<Str>): (r: Str)
    ensures content.None? ==> r == []
    ensures TrimOf(content.GetOr([]), r)
    ensures r != [] ==> !IsWhitespace(r[0]) && !IsWhitespace(r[|r| - 1])
  {
    Strip(content.GetOr([]))
  }

  // --------------------------------------------------------------- the reply

  /**
   * `json.loads(text)`, and on a `JSONDecodeError` `json.loads` of the brace
   * span. A span that fails to parse is not caught here: its error, like any
   * other exception of `json.loads`, is a `Failed`.
   */
  function Resolve(text: Str, loads: Str -> Loads): (r: Resolution)
    ensures r.Parsed? ==>
      || loads(text) == Loaded(r.value)
      || (loads(text).DecodeError? && ExtractSpan(text).Some?
          && loads(ExtractSpan(text).value) == Loaded(r.value))
    ensures r.NotJson? <==> loads(text).DecodeError? && !HasBracePair(text)
    ensures r.Failed? ==>
      || loads(text) == Crashed(r.message)
      || (loads(text).DecodeError? && HasBracePair(text)
          && !loads(ExtractSpan(text).value).Loaded?
          && loads(ExtractSpan(text).value).message == r.message)
  {
    match loads(text)
    case Loaded(v) => Parsed(v)
    case Crashed(m) => Failed(m)
    case DecodeError(_) =>
      match ExtractSpan(text)
      case None => NotJson
      case Some(span) =>
        match loads(span)
        case Loaded(v) => Parsed(v)
        case DecodeError(m) => Failed(m)
        case Crashed(m) => Failed(m)
  }

  /** The key check `required.issubset(result.keys())` and the response it leads to. */
  function CheckKeys(result: JsonValue): (r: Reply)
    ensures r.status == 200 <==> result.JObject? && RequiredKeys <= result.fields.Keys
    ensures r.status == 200 ==> r.payload == result
    ensures r.status == 502 <==> result.JObject? && !(RequiredKeys <= result.fields.Keys)
    ensures r.status == 502 ==> r.payload == ErrorWithRaw(MissingKeysMessage, result)
    ensures !result.JObject? ==> r == Reply(500, ErrorBody(AttributeError(result, "keys")))
  {
    match result
    case JObject(fields) =>
      if RequiredKeys <= fields.Keys then Reply(200, result)
      else Reply(502, ErrorWithRaw(MissingKeysMessage, result))
    case _ => Reply(500, ErrorBody(AttributeError(result, "keys")))
  }

  /** Lines 108-125 of the handler, with the outer `except` for what they raise. */
  function ResolveReply(text: Str, loads: Str -> Loads): (r: Reply)
    ensures r.status in {200, 500, 502}
    ensures r.status == 200 ==> r.payload.JObject? && RequiredKeys <= r.payload.fields.Keys
    ensures r.status == 200 ==>
      || loads(text) == Loaded(r.payload)
      || (loads(text).DecodeError? && ExtractSpan(text).Some?
          && loads(ExtractSpan(text).value) == Loaded(r.payload))
    ensures loads(text).DecodeError? && !HasBracePair(text) ==>
      r == Reply(502, ErrorWithRaw(NonJsonMessage, JStr(text)))
    ensures Resolve(text, loads).Parsed? ==> r == CheckKeys(Resolve(text, loads).value)
    ensures Resolve(text, loads).Failed? ==> r == Reply(500, ErrorBody(Resolve(text, loads).message))
  {
    match Resolve(text, loads)
    case Parsed(v) => CheckKeys(v)
    case NotJson => Reply(502, ErrorWithRaw(NonJsonMessage, JStr(text)))
    case Failed(m) => Reply(500, ErrorBody(m))
  }

  // ------------------------------------------------------------- the handler

  /** The handler from the completion call on, for an accepted essay. */
  function Consult(essay: Str, complete: Str -> Upstream, loads: Str -> Loads): (r: Exchange)
    ensures r.prompts == [UserPrompt(essay)]
    ensures r.status in {200, 500, 502}
    ensures r.status == 200 ==>
      && complete(UserPrompt(essay)).Completion?
      && r.payload.JObject? && RequiredKeys <= r.payload.fields.Keys
      && var text := ReplyText(complete(UserPrompt(essay)).content);
         || loads(text) == Loaded(r.payload)
         || (loads(text).DecodeError? && ExtractSpan(text).Some?
             && loads(ExtractSpan(text).value) == Loaded(r.payload))
  {
    var prompt := UserPrompt(essay);
    match complete(prompt)
    case Raised(m) => Exchange([prompt], 500, ErrorBody(m))
    case Completion(content) =>
      var reply := ResolveReply(ReplyText(content), loads);
      Exchange([prompt], reply.status, reply.payload)
  }

  /** `grade()`. */
  function Grade(body: Option<JsonValue>, complete: Str -> Upstream, loads: Str -> Loads): (r: Exchange)
    ensures r.status in {200, 400, 500, 502}
    ensures r.status == 400 <==> EssayOf(body) == Success([])
    ensures r.status == 400 ==> r.payload == ErrorBody(EssayRequired)
    ensures EssayOf(body).Failure? ==> r == Exchange([], 500, ErrorBody(EssayOf(body).error))
    ensures r.prompts != [] <==> EssayOf(body).Success? && EssayOf(body).value != []
    ensures r.prompts != [] ==> r.prompts == [UserPrompt(EssayOf(body).value)]
    ensures r.status == 200 ==>
      && r.prompts != []
      && complete(r.prompts[0]).Completion?
      && r.payload.JObject? && RequiredKeys <= r.payload.fields.Keys
      && var text := ReplyText(complete(r.prompts[0]).content);
         || loads(text) == Loaded(r.payload)
         || (loads(text).DecodeError? && ExtractSpan(text).Some?
             && loads(ExtractSpan(text).value) == Loaded(r.payload))
  {
    match EssayOf(body)
    case Failure(m) => Exchange([], 500, ErrorBody(m))
    case Success(essay) =>
      if essay == [] then Exchange([], 400, ErrorBody(EssayRequired))
      else Consult(essay, complete, loads)
  }

  // ------------------------------------------------------- what grade promises

  /** The essay was accepted, sent once, and the model answered with `text`. */
  ghost predicate Answered(body: Option<JsonValue>, complete: Str -> Upstream, text: Str) {
    && EssayOf(body).Success? && EssayOf(body).value != []
    && complete(UserPrompt(EssayOf(body).value)).Completion?
    && ReplyText(complete(UserPrompt(EssayOf(body).value)).content) == text
  }

  /**
   * An essay field that is whitespace only is rejected with 400 before any
   * call upstream.
   */
  lemma BlankEssayRejected(fields: map<Str, JsonValue>, s: Str, complete: Str -> Upstream, loads: Str -> Loads)
    requires AllWhitespace(s)
    ensures Grade(Some(JObject(fields[EssayKey := JStr(s)])), complete, loads)
      == Exchange([], 400, ErrorBody(EssayRequired))
  {
  }

  /** A body that is not JSON, or has no essay, is rejected the same way. */
  lemma MissingEssayRejected(body: Option<JsonValue>, complete: Str -> Upstream, loads: Str -> Loads)
    requires body.None? || !Truthy(body.value) || (body.value.JObject? && EssayKey !in body.value.fields)
    ensures Grade(body, complete, loads) == Exchange([], 400, ErrorBody(EssayRequired))
  {
  }

  /**
   * A reply that is strictly a JSON object with the seven keys is returned
   * with 200, exactly as parsed: extra keys stay, scores are not checked.
   */
  lemma CompleteObjectPassedThrough(body: Option<JsonValue>, complete: Str -> Upstream, loads: Str -> Loads,
                                    text: Str, fields: map<Str, JsonValue>)
    requires Answered(body, complete, text)
    requires loads(text) == Loaded(JObject(fields)) && RequiredKeys <= fields.Keys
    ensures Grade(body, complete, loads).status == 200
    ensures Grade(body, complete, loads).payload == JObject(fields)
  {
  }

  /**
   * `pre + obj + post` with no `{` before the object and no `}` after it:
   * the span is the object.
   */
  lemma {:induction false} EmbeddedSpan(pre: Str, obj: Str, post: Str)
    requires |obj| >= 2 && obj[0] == OpenBrace && obj[|obj| - 1] == CloseBrace
    requires forall k :: 0 <= k < |pre| ==> pre[k] != OpenBrace
    requires forall k :: 0 <= k < |post| ==> post[k] != CloseBrace
    ensures ExtractSpan(pre + obj + post) == Some(obj)
  {
    var text := pre + obj + post;
    var i, j := |pre|, |pre| + |obj| - 1;
    assert text[i] == OpenBrace && text[j] == CloseBrace;
    assert FirstFrom(text, OpenBrace, 0) == Some(i) by {
      var f := FirstFrom(text, OpenBrace, 0);
      assert f.Some?;
    }
    assert LastBefore(text, CloseBrace, |text|) == Some(j) by {
      var l := LastBefore(text, CloseBrace, |text|);
      assert l.Some?;
    }
    assert text[i..j + 1] == obj;
  }

  /**
   * An object wrapped in prose ("Here is the result: {...} Thanks") is
   * recovered from the brace span when the whole reply is not JSON.
   */
  lemma EmbeddedObjectRecovered(body: Option<JsonValue>, complete: Str -> Upstream, loads: Str -> Loads,
                                pre: Str, obj: Str, post: Str, fields: map<Str, JsonValue>)
    requires Answered(body, complete, pre + obj + post)
    requires loads(pre + obj + post).DecodeError?
    requires |obj| >= 2 && obj[0] == OpenBrace && obj[|obj| - 1] == CloseBrace
    requires forall k :: 0 <= k < |pre| ==> pre[k] != OpenBrace
    requires forall k :: 0 <= k < |post| ==> post[k] != CloseBrace
    requires loads(obj) == Loaded(JObject(fields)) && RequiredKeys <= fields.Keys
    ensures Grade(body, complete, loads) == Exchange([UserPrompt(EssayOf(body).value)], 200, JObject(fields))
  {
    EmbeddedSpan(pre, obj, post);
  }

  /** A reply that is not JSON and has no `{` before a `}` gives 502 with the reply attached. */
  lemma NoSpanIsNonJson(body: Option<JsonValue>, complete: Str -> Upstream, loads: Str -> Loads, text: Str)
    requires Answered(body, complete, text)
    requires loads(text).DecodeError? && !HasBracePair(text)
    ensures Grade(body, complete, loads).status == 502
    ensures Grade(body, complete, loads).payload == ErrorWithRaw(NonJsonMessage, JStr(text))
  {
  }

  /**
   * A brace span that does not parse either is not reported as non-JSON: its
   * decode error reaches the outer handler and the response is 500.
   */
  lemma BadSpanIsServerError(body: Option<JsonValue>, complete: Str -> Upstream, loads: Str -> Loads,
                             text: Str, span: Str)
    requires Answered(body, complete, text)
    requires loads(text).DecodeError? && ExtractSpan(text) == Some(span)
    requires loads(span).DecodeError?
    ensures Grade(body, complete, loads).status == 500
    ensures Grade(body, complete, loads).payload == ErrorBody(loads(span).message)
  {
  }

  /**
   * A truthy body that is not an object has no `get`, and a truthy essay
   * that is not a string has no `strip`: both give 500 with the
   * AttributeError's message, before any call upstream.
   */
  lemma MalformedRequestIsServerError(body: Option<JsonValue>, complete: Str -> Upstream, loads: Str -> Loads)
    ensures body.Some? && Truthy(body.value) && !body.value.JObject? ==>
      Grade(body, complete, loads) == Exchange([], 500, ErrorBody(AttributeError(body.value, "get")))
    ensures body.Some? && body.value.JObject? && EssayKey in body.value.fields ==>
      var e := body.value.fields[EssayKey];
      Truthy(e) && !e.JStr? ==> Grade(body, complete, loads) == Exchange([], 500, ErrorBody(AttributeError(e, "strip")))
  {
  }

  /**
   * An exception other than a decode error from `json.loads` on the reply,
   * or any exception from `json.loads` on the span, gives 500 with its
   * message.
   */
  lemma ParserCrashIsServerError(body: Option<JsonValue>, complete: Str -> Upstream, loads: Str -> Loads,
                                 text: Str, span: Str)
    requires Answered(body, complete, text)
    ensures loads(text).Crashed? ==>
      Grade(body, complete, loads).status == 500
      && Grade(body, complete, loads).payload == ErrorBody(loads(text).message)
    ensures loads(text).DecodeError? && ExtractSpan(text) == Some(span) && loads(span).Crashed? ==>
      Grade(body, complete, loads).status == 500
      && Grade(body, complete, loads).payload == ErrorBody(loads(span).message)
  {
  }

  /**
   * An object that lacks a required key, parsed from the whole reply or from
   * its brace span, gives 502 with the object attached.
   */
  lemma MissingKeysReported(body: Option<JsonValue>, complete: Str -> Upstream, loads: Str -> Loads,
                            text: Str, fields: map<Str, JsonValue>)
    requires Answered(body, complete, text)
    requires Resolve(text, loads) == Parsed(JObject(fields)) && !(RequiredKeys <= fields.Keys)
    ensures Grade(body, complete, loads).status == 502
    ensures Grade(body, complete, loads).payload == ErrorWithRaw(MissingKeysMessage, JObject(fields))
  {
  }

  /**
   * A value that is not an object, parsed from the whole reply or from its
   * brace span, has no `keys()`: 500.
   */
  lemma NonObjectIsServerError(body: Option<JsonValue>, complete: Str -> Upstream, loads: Str -> Loads,
                               text: Str, v: JsonValue)
    requires Answered(body, complete, text)
    requires Resolve(text, loads) == Parsed(v) && !v.JObject?
    ensures Grade(body, complete, loads).status == 500
    ensures Grade(body, complete, loads).payload == ErrorBody(AttributeError(v, "keys"))
  {
  }

  /** A failed completion call is a 500 carrying the exception's message. */
  lemma UpstreamFailureIsServerError(body: Option<JsonValue>, complete: Str -> Upstream, loads: Str -> Loads)
    requires EssayOf(body).Success? && EssayOf(body).value != []
    requires complete(UserPrompt(EssayOf(body).value)).Raised?
    ensures Grade(body, complete, loads)
      == Exchange([UserPrompt(EssayOf(body).value)], 500,
                  ErrorBody(complete(UserPrompt(EssayOf(body).value)).message))
  {
  }
}
