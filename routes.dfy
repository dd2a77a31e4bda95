/**
 * The `POST /api/speech/generate` handler without its network call: body
 * validation, prompt construction, acceptance of the model's reply, the
 * reading-time fallback, error classification, and the order in which the
 * handler touches the store.
 */
module Routes {
  import opened Wrappers
  import opened Schema
  import opened Storage
  import opened Prompt

  /** A parsed JSON value, as `req.body` arrives; numbers are integers here. */
  datatype Json =
    | JNull
    | JBool(b: bool)
    | JNumber(n: int)
    | JString(s: string)
    | JArray(items: seq<Json>)
    | JObject(fields: map<string, Json>)

  datatype IssueKind = Required | ExpectedString | ExpectedObject

  /** One validation failure: the offending key ("" for the body itself) and why. */
  datatype Issue = Issue(path: string, kind: IssueKind)

  /** A `text(...).notNull()` column: the key must hold a string (blank strings pass). */
  function RequiredString(fields: map<string, Json>, key: string): (r: Result<string, Issue>)
    ensures r.Success? <==> key in fields && fields[key].JString?
    ensures r.Success? ==> r.value == fields[key].s
    ensures r.Failure? ==> r.error == Issue(key, if key in fields then ExpectedString else Required)
  {
    if key !in fields then Failure(Issue(key, Required))
    else match fields[key]
      case JString(s) => Success(s)
      case _ => Failure(Issue(key, ExpectedString))
  }

  /** A nullable `text(...)` column: the key may be absent, `null` or a string. */
  function NullableString(fields: map<string, Json>, key: string): (r: Result<Option<string>, Issue>)
    ensures r.Success? <==> key !in fields || fields[key].JNull? || fields[key].JString?
    ensures r.Success? && key in fields && fields[key].JString? ==> r.value == Some(fields[key].s)
    ensures r.Success? && (key !in fields || fields[key].JNull?) ==> r.value == None
    ensures r.Failure? ==> r.error == Issue(key, ExpectedString)
  {
    if key !in fields then Success(None)
    else match fields[key]
      case JNull => Success(None)
      case JString(s) => Success(Some(s))
      case _ => Failure(Issue(key, ExpectedString))
  }

  function IssuesOf<T>(r: Result<T, Issue>): seq<Issue> {
    if r.Failure? then [r.error] else []
  }

  /**
   * `insertSpeechRequestSchema.parse(body)`: the five fields copied from an
   * object body, other keys dropped; otherwise every failing field, in
   * schema order.
   */
  function Validate(body: Json): (r: Result<InsertSpeechRequest, seq<Issue>>)
    ensures !body.JObject? ==> r == Failure([Issue("", ExpectedObject)])
    ensures r.Success? ==>
      && body.JObject?
      && StringField(body.fields, "name", r.value.name)
      && StringField(body.fields, "identity", r.value.identity)
      && StringField(body.fields, "whatYouDo", r.value.whatYouDo)
      && StringField(body.fields, "motivation", r.value.motivation)
      && r.value.background == (if "background" in body.fields && body.fields["background"].JString?
                                then Some(body.fields["background"].s) else None)
  {
    if !body.JObject? then Failure([Issue("", ExpectedObject)])
    else
      var f := body.fields;
      var name := RequiredString(f, "name");
      var identity := RequiredString(f, "identity");
      var background := NullableString(f, "background");
      var whatYouDo := RequiredString(f, "whatYouDo");
      var motivation := RequiredString(f, "motivation");
      if name.Success? && identity.Success? && background.Success? && whatYouDo.Success? && motivation.Success? then
        Success(InsertSpeechRequest(name.value, identity.value, background.value, whatYouDo.value, motivation.value))
      else
        Failure(IssuesOf(name) + IssuesOf(identity) + IssuesOf(background) + IssuesOf(whatYouDo) + IssuesOf(motivation))
  }

  /** The body holds the string `s` under `key`. */
  predicate StringField(fields: map<string, Json>, key: string, s: string) {
    key in fields && fields[key] == JString(s)
  }

  /**
   * An object body that fails validation is reported key by key: the issues
   * are exactly those `IssueFor` names.
   */
  lemma ValidateIssues(body: Json)
    requires body.JObject?
    ensures Validate(body).Failure? ==>
      forall issue: Issue :: issue in Validate(body).error <==> IssueFor(body.fields, issue)
  {
    var r := Validate(body);
    if r.Failure? {
      var f := body.fields;
      var name := IssuesOf(RequiredString(f, "name"));
      var identity := IssuesOf(RequiredString(f, "identity"));
      var background := IssuesOf(NullableString(f, "background"));
      var whatYouDo := IssuesOf(RequiredString(f, "whatYouDo"));
      var motivation := IssuesOf(RequiredString(f, "motivation"));
      assert r.error == name + identity + background + whatYouDo + motivation;
      forall issue: Issue ensures issue in r.error <==> IssueFor(f, issue) {
        InRequired(f, "name", issue);
        InRequired(f, "identity", issue);
        InNullable(f, "background", issue);
        InRequired(f, "whatYouDo", issue);
        InRequired(f, "motivation", issue);
      }
    }
  }

  /**
   * The issue validation raises about an object's `fields`: a required key
   * gets `Required` when missing and `ExpectedString` when it holds another
   * type; `background` gets `ExpectedString` when it holds neither `null`
   * nor a string; no other key is named.
   */
  predicate IssueFor(fields: map<string, Json>, issue: Issue) {
    if issue.path in RequiredKeys then
      (issue.kind == Required && issue.path !in fields)
      || (issue.kind == ExpectedString && issue.path in fields && !fields[issue.path].JString?)
    else
      issue == Issue("background", ExpectedString)
      && "background" in fields && !fields["background"].JNull? && !fields["background"].JString?
  }

  lemma InRequired(fields: map<string, Json>, key: string, issue: Issue)
    ensures issue in IssuesOf(RequiredString(fields, key)) <==>
      issue.path == key
      && ((issue.kind == Required && key !in fields) || (issue.kind == ExpectedString && key in fields && !fields[key].JString?))
  {
  }

  lemma InNullable(fields: map<string, Json>, key: string, issue: Issue)
    ensures issue in IssuesOf(NullableString(fields, key)) <==>
      issue.path == key && issue.kind == ExpectedString && key in fields && !fields[key].JNull? && !fields[key].JString?
  {
  }

  const RequiredKeys: seq<string> := ["name", "identity", "whatYouDo", "motivation"]

  /** A request as the client's form sends it. */
  function ToBody(r: InsertSpeechRequest): Json {
    JObject(map[
      "name" := JString(r.name),
      "identity" := JString(r.identity),
      "background" := if r.background.Some? then JString(r.background.value) else JNull,
      "whatYouDo" := JString(r.whatYouDo),
      "motivation" := JString(r.motivation)])
  }

  /** Every request survives being sent as a body and validated again. */
  lemma ValidateToBody(r: InsertSpeechRequest)
    ensures Validate(ToBody(r)) == Success(r)
  {
    var f := ToBody(r).fields;
    assert f["name"] == JString(r.name);
    assert f["identity"] == JString(r.identity);
    assert f["whatYouDo"] == JString(r.whatYouDo);
    assert f["motivation"] == JString(r.motivation);
  }

  /**
   * Validation succeeds exactly on an object body whose four required keys
   * hold strings and whose `background` is absent, `null` or a string.
   */
  lemma ValidateAccepts(body: Json)
    ensures Validate(body).Success? <==>
      && body.JObject?
      && (forall key | key in ["name", "identity", "whatYouDo", "motivation"] ::
            key in body.fields && body.fields[key].JString?)
      && ("background" !in body.fields || body.fields["background"].JNull? || body.fields["background"].JString?)
    ensures Validate(body).Failure? ==> Validate(body).error != []
  {
  }

  /**
   * The reply object's three keys as the handler reads them, each `None`
   * when absent; values of other JSON types are not modelled.
   */
  datatype Reply = Reply(speech: Option<string>, wordCount: Option<int>, readTime: Option<int>)

  const EmptyReply := Reply(None, None, None)

  /** What `JSON.parse` does with the message content: a reply, or an exception with its message. */
  datatype ParseOutcome = Parsed(reply: Reply) | Threw(message: string)

  /** The chat completion: the first choice's message content, or the call's exception. */
  datatype Completion = Completion(content: Option<string>) | CallFailed(message: string)

  /** JavaScript truthiness of a string and of a number. */
  predicate TruthyString(s: Option<string>) {
    s.Some? && s.value != ""
  }

  predicate TruthyNumber(n: Option<int>) {
    n.Some? && n.value != 0
  }

  /**
   * `JSON.parse(content || "{}")`: missing or empty content reads as the
   * empty object; other content goes to the parser.
   */
  function ParseContent(content: Option<string>, parse: string -> ParseOutcome): (r: ParseOutcome)
    ensures content.None? || content == Some("") ==> r == Parsed(EmptyReply)
    ensures content.Some? && content.value != "" ==> r == parse(content.value)
  {
    if content.None? || content.value == "" then Parsed(EmptyReply) else parse(content.value)
  }

  const InvalidReplyMessage := "Invalid response from OpenAI"

  /** The speech and word count of an accepted reply, and the reading time sent back. */
  datatype Accepted = Accepted(speech: string, wordCount: int, readTime: int)

  /** `Math.ceil(n / d)` for integers. */
  function CeilDiv(n: int, d: int): (q: int)
    requires d > 0
    ensures d * (q - 1) < n <= d * q
  {
    -((-n) / d)
  }

  const WordsPerMinute := 150

  /** `readTime || Math.ceil(wordCount / 150)`. */
  function ReadTime(reply: Reply, wordCount: int): (minutes: int)
    ensures TruthyNumber(reply.readTime) ==> minutes == reply.readTime.value
    ensures !TruthyNumber(reply.readTime) ==> WordsPerMinute * (minutes - 1) < wordCount <= WordsPerMinute * minutes
  {
    if TruthyNumber(reply.readTime) then reply.readTime.value else CeilDiv(wordCount, WordsPerMinute)
  }

  /** A positive word count never rounds the fallback reading time down to zero. */
  lemma ReadTimePositive(reply: Reply, wordCount: int)
    requires !TruthyNumber(reply.readTime) && wordCount > 0
    ensures ReadTime(reply, wordCount) >= 1
  {
  }

  /**
   * The reply is used only when both `speech` and `wordCount` are truthy;
   * otherwise the handler throws "Invalid response from OpenAI".
   */
  function AcceptReply(reply: Reply): (r: Result<Accepted, string>)
    ensures r.Success? <==> TruthyString(reply.speech) && TruthyNumber(reply.wordCount)
    ensures r.Success? ==> r.value.speech == reply.speech.value && r.value.wordCount == reply.wordCount.value
    ensures r.Success? ==> r.value.readTime == ReadTime(reply, reply.wordCount.value)
    ensures r.Failure? ==> r.error == InvalidReplyMessage
  {
    if !TruthyString(reply.speech) || !TruthyNumber(reply.wordCount) then Failure(InvalidReplyMessage)
    else Success(Accepted(reply.speech.value, reply.wordCount.value, ReadTime(reply, reply.wordCount.value)))
  }

  /** No content at all, or a word count of zero, is never accepted. */
  lemma EmptyContentRejected(parse: string -> ParseOutcome, reply: Reply)
    requires reply.wordCount == Some(0)
    ensures ParseContent(None, parse) == Parsed(EmptyReply)
    ensures AcceptReply(EmptyReply) == Failure(InvalidReplyMessage)
    ensures AcceptReply(reply) == Failure(InvalidReplyMessage)
  {
  }

  /**
   * From the completion to what the handler sends on success, or the message
   * of the exception it throws.
   */
  function ReplyOutcome(completion: Completion, parse: string -> ParseOutcome): (r: Result<Accepted, string>)
    ensures completion.CallFailed? ==> r == Failure(completion.message)
    ensures completion == Completion(None) || completion == Completion(Some("")) ==> r == Failure(InvalidReplyMessage)
    ensures completion.Completion? && ParseContent(completion.content, parse).Threw? ==>
      r == Failure(ParseContent(completion.content, parse).message)
    ensures completion.Completion? && ParseContent(completion.content, parse).Parsed? ==>
      r == AcceptReply(ParseContent(completion.content, parse).reply)
    ensures r.Success? <==>
      && completion.Completion? && ParseContent(completion.content, parse).Parsed?
      && var reply := ParseContent(completion.content, parse).reply;
      TruthyString(reply.speech) && TruthyNumber(reply.wordCount)
    ensures r.Success? ==>
      var reply := ParseContent(completion.content, parse).reply;
      r.value == Accepted(reply.speech.value, reply.wordCount.value, ReadTime(reply, reply.wordCount.value))
    ensures r.Failure? && r.error != InvalidReplyMessage ==>
      completion.CallFailed? || ParseContent(completion.content, parse).Threw?
  {
    match completion
    case CallFailed(message) => Failure(message)
    case Completion(content) =>
      match ParseContent(content, parse)
      case Threw(message) => Failure(message)
      case Parsed(reply) => AcceptReply(reply)
  }

  /** An exception reaching the handler's `catch`. */
  datatype HandlerError = ZodError(issues: seq<Issue>) | Thrown(message: string)

  datatype ResponseBody =
    | SpeechBody(speech: string, wordCount: int, readTime: int)
    | InvalidInput(message: string, errors: seq<Issue>)
    | ServerError(message: string)

  datatype Response = Response(status: int, body: ResponseBody)

  const InvalidInputMessage := "Invalid input data"
  const DefaultErrorMessage := "Failed to generate speech. Please try again."

  /**
   * The `catch` block: a validation error is the client's fault (400, with
   * the issues); anything else is a 500 carrying the error's message, or a
   * default text when that message is empty.
   */
  function ErrorResponse(e: HandlerError): (r: Response)
    ensures r.status == 400 <==> e.ZodError?
    ensures r.status == 400 || r.status == 500
    ensures e.ZodError? ==> r.body == InvalidInput(InvalidInputMessage, e.issues)
    ensures e.Thrown? && e.message != "" ==> r.body == ServerError(e.message)
    ensures e.Thrown? && e.message == "" ==> r.body == ServerError(DefaultErrorMessage)
  {
    match e
    case ZodError(issues) => Response(400, InvalidInput(InvalidInputMessage, issues))
    case Thrown(message) => Response(500, ServerError(if message != "" then message else DefaultErrorMessage))
  }

  /** Every stored request has both generation results or neither. */
  predicate AllPaired(requests: map<int, SpeechRequest>) {
    forall id | id in requests :: ResultsPaired(requests[id])
  }

  /**
   * The handler. It validates the body before touching the store, so an
   * invalid body creates nothing. A valid one is stored first, with no
   * results; the prompt built from it goes to the model (`complete`); an
   * accepted reply is attached to that record, speech and word count in one
   * update, before the 200 response is formed. Any failure after creation
   * leaves the record without results.
   */
  method GenerateSpeech(store: MemStorage, body: Json, complete: string -> Completion, parse: string -> ParseOutcome)
      returns (response: Response)
    requires store.Valid()
    modifies store
    ensures store.Valid()
    ensures old(store.RequestIdsMatchKeys()) ==> store.RequestIdsMatchKeys()
    ensures AllPaired(old(store.speechRequests)) ==> AllPaired(store.speechRequests)
    ensures store.users == old(store.users) && store.userOrder == old(store.userOrder)
    ensures store.currentUserId == old(store.currentUserId)
    ensures Validate(body).Failure? ==>
      && response == ErrorResponse(ZodError(Validate(body).error))
      && store.speechRequests == old(store.speechRequests)
      && store.currentSpeechRequestId == old(store.currentSpeechRequestId)
    ensures Validate(body).Success? ==>
      var data, id := Validate(body).value, old(store.currentSpeechRequestId);
      var outcome := ReplyOutcome(complete(BuildPrompt(data)), parse);
      && id !in old(store.speechRequests)
      && store.currentSpeechRequestId == id + 1
      && (outcome.Success? ==>
            && store.speechRequests == old(store.speechRequests)[id := NewSpeechRequest(data, id).(
                 generatedSpeech := Some(outcome.value.speech), wordCount := Some(outcome.value.wordCount))]
            && response == Response(200, SpeechBody(outcome.value.speech, outcome.value.wordCount, outcome.value.readTime)))
      && (outcome.Failure? ==>
            && store.speechRequests == old(store.speechRequests)[id := NewSpeechRequest(data, id)]
            && response == ErrorResponse(Thrown(outcome.error)))
  {
    var validated := Validate(body);
    if validated.Failure? {
      return ErrorResponse(ZodError(validated.error));
    }
    var data := validated.value;
    ghost var before := store.speechRequests;
    var speechRequest := store.CreateSpeechRequest(data);
    AllPairedUpdate(before, speechRequest.id, speechRequest);
    var prompt := BuildPrompt(data);
    var outcome := ReplyOutcome(complete(prompt), parse);
    if outcome.Failure? {
      return ErrorResponse(Thrown(outcome.error));
    }
    var accepted := outcome.value;
    ghost var created := store.speechRequests;
    var _ := store.UpdateSpeechRequest(speechRequest.id, GenerationResult(accepted.speech, accepted.wordCount));
    GenerationResultAttaches(speechRequest, accepted.speech, accepted.wordCount);
    ghost var final := speechRequest.(generatedSpeech := Some(accepted.speech), wordCount := Some(accepted.wordCount));
    UpdateTwice(before, speechRequest.id, speechRequest, final);
    AllPairedUpdate(before, speechRequest.id, final);
    response := Response(200, SpeechBody(accepted.speech, accepted.wordCount, accepted.readTime));
  }

  lemma UpdateTwice(m: map<int, SpeechRequest>, k: int, a: SpeechRequest, b: SpeechRequest)
    ensures m[k := a][k := b] == m[k := b]
  {
  }

  lemma AllPairedUpdate(requests: map<int, SpeechRequest>, id: int, r: SpeechRequest)
    requires ResultsPaired(r)
    ensures AllPaired(requests) ==> AllPaired(requests[id := r])
  {
  }
}
