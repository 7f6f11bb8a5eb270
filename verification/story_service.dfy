/** `StoryService.GenerateAiStory` and its two private steps, `CallOllamaApiAsync`
    and `ParseAiStoryResponse`. The HTTP call and the two JSON readers are
    parameters returning abstract outcomes; what the service does with each
    outcome, and which exception kind each failure leaves as, is modelled. */
module StoryService {
  import opened Wrappers
  import opened Text
  import opened JsonExtraction
  import opened Stories

  /** The exception types the service and its controller tell apart. */
  datatype ErrKind = InvalidOperation | HttpRequest | Timeout | OtherException

  datatype Exception = Exception(kind: ErrKind, message: string)

  /** What escapes `HttpClient.PostAsync` or reading a response body. */
  datatype ThrownKind = ThrownHttpRequest | ThrownTaskCanceled | ThrownOther

  /** The HTTP exchange with Ollama: a response (success flag, status name and
      body text) or an exception. */
  datatype HttpOutcome =
    | Responded(isSuccess: bool, statusName: string, body: string)
    | Threw(thrown: ThrownKind, message: string)

  /** `JsonSerializer.Deserialize<JsonElement>` followed by
      `GetProperty("response").GetString()`: the (possibly null) text, or the
      message of whatever those calls threw. */
  datatype EnvelopeRead = ResponseText(text: Option<string>) | EnvelopeError(message: string)

  /** `JsonSerializer.Deserialize<AiStoryResponse>`: a value, `null`, a
      `JsonException`, or some other exception. */
  datatype StoryRead =
    | Deserialized(response: AiStoryResponse)
    | DeserializedNull
    | JsonError(message: string)
    | ReadError(message: string)

  datatype Config = Config(ollamaBaseUrl: Option<string>, ollamaModel: Option<string>)

  /** A POST to Ollama. The prompt text itself is not modelled; the request
      carries the problem statement the prompt is built from. */
  datatype OllamaRequest = OllamaRequest(url: string, model: Option<string>, problemStatement: string)

  /** A run of `GenerateAiStory`: its outcome and the requests it sent. */
  datatype Generation = Generation(result: Result<Story, Exception>, requests: seq<OllamaRequest>)

  const MissingBaseUrl: string := "OllamaBaseUrl is not configured."
  const TimedOut: string := "The request to Ollama timed out"
  const CallFailedPrefix: string := "An unexpected error occurred while calling the Ollama API: "
  const ParseFailedPrefix: string := "An unexpected error occurred while parsing the AI story response: "

  /** `CallOllamaApiAsync` after the request has been sent: a successful
      response yields its body; a non-success status becomes an HttpRequest
      error naming the status and the body; an HttpRequest exception passes
      through unchanged; a cancellation becomes a Timeout; anything else
      becomes an InvalidOperation. */
  function CallOllamaApi(outcome: HttpOutcome): (r: Result<string, Exception>)
    ensures r.Success? <==> outcome.Responded? && outcome.isSuccess
    ensures r.Success? ==> r.value == outcome.body
    ensures outcome.Responded? && !outcome.isSuccess ==>
      r == Failure(Exception(HttpRequest,
        "Ollama API request failed with status " + outcome.statusName + ": " + outcome.body))
    ensures outcome.Threw? && outcome.thrown == ThrownHttpRequest ==>
      r == Failure(Exception(HttpRequest, outcome.message))
    ensures outcome.Threw? && outcome.thrown == ThrownTaskCanceled ==>
      r == Failure(Exception(Timeout, TimedOut))
    ensures outcome.Threw? && outcome.thrown == ThrownOther ==>
      r == Failure(Exception(InvalidOperation, CallFailedPrefix + outcome.message))
  {
    match outcome
    case Responded(ok, status, body) =>
      if ok then Success(body)
      else Failure(Exception(HttpRequest, "Ollama API request failed with status " + status + ": " + body))
    case Threw(ThrownHttpRequest, m) => Failure(Exception(HttpRequest, m))
    case Threw(ThrownTaskCanceled, _) => Failure(Exception(Timeout, TimedOut))
    case Threw(ThrownOther, m) => Failure(Exception(InvalidOperation, CallFailedPrefix + m))
  }

  /** The body of the `try` in `ParseAiStoryResponse`: a thrown message on
      failure, before the outer `catch` wraps it. */
  function ParseSteps(content: string, readEnvelope: string -> EnvelopeRead, readStory: string -> StoryRead)
    : Result<AiStoryResponse, string>
  {
    match readEnvelope(content)
    case EnvelopeError(m) => Failure(m)
    case ResponseText(text) =>
      if IsNullOrEmpty(text) then Failure("Ollama returned an empty response")
      else
        var json := FirstJsonObject(text.value);
        if IsNullOrEmpty(json) then
          Failure("Failed to find a JSON object in the AI response. Response: " + text.value)
        else
          match readStory(json.value)
          case JsonError(_) => Failure("Failed to parse AI response as JSON. Response: " + json.value)
          case ReadError(m) => Failure(m)
          case DeserializedNull => Failure("Failed to deserialize AI response. Response: " + json.value)
          case Deserialized(response) => Success(response)
  }

  /** `ParseAiStoryResponse`: every failure, whatever its cause, leaves as an
      InvalidOperation whose message starts with the parse-failure prefix. It
      succeeds exactly when the envelope yields non-empty text, a JSON object
      is extracted from it, and that object (and nothing else) deserializes. */
  function ParseAiStoryResponse(content: string, readEnvelope: string -> EnvelopeRead, readStory: string -> StoryRead)
    : (r: Result<AiStoryResponse, Exception>)
    ensures r.Failure? ==> r.error.kind == InvalidOperation && ParseFailedPrefix <= r.error.message
    ensures r.Success? <==>
      && readEnvelope(content).ResponseText?
      && !IsNullOrEmpty(readEnvelope(content).text)
      && FirstJsonObject(readEnvelope(content).text.value).Some?
      && readStory(FirstJsonObject(readEnvelope(content).text.value).value).Deserialized?
    ensures r.Success? ==>
      r.value == readStory(FirstJsonObject(readEnvelope(content).text.value).value).response
  {
    match ParseSteps(content, readEnvelope, readStory)
    case Success(response) => Success(response)
    case Failure(m) => Failure(Exception(InvalidOperation, ParseFailedPrefix + m))
  }

  /** The story built from a parsed reply. */
  function NewStory(response: AiStoryResponse, id: string, createdAt: int, updatedAt: int): Story {
    Story(id, response.title, Description(response), ToDo, Low, None, true, createdAt, updatedAt)
  }

  /** `GenerateAiStory`. A null or empty base URL fails with InvalidOperation
      before any request is sent; otherwise exactly one request goes to
      `<base URL>api/generate`. A story comes back only when the call and the
      parse both succeed, and then its title is the reply's title, its
      description is built from the reply, it is ToDo, Low priority, has no
      points and is marked AI-generated. Otherwise the exception of the failing
      step passes through unchanged. Failures are only ever
      InvalidOperation, HttpRequest or Timeout. `newId`, `createdAt` and
      `updatedAt` stand for `Guid.NewGuid()` and the two `DateTime.UtcNow` reads. */
  function GenerateAiStory(
    config: Config, problemStatement: string,
    post: OllamaRequest -> HttpOutcome,
    readEnvelope: string -> EnvelopeRead, readStory: string -> StoryRead,
    newId: string, createdAt: int, updatedAt: int): (g: Generation)
    ensures IsNullOrEmpty(config.ollamaBaseUrl) ==>
      g == Generation(Failure(Exception(InvalidOperation, MissingBaseUrl)), [])
    ensures !IsNullOrEmpty(config.ollamaBaseUrl) ==>
      g.requests == [OllamaRequest(config.ollamaBaseUrl.value + "api/generate", config.ollamaModel, problemStatement)]
    ensures g.result.Success? ==>
      var call := CallOllamaApi(post(g.requests[0]));
      && call.Success?
      && var response := ParseAiStoryResponse(call.value, readEnvelope, readStory);
      && response.Success?
      && var s := g.result.value;
      && s.id == newId
      && s.title == response.value.title
      && s.description == Description(response.value)
      && s.status == ToDo && s.priority == Low
      && s.storyPoints == None && s.isAiGenerated
      && s.dateCreated == createdAt && s.lastUpdated == updatedAt
    ensures !IsNullOrEmpty(config.ollamaBaseUrl) ==>
      var call := CallOllamaApi(post(g.requests[0]));
      && (call.Failure? ==> g.result == Failure(call.error))
      && (call.Success? ==>
            var parsed := ParseAiStoryResponse(call.value, readEnvelope, readStory);
            && (parsed.Failure? ==> g.result == Failure(parsed.error))
            && (parsed.Success? ==> g.result == Success(NewStory(parsed.value, newId, createdAt, updatedAt))))
    ensures g.result.Failure? ==> g.result.error.kind != OtherException
  {
    if IsNullOrEmpty(config.ollamaBaseUrl) then
      Generation(Failure(Exception(InvalidOperation, MissingBaseUrl)), [])
    else
      var request := OllamaRequest(config.ollamaBaseUrl.value + "api/generate", config.ollamaModel, problemStatement);
      var result :=
        match CallOllamaApi(post(request))
        case Failure(e) => Failure(e)
        case Success(content) =>
          match ParseAiStoryResponse(content, readEnvelope, readStory)
          case Failure(e) => Failure(e)
          case Success(response) => Success(NewStory(response, newId, createdAt, updatedAt));
      Generation(result, [request])
  }

  /** An extracted JSON object is never empty, so the `IsNullOrEmpty` test
      after extraction fails only when nothing was found. */
  lemma ExtractedObjectNeverEmpty(text: string)
    ensures IsNullOrEmpty(FirstJsonObject(text)) <==> FirstJsonObject(text).None?
  {
    if FirstJsonObject(text).Some? {
      FirstJsonObjectSome(text);
    }
  }

  /** A reply with no `{` at all is a parse failure naming the reply. */
  lemma NoObjectIsParseFailure(content: string, readEnvelope: string -> EnvelopeRead, readStory: string -> StoryRead)
    requires readEnvelope(content).ResponseText?
    requires readEnvelope(content).text.Some? && readEnvelope(content).text.value != []
    requires '{' !in readEnvelope(content).text.value
    ensures ParseAiStoryResponse(content, readEnvelope, readStory)
         == Failure(Exception(InvalidOperation, ParseFailedPrefix
              + "Failed to find a JSON object in the AI response. Response: " + readEnvelope(content).text.value))
  {
    var text := readEnvelope(content).text.value;
    FirstJsonObjectNone(text);
    assert FirstJsonObject(text) == None;
    var m := "Failed to find a JSON object in the AI response. Response: " + text;
    assert ParseSteps(content, readEnvelope, readStory) == Failure(m);
    assert ParseFailedPrefix + m == ParseFailedPrefix + "Failed to find a JSON object in the AI response. Response: " + text;
  }
}
