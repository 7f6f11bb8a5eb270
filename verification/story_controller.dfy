/** `StoryController`: the input guard of `POST api/story/generate`, the
    translation of service exceptions into HTTP status codes, and the
    `GET api/story` pass-through. The service is a parameter, as it is an
    injected `IStoryService` in the source. */
module StoryController {
  import opened Wrappers
  import opened Text
  import opened Stories
  import opened StoryService

  datatype ActionResult =
    | Ok(story: Story)
    | OkStories(stories: seq<Story>)
    | BadRequest(message: string)
    | StatusCode(code: int, message: string)

  /** The HTTP status code an action result is sent with. */
  function HttpStatus(a: ActionResult): int {
    match a
    case Ok(_) => 200
    case OkStories(_) => 200
    case BadRequest(_) => 400
    case StatusCode(code, _) => code
  }

  /** The status code each caught exception kind is answered with. */
  function StatusFor(kind: ErrKind): int {
    match kind
    case InvalidOperation => 400
    case HttpRequest => 502
    case Timeout => 408
    case OtherException => 500
  }

  /** The text put in front of a caught exception's message. */
  function PrefixFor(kind: ErrKind): string {
    match kind
    case InvalidOperation => "Failed to generate AI story: "
    case HttpRequest => "Failed to communicate with Ollama service: "
    case Timeout => "Request timed out: "
    case OtherException => "An unexpected error occurred: "
  }

  /** Reading the exception kind back from an error status code. */
  function KindOfStatus(code: int): Option<ErrKind> {
    if code == 400 then Some(InvalidOperation)
    else if code == 502 then Some(HttpRequest)
    else if code == 408 then Some(Timeout)
    else if code == 500 then Some(OtherException)
    else None
  }

  /** The exception-to-status table is total and one-to-one: every kind gets
      an error status (never 200), and the status alone tells the kind. */
  lemma StatusIdentifiesKind(kind: ErrKind)
    ensures KindOfStatus(StatusFor(kind)) == Some(kind)
    ensures 400 <= StatusFor(kind) <= 599
  {
  }

  /** A call of the controller action: the result and the problem statements
      the service was called with. */
  datatype Handled = Handled(result: ActionResult, serviceCalls: seq<string>)

  const StatementRequired: string := "Problem statement is required."

  /** `GenerateAiStory`. A null, empty or whitespace-only problem statement is
      answered 400 without calling the service. Otherwise the service is
      called exactly once with the statement as given; its story is returned
      with 200, and an exception of each kind is answered with that kind's
      status code and prefixed message. */
  function GenerateAiStory(problemStatement: Option<string>, service: string -> Result<Story, Exception>)
    : (h: Handled)
    ensures IsNullOrWhiteSpace(problemStatement) ==>
      h == Handled(BadRequest(StatementRequired), [])
    ensures !IsNullOrWhiteSpace(problemStatement) ==>
      h.serviceCalls == [problemStatement.value]
    ensures !IsNullOrWhiteSpace(problemStatement) && service(problemStatement.value).Success? ==>
      h.result == Ok(service(problemStatement.value).value) && HttpStatus(h.result) == 200
    ensures !IsNullOrWhiteSpace(problemStatement) && service(problemStatement.value).Failure? ==>
      var e := service(problemStatement.value).error;
      && HttpStatus(h.result) == StatusFor(e.kind)
      && (h.result.BadRequest? || h.result.StatusCode?)
      && h.result.message == PrefixFor(e.kind) + e.message
  {
    if IsNullOrWhiteSpace(problemStatement) then
      Handled(BadRequest(StatementRequired), [])
    else
      var result :=
        match service(problemStatement.value)
        case Success(story) => Ok(story)
        case Failure(Exception(InvalidOperation, m)) => BadRequest(PrefixFor(InvalidOperation) + m)
        case Failure(Exception(HttpRequest, m)) => StatusCode(502, PrefixFor(HttpRequest) + m)
        case Failure(Exception(Timeout, m)) => StatusCode(408, PrefixFor(Timeout) + m)
        case Failure(Exception(OtherException, m)) => StatusCode(500, PrefixFor(OtherException) + m);
      Handled(result, [problemStatement.value])
  }

  /** `GetStories`: the service's list, unchanged, with 200. */
  function GetStories(stories: seq<Story>): (r: ActionResult)
    ensures r.OkStories? && r.stories == stories && HttpStatus(r) == 200
  {
    OkStories(stories)
  }

  // ---------------------------------------------------------------- controller and service together

  /** The endpoint wired to the real service, with Ollama and the JSON
      readers as parameters. */
  function Endpoint(
    problemStatement: Option<string>, config: Config,
    post: OllamaRequest -> HttpOutcome,
    readEnvelope: string -> EnvelopeRead, readStory: string -> StoryRead,
    newId: string, createdAt: int, updatedAt: int): Handled
  {
    GenerateAiStory(problemStatement,
      s => StoryService.GenerateAiStory(config, s, post, readEnvelope, readStory, newId, createdAt, updatedAt).result)
  }

  /** Wired to the real service, the endpoint answers only 200, 400, 408 or
      502: the service never lets an exception of another kind escape, so the
      500 arm is unreachable. A missing base URL is a 400 carrying the
      configuration message. */
  lemma EndpointStatuses(
    problemStatement: Option<string>, config: Config,
    post: OllamaRequest -> HttpOutcome,
    readEnvelope: string -> EnvelopeRead, readStory: string -> StoryRead,
    newId: string, createdAt: int, updatedAt: int)
    ensures var h := Endpoint(problemStatement, config, post, readEnvelope, readStory, newId, createdAt, updatedAt);
      HttpStatus(h.result) in {200, 400, 408, 502}
    ensures !IsNullOrWhiteSpace(problemStatement) && IsNullOrEmpty(config.ollamaBaseUrl) ==>
      Endpoint(problemStatement, config, post, readEnvelope, readStory, newId, createdAt, updatedAt).result
        == BadRequest("Failed to generate AI story: " + MissingBaseUrl)
  {
    if !IsNullOrWhiteSpace(problemStatement) {
      var g := StoryService.GenerateAiStory(config, problemStatement.value, post, readEnvelope, readStory, newId, createdAt, updatedAt);
      if g.result.Failure? {
        assert g.result.error.kind != OtherException;
      }
    }
  }

  /** A timed-out Ollama call reaches the client as 408, a non-success Ollama
      status as 502. */
  lemma EndpointTransportFailures(
    problemStatement: string, config: Config,
    post: OllamaRequest -> HttpOutcome,
    readEnvelope: string -> EnvelopeRead, readStory: string -> StoryRead,
    newId: string, createdAt: int, updatedAt: int)
    requires !IsNullOrWhiteSpace(Some(problemStatement)) && !IsNullOrEmpty(config.ollamaBaseUrl)
    ensures var request := OllamaRequest(config.ollamaBaseUrl.value + "api/generate", config.ollamaModel, problemStatement);
      var h := Endpoint(Some(problemStatement), config, post, readEnvelope, readStory, newId, createdAt, updatedAt);
      && (post(request).Threw? && post(request).thrown == ThrownTaskCanceled ==> HttpStatus(h.result) == 408)
      && (post(request).Responded? && !post(request).isSuccess ==> HttpStatus(h.result) == 502)
  {
  }
}
