/**
 * The query endpoint: a request carries text or a base64 image; non-blank
 * text is answered as a question, otherwise an image is described, and a
 * request with neither is refused with status 400.
 */
module App {
  import opened Wrappers
  import opened PyText
  import opened JsonValue
  import opened Qa

  /** Which branch `query` takes for a request body. */
  datatype Route =
    | TextRoute(text: string)
    | ImageRoute(image: Json)
    | NoInput
    | TextNotAString   // `.strip()` on a non-string raises before any branch is chosen

  /** Text that `strip()` leaves non-empty. */
  predicate UsableText(data: Obj) {
    "text" in data && data["text"].JStr? && Strip(data["text"].s) != []
  }

  /** The `if` / `elif` / `else` of `query`. */
  function Dispatch(data: Obj): (r: Route)
    ensures UsableText(data) ==> r == TextRoute(data["text"].s)
    ensures !UsableText(data) && "image" in data && !r.TextNotAString? ==> r == ImageRoute(data["image"])
    ensures r == NoInput <==> ("text" !in data || data["text"].JStr?) && !UsableText(data) && "image" !in data
    ensures r.TextNotAString? <==> "text" in data && !data["text"].JStr?
  {
    if "text" in data && !data["text"].JStr? then TextNotAString
    else if "text" in data && Strip(data["text"].s) != [] then TextRoute(data["text"].s)
    else if "image" in data then ImageRoute(data["image"])
    else NoInput
  }

  /** Empty or whitespace-only text counts as no text: the request falls
      through to the image, or is refused when there is none. */
  lemma BlankTextFallsThrough(data: Obj)
    requires "text" in data && data["text"].JStr? && AllSpace(data["text"].s)
    ensures "image" in data ==> Dispatch(data) == ImageRoute(data["image"])
    ensures "image" !in data ==> Dispatch(data) == NoInput
  {
    var t := data["text"].s;
    StripExact(t, [], []);
    assert t + [] + [] == t;
  }

  datatype AppError = TextFieldNotAString | AnswerFailed(cause: QaError)

  /** What the endpoint sends: the answer object, a client error, or (for an
      exception) a server error. */
  datatype Response =
    | Ok(body: Answer)
    | ClientError(status: nat, message: string)
    | ServerError(cause: AppError)

  function Reply(r: Result<Answer, QaError>): Response
  {
    match r
    case Success(a) => Ok(a)
    case Failure(e) => ServerError(AnswerFailed(e))
  }

  /** `query()`: answer the chosen branch with the default `k` of 5; on success
      the body is exactly that answer function's result. */
  method Query(p: Pipeline, data: Obj) returns (resp: Response)
    requires p.Valid()
    ensures Dispatch(data).TextRoute? ==> resp == Reply(TextAnswer(p, Dispatch(data).text, 5))
    ensures Dispatch(data).ImageRoute? ==> resp == Reply(ImageAnswer(p, Dispatch(data).image, 5))
    ensures Dispatch(data) == NoInput ==> resp == ClientError(400, "No text or image provided")
    ensures Dispatch(data) == TextNotAString ==> resp == ServerError(TextFieldNotAString)
    ensures resp.Ok? ==> Dispatch(data).TextRoute? || Dispatch(data).ImageRoute?
  {
    match Dispatch(data)
    case TextRoute(text) =>
      var res := AnswerFromText(p, text);
      resp := Reply(res);
    case ImageRoute(image) =>
      var res := AnswerFromImage(p, image);
      resp := Reply(res);
    case NoInput =>
      resp := ClientError(400, "No text or image provided");
    case TextNotAString =>
      resp := ServerError(TextFieldNotAString);
  }
}
