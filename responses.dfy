/** What a handler sends back: an HTTP status and a JSON payload. Errors go
    through `abort(code)` to the handler registered for that code, which
    answers with a fixed message and `success: false`. */
module Responses {
  import opened Wrappers
  import opened Records

  /** The four codes the application registers error handlers for. */
  datatype ErrorKind = BadRequest | NotFound | Unprocessable | InternalError
  {
    function Status(): int
    {
      match this
      case BadRequest => 400
      case NotFound => 404
      case Unprocessable => 422
      case InternalError => 500
    }

    function Message(): string
    {
      match this
      case BadRequest => "Bad request error"
      case NotFound => "Resource not found"
      case Unprocessable => "Unprocessable entity"
      case InternalError => "An error has occured, please try again"
    }
  }

  /** The JSON objects the handlers return. */
  datatype Payload =
    | CategoryList(categories: map<int, string>)
    | QuestionPage(questions: seq<Question>, totalQuestions: nat, categories: map<int, string>)
    | Confirmation(message: string)
    | SearchPage(questions: seq<Question>, totalQuestions: nat)
    | CategoryPage(questions: seq<Question>, totalQuestions: nat, currentCategory: string)
    | QuizQuestion(question: Question)
    | Failure(error: int, message: string)

  datatype Response = Response(status: int, payload: Payload)
  {
    /** The JSON `success` flag: false exactly in the error handlers' bodies. */
    predicate Success()
    {
      !payload.Failure?
    }
  }

  const DeletedMessage: string := "Question successfully deleted"
  const CreatedMessage: string := "Question successfully created!"

  /** The error handler Flask dispatches `abort(status)` to, if one is registered. */
  function HandlerFor(status: int): Option<ErrorKind>
  {
    if status == 400 then Some(BadRequest)
    else if status == 404 then Some(NotFound)
    else if status == 422 then Some(Unprocessable)
    else if status == 500 then Some(InternalError)
    else None
  }

  /** `abort(kind)` followed by the registered handler: the response carries
      the kind's status twice (as HTTP status and as `error`), its message,
      and `success: false`. */
  function Abort(kind: ErrorKind): (r: Response)
    ensures !r.Success()
    ensures r.status == r.payload.error == kind.Status()
    ensures HandlerFor(r.status) == Some(kind)
    ensures r.payload.message == kind.Message()
  {
    Response(kind.Status(), Failure(kind.Status(), kind.Message()))
  }

  /** Each registered status has its own handler and its own message, so a
      client can tell the four failures apart by either. */
  lemma ErrorTableDistinct(a: ErrorKind, b: ErrorKind)
    requires a != b
    ensures a.Status() != b.Status()
    ensures a.Message() != b.Message()
    ensures Abort(a) != Abort(b)
  {
  }
}
