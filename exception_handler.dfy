/**
 * The global exception handler: which exception becomes which HTTP status
 * and which error response. Spring selects the handler of the most
 * specific matching exception type; `Other` is every exception none of
 * the four specific handlers takes.
 */
module ExceptionHandling {
  import opened Wrappers
  import opened ApiResponses
  import opened ErrorCodes

  /** The exceptions the handler distinguishes. `ArgumentNotValid` carries
    * the default messages of its field errors, in order (`None`: a field
    * error without one). */
  datatype Failure =
    | Business(errorCode: ErrorCode)
    | ArgumentNotValid(fieldErrors: seq<Option<string>>)
    | TypeMismatch
    | MethodNotSupported
    | Other

  /** A `ResponseEntity<ApiResponse<Void>>`. */
  datatype Handled = Handled(status: HttpStatus, body: ApiResponse<()>)

  /** The message of a validation failure: the first field error's default
    * message, or the table's when there is no field error or the first
    * one has no default message. */
  function ValidationMessage(fieldErrors: seq<Option<string>>): (m: string)
    ensures fieldErrors != [] && fieldErrors[0].Some? ==> m == fieldErrors[0].value
    ensures fieldErrors == [] || fieldErrors[0].None? ==> m == Message(InvalidInputValue)
  {
    if fieldErrors != [] && fieldErrors[0].Some? then fieldErrors[0].value else Message(InvalidInputValue)
  }

  /** The five `@ExceptionHandler` methods. */
  function Handle(f: Failure): (h: Handled)
    ensures !h.body.success && h.body.data.None? && h.body.error.Some?
  {
    match f
    case Business(e) => Handled(Status(e), Error(Code(e), Message(e)))
    case ArgumentNotValid(errs) => Handled(BadRequest, Error(Code(InvalidInputValue), ValidationMessage(errs)))
    case TypeMismatch => Handled(BadRequest, Error(Code(InvalidTypeValue), Message(InvalidTypeValue)))
    case MethodNotSupported => Handled(MethodNotAllowed, Error(Code(MethodNotAllowedError), Message(MethodNotAllowedError)))
    case Other => Handled(InternalServerError, Error(Code(InternalServerErrorCode), Message(InternalServerErrorCode)))
  }

  /** The table entry each handler answers with. */
  function CodeOf(f: Failure): ErrorCode {
    match f
    case Business(e) => e
    case ArgumentNotValid(_) => InvalidInputValue
    case TypeMismatch => InvalidTypeValue
    case MethodNotSupported => MethodNotAllowedError
    case Other => InternalServerErrorCode
  }

  /** Every handled exception is answered as its table entry says: the
    * entry's status (even where the handler names the status directly),
    * the entry's code, and the entry's message, except that a validation
    * failure may carry its field error's message instead. */
  lemma HandledAsTable(f: Failure)
    ensures var h := Handle(f);
            && h.status == Status(CodeOf(f))
            && h.body.error.value.code == Code(CodeOf(f))
            && (!f.ArgumentNotValid? ==> h.body.error.value.message == Message(CodeOf(f)))
            && (f.ArgumentNotValid? ==> h.body.error.value.message == ValidationMessage(f.fieldErrors))
  {
  }

  /** The code in the body determines the status: two answers with the
    * same code have the same status. */
  lemma CodeDeterminesStatus(f: Failure, g: Failure)
    ensures Handle(f).body.error.value.code == Handle(g).body.error.value.code ==> Handle(f).status == Handle(g).status
  {
    HandledAsTable(f);
    HandledAsTable(g);
    CodesUnique(CodeOf(f), CodeOf(g));
  }

  /** Every answer is a well-formed failure with an error status, and
    * serialises without a `data` key. */
  lemma HandledIsFailure(f: Failure)
    ensures WellFormed(Handle(f).body) && !Handle(f).body.success
    ensures 400 <= StatusValue(Handle(f).status) < 600
    ensures JsonKeys(Handle(f).body) == ["success", "error"]
  {
    HandledAsTable(f);
    JsonShape<()>(None, Handle(f).body.error.value.code, Handle(f).body.error.value.message);
  }

  /** Only a business exception with a 4xx code, a validation failure, a
    * type mismatch or an unsupported method is a client error; a "not
    * found" business exception is a 404. */
  lemma ClientErrors(f: Failure)
    ensures StatusValue(Handle(f).status) < 500 <==>
              f.ArgumentNotValid? || f.TypeMismatch? || f.MethodNotSupported?
              || (f.Business? && StatusValue(Status(f.errorCode)) < 500)
    ensures f.Business? && IsNotFound(f.errorCode) ==> StatusValue(Handle(f).status) == 404
  {
    if f.Business? {
      StatusByKind(f.errorCode);
    }
  }
}
