/**
 * The uniform API response of global/common: a success flag, the payload
 * and the error details, serialised by Jackson with null fields left out.
 */
module ApiResponses {
  import opened Wrappers

  /** `ApiResponse.ErrorResponse`: a code and a message. */
  datatype ErrorResponse = ErrorResponse(code: string, message: string)

  /** `ApiResponse<T>`; `None` is a null field. */
  datatype ApiResponse<T> = ApiResponse(success: bool, data: Option<T>, error: Option<ErrorResponse>)

  /** `ApiResponse.success(data)`; a null argument is `None`. */
  function Success<T>(data: Option<T>): (r: ApiResponse<T>)
    ensures r.success && r.data == data && r.error.None?
  {
    ApiResponse(true, data, None)
  }

  /** `ApiResponse.success()`. */
  function SuccessEmpty<T>(): (r: ApiResponse<T>)
    ensures r.success && r.data.None? && r.error.None?
  {
    ApiResponse(true, None, None)
  }

  /** `ApiResponse.error(code, message)`. */
  function Error<T>(code: string, message: string): (r: ApiResponse<T>)
    ensures !r.success && r.data.None? && r.error == Some(ErrorResponse(code, message))
  {
    ApiResponse(false, None, Some(ErrorResponse(code, message)))
  }

  /** What every response the three factories build satisfies: it
    * succeeded exactly when it carries no error, and a failure carries no
    * payload. */
  predicate WellFormed<T>(r: ApiResponse<T>) {
    (r.success <==> r.error.None?) && (!r.success ==> r.data.None?)
  }

  /** The JSON keys Jackson writes under `NON_NULL`, in declaration order;
    * `success` is a primitive and is always written. */
  function JsonKeys<T>(r: ApiResponse<T>): seq<string> {
    ["success"] + (if r.data.Some? then ["data"] else []) + (if r.error.Some? then ["error"] else [])
  }

  /** The factories build only well-formed responses, and every
    * well-formed response is one a factory builds. */
  lemma FactoriesWellFormed<T>(data: Option<T>, code: string, message: string, r: ApiResponse<T>)
    ensures WellFormed(Success(data)) && WellFormed(SuccessEmpty<T>()) && WellFormed(Error<T>(code, message))
    ensures WellFormed(r) <==> r == Success(r.data) || (r.error.Some? && r == Error(r.error.value.code, r.error.value.message))
  {
  }

  /** `success()` is `success(null)`, and no success equals an error. */
  lemma FactoriesDistinct<T>(data: Option<T>, code: string, message: string)
    ensures SuccessEmpty<T>() == Success(None)
    ensures Success(data) != Error(code, message)
  {
  }

  /** A failure is written as `success` and `error` only; a success as
    * `success` and, when there is a payload, `data`. */
  lemma JsonShape<T>(data: Option<T>, code: string, message: string)
    ensures JsonKeys(Error<T>(code, message)) == ["success", "error"]
    ensures JsonKeys(Success(data)) == if data.Some? then ["success", "data"] else ["success"]
    ensures JsonKeys(SuccessEmpty<T>()) == ["success"]
  {
  }
}
