/**
 * The error-code table of global/exception: each code's HTTP status, its
 * code string and its message.
 */
module ErrorCodes {

  /** The `HttpStatus` values the table uses. */
  datatype HttpStatus = BadRequest | NotFound | MethodNotAllowed | Conflict | InternalServerError | ServiceUnavailable

  /** `HttpStatus.value()`. */
  function StatusValue(s: HttpStatus): (v: nat)
    ensures 400 <= v < 600
  {
    match s
    case BadRequest => 400
    case NotFound => 404
    case MethodNotAllowed => 405
    case Conflict => 409
    case InternalServerError => 500
    case ServiceUnavailable => 503
  }

  datatype ErrorCode =
    | InvalidInputValue | MethodNotAllowedError | InternalServerErrorCode | InvalidTypeValue
    | SwitchNotFound | SwitchAlreadyExists
    | PlateNotFound | PlateAlreadyExists
    | VideoNotFound | VideoAlreadyExists
    | SyncFailed | GoogleSheetsApiError

  /** `getStatus()`. */
  function Status(e: ErrorCode): HttpStatus {
    match e
    case InvalidInputValue => BadRequest
    case MethodNotAllowedError => MethodNotAllowed
    case InternalServerErrorCode => InternalServerError
    case InvalidTypeValue => BadRequest
    case SwitchNotFound => NotFound
    case SwitchAlreadyExists => Conflict
    case PlateNotFound => NotFound
    case PlateAlreadyExists => Conflict
    case VideoNotFound => NotFound
    case VideoAlreadyExists => Conflict
    case SyncFailed => InternalServerError
    case GoogleSheetsApiError => ServiceUnavailable
  }

  /** `getCode()`. */
  function Code(e: ErrorCode): string {
    match e
    case InvalidInputValue => "C001"
    case MethodNotAllowedError => "C002"
    case InternalServerErrorCode => "C003"
    case InvalidTypeValue => "C004"
    case SwitchNotFound => "S001"
    case SwitchAlreadyExists => "S002"
    case PlateNotFound => "P001"
    case PlateAlreadyExists => "P002"
    case VideoNotFound => "V001"
    case VideoAlreadyExists => "V002"
    case SyncFailed => "SY001"
    case GoogleSheetsApiError => "SY002"
  }

  /** `getMessage()`. */
  function Message(e: ErrorCode): string {
    match e
    case InvalidInputValue => "잘못된 입력값입니다."
    case MethodNotAllowedError => "지원하지 않는 HTTP 메소드입니다."
    case InternalServerErrorCode => "서버 오류가 발생했습니다."
    case InvalidTypeValue => "잘못된 타입입니다."
    case SwitchNotFound => "스위치를 찾을 수 없습니다."
    case SwitchAlreadyExists => "이미 존재하는 스위치입니다."
    case PlateNotFound => "보강판을 찾을 수 없습니다."
    case PlateAlreadyExists => "이미 존재하는 보강판입니다."
    case VideoNotFound => "영상을 찾을 수 없습니다."
    case VideoAlreadyExists => "이미 존재하는 영상입니다."
    case SyncFailed => "동기화에 실패했습니다."
    case GoogleSheetsApiError => "Google Sheets API 오류가 발생했습니다."
  }

  /** The domain a code belongs to, read from its prefix: `C` common, `S`
    * switch, `P` plate, `V` video, `SY` sync. */
  function Domain(code: string): string {
    if |code| >= 2 && code[0] == 'S' && code[1] == 'Y' then "SY" else if code != [] then [code[0]] else ""
  }

  /** The "not found" constants. */
  predicate IsNotFound(e: ErrorCode) {
    e == SwitchNotFound || e == PlateNotFound || e == VideoNotFound
  }

  /** The "already exists" constants. */
  predicate IsAlreadyExists(e: ErrorCode) {
    e == SwitchAlreadyExists || e == PlateAlreadyExists || e == VideoAlreadyExists
  }

  /** No two constants share a code: a code identifies its constant. */
  lemma CodesUnique(a: ErrorCode, b: ErrorCode)
    ensures Code(a) == Code(b) ==> a == b
  {
    if Code(a) == Code(b) {
      assert Code(a)[..|Code(a)|] == Code(b)[..|Code(b)|];
    }
  }

  /** Every code is a letter prefix and a three-digit number, and its
    * prefix names its domain. */
  lemma CodeForm(e: ErrorCode)
    ensures 4 <= |Code(e)| <= 5
    ensures Domain(Code(e)) == "C" <==> e in {InvalidInputValue, MethodNotAllowedError, InternalServerErrorCode, InvalidTypeValue}
    ensures Domain(Code(e)) == "S" <==> e in {SwitchNotFound, SwitchAlreadyExists}
    ensures Domain(Code(e)) == "P" <==> e in {PlateNotFound, PlateAlreadyExists}
    ensures Domain(Code(e)) == "V" <==> e in {VideoNotFound, VideoAlreadyExists}
    ensures Domain(Code(e)) == "SY" <==> e in {SyncFailed, GoogleSheetsApiError}
  {
  }

  /** Statuses follow the kind of error: every "not found" is 404, every
    * "already exists" is 409, and every status is an error status. */
  lemma StatusByKind(e: ErrorCode)
    ensures IsNotFound(e) ==> StatusValue(Status(e)) == 404
    ensures IsAlreadyExists(e) ==> StatusValue(Status(e)) == 409
    ensures StatusValue(Status(e)) == 404 ==> IsNotFound(e)
    ensures StatusValue(Status(e)) == 409 ==> IsAlreadyExists(e)
    ensures StatusValue(Status(e)) < 500 <==> !(e in {InternalServerErrorCode, SyncFailed, GoogleSheetsApiError})
  {
  }

  /** Every constant has a message. */
  lemma MessagesPresent(e: ErrorCode)
    ensures Message(e) != []
  {
  }
}
