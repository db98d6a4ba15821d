/**
 * The HTTP exceptions of the authentication package, and the Python
 * runtime errors that some paths of the routes raise instead of one of them.
 */
module Exceptions {

  /** The five `HTTPException` subclasses of the package. */
  datatype HttpError =
    | CredentialsException
    | InactiveUserException
    | UserAlreadyExistsException
    | UserNoPrivilegesException
    | UserDoesNotExistException

  /** Errors the code raises without meaning to: an attribute read on `None`,
      a missing dictionary key, a failed database constraint, and so on. */
  datatype RuntimeError =
    | AttributeError
    | KeyError
    | TypeError
    | ValueError
    | IntegrityError
    | DataError

  /** How a request ends when it does not return a value. */
  datatype Failure = Raised(http: HttpError) | Crashed(error: RuntimeError)

  /** The status code each exception is constructed with. */
  function StatusCode(e: HttpError): (code: int)
    ensures 400 <= code <= 404 && code != 402
    ensures code == 401 <==> e == CredentialsException
    ensures code == 403 <==> e == UserNoPrivilegesException
    ensures code == 404 <==> e == UserDoesNotExistException
    ensures code == 400 <==> e in {InactiveUserException, UserAlreadyExistsException}
  {
    match e
    case CredentialsException => 401
    case InactiveUserException => 400
    case UserAlreadyExistsException => 400
    case UserNoPrivilegesException => 403
    case UserDoesNotExistException => 404
  }

  /** The `detail` message each exception is constructed with. */
  function Detail(e: HttpError): (d: string)
    ensures |d| > 0
  {
    match e
    case CredentialsException => "Could not validate credentials"
    case InactiveUserException => "Inactive user"
    case UserAlreadyExistsException => "The user with this email already exists in the system"
    case UserNoPrivilegesException => "The user has no privileges to perform this action"
    case UserDoesNotExistException => "The user with this email does not exist in the system"
  }

  /** Every exception has its own message, so a client can tell apart even
      the two that share status 400. */
  lemma DetailsTellApart(e1: HttpError, e2: HttpError)
    ensures Detail(e1) == Detail(e2) <==> e1 == e2
  {
  }

  /** The response headers each exception carries: only the credentials
      failure asks the client for a bearer token. */
  function Headers(e: HttpError): (h: map<string, string>)
    ensures h != map[] <==> e == CredentialsException
    ensures e == CredentialsException ==> h == map["WWW-Authenticate" := "Bearer"]
  {
    if e == CredentialsException then
      var h := map["WWW-Authenticate" := "Bearer"];
      assert "WWW-Authenticate" in h;
      h
    else
      map[]
  }
}
