/** Types shared by every part of the parental-monitoring backend model. */
module Common {

  /** Document ids are the uuid4 strings the server generates. */
  type Id = string

  /** Instants (`datetime.utcnow()`), as whole seconds; larger is newer. */
  type Timestamp = nat

  /** Lifetime of a login token: seven days, in seconds. */
  const TokenLifetime: nat := 7 * 24 * 60 * 60

  datatype Option<+T> = None | Some(value: T) {
    function GetOr(default: T): T {
      match this
      case Some(v) => v
      case None => default
    }
  }

  /** The outcome of one endpoint: its JSON body, or the status and detail of
      the `HTTPException` it raises. */
  datatype Response<+T> = Ok(body: T) | Err(status: nat, detail: string)

  /** The `detail` strings of the `HTTPException`s the handlers raise. */
  const EmailTaken := "Email already registered"
  const InvalidCredentials := "Invalid credentials"
  const TeenNotFound := "Teen not found"
  const NoLocation := "No location data found"
  const AlertNotFound := "Alert not found"

  function Min(a: nat, b: nat): nat {
    if a <= b then a else b
  }
}
