/** The HTTP errors the handlers raise, one constructor per distinct response. */
module Errors {

  datatype Error =
    | AlreadyExists       // register: "Email already registered"
    | InvalidCredentials  // login: "Incorrect email or password"
    | Unauthenticated     // identity resolution: "Could not validate credentials"
    | PastDueDate         // create/update: "Due date must be in the future"
    | NotFound            // read/update/delete: "Task not found"
    | Unprocessable       // request body rejected by the schema (FastAPI's 422)
    | ServerFault         // an exception no handler catches (500)

  /** The status code each error is answered with. */
  function Status(e: Error): (code: int)
    ensures 400 <= code < 600
    ensures code == 401 <==> e == InvalidCredentials || e == Unauthenticated
    ensures code == 400 <==> e == AlreadyExists || e == PastDueDate
  {
    match e
    case AlreadyExists => 400
    case InvalidCredentials => 401
    case Unauthenticated => 401
    case PastDueDate => 400
    case NotFound => 404
    case Unprocessable => 422
    case ServerFault => 500
  }
}
