/** The authentication hook: it starts signed out, asks the server to verify
    the session once, and keeps what the answer says. */
module Auth {
  import opened Wrappers
  import opened Http

  /** A role as it arrives in JSON: the hook's declared numeric codes
      (0 admin, 1 user) or the Boolean the backend actually stores
      (true user, false admin). JavaScript's `===` tells them apart. */
  datatype RoleValue = Num(n: int) | Flag(b: bool)

  datatype AuthState = AuthState(authenticated: bool, role: Option<RoleValue>)

  const SignedOut := AuthState(false, None)

  /** The state a verify answer leads to: signed in with the answered role
      after a successful reply, signed out after a failed or rejected one. */
  function AuthAfter(reply: Reply<RoleValue>): (s: AuthState)
    ensures s.authenticated <==> reply.Success?
    ensures s.role.Some? <==> reply.Success?
    ensures reply.Success? ==> s.role == Some(reply.body)
  {
    match reply
    case Success(role) => AuthState(true, Some(role))
    case Failure => SignedOut
    case NetworkError => SignedOut
  }

  class AuthHook {
    var state: AuthState

    /** Before the verify answer arrives the hook reports signed out. */
    constructor()
      ensures state == SignedOut && !state.authenticated && state.role.None?
    {
      state := SignedOut;
    }

    /** The verify handler: the state is replaced by what the answer says. */
    method OnVerify(reply: Reply<RoleValue>)
      modifies this
      ensures state == AuthAfter(reply)
    {
      match reply
      case Success(role) =>
        state := AuthState(true, Some(role));
      case Failure =>
        state := SignedOut;
      case NetworkError =>
        state := SignedOut;
    }
  }
}
