/** What the modelled code throws. `new Error(message)` keeps its message, which is what callers and
    the user interface see; the runtime's own exceptions are told apart by kind only. */
module Errors {

  datatype Error =
    | Thrown(message: string)   // `new Error(message)`
    | TypeError                 // a property read on null or undefined, a call of a non-function, ...
    | RangeError                // `writeUInt32BE` of a number outside [0, 2^32)
    | SyntaxError(message: string)  // `JSON.parse` of malformed text
    | NetworkError              // a request that failed without an HTTP response

  /** The session is missing or Steam answered 401/403: the user must log in again. */
  const LoginRequired: Error := Thrown("LOGIN_REQUIRED")

  /** Steam's answer to a confirmation request whose signature it did not accept. */
  const SignatureRejected: Error := Thrown("Steam Rejected Signature (Oh nooooooes!)")

  /** Revoking one device is not supported; only signing out everywhere is. */
  const RevokeUnsupported: Error := Thrown("DEVICE_REVOKE_UNSUPPORTED")
}
