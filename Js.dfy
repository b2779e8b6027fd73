/** Values of the JavaScript runtime that the services pass around: optional
    properties, promise outcomes, the error objects thrown by the AWS SDK and
    by the HTTP client, and the truthiness tests the handlers apply to them. */
module Js {

  /** A property that may be `undefined`. */
  datatype Option<+T> = None | Some(value: T)

  /** A settled promise or a node-style callback: resolved with a value or
      rejected with an error. */
  datatype Result<+T, +E> = Ok(value: T) | Err(error: E)

  /** Raw bytes, as held by a Node `Buffer`. */
  type Bytes = seq<bv8>

  /** The error objects of the SDK and of the HTTP client. Every field is
      optional: an SDK error has statusCode/code/message, a `new Error(..)`
      has name/message, a refused connection has code/address/port. */
  datatype JsError = JsError(
    statusCode: Option<int>,
    code: Option<string>,
    message: Option<string>,
    name: Option<string>,
    address: Option<string>,
    port: Option<string>)

  /** JavaScript truthiness of an optional string: `undefined` and `""` are falsy. */
  predicate Truthy(s: Option<string>) {
    s.Some? && s.value != ""
  }

  /** JavaScript truthiness of an optional number: `undefined` and `0` are falsy. */
  predicate TruthyInt(n: Option<int>) {
    n.Some? && n.value != 0
  }

  /** What a template literal `${x}` produces for an optional string. */
  function Interpolate(s: Option<string>): string {
    match s
    case Some(v) => v
    case None => "undefined"
  }

  /** An error that carries only a code and a message, as the SDK raises them. */
  function ServiceError(statusCode: int, code: string, message: string): JsError {
    JsError(Some(statusCode), Some(code), Some(message), Some(code), None, None)
  }
}
