/**
  What a route handler receives and returns. The request is reduced to the
  two headers the handlers read and the parsed JSON body; the environment
  holds `process.env.ADMIN_SECRET` and the engine's string-to-number
  conversion. A handler returns its reply together with the store after it.
 */
module Http {
  import opened Js

  datatype Env = Env(adminSecret: Option<string>, parseNumber: string -> Number)

  /** `req.headers.get("x-admin-secret")`, `req.headers.get("authorization")` and `await req.json()` */
  datatype Request<B> = Request(xAdminSecret: Option<string>, authorization: Option<string>, body: B)

  /** The JSON reply of a handler */
  datatype Reply<T> =
    | Unauthorized
    | BadRequest(error: string, detail: Option<string>)
    | Created(value: T)
    | InternalError
  {
    function Status(): nat {
      match this
      case Unauthorized => 401
      case BadRequest(_, _) => 400
      case Created(_) => 201
      case InternalError => 500
    }
  }

  datatype Handled<T, S> = Handled(reply: Reply<T>, store: S)
}
