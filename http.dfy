/** What a route handler sends back: status, JSON body and the effect on the refresh cookie. */
module Http {
  import opened Schema
  import opened Tokens

  datatype Body =
    | ErrorBody(error: string)                          // { error }
    | SessionBody(accessToken: string, user: SessionUser)  // { accessToken, user }
    | IdBody(id: nat)                                   // { id }
    | OkBody                                            // { ok: true }
    | UserBody(view: UserView)                          // one selected user
    | UserListBody(views: seq<UserView>)                // an array of selected users

  datatype CookieOp =
    | NoCookie
    | SetCookie(name: string, value: string, options: CookieOptions)  // res.cookie(name, value, options)
    | ClearCookie(name: string, options: CookieOptions)               // res.clearCookie(name, options)

  /**
   * `Thrown`: the handler's promise rejects (a store call threw and nothing
   * catches it), so the handler itself answers nothing.
   */
  datatype Response = Response(status: int, body: Body, cookie: CookieOp) | Thrown

  function Json(body: Body): Response { Response(200, body, NoCookie) }

  function Error(status: int, message: string): Response { Response(status, ErrorBody(message), NoCookie) }
}
