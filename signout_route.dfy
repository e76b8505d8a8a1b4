/**
 * POST /api/auth/signout: overwrite the session cookie with an empty, expired
 * one. No user is needed and no store is touched.
 */
module SignoutRoute {
  import opened Js
  import opened Auth
  import opened Http

  /** POST /api/auth/signout */
  function Post(env: Env): (res: Response)
    ensures res.status == 200 && res.body == SuccessBody(true)
    ensures res.cookie.Some?
    ensures res.cookie.value.name == TokenName && res.cookie.value.value == "" && res.cookie.value.maxAge == 0
    ensures forall token :: res.cookie.value.(value := token, maxAge := OneWeek) == BuildAuthCookie(env, token)
  {
    var cookie := BuildAuthCookie(env, "");
    Response(200, SuccessBody(true), Some(cookie.(maxAge := 0, value := "")))
  }
}
