/** The identity the authentication middleware hands to every protected
    handler: the user record looked up by the token's id, reduced to `id`,
    `username` and `email`. Verifying the token is outside the model; the
    handlers receive this triple as a trusted input. */
module Auth {

  /** Ids are compared by their string form throughout the server. */
  type UserId = string

  /** `req.user` as the middleware builds it. It has an `id` key and no `_id` key. */
  datatype AuthUser = AuthUser(id: UserId, username: string, email: string)
}
