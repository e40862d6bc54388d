/** What a request handler answers: a redirect, a page, or an error status. */
module Http {
  /** Why a form was answered with status 400. */
  datatype Refusal =
    | MissingFields       // a required field is empty
    | BadGroupFormat      // the group is not four digits
    | GroupMismatch       // the chosen class belongs to another group
    | InvalidCredentials  // unknown login or wrong password
    | AccountExists       // the login or the e-mail is already registered
    | RegistrationFailed  // any other database error while registering

  datatype Outcome =
    | Redirect(to: string)
    | Render(page: string)
    | BadRequest(why: Refusal)
    | Forbidden
    | NotFound
    | ServerError

  const ToDashboard: Outcome := Redirect("/dashboard")
  const ToLogin: Outcome := Redirect("/login")
}
