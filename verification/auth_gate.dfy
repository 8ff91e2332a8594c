/** The guard every data page applies to the session it reads: an effect
    that redirects to the login page once the session check has finished
    without a user, and a render that shows a placeholder until a user is
    known. */
module AuthGate {
  import opened JsValue

  const LoginPath := "/login"

  /** What the page renders: the `Loading...` placeholder or its content. */
  datatype View = Placeholder | Content

  /** The redirect the effect requests (if any) and the view rendered. */
  datatype Gate = Gate(redirect: Option<string>, view: View)

  /** The guard for a session check that is still `loading` or has finished,
      with or without a signed-in user. */
  function Evaluate(loading: bool, signedIn: bool): (g: Gate)
    ensures g.redirect.Some? <==> !loading && !signedIn
    ensures g.redirect.Some? ==> g.redirect.value == LoginPath
    ensures g.view == Content <==> !loading && signedIn
    ensures g.redirect.Some? ==> g.view == Placeholder
    ensures !loading ==> (g.redirect.Some? <==> g.view == Placeholder)
  {
    Gate(if !loading && !signedIn then Some(LoginPath) else None,
         if loading || !signedIn then Placeholder else Content)
  }
}
