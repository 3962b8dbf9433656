/** The route guard (src/components/ProtectedRoute.tsx): render the page,
    or redirect. The token cookie is a parameter. */
module ProtectedRoute {
  import opened Wrappers
  import opened AuthSlice

  datatype Decision = Render | Redirect(path: string)

  const RootPath := "/"
  const JoinRoomPath := "/join-room"
  const RoomsPath := "/interviewer/rooms"

  /** Where a signed-in user of a role belongs. */
  function HomeOf(role: Option<Role>): string {
    match role
    case Some(Interviewee) => JoinRoomPath
    case Some(Interviewer) => RoomsPath
    case None => RootPath
  }

  /** Signed out or without a (non-empty) token goes to `/`; a role other
      than the page's goes to that role's home, `/` for no role; otherwise
      the page renders. */
  function Guard(auth: AuthState, token: Option<string>, allowedRole: Option<Role>): (d: Decision)
    ensures d == Render <==> auth.isAuthenticated && token.Some? && token.value != "" && auth.role == allowedRole
    ensures !auth.isAuthenticated || token.None? || token.value == "" ==> d == Redirect(RootPath)
    ensures auth.isAuthenticated && token.Some? && token.value != "" && auth.role != allowedRole
            ==> d == Redirect(HomeOf(auth.role))
  {
    if !auth.isAuthenticated || token.None? || token.value == "" then Redirect(RootPath)
    else if auth.role != allowedRole then Redirect(HomeOf(auth.role))
    else Render
  }

  /** A redirect never points back at a guarded page of the user's own role:
      an interviewee is sent to the room-joining page, an interviewer to
      the room list, and nobody is redirected in a loop on their own page. */
  lemma RedirectTargets(auth: AuthState, token: Option<string>, allowed: Option<Role>)
    ensures Guard(auth, token, allowed).Redirect? ==>
              Guard(auth, token, allowed).path in {RootPath, JoinRoomPath, RoomsPath}
    ensures Guard(auth, token, allowed).Redirect? && auth.isAuthenticated && token.Some? && token.value != "" ==>
              auth.role != allowed
  {
  }

  /** After a login with a role and a token, that role's pages render and
      the other role's pages redirect home; after a logout every page
      redirects to `/`. */
  lemma LoginThenGuard(s: AuthState, role: Role, email: string, name: string, token: string, other: Role)
    requires token != "" && other != role
    ensures Guard(Login(s, Some(role), email, name), Some(token), Some(role)) == Render
    ensures Guard(Login(s, Some(role), email, name), Some(token), Some(other)) == Redirect(HomeOf(Some(role)))
    ensures Guard(Logout(s), Some(token), Some(role)) == Redirect(RootPath)
  {
  }
}
