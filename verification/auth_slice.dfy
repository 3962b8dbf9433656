/** The client's sign-in state (src/store/slices/authSlice.ts). */
module AuthSlice {
  import opened Wrappers

  datatype Role = Interviewee | Interviewer

  /** `role` is `null` (None) when nobody is signed in, and whatever the
      login payload carried otherwise — the payload may itself carry null. */
  datatype AuthState = AuthState(isAuthenticated: bool, role: Option<Role>, userEmail: string, userName: string)

  const Initial := AuthState(false, None, "", "")

  /** `login`: authenticated, with role, e-mail and name taken from the payload. */
  function Login(s: AuthState, role: Option<Role>, email: string, name: string): (r: AuthState)
    ensures r.isAuthenticated && r.role == role && r.userEmail == email && r.userName == name
  {
    s.(isAuthenticated := true, role := role, userEmail := email, userName := name)
  }

  /** `logout`: every field back to its initial value. */
  function Logout(s: AuthState): (r: AuthState)
    ensures !r.isAuthenticated && r.role.None? && r.userEmail == "" && r.userName == ""
  {
    s.(isAuthenticated := false, role := None, userEmail := "", userName := "")
  }

  /** Logging out yields the initial state from anywhere, so it is idempotent
      and undoes any login. */
  lemma LogoutRestoresInitial(s: AuthState, role: Option<Role>, email: string, name: string)
    ensures Logout(s) == Initial
    ensures Logout(Logout(s)) == Logout(s)
    ensures Logout(Login(s, role, email, name)) == Initial
  {
  }

  /** A second login replaces everything the first one set. */
  lemma LoginLastWins(s: AuthState, r1: Option<Role>, e1: string, n1: string, r2: Option<Role>, e2: string, n2: string)
    ensures Login(Login(s, r1, e1, n1), r2, e2, n2) == Login(s, r2, e2, n2)
  {
  }
}
