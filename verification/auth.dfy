/** The demo sign-in: a fixed credential table and the current user. */
module Auth {
  import opened Wrappers

  datatype Role = Driver | Admin

  datatype User = User(id: string, name: string, role: Role)

  datatype Account = Account(password: string, user: User)

  /** The three demo accounts, keyed by user name. */
  const MockUsers: map<string, Account> := map[
    "driver1" := Account("driver123", User("1", "John Driver", Driver)),
    "driver2" := Account("driver123", User("2", "Jane Driver", Driver)),
    "admin" := Account("admin123", User("3", "Admin User", Admin))
  ]

  predicate Authenticates(username: string, password: string) {
    username in MockUsers && MockUsers[username].password == password
  }

  /** `login`: on matching credentials the account's user becomes current
      and the answer is true; otherwise the current user stays. */
  function Login(current: Option<User>, username: string, password: string): (r: (Option<User>, bool))
    ensures r.1 <==> Authenticates(username, password)
    ensures r.1 ==> r.0 == Some(MockUsers[username].user)
    ensures !r.1 ==> r.0 == current
  {
    if username in MockUsers && MockUsers[username].password == password then
      (Some(MockUsers[username].user), true)
    else (current, false)
  }

  /** `logout`: no current user, whoever it was. */
  function Logout(current: Option<User>): (r: Option<User>)
    ensures r.None?
  {
    None
  }

  predicate IsDriver(current: Option<User>) {
    current.Some? && current.value.role == Driver
  }

  predicate IsAdmin(current: Option<User>) {
    current.Some? && current.value.role == Admin
  }

  /** At most one role flag holds, and none holds when signed out. */
  lemma RoleFlagsExclusive(current: Option<User>)
    ensures !(IsDriver(current) && IsAdmin(current))
    ensures current.None? ==> !IsDriver(current) && !IsAdmin(current)
    ensures current.Some? ==> IsDriver(current) || IsAdmin(current)
  {
  }

  /** Who a successful sign-in makes current: the admin account gives the
      admin role, the two driver accounts the driver role. */
  lemma LoginRoles(current: Option<User>, username: string, password: string)
    ensures Login(current, username, password).1 ==>
      (IsAdmin(Login(current, username, password).0) <==> username == "admin")
    ensures Login(current, username, password).1 ==>
      (IsDriver(Login(current, username, password).0) <==> username == "driver1" || username == "driver2")
    ensures Login(current, "admin", "admin123").1
    ensures !Login(current, "admin", "driver123").1
  {
  }

  /** Signing out after any sign-in attempt leaves nobody signed in. */
  lemma LoginThenLogout(current: Option<User>, username: string, password: string)
    ensures !IsDriver(Logout(Login(current, username, password).0))
    ensures !IsAdmin(Logout(Login(current, username, password).0))
  {
  }
}
