/** Authentication: the login form, logging out, and the two accounts the
    application seeds at start-up. Passwords are stored and compared as
    plain text. */
module Auth {
  import opened Schema
  import opened Http

  /** The session after a request, and the response. */
  datatype SessionReply = SessionReply(session: Option<Id>, outcome: Outcome)

  /** The supplied form fields are exactly this user's name and password. */
  predicate Matches(u: User, username: Option<string>, password: Option<string>) {
    username == Some(u.username) && password == Some(u.password)
  }

  /** GET or POST /login. A GET shows the form. A POST looks the user up by
      name and compares the stored password with the supplied one; success
      starts a session for that user, failure leaves the session as it was. */
  function Login(st: Store, session: Option<Id>, isPost: bool, username: Option<string>, password: Option<string>): (r: SessionReply)
    ensures !isPost ==> r == SessionReply(session, LoginForm)
    ensures isPost ==> r.outcome == Redirect(IndexPage) || r.outcome == LoginFailed
    ensures r.outcome != Redirect(IndexPage) ==> r.session == session
    ensures r.outcome == Redirect(IndexPage) ==>
              r.session.Some? && r.session.value in st.users && Matches(st.users[r.session.value], username, password)
    ensures isPost && UniqueUsernames(st.users) ==>
              (r.outcome == Redirect(IndexPage) <==> exists id :: id in st.users && Matches(st.users[id], username, password))
  {
    if !isPost then SessionReply(session, LoginForm)
    else
      var found := if username.Some? then FindUser(st.users, username.value) else None;
      if found.Some? && password == Some(st.users[found.value].password) then
        SessionReply(Some(found.value), Redirect(IndexPage))
      else
        SessionReply(session, LoginFailed)
  }

  /** GET /logout: ends an authenticated session. */
  function Logout(st: Store, principal: Option<Id>): (r: SessionReply)
    ensures !Authenticated(st, principal) ==> r == SessionReply(principal, LoginRequired)
    ensures Authenticated(st, principal) ==> r == SessionReply(None, Redirect(LoginPage))
  {
    if !Authenticated(st, principal) then SessionReply(principal, LoginRequired)
    else SessionReply(None, Redirect(LoginPage))
  }

  const Boss: User := User("boss", "123", AdminRole)
  const Student: User := User("student", "123", UserRole)

  /** Some stored user is called `name`. */
  predicate HasUser(users: map<Id, User>, name: string) {
    exists id :: id in users && users[id].username == name
  }

  /** Inserting a user under a new key with a name nobody has keeps
      usernames unique. */
  lemma InsertUserKeepsUnique(users: map<Id, User>, id: Id, u: User)
    requires UniqueUsernames(users) && id !in users && !HasUser(users, u.username)
    ensures UniqueUsernames(users[id := u])
  {
  }

  /** Start-up seeding: when no user is called `boss`, insert `boss` (admin)
      and `student` (user) in one commit. That commit breaks the unique
      constraint, and is rejected as a whole (None), when a `student`
      already exists. */
  function Seed(st: Store): (r: Option<Store>)
    ensures HasUser(st.users, "boss") ==> r == Some(st)
    ensures !HasUser(st.users, "boss") && HasUser(st.users, "student") ==> r == None
    ensures r.Some? ==> r.value.songs == st.songs && r.value.playlists == st.playlists && r.value.items == st.items
    ensures r.Some? ==> st.users.Keys <= r.value.users.Keys && forall id :: id in st.users ==> r.value.users[id] == st.users[id]
    ensures !HasUser(st.users, "boss") && !HasUser(st.users, "student") ==>
              r.Some? &&
              exists b: Id, s: Id :: b !in st.users && s !in st.users && b != s &&
                r.value.users == st.users[b := Boss][s := Student]
    ensures r.Some? && Consistent(st) ==> Consistent(r.value)
  {
    if FindUser(st.users, "boss").Some? then Some(st)
    else if FindUser(st.users, "student").Some? then None
    else
      var b := NextId(st.users.Keys);
      var withBoss := st.users[b := Boss];
      var s := NextId(withBoss.Keys);
      var seeded := st.(users := withBoss[s := Student]);
      assert Consistent(st) ==> Consistent(seeded) by {
        if Consistent(st) {
          InsertUserKeepsUnique(st.users, b, Boss);
          assert !HasUser(withBoss, "student");
          InsertUserKeepsUnique(withBoss, s, Student);
        }
      }
      Some(seeded)
  }

  /** The store the application starts from: the empty database, seeded. */
  function InitialStore(): (st: Store)
    ensures Consistent(st)
    ensures st.songs == map[] && st.playlists == map[] && st.items == map[]
    ensures st.users == map[1 := Boss, 2 := Student]
  {
    assert !HasUser(EmptyStore.users, "boss");
    Seed(EmptyStore).value
  }

  /** Logging in as boss with the seeded password gives an admin session;
      a wrong password fails and leaves the session alone. */
  lemma BossLogin(session: Option<Id>)
    ensures var r := Login(InitialStore(), session, true, Some("boss"), Some("123"));
            r.outcome == Redirect(IndexPage) && r.session == Some(1) && ActsAsAdmin(InitialStore(), r.session)
    ensures Login(InitialStore(), session, true, Some("boss"), Some("456")) == SessionReply(session, LoginFailed)
  {
  }

  /** Seeding twice is seeding once: after a successful seed `boss` exists. */
  lemma SeedIdempotent(st: Store)
    requires Seed(st).Some?
    ensures Seed(Seed(st).value) == Seed(st)
  {
    if !HasUser(st.users, "boss") {
      var seeded := Seed(st).value;
      var b: Id, s: Id :| b !in st.users && s !in st.users && b != s &&
        seeded.users == st.users[b := Boss][s := Student];
      assert seeded.users[b].username == "boss";
    }
  }
}
