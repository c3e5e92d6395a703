/** The login state `app.py` keeps in `st.session_state` and the sidebar
    handlers that change it: login, registration and logout. */
module SessionState {
  import opened Common
  import opened CredentialStore

  /** What the sidebar reports after a login attempt. */
  datatype LoginOutcome = LoggedIn(username: string) | InvalidCredentials

  /** What the sidebar reports after a registration attempt; a taken name is
      reported by `create_user` itself. */
  datatype RegisterOutcome = Registered(username: string) | UsernameTaken | EmptyFields

  /** `if new_username and new_password`: both strings non-empty. */
  function RegisterAllowed(newUsername: string, newPassword: string): (allowed: bool)
    ensures allowed <==> |newUsername| > 0 && |newPassword| > 0
  {
    newUsername != [] && newPassword != []
  }

  class Session {
    var loggedIn: bool
    var username: Option<string>
    var userId: Option<int>

    /** Logged in exactly when both the name and the id are set. */
    predicate Valid()
      reads this
    {
      if loggedIn then username.Some? && userId.Some? else username.None? && userId.None?
    }

    /** The first visit: not logged in, no name, no id. */
    constructor ()
      ensures Valid() && !loggedIn && username.None? && userId.None?
    {
      loggedIn, username, userId := false, None, None;
    }

    /** `show_login_form`: a row from `authenticate_user` logs its user in;
        no row leaves the session as it was. */
    method Login(db: Database, name: string, password: string) returns (outcome: LoginOutcome)
      requires Valid() && db.Valid() && db.hasUsersTable
      modifies this
      ensures Valid()
      ensures var user := Authenticated(db.users, name, db.hash(password));
              if user.Some?
              then outcome == LoggedIn(user.value.username) && loggedIn
                   && username == Some(user.value.username) && userId == Some(user.value.id)
              else outcome == InvalidCredentials && loggedIn == old(loggedIn)
                   && username == old(username) && userId == old(userId)
    {
      var user := db.AuthenticateUser(name, password);
      if user.Some? {
        loggedIn := true;
        username := Some(user.value.username);
        userId := Some(user.value.id);
        outcome := LoggedIn(user.value.username);
      } else {
        outcome := InvalidCredentials;
      }
    }

    /** `show_register_form`: empty fields are refused before the store is
        touched; otherwise `create_user` decides. Registering does not log in. */
    method Register(db: Database, newUsername: string, newPassword: string) returns (outcome: RegisterOutcome)
      requires db.Valid() && db.hasUsersTable
      modifies db
      ensures db.Valid()
      ensures !RegisterAllowed(newUsername, newPassword) ==>
                outcome == EmptyFields && db.users == old(db.users) && db.userCounter == old(db.userCounter)
      ensures RegisterAllowed(newUsername, newPassword) ==>
                if UserNamed(old(db.users), newUsername).None?
                then outcome == Registered(newUsername)
                     && db.users == old(db.users) + [User(old(db.userCounter) + 1, newUsername, db.hash(newPassword))]
                else outcome == UsernameTaken && db.users == old(db.users)
      ensures db.userCounter == if outcome.Registered? then old(db.userCounter) + 1 else old(db.userCounter)
      ensures db.transactions == old(db.transactions) && db.transactionCounter == old(db.transactionCounter)
      ensures db.hasUsersTable && db.hasTransactionsTable == old(db.hasTransactionsTable)
    {
      if RegisterAllowed(newUsername, newPassword) {
        var created := db.CreateUser(newUsername, newPassword);
        outcome := if created then Registered(newUsername) else UsernameTaken;
      } else {
        outcome := EmptyFields;
      }
    }

    /** `show_logout_button`: all three fields back to their first-visit values. */
    method Logout()
      modifies this
      ensures Valid() && !loggedIn && username.None? && userId.None?
    {
      loggedIn, username, userId := false, None, None;
    }
  }

  /** Only a stored user can be logged in: a successful login sets the id
      and name of a row whose hash is the hash of the password given. */
  lemma LoginOnlyWithMatchingRow(users: seq<User>, name: string, passwordHash: string)
    requires UniqueUsernames(users) && Authenticated(users, name, passwordHash).Some?
    ensures exists i | 0 <= i < |users| :: users[i] == Authenticated(users, name, passwordHash).value
                                           && users[i].username == name && users[i].passwordHash == passwordHash
  {
    AuthenticatedSpec(users, name, passwordHash);
    var u := Authenticated(users, name, passwordHash).value;
    var i :| 0 <= i < |users| && users[i] == u;
  }
}
