/** The reset page (`pages/4_Reset_Password.py`): three text fields are
    checked in turn, and only a complete, matching form reaches
    `reset_user_password`. */
module ResetPasswordPage {
  import opened CredentialStore

  /** The page's decision before any database work. */
  datatype FormCheck = FieldsRequired | PasswordsDiffer | Proceed

  /** What the page shows after the button is pressed. */
  datatype ResetOutcome =
    | ShowFieldsRequired
    | ShowPasswordsDiffer
    | ResetDone
    | ResetRefused

  /** `if not username or not new_password_1 or not new_password_2` first,
      `elif new_password_1 != new_password_2` second; Python's `not s` on a
      string holds exactly for the empty string. */
  function CheckResetForm(username: string, newPassword: string, confirmation: string): (r: FormCheck)
    ensures r == Proceed <==> username != "" && newPassword != "" && newPassword == confirmation
    ensures r == PasswordsDiffer <==>
              username != "" && newPassword != "" && confirmation != "" && newPassword != confirmation
  {
    if username == "" || newPassword == "" || confirmation == "" then FieldsRequired
    else if newPassword != confirmation then PasswordsDiffer
    else Proceed
  }

  /** An empty field is reported before a mismatch, whatever the passwords. */
  lemma EmptyFieldFirst(username: string, newPassword: string, confirmation: string)
    requires username == "" || newPassword == "" || confirmation == ""
    ensures CheckResetForm(username, newPassword, confirmation) == FieldsRequired
  {
  }

  /** A form with an empty username and two different passwords reports the
      missing field, not the mismatch. */
  lemma EmptyBeatsMismatch()
    ensures CheckResetForm("", "secret", "other") == FieldsRequired
  {
  }

  /** The button press: a rejected form leaves the database alone; an
      accepted one calls `reset_user_password(username, new_password_1)`
      once, and success is shown exactly when that call reports True. After
      a shown success the new password authenticates the user. */
  method SubmitReset(db: Database, username: string, newPassword: string, confirmation: string)
    returns (outcome: ResetOutcome)
    requires db.Valid()
    modifies db
    ensures db.Valid()
    ensures CheckResetForm(username, newPassword, confirmation) == FieldsRequired ==>
              outcome == ShowFieldsRequired && db.users == old(db.users)
    ensures CheckResetForm(username, newPassword, confirmation) == PasswordsDiffer ==>
              outcome == ShowPasswordsDiffer && db.users == old(db.users)
    ensures CheckResetForm(username, newPassword, confirmation) == Proceed ==>
              && (outcome == ResetDone <==> old(db.hasUsersTable) && UserNamed(old(db.users), username).Some?)
              && (outcome != ResetDone ==> outcome == ResetRefused && db.users == old(db.users))
              && (outcome == ResetDone ==>
                    && db.users == ResetHash(old(db.users), username, db.hash(newPassword))
                    && Authenticated(db.users, username, db.hash(newPassword)).Some?)
    ensures db.transactions == old(db.transactions)
    ensures db.userCounter == old(db.userCounter) && db.transactionCounter == old(db.transactionCounter)
    ensures db.hasUsersTable == old(db.hasUsersTable) && db.hasTransactionsTable == old(db.hasTransactionsTable)
  {
    match CheckResetForm(username, newPassword, confirmation)
    case FieldsRequired =>
      outcome := ShowFieldsRequired;
    case PasswordsDiffer =>
      outcome := ShowPasswordsDiffer;
    case Proceed =>
      var before := db.users;
      var reset := db.ResetUserPassword(username, newPassword);
      if reset {
        ResetThenAuthenticate(before, username, db.hash(newPassword), db.hash(newPassword));
        outcome := ResetDone;
      } else {
        outcome := ResetRefused;
      }
  }
}
