/** The SQLite store of `utils.py`: the `users` table (id, unique username,
    SHA-256 password hash) and the `transactions` table of recorded
    predictions, held in memory. Ids follow AUTOINCREMENT: each new row gets
    one more than the largest id the table has ever handed out. */
module CredentialStore {
  import opened Common
  import FeaturePipeline

  datatype User = User(id: int, username: string, passwordHash: string)

  /** A row of `transactions`; `rawInput` is the record the prediction page
      serialised (stored here as the record itself). */
  datatype Transaction = Transaction(id: int, userId: int, timestamp: string,
                                     rawInput: FeaturePipeline.Record, prediction: string,
                                     probability: real)

  /** The UNIQUE constraint on `username` (SQLite compares TEXT exactly). */
  predicate UniqueUsernames(users: seq<User>) {
    forall i, j | 0 <= i < j < |users| :: users[i].username != users[j].username
  }

  /** Ids in insertion order, all positive and at most the table's counter. */
  predicate IdsBelow(ids: seq<int>, counter: int) {
    (forall i, j | 0 <= i < j < |ids| :: ids[i] < ids[j]) && (forall i | 0 <= i < |ids| :: 0 < ids[i] <= counter)
  }

  /** The id column of a table, in row order. */
  function Ids<R>(rows: seq<R>, id: R -> int): (ids: seq<int>)
    ensures |ids| == |rows| && forall i | 0 <= i < |rows| :: ids[i] == id(rows[i])
  {
    seq(|rows|, i requires 0 <= i < |rows| => id(rows[i]))
  }

  const UserId: User -> int := (u: User) => u.id
  const TransactionId: Transaction -> int := (t: Transaction) => t.id

  /** `SELECT ... FROM users WHERE username = ?`: the row with that name. */
  function UserNamed(users: seq<User>, username: string): (r: Option<User>)
    ensures r.Some? <==> exists i | 0 <= i < |users| :: users[i].username == username
    ensures r.Some? ==> r.value in users && r.value.username == username
  {
    if |users| == 0 then None
    else if users[0].username == username then Some(users[0])
    else
      var r := UserNamed(users[1..], username);
      assert forall i | 1 <= i < |users| :: users[i] == users[1..][i - 1];
      r
  }

  /** `SELECT * FROM users WHERE username = ? AND password_hash = ?`. */
  function Authenticated(users: seq<User>, username: string, passwordHash: string): (r: Option<User>)
  {
    match UserNamed(users, username)
    case Some(u) => if u.passwordHash == passwordHash then Some(u) else None
    case None => None
  }

  /** `UPDATE users SET password_hash = ? WHERE username = ?`. */
  function ResetHash(users: seq<User>, username: string, passwordHash: string): (r: seq<User>)
    ensures |r| == |users|
    ensures forall i | 0 <= i < |users| ::
              r[i] == if users[i].username == username then users[i].(passwordHash := passwordHash) else users[i]
  {
    seq(|users|, i requires 0 <= i < |users| =>
      if users[i].username == username then users[i].(passwordHash := passwordHash) else users[i])
  }

  /** With unique usernames, the row found by name is the one at its index. */
  lemma UserNamedAt(users: seq<User>, i: nat)
    requires UniqueUsernames(users) && i < |users|
    ensures UserNamed(users, users[i].username) == Some(users[i])
  {
    var r := UserNamed(users, users[i].username);
    var k :| 0 <= k < |users| && users[k] == r.value;
  }

  /** Authentication succeeds exactly for a stored username whose stored
      hash is the hash given, and returns that row. */
  lemma AuthenticatedSpec(users: seq<User>, username: string, passwordHash: string)
    requires UniqueUsernames(users)
    ensures Authenticated(users, username, passwordHash).Some?
        <==> exists i | 0 <= i < |users| :: users[i].username == username && users[i].passwordHash == passwordHash
    ensures Authenticated(users, username, passwordHash).Some? ==>
              var u := Authenticated(users, username, passwordHash).value;
              u in users && u.username == username && u.passwordHash == passwordHash
  {
    if i :| 0 <= i < |users| && users[i].username == username && users[i].passwordHash == passwordHash {
      UserNamedAt(users, i);
    }
  }

  /** Resetting keeps every id and username and changes the hash of the
      named row only. */
  lemma ResetKeepsRows(users: seq<User>, username: string, passwordHash: string)
    ensures Ids(ResetHash(users, username, passwordHash), UserId) == Ids(users, UserId)
    ensures forall i | 0 <= i < |users| :: ResetHash(users, username, passwordHash)[i].username == users[i].username
    ensures forall i | 0 <= i < |users| && users[i].username != username ::
              ResetHash(users, username, passwordHash)[i] == users[i]
  {
  }

  lemma ResetKeepsUnique(users: seq<User>, username: string, passwordHash: string)
    requires UniqueUsernames(users)
    ensures UniqueUsernames(ResetHash(users, username, passwordHash))
  {
    ResetKeepsRows(users, username, passwordHash);
  }

  /** After a reset the new hash authenticates the user, and the old one
      does not unless it hashes alike. */
  lemma ResetThenAuthenticate(users: seq<User>, username: string, oldHash: string, newHash: string)
    requires UniqueUsernames(users) && UserNamed(users, username).Some?
    ensures Authenticated(ResetHash(users, username, newHash), username, newHash).Some?
    ensures oldHash != newHash ==> Authenticated(ResetHash(users, username, newHash), username, oldHash).None?
  {
    var r := ResetHash(users, username, newHash);
    ResetKeepsUnique(users, username, newHash);
    var i :| 0 <= i < |users| && users[i].username == username;
    assert r[i] == users[i].(passwordHash := newHash);
    UserNamedAt(r, i);
  }

  /** Appending a row with an unused username keeps usernames unique. */
  lemma AppendKeepsUnique(users: seq<User>, u: User)
    requires UniqueUsernames(users) && UserNamed(users, u.username).None?
    ensures UniqueUsernames(users + [u])
  {
    var r := users + [u];
    forall i, j | 0 <= i < j < |r| ensures r[i].username != r[j].username {
      if j == |users| {
        assert r[i] == users[i];
      } else {
        assert r[i] == users[i] && r[j] == users[j];
      }
    }
  }

  /** Appending an id one more than the counter keeps ids increasing and bounded. */
  lemma AppendKeepsIds(ids: seq<int>, counter: int)
    requires IdsBelow(ids, counter) && counter >= 0
    ensures IdsBelow(ids + [counter + 1], counter + 1)
  {
    var r := ids + [counter + 1];
    assert forall i | 0 <= i < |ids| :: r[i] == ids[i];
  }

  class Database {
    /** Whether `CREATE TABLE` has run for each table. */
    var hasUsersTable: bool
    var hasTransactionsTable: bool
    var users: seq<User>
    var transactions: seq<Transaction>
    /** The AUTOINCREMENT counters (`sqlite_sequence`). */
    var userCounter: int
    var transactionCounter: int
    /** `hashlib.sha256(password.encode()).hexdigest()`. */
    const hash: string -> string

    predicate Valid()
      reads this
    {
      && UniqueUsernames(users)
      && userCounter >= 0 && transactionCounter >= 0
      && IdsBelow(Ids(users, UserId), userCounter)
      && IdsBelow(Ids(transactions, TransactionId), transactionCounter)
      && (!hasUsersTable ==> users == [])
      && (!hasTransactionsTable ==> transactions == [])
    }

    /** A database file with no tables yet. */
    constructor (hash: string -> string)
      ensures Valid() && this.hash == hash
      ensures !hasUsersTable && !hasTransactionsTable && users == [] && transactions == []
    {
      this.hash := hash;
      hasUsersTable, hasTransactionsTable := false, false;
      users, transactions := [], [];
      userCounter, transactionCounter := 0, 0;
    }

    /** `initialize_database`: both tables exist afterwards; tables that
        existed keep their rows (`CREATE TABLE IF NOT EXISTS`). */
    method InitializeDatabase()
      requires Valid()
      modifies this
      ensures Valid() && hasUsersTable && hasTransactionsTable
      ensures users == old(users) && transactions == old(transactions)
      ensures userCounter == old(userCounter) && transactionCounter == old(transactionCounter)
    {
      hasUsersTable := true;
      hasTransactionsTable := true;
    }

    /** `create_user`: inserts (username, hash(password)) under a fresh id
        and reports True, or reports False on a taken username and leaves
        the table as it was. */
    method CreateUser(username: string, password: string) returns (created: bool)
      requires Valid() && hasUsersTable
      modifies this
      ensures Valid() && hasUsersTable == old(hasUsersTable) && hasTransactionsTable == old(hasTransactionsTable)
      ensures created <==> UserNamed(old(users), username).None?
      ensures created ==> users == old(users) + [User(old(userCounter) + 1, username, hash(password))]
                          && userCounter == old(userCounter) + 1
      ensures !created ==> users == old(users) && userCounter == old(userCounter)
      ensures transactions == old(transactions) && transactionCounter == old(transactionCounter)
    {
      var passwordHash := hash(password);
      if UserNamed(users, username).Some? {
        created := false;
      } else {
        var u := User(userCounter + 1, username, passwordHash);
        AppendKeepsUnique(users, u);
        AppendKeepsIds(Ids(users, UserId), userCounter);
        assert Ids(users + [u], UserId) == Ids(users, UserId) + [userCounter + 1];
        users := users + [u];
        userCounter := userCounter + 1;
        created := true;
      }
    }

    /** `authenticate_user`: the row whose username and stored hash match,
        if any; nothing changes. */
    method AuthenticateUser(username: string, password: string) returns (user: Option<User>)
      requires Valid() && hasUsersTable
      ensures user == Authenticated(users, username, hash(password))
      ensures user.Some? <==> exists i | 0 <= i < |users| :: users[i].username == username && users[i].passwordHash == hash(password)
      ensures user.Some? ==> user.value in users && user.value.username == username
    {
      AuthenticatedSpec(users, username, hash(password));
      user := Authenticated(users, username, hash(password));
    }

    /** `reset_user_password`: replaces the hash of a known user and
        reports True; an unknown user, or a missing table (a `sqlite3.Error`
        the function catches), reports False and changes nothing. */
    method ResetUserPassword(username: string, newPassword: string) returns (reset: bool)
      requires Valid()
      modifies this
      ensures Valid()
      ensures reset <==> old(hasUsersTable) && UserNamed(old(users), username).Some?
      ensures users == if reset then ResetHash(old(users), username, hash(newPassword)) else old(users)
      ensures hasUsersTable == old(hasUsersTable) && hasTransactionsTable == old(hasTransactionsTable)
      ensures transactions == old(transactions)
      ensures userCounter == old(userCounter) && transactionCounter == old(transactionCounter)
    {
      var newHash := hash(newPassword);
      if !hasUsersTable {
        reset := false;
      } else if UserNamed(users, username).Some? {
        ResetKeepsUnique(users, username, newHash);
        ResetKeepsRows(users, username, newHash);
        users := ResetHash(users, username, newHash);
        reset := true;
      } else {
        reset := false;
      }
    }

    /** The INSERT of the prediction page: one more row under a fresh id.
        SQLite does not enforce the foreign key on `user_id` unless asked to,
        so any user id is accepted. */
    method InsertTransaction(userId: int, timestamp: string, rawInput: FeaturePipeline.Record,
                             prediction: string, probability: real)
      requires Valid() && hasTransactionsTable
      modifies this
      ensures Valid() && hasUsersTable == old(hasUsersTable) && hasTransactionsTable == old(hasTransactionsTable)
      ensures transactions == old(transactions)
                              + [Transaction(old(transactionCounter) + 1, userId, timestamp, rawInput, prediction, probability)]
      ensures transactionCounter == old(transactionCounter) + 1
      ensures users == old(users) && userCounter == old(userCounter)
    {
      var t := Transaction(transactionCounter + 1, userId, timestamp, rawInput, prediction, probability);
      AppendKeepsIds(Ids(transactions, TransactionId), transactionCounter);
      assert Ids(transactions + [t], TransactionId) == Ids(transactions, TransactionId) + [transactionCounter + 1];
      transactions := transactions + [t];
      transactionCounter := transactionCounter + 1;
    }
  }
}
