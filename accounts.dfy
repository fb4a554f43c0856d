/** The account records both identity stores keep, the checks `register` and
    `login` make, the record updates the stores apply, and the invariants
    those updates preserve. */
module Accounts {
  import opened Common

  /** The bootstrap account created when nothing is persisted. */
  const BOOTSTRAP_ADMIN: string := "admin"
  const BOOTSTRAP_PASSWORD: string := "admin123"
  const BOOTSTRAP_EMAIL: string := "admin@loanrisk.ai"
  const BOOTSTRAP_FULLNAME: string := "Administrator"

  const ROLE_ADMIN: string := "admin"
  const ROLE_USER: string := "user"
  const STATUS_ACTIVE: string := "active"
  const STATUS_INACTIVE: string := "inactive"

  const MIN_PASSWORD_LENGTH: nat := 6

  /** One stored user record. Role and status are kept as the strings the
      store holds, since persisted data may carry any value. Times are
      milliseconds since the epoch. */
  datatype Account = Account(
    username: string,
    password: string,
    email: string,
    fullname: string,
    role: string,
    createdAt: int,
    lastLogin: Option<int>,
    loginCount: nat,
    predictions: nat,
    status: string)

  /** The view of the logged-in user that a store keeps as `currentUser`. */
  datatype SessionUser = SessionUser(
    username: string,
    email: string,
    fullname: string,
    role: string,
    sessionId: string)

  /** The reasons `register` refuses, in the order it checks them. */
  datatype RegisterError =
    | MissingField       // "All fields are required"
    | PasswordMismatch   // "Passwords do not match"
    | PasswordTooShort   // "Password must be at least 6 characters"
    | UsernameTaken      // "Username already exists"
    | EmailTaken         // "Email already registered"

  /** The reasons `login` refuses. Unknown user and wrong password share
      one message, "Invalid username or password". */
  datatype LoginError =
    | InvalidCredentials
    | AccountInactive    // "Account is inactive"

  /** Position of a registration failure in the order of the checks. */
  function RegisterRank(e: RegisterError): nat
  {
    match e
    case MissingField => 0
    case PasswordMismatch => 1
    case PasswordTooShort => 2
    case UsernameTaken => 3
    case EmailTaken => 4
  }

  predicate EmailInUse(users: map<string, Account>, email: string)
  {
    exists u :: u in users && users[u].email == email
  }

  /** Whether the check of the given rank passes. */
  predicate RegisterCheckPasses(users: map<string, Account>, username: string, email: string,
                                password: string, confirm: string, fullname: string, rank: nat)
  {
    match rank
    case 0 => |username| > 0 && |email| > 0 && |password| > 0 && |fullname| > 0
    case 1 => password == confirm
    case 2 => |password| >= MIN_PASSWORD_LENGTH
    case 3 => username !in users
    case _ => !EmailInUse(users, email)
  }

  predicate AllRegisterChecksPass(users: map<string, Account>, username: string, email: string,
                                  password: string, confirm: string, fullname: string)
  {
    && RegisterCheckPasses(users, username, email, password, confirm, fullname, 0)
    && RegisterCheckPasses(users, username, email, password, confirm, fullname, 1)
    && RegisterCheckPasses(users, username, email, password, confirm, fullname, 2)
    && RegisterCheckPasses(users, username, email, password, confirm, fullname, 3)
    && RegisterCheckPasses(users, username, email, password, confirm, fullname, 4)
  }

  /** The validation `register` performs before it creates an account: it
      succeeds exactly when all five checks pass, and otherwise reports the
      first check that fails, every earlier one having passed. */
  function RegisterCheck(users: map<string, Account>, username: string, email: string,
                         password: string, confirm: string, fullname: string): (r: Option<RegisterError>)
    ensures r.None? <==> AllRegisterChecksPass(users, username, email, password, confirm, fullname)
    ensures r.Some? ==> !RegisterCheckPasses(users, username, email, password, confirm, fullname, RegisterRank(r.value))
    ensures r.Some? ==> forall k :: 0 <= k < RegisterRank(r.value) ==> RegisterCheckPasses(users, username, email, password, confirm, fullname, k)
  {
    if |username| == 0 || |email| == 0 || |password| == 0 || |fullname| == 0 then Some(MissingField)
    else if password != confirm then Some(PasswordMismatch)
    else if |password| < MIN_PASSWORD_LENGTH then Some(PasswordTooShort)
    else if username in users then Some(UsernameTaken)
    else if EmailInUse(users, email) then Some(EmailTaken)
    else None
  }

  /** The record a successful registration stores. */
  function NewAccount(username: string, email: string, digest: string, fullname: string, now: int): Account
  {
    Account(username, digest, email, fullname, ROLE_USER, now, None, 0, 0, STATUS_ACTIVE)
  }

  /** The single bootstrap account, given its password digest. */
  function DefaultUsers(digest: string, now: int): (users: map<string, Account>)
    ensures users.Keys == {BOOTSTRAP_ADMIN}
    ensures users[BOOTSTRAP_ADMIN].role == ROLE_ADMIN && users[BOOTSTRAP_ADMIN].status == STATUS_ACTIVE
    ensures users[BOOTSTRAP_ADMIN].loginCount == 0 && users[BOOTSTRAP_ADMIN].predictions == 0
    ensures users[BOOTSTRAP_ADMIN].lastLogin == None && users[BOOTSTRAP_ADMIN].password == digest
  {
    map[BOOTSTRAP_ADMIN := Account(BOOTSTRAP_ADMIN, digest, BOOTSTRAP_EMAIL, BOOTSTRAP_FULLNAME,
                                   ROLE_ADMIN, now, None, 0, 0, STATUS_ACTIVE)]
  }

  /** The accounts `loadUsers` ends with: the parsed value when the key
      parses, otherwise the bootstrap account. */
  function LoadedUsers(slot: Slot<map<string, Account>>, digest: string, now: int): (users: map<string, Account>)
    ensures slot.Holds? ==> users == slot.value
    ensures !slot.Holds? ==> users == DefaultUsers(digest, now)
  {
    if slot.Holds? then slot.value else DefaultUsers(digest, now)
  }

  /** The admin set `loadUsers` ends with: the parsed list when the key
      parses, otherwise just the bootstrap account. */
  function LoadedAdmins(slot: Slot<set<string>>): (admins: set<string>)
    ensures slot.Holds? ==> admins == slot.value
    ensures !slot.Holds? ==> admins == {BOOTSTRAP_ADMIN}
  {
    if slot.Holds? then slot.value else {BOOTSTRAP_ADMIN}
  }

  /** The check `login` makes, given the digest of the typed password: an
      unknown user and a wrong password give the same error, and an inactive
      account is reported only to a caller who knows its password. */
  function LoginCheck(users: map<string, Account>, username: string, digest: string): (r: Option<LoginError>)
    ensures r.None? <==> username in users && users[username].password == digest && users[username].status == STATUS_ACTIVE
    ensures username !in users ==> r == Some(InvalidCredentials)
    ensures username in users && users[username].password != digest ==> r == Some(InvalidCredentials)
    ensures r == Some(AccountInactive) <==>
              username in users && users[username].password == digest && users[username].status != STATUS_ACTIVE
  {
    if username !in users then Some(InvalidCredentials)
    else if users[username].password != digest then Some(InvalidCredentials)
    else if users[username].status != STATUS_ACTIVE then Some(AccountInactive)
    else None
  }

  /** The record after a successful login at time `now`. */
  function LoggedIn(a: Account, now: int): Account
  {
    a.(lastLogin := Some(now), loginCount := a.loginCount + 1)
  }

  function SessionView(a: Account, sessionId: string): SessionUser
  {
    SessionUser(a.username, a.email, a.fullname, a.role, sessionId)
  }

  // ---------------------------------------------------------------------
  // Invariants of the account collection

  /** Each record is stored under its own username. */
  ghost predicate KeysMatch(users: map<string, Account>)
  {
    forall u :: u in users ==> users[u].username == u
  }

  /** No two accounts share an email. */
  ghost predicate UniqueEmails(users: map<string, Account>)
  {
    forall u, v :: u in users && v in users && u != v ==> users[u].email != users[v].email
  }

  /** The admin set names exactly the accounts whose role is admin. */
  ghost predicate RolesAgree(users: map<string, Account>, admins: set<string>)
  {
    && admins <= users.Keys
    && forall u :: u in users ==> (u in admins <==> users[u].role == ROLE_ADMIN)
  }

  ghost predicate Consistent(users: map<string, Account>, admins: set<string>)
  {
    KeysMatch(users) && UniqueEmails(users) && RolesAgree(users, admins)
  }

  /** The bootstrap state satisfies every invariant. */
  lemma DefaultConsistent(digest: string, now: int)
    ensures Consistent(DefaultUsers(digest, now), {BOOTSTRAP_ADMIN})
  {
  }

  /** A registration that passed every check keeps the collection consistent:
      the new username was free, the new email unused, and the new account
      is a plain user outside the admin set. */
  lemma RegisterPreservesConsistency(users: map<string, Account>, admins: set<string>, username: string,
                                     email: string, password: string, confirm: string, fullname: string,
                                     digest: string, now: int)
    requires Consistent(users, admins)
    requires RegisterCheck(users, username, email, password, confirm, fullname).None?
    ensures Consistent(users[username := NewAccount(username, email, digest, fullname, now)], admins)
    ensures |users[username := NewAccount(username, email, digest, fullname, now)]| == |users| + 1
  {
    var users' := users[username := NewAccount(username, email, digest, fullname, now)];
    forall u, v | u in users' && v in users' && u != v
      ensures users'[u].email != users'[v].email
    {
      if u == username {
        assert users'[v] == users[v];
      } else if v == username {
        assert users'[u] == users[u];
      }
    }
  }

  /** Changing any record through a field that is not its username, email or
      role keeps the collection consistent. */
  lemma SameKeyFieldsPreserveConsistency(users: map<string, Account>, admins: set<string>, u: string, a: Account)
    requires Consistent(users, admins) && u in users
    requires a.username == users[u].username && a.email == users[u].email && a.role == users[u].role
    ensures Consistent(users[u := a], admins)
  {
  }

  /** Promotion adds to the set and sets the role together. */
  lemma PromotePreservesConsistency(users: map<string, Account>, admins: set<string>, u: string)
    requires Consistent(users, admins) && u in users
    ensures Consistent(users[u := users[u].(role := ROLE_ADMIN)], admins + {u})
  {
  }

  /** Demotion removes from the set and sets the role together. */
  lemma DemotePreservesConsistency(users: map<string, Account>, admins: set<string>, u: string)
    requires Consistent(users, admins) && u in users
    ensures Consistent(users[u := users[u].(role := ROLE_USER)], admins - {u})
  {
  }

  /** Deletion removes the account and its admin-set membership together. */
  lemma DeletePreservesConsistency(users: map<string, Account>, admins: set<string>, u: string)
    requires Consistent(users, admins)
    ensures Consistent(users - {u}, admins - {u})
  {
  }
}
