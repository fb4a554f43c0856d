/** The variant identity store of auth-backup.js. It differs from the primary
    store in its guards (no name guard on promote and delete), keeps a map of
    sessions, persists the whole current-user view, renders the password
    digest in decimal, and offers the record accessors the admin dashboard
    uses. */
module AuthBackup {
  import opened Common
  import opened Accounts
  import PasswordHash

  /** A session lasts a day from login, in milliseconds. */
  const SESSION_LIFETIME: int := 24 * 60 * 60 * 1000

  datatype SessionRecord = SessionRecord(username: string, loginTime: int, lastActivity: int, expiresAt: int)

  /** The fields an `updateUser` call may carry, one per record field;
      absent fields keep their value. */
  datatype AccountUpdate = AccountUpdate(
    username: Option<string>,
    password: Option<string>,
    email: Option<string>,
    fullname: Option<string>,
    role: Option<string>,
    createdAt: Option<int>,
    lastLogin: Option<Option<int>>,
    loginCount: Option<nat>,
    predictions: Option<nat>,
    status: Option<string>)

  /** An update carrying no field. */
  const NO_UPDATE: AccountUpdate := AccountUpdate(None, None, None, None, None, None, None, None, None, None)

  function Pick<T>(o: Option<T>, current: T): T
  {
    if o.Some? then o.value else current
  }

  /** The shallow merge `{ ...record, ...updates }`: each field the update
      carries replaces the stored one, and every other field is kept. */
  function Merge(a: Account, u: AccountUpdate): (r: Account)
    ensures r.username == (if u.username.Some? then u.username.value else a.username)
    ensures r.password == (if u.password.Some? then u.password.value else a.password)
    ensures r.email == (if u.email.Some? then u.email.value else a.email)
    ensures r.fullname == (if u.fullname.Some? then u.fullname.value else a.fullname)
    ensures r.role == (if u.role.Some? then u.role.value else a.role)
    ensures r.createdAt == (if u.createdAt.Some? then u.createdAt.value else a.createdAt)
    ensures r.lastLogin == (if u.lastLogin.Some? then u.lastLogin.value else a.lastLogin)
    ensures r.loginCount == (if u.loginCount.Some? then u.loginCount.value else a.loginCount)
    ensures r.predictions == (if u.predictions.Some? then u.predictions.value else a.predictions)
    ensures r.status == (if u.status.Some? then u.status.value else a.status)
    ensures u == NO_UPDATE ==> r == a
  {
    Account(Pick(u.username, a.username),
            Pick(u.password, a.password),
            Pick(u.email, a.email),
            Pick(u.fullname, a.fullname),
            Pick(u.role, a.role),
            Pick(u.createdAt, a.createdAt),
            Pick(u.lastLogin, a.lastLogin),
            Pick(u.loginCount, a.loginCount),
            Pick(u.predictions, a.predictions),
            Pick(u.status, a.status))
  }

  /** Applying the same update twice gives the record applying it once does,
      so resubmitting an edit form changes nothing further. */
  lemma MergeIdempotent(a: Account, u: AccountUpdate)
    ensures Merge(Merge(a, u), u) == Merge(a, u)
  {
  }

  /** `ks` lists every username once, and `all` holds their records in that order. */
  ghost predicate EnumeratesBy(ks: seq<string>, all: seq<Account>, users: map<string, Account>)
  {
    && |ks| == |all|
    && (forall i :: 0 <= i < |ks| ==> ks[i] in users && all[i] == users[ks[i]])
    && (forall i, j :: 0 <= i < j < |ks| ==> ks[i] != ks[j])
    && (forall k :: k in users ==> k in ks)
  }

  /** `all` lists the records of `users`, one per account, in some order. */
  ghost predicate Enumerates(all: seq<Account>, users: map<string, Account>)
  {
    exists ks :: EnumeratesBy(ks, all, users)
  }

  /** An email update can give two accounts the same email: updateUser does
      not check uniqueness the way register does. */
  lemma UpdateCanDuplicateEmail()
    ensures var users := map["ann" := NewAccount("ann", "a@x.com", "hash_1", "Ann", 0),
                              "bob" := NewAccount("bob", "b@x.com", "hash_2", "Bob", 0)];
            var upd := NO_UPDATE.(email := Some("a@x.com"));
            && Accounts.Consistent(users, {})
            && !UniqueEmails(users["bob" := Merge(users["bob"], upd)])
  {
    var users := map["ann" := NewAccount("ann", "a@x.com", "hash_1", "Ann", 0),
                     "bob" := NewAccount("bob", "b@x.com", "hash_2", "Bob", 0)];
    var upd := NO_UPDATE.(email := Some("a@x.com"));
    var users' := users["bob" := Merge(users["bob"], upd)];
    assert users'["ann"].email == users'["bob"].email;
  }

  /** An update that leaves username, email and role alone, as the admin
      edit form does when it resubmits the email unchanged, keeps the
      collection consistent. */
  lemma UpdateKeepingKeysPreservesConsistency(users: map<string, Account>, admins: set<string>,
                                              username: string, u: AccountUpdate)
    requires Accounts.Consistent(users, admins) && username in users
    requires u.username.None? || u.username.value == users[username].username
    requires u.email.None? || u.email.value == users[username].email
    requires u.role.None? || u.role.value == users[username].role
    ensures Accounts.Consistent(users[username := Merge(users[username], u)], admins)
  {
    SameKeyFieldsPreserveConsistency(users, admins, username, Merge(users[username], u));
  }

  class BackupAuthStore {
    var currentUser: Option<SessionUser>
    var users: map<string, Account>
    var sessions: map<string, SessionRecord>
    var adminUsers: set<string>

    // The browser storage keys this store reads and writes.
    var usersSlot: Slot<map<string, Account>>   // "loanrisk_users"
    var adminsSlot: Slot<set<string>>           // "loanrisk_admins"
    var sessionSlot: Slot<SessionUser>          // "loanrisk_session"
    var sessionIdSlot: Option<string>           // "loanrisk_sessionId"

    ghost predicate Consistent()
      reads this
    {
      Accounts.Consistent(users, adminUsers)
    }

    predicate IsLoggedIn()
      reads this
    {
      currentUser.Some?
    }

    predicate IsAdmin()
      reads this
      ensures IsAdmin() ==> IsLoggedIn()
    {
      currentUser.Some? && currentUser.value.username in adminUsers
    }

    constructor (storedUsers: Slot<map<string, Account>>, storedAdmins: Slot<set<string>>,
                 storedSession: Slot<SessionUser>, storedSessionId: Option<string>)
      ensures currentUser == None && users == map[] && sessions == map[] && adminUsers == {}
      ensures usersSlot == storedUsers && adminsSlot == storedAdmins
      ensures sessionSlot == storedSession && sessionIdSlot == storedSessionId
    {
      currentUser := None;
      users := map[];
      sessions := map[];
      adminUsers := {};
      usersSlot := storedUsers;
      adminsSlot := storedAdmins;
      sessionSlot := storedSession;
      sessionIdSlot := storedSessionId;
    }

    method HashPassword(password: string) returns (digest: string)
      ensures digest == PasswordHash.Digest10(password)
    {
      var h := PasswordHash.FoldCodes(password);
      digest := "hash_" + PasswordHash.ToBase(PasswordHash.Abs(h), 10);
    }

    method GetDefaultUsers(now: int) returns (defaults: map<string, Account>)
      ensures defaults == DefaultUsers(PasswordHash.Digest10(BOOTSTRAP_PASSWORD), now)
    {
      var digest := HashPassword(BOOTSTRAP_PASSWORD);
      defaults := DefaultUsers(digest, now);
    }

    method LoadUsers(now: int)
      modifies this`users, this`adminUsers, this`usersSlot, this`adminsSlot
      ensures users == LoadedUsers(old(usersSlot), PasswordHash.Digest10(BOOTSTRAP_PASSWORD), now)
      ensures adminUsers == LoadedAdmins(old(adminsSlot))
      ensures usersSlot == if old(usersSlot).Absent? then Holds(users) else old(usersSlot)
      ensures adminsSlot == if old(adminsSlot).Absent? then Holds(adminUsers) else old(adminsSlot)
      ensures !old(usersSlot).Holds? && !old(adminsSlot).Holds? ==> Consistent()
    {
      match usersSlot {
        case Holds(stored) =>
          users := stored;
        case Corrupt =>
          users := GetDefaultUsers(now);
        case Absent =>
          users := GetDefaultUsers(now);
          usersSlot := Holds(users);
      }
      match adminsSlot {
        case Holds(stored) =>
          adminUsers := stored;
        case Corrupt =>
          adminUsers := {BOOTSTRAP_ADMIN};
        case Absent =>
          adminUsers := {BOOTSTRAP_ADMIN};
          adminsSlot := Holds(adminUsers);
      }
      DefaultConsistent(PasswordHash.Digest10(BOOTSTRAP_PASSWORD), now);
    }

    /** The same five checks, in the same order, as the primary store. */
    method Register(username: string, email: string, password: string, confirm: string,
                    fullname: string, now: int) returns (err: Option<RegisterError>)
      modifies this`users, this`usersSlot
      ensures err == RegisterCheck(old(users), username, email, password, confirm, fullname)
      ensures err.None? ==> users == old(users)[username := NewAccount(username, email, PasswordHash.Digest10(password), fullname, now)]
                            && usersSlot == Holds(users)
      ensures err.Some? ==> users == old(users) && usersSlot == old(usersSlot)
      ensures old(Consistent()) ==> Consistent()
    {
      if |username| == 0 || |email| == 0 || |password| == 0 || |fullname| == 0 {
        return Some(MissingField);
      }
      if password != confirm {
        return Some(PasswordMismatch);
      }
      if |password| < MIN_PASSWORD_LENGTH {
        return Some(PasswordTooShort);
      }
      if username in users {
        return Some(UsernameTaken);
      }
      if EmailInUse(users, email) {
        return Some(EmailTaken);
      }
      var digest := HashPassword(password);
      if Consistent() {
        RegisterPreservesConsistency(users, adminUsers, username, email, password, confirm, fullname, digest, now);
      }
      users := users[username := NewAccount(username, email, digest, fullname, now)];
      usersSlot := Holds(users);
      err := None;
    }

    method Login(username: string, password: string, sessionId: string, now: int) returns (err: Option<LoginError>)
      modifies this`currentUser, this`users, this`sessions, this`usersSlot, this`sessionSlot, this`sessionIdSlot
      ensures err == LoginCheck(old(users), username, PasswordHash.Digest10(password))
      ensures err.None? ==> && currentUser == Some(SessionView(old(users)[username], sessionId))
                            && sessions == old(sessions)[sessionId := SessionRecord(username, now, now, now + SESSION_LIFETIME)]
                            && users == old(users)[username := LoggedIn(old(users)[username], now)]
                            && usersSlot == Holds(users)
                            && sessionSlot == Holds(currentUser.value) && sessionIdSlot == Some(sessionId)
      ensures err.Some? ==> && currentUser == old(currentUser) && users == old(users) && sessions == old(sessions)
                            && usersSlot == old(usersSlot)
                            && sessionSlot == old(sessionSlot) && sessionIdSlot == old(sessionIdSlot)
      ensures old(Consistent()) ==> Consistent()
    {
      if username !in users {
        return Some(InvalidCredentials);
      }
      var user := users[username];
      var digest := HashPassword(password);
      if user.password != digest {
        return Some(InvalidCredentials);
      }
      if user.status != STATUS_ACTIVE {
        return Some(AccountInactive);
      }
      currentUser := Some(SessionUser(user.username, user.email, user.fullname, user.role, sessionId));
      sessions := sessions[sessionId := SessionRecord(username, now, now, now + SESSION_LIFETIME)];
      if Consistent() {
        SameKeyFieldsPreserveConsistency(users, adminUsers, username, LoggedIn(user, now));
      }
      users := users[username := LoggedIn(user, now)];
      usersSlot := Holds(users);
      sessionSlot := Holds(currentUser.value);
      sessionIdSlot := Some(sessionId);
      err := None;
    }

    /** Drops the current session's entry (when it has a non-empty id),
        forgets the current user and clears both keys. Always succeeds. */
    method Logout() returns (ok: bool)
      modifies this`currentUser, this`sessions, this`sessionSlot, this`sessionIdSlot
      ensures ok
      ensures currentUser == None && sessionSlot == Absent && sessionIdSlot == None
      ensures sessions == if old(currentUser).Some? && |old(currentUser).value.sessionId| > 0
                          then old(sessions) - {old(currentUser).value.sessionId} else old(sessions)
    {
      if currentUser.Some? && |currentUser.value.sessionId| > 0 {
        sessions := sessions - {currentUser.value.sessionId};
      }
      currentUser := None;
      sessionSlot := Absent;
      sessionIdSlot := None;
      return true;
    }

    /** Restores the current user from the stored view, without checking that
        the account still exists; unparsable text logs out. */
    method CheckSession() returns (restored: bool)
      modifies this`currentUser, this`sessions, this`sessionSlot, this`sessionIdSlot
      ensures restored <==> old(sessionSlot).Holds?
      ensures restored ==>
                && currentUser == Some(old(sessionSlot).value) && sessions == old(sessions)
                && sessionSlot == old(sessionSlot) && sessionIdSlot == old(sessionIdSlot)
      ensures old(sessionSlot).Absent? ==>
                && currentUser == old(currentUser) && sessions == old(sessions)
                && sessionSlot == old(sessionSlot) && sessionIdSlot == old(sessionIdSlot)
      ensures old(sessionSlot).Corrupt? ==>
                && currentUser == None && sessionSlot == Absent && sessionIdSlot == None
                && sessions == if old(currentUser).Some? && |old(currentUser).value.sessionId| > 0
                               then old(sessions) - {old(currentUser).value.sessionId} else old(sessions)
    {
      match sessionSlot {
        case Holds(view) =>
          currentUser := Some(view);
          return true;
        case Corrupt =>
          var _ := Logout();
          return false;
        case Absent =>
          return false;
      }
    }

    /** Start-up: load the accounts, then restore the saved session view. */
    method Init(now: int)
      modifies this`users, this`adminUsers, this`usersSlot, this`adminsSlot
      modifies this`currentUser, this`sessions, this`sessionSlot, this`sessionIdSlot
      ensures users == LoadedUsers(old(usersSlot), PasswordHash.Digest10(BOOTSTRAP_PASSWORD), now)
      ensures adminUsers == LoadedAdmins(old(adminsSlot))
      ensures usersSlot == if old(usersSlot).Absent? then Holds(users) else old(usersSlot)
      ensures adminsSlot == if old(adminsSlot).Absent? then Holds(adminUsers) else old(adminsSlot)
      ensures old(sessionSlot).Holds? ==> currentUser == Some(old(sessionSlot).value)
      ensures old(sessionSlot).Absent? ==> currentUser == old(currentUser)
      ensures old(sessionSlot).Corrupt? ==>
                && currentUser == None && sessionSlot == Absent && sessionIdSlot == None
                && sessions == if old(currentUser).Some? && |old(currentUser).value.sessionId| > 0
                               then old(sessions) - {old(currentUser).value.sessionId} else old(sessions)
      ensures !old(sessionSlot).Corrupt? ==>
                && sessions == old(sessions) && sessionSlot == old(sessionSlot)
                && sessionIdSlot == old(sessionIdSlot)
      ensures !old(usersSlot).Holds? && !old(adminsSlot).Holds? ==> Consistent()
    {
      LoadUsers(now);
      var _ := CheckSession();
    }

    /** The stored record, or nothing for an unknown name. */
    function GetUser(username: string): (r: Option<Account>)
      reads this
      ensures r.Some? <==> username in users
      ensures r.Some? ==> r.value == users[username]
    {
      if username in users then Some(users[username]) else None
    }

    /** Every account record, once each. */
    method GetAllUsers() returns (all: seq<Account>)
      ensures Enumerates(all, users)
      ensures |all| == |users|
    {
      all := [];
      ghost var ks: seq<string> := [];
      var rest := users.Keys;
      while rest != {}
        invariant rest <= users.Keys
        invariant |all| + |rest| == |users|
        invariant |ks| == |all|
        invariant forall i :: 0 <= i < |ks| ==> ks[i] in users && ks[i] !in rest && all[i] == users[ks[i]]
        invariant forall i, j :: 0 <= i < j < |ks| ==> ks[i] != ks[j]
        invariant forall k :: k in users ==> k in rest || k in ks
        decreases rest
      {
        var k :| k in rest;
        all := all + [users[k]];
        ks := ks + [k];
        rest := rest - {k};
      }
      assert EnumeratesBy(ks, all, users);
    }

    /** Shallow-merges the given fields over an existing record. */
    method UpdateUser(username: string, updates: AccountUpdate) returns (ok: bool)
      modifies this`users, this`usersSlot
      ensures ok <==> username in old(users)
      ensures ok ==> users == old(users)[username := Merge(old(users)[username], updates)] && usersSlot == Holds(users)
      ensures !ok ==> users == old(users) && usersSlot == old(usersSlot)
    {
      if username in users {
        users := users[username := Merge(users[username], updates)];
        usersSlot := Holds(users);
        return true;
      }
      return false;
    }

    /** No name guard: the bootstrap admin is deleted like any other account. */
    method DeleteUser(username: string) returns (ok: bool)
      modifies this`users, this`adminUsers, this`usersSlot, this`adminsSlot
      ensures ok <==> username in old(users)
      ensures ok ==> && users == old(users) - {username} && adminUsers == old(adminUsers) - {username}
                     && usersSlot == Holds(users) && adminsSlot == Holds(adminUsers)
      ensures !ok ==> && adminUsers == old(adminUsers) && users == old(users)
                      && usersSlot == old(usersSlot) && adminsSlot == old(adminsSlot)
      ensures old(Consistent()) ==> Consistent()
    {
      if username in users {
        if Consistent() {
          DeletePreservesConsistency(users, adminUsers, username);
        }
        users := users - {username};
        adminUsers := adminUsers - {username};
        usersSlot := Holds(users);
        adminsSlot := Holds(adminUsers);
        return true;
      }
      return false;
    }

    /** No name guard: any existing account, the bootstrap admin included. */
    method PromoteToAdmin(username: string) returns (ok: bool)
      modifies this`users, this`adminUsers, this`usersSlot, this`adminsSlot
      ensures ok <==> username in old(users)
      ensures ok ==> && adminUsers == old(adminUsers) + {username}
                     && users == old(users)[username := old(users)[username].(role := ROLE_ADMIN)]
                     && usersSlot == Holds(users) && adminsSlot == Holds(adminUsers)
      ensures !ok ==> && adminUsers == old(adminUsers) && users == old(users)
                      && usersSlot == old(usersSlot) && adminsSlot == old(adminsSlot)
      ensures old(Consistent()) ==> Consistent()
    {
      if username in users {
        if Consistent() {
          PromotePreservesConsistency(users, adminUsers, username);
        }
        adminUsers := adminUsers + {username};
        users := users[username := users[username].(role := ROLE_ADMIN)];
        usersSlot := Holds(users);
        adminsSlot := Holds(adminUsers);
        return true;
      }
      return false;
    }

    /** Refuses only the bootstrap admin; the record of any other name is
        dereferenced, so it must exist. */
    method DemoteFromAdmin(username: string) returns (ok: bool)
      requires username == BOOTSTRAP_ADMIN || username in users
      modifies this`users, this`adminUsers, this`usersSlot, this`adminsSlot
      ensures ok <==> username != BOOTSTRAP_ADMIN
      ensures ok ==> && adminUsers == old(adminUsers) - {username}
                     && users == old(users)[username := old(users)[username].(role := ROLE_USER)]
                     && usersSlot == Holds(users) && adminsSlot == Holds(adminUsers)
      ensures !ok ==> && adminUsers == old(adminUsers) && users == old(users)
                      && usersSlot == old(usersSlot) && adminsSlot == old(adminsSlot)
      ensures old(Consistent()) ==> Consistent()
    {
      if username != BOOTSTRAP_ADMIN {
        if Consistent() {
          DemotePreservesConsistency(users, adminUsers, username);
        }
        adminUsers := adminUsers - {username};
        users := users[username := users[username].(role := ROLE_USER)];
        usersSlot := Holds(users);
        adminsSlot := Holds(adminUsers);
        return true;
      }
      return false;
    }

    method DeactivateUser(username: string) returns (ok: bool)
      modifies this`users, this`usersSlot
      ensures ok <==> username in old(users)
      ensures ok ==> users == old(users)[username := old(users)[username].(status := STATUS_INACTIVE)]
                     && usersSlot == Holds(users)
      ensures !ok ==> users == old(users) && usersSlot == old(usersSlot)
      ensures old(Consistent()) ==> Consistent()
    {
      if username in users {
        var updated := users[username].(status := STATUS_INACTIVE);
        if Consistent() {
          SameKeyFieldsPreserveConsistency(users, adminUsers, username, updated);
        }
        users := users[username := updated];
        usersSlot := Holds(users);
        return true;
      }
      return false;
    }

    method ActivateUser(username: string) returns (ok: bool)
      modifies this`users, this`usersSlot
      ensures ok <==> username in old(users)
      ensures ok ==> users == old(users)[username := old(users)[username].(status := STATUS_ACTIVE)]
                     && usersSlot == Holds(users)
      ensures !ok ==> users == old(users) && usersSlot == old(usersSlot)
      ensures old(Consistent()) ==> Consistent()
    {
      if username in users {
        var updated := users[username].(status := STATUS_ACTIVE);
        if Consistent() {
          SameKeyFieldsPreserveConsistency(users, adminUsers, username, updated);
        }
        users := users[username := updated];
        usersSlot := Holds(users);
        return true;
      }
      return false;
    }

    method IncrementPredictionCount(username: string)
      modifies this`users, this`usersSlot
      ensures username in old(users) ==>
                users == old(users)[username := old(users)[username].(predictions := old(users)[username].predictions + 1)]
                && usersSlot == Holds(users)
      ensures username !in old(users) ==> users == old(users) && usersSlot == old(usersSlot)
      ensures old(Consistent()) ==> Consistent()
    {
      if username in users {
        var updated := users[username].(predictions := users[username].predictions + 1);
        if Consistent() {
          SameKeyFieldsPreserveConsistency(users, adminUsers, username, updated);
        }
        users := users[username := updated];
        usersSlot := Holds(users);
      }
    }
  }
}
