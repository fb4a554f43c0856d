/** The primary identity store: the accounts, the admin set and the current
    session of one browser tab, each mutation saved at once to browser
    storage. */
module Auth {
  import opened Common
  import opened Accounts
  import PasswordHash

  /** The current user `checkSession` ends with: restored from the two stored
      keys when both hold non-empty text and the username is still an
      account, otherwise left as it was. The restored view takes its username
      from the stored key and the other fields from the record. */
  function RestoredUser(storedSession: Option<string>, storedUsername: Option<string>,
                        users: map<string, Account>, current: Option<SessionUser>): (r: Option<SessionUser>)
    ensures (storedSession.Some? && |storedSession.value| > 0 && storedUsername.Some? && |storedUsername.value| > 0
             && storedUsername.value in users)
            ==> r == Some(SessionView(users[storedUsername.value], storedSession.value).(username := storedUsername.value))
    ensures !(storedSession.Some? && |storedSession.value| > 0 && storedUsername.Some? && |storedUsername.value| > 0
              && storedUsername.value in users)
            ==> r == current
  {
    if storedSession.Some? && |storedSession.value| > 0 && storedUsername.Some? && |storedUsername.value| > 0
       && storedUsername.value in users
    then
      var u := storedUsername.value;
      Some(SessionUser(u, users[u].email, users[u].fullname, users[u].role, storedSession.value))
    else current
  }

  class AuthStore {
    var currentUser: Option<SessionUser>
    var users: map<string, Account>
    var adminUsers: set<string>

    // The browser storage keys this store reads and writes.
    var usersSlot: Slot<map<string, Account>>   // "loanrisk_users"
    var adminsSlot: Slot<set<string>>           // "loanrisk_admins"
    var sessionSlot: Option<string>             // "loanrisk_session"
    var usernameSlot: Option<string>            // "loanrisk_username"

    ghost predicate Consistent()
      reads this
    {
      Accounts.Consistent(users, adminUsers)
    }

    predicate IsLoggedIn()
      reads this
    {
      currentUser.Some?
    }

    /** False with nobody logged in; otherwise whether the current username
        is in the admin set. */
    predicate IsAdmin()
      reads this
      ensures IsAdmin() ==> IsLoggedIn()
    {
      currentUser.Some? && currentUser.value.username in adminUsers
    }

    /** The store as the page creates it, over what browser storage holds. */
    constructor (storedUsers: Slot<map<string, Account>>, storedAdmins: Slot<set<string>>,
                 storedSession: Option<string>, storedUsername: Option<string>)
      ensures currentUser == None && users == map[] && adminUsers == {}
      ensures usersSlot == storedUsers && adminsSlot == storedAdmins
      ensures sessionSlot == storedSession && usernameSlot == storedUsername
    {
      currentUser := None;
      users := map[];
      adminUsers := {};
      usersSlot := storedUsers;
      adminsSlot := storedAdmins;
      sessionSlot := storedSession;
      usernameSlot := storedUsername;
    }

    method HashPassword(password: string) returns (digest: string)
      ensures digest == PasswordHash.Digest36(password)
    {
      var h := PasswordHash.FoldCodes(password);
      digest := "hash_" + PasswordHash.ToBase(PasswordHash.Abs(h), 36);
    }

    method GetDefaultUsers(now: int) returns (defaults: map<string, Account>)
      ensures defaults == DefaultUsers(PasswordHash.Digest36(BOOTSTRAP_PASSWORD), now)
    {
      var digest := HashPassword(BOOTSTRAP_PASSWORD);
      defaults := DefaultUsers(digest, now);
    }

    /** Reads both keys; a missing key gets the defaults, which are then
        saved; an unparsable key gets the defaults, which are not. */
    method LoadUsers(now: int)
      modifies this`users, this`adminUsers, this`usersSlot, this`adminsSlot
      ensures users == LoadedUsers(old(usersSlot), PasswordHash.Digest36(BOOTSTRAP_PASSWORD), now)
      ensures adminUsers == LoadedAdmins(old(adminsSlot))
      ensures usersSlot == if old(usersSlot).Absent? then Holds(users) else old(usersSlot)
      ensures adminsSlot == if old(adminsSlot).Absent? then Holds(adminUsers) else old(adminsSlot)
      ensures !old(usersSlot).Holds? && !old(adminsSlot).Holds? ==> Consistent()
    {
      match usersSlot {
        case Holds(stored) =>
          users := stored;
        case Corrupt =>
          users := GetDefaultUsers(now);
        case Absent =>
          users := GetDefaultUsers(now);
          usersSlot := Holds(users);
      }
      match adminsSlot {
        case Holds(stored) =>
          adminUsers := stored;
        case Corrupt =>
          adminUsers := {BOOTSTRAP_ADMIN};
        case Absent =>
          adminUsers := {BOOTSTRAP_ADMIN};
          adminsSlot := Holds(adminUsers);
      }
      DefaultConsistent(PasswordHash.Digest36(BOOTSTRAP_PASSWORD), now);
    }

    method CheckSession()
      modifies this`currentUser
      ensures currentUser == RestoredUser(sessionSlot, usernameSlot, users, old(currentUser))
    {
      if sessionSlot.Some? && |sessionSlot.value| > 0 && usernameSlot.Some? && |usernameSlot.value| > 0
         && usernameSlot.value in users {
        var username := usernameSlot.value;
        currentUser := Some(SessionUser(username, users[username].email, users[username].fullname,
                                        users[username].role, sessionSlot.value));
      }
    }

    /** Start-up: load the accounts, then restore any saved session. */
    method Init(now: int)
      modifies this`users, this`adminUsers, this`usersSlot, this`adminsSlot, this`currentUser
      ensures users == LoadedUsers(old(usersSlot), PasswordHash.Digest36(BOOTSTRAP_PASSWORD), now)
      ensures adminUsers == LoadedAdmins(old(adminsSlot))
      ensures usersSlot == if old(usersSlot).Absent? then Holds(users) else old(usersSlot)
      ensures adminsSlot == if old(adminsSlot).Absent? then Holds(adminUsers) else old(adminsSlot)
      ensures currentUser == RestoredUser(sessionSlot, usernameSlot, users, old(currentUser))
      ensures !old(usersSlot).Holds? && !old(adminsSlot).Holds? ==> Consistent()
    {
      LoadUsers(now);
      CheckSession();
    }

    method Register(username: string, email: string, password: string, confirm: string,
                    fullname: string, now: int) returns (err: Option<RegisterError>)
      modifies this`users, this`usersSlot
      ensures err == RegisterCheck(old(users), username, email, password, confirm, fullname)
      ensures err.None? ==> users == old(users)[username := NewAccount(username, email, PasswordHash.Digest36(password), fullname, now)]
                            && usersSlot == Holds(users)
      ensures err.Some? ==> users == old(users) && usersSlot == old(usersSlot)
      ensures old(Consistent()) ==> Consistent()
    {
      if |username| == 0 || |email| == 0 || |password| == 0 || |fullname| == 0 {
        return Some(MissingField);
      }
      if password != confirm {
        return Some(PasswordMismatch);
      }
      if |password| < MIN_PASSWORD_LENGTH {
        return Some(PasswordTooShort);
      }
      if username in users {
        return Some(UsernameTaken);
      }
      if EmailInUse(users, email) {
        return Some(EmailTaken);
      }
      var digest := HashPassword(password);
      if Consistent() {
        RegisterPreservesConsistency(users, adminUsers, username, email, password, confirm, fullname, digest, now);
      }
      users := users[username := NewAccount(username, email, digest, fullname, now)];
      usersSlot := Holds(users);
      err := None;
    }

    method Login(username: string, password: string, sessionId: string, now: int) returns (err: Option<LoginError>)
      modifies this`currentUser, this`users, this`usersSlot, this`sessionSlot, this`usernameSlot
      ensures err == LoginCheck(old(users), username, PasswordHash.Digest36(password))
      ensures err.None? ==> && currentUser == Some(SessionView(old(users)[username], sessionId))
                            && users == old(users)[username := LoggedIn(old(users)[username], now)]
                            && usersSlot == Holds(users)
                            && sessionSlot == Some(sessionId) && usernameSlot == Some(username)
      ensures err.Some? ==> && currentUser == old(currentUser) && users == old(users)
                            && usersSlot == old(usersSlot)
                            && sessionSlot == old(sessionSlot) && usernameSlot == old(usernameSlot)
      ensures old(Consistent()) ==> Consistent()
      ensures err.None? && old(Consistent()) ==> (IsAdmin() <==> users[username].role == ROLE_ADMIN)
    {
      if username !in users {
        return Some(InvalidCredentials);
      }
      var user := users[username];
      var digest := HashPassword(password);
      if user.password != digest {
        return Some(InvalidCredentials);
      }
      if user.status != STATUS_ACTIVE {
        return Some(AccountInactive);
      }
      currentUser := Some(SessionUser(user.username, user.email, user.fullname, user.role, sessionId));
      sessionSlot := Some(sessionId);
      usernameSlot := Some(username);
      if Consistent() {
        SameKeyFieldsPreserveConsistency(users, adminUsers, username, LoggedIn(user, now));
      }
      users := users[username := LoggedIn(user, now)];
      usersSlot := Holds(users);
      err := None;
    }

    method Logout()
      modifies this`currentUser, this`sessionSlot, this`usernameSlot
      ensures currentUser == None && sessionSlot == None && usernameSlot == None
      ensures !IsLoggedIn() && !IsAdmin()
    {
      currentUser := None;
      sessionSlot := None;
      usernameSlot := None;
    }

    method PromoteToAdmin(username: string) returns (ok: bool)
      modifies this`users, this`adminUsers, this`usersSlot, this`adminsSlot
      ensures ok <==> username in old(users) && username != BOOTSTRAP_ADMIN
      ensures ok ==> && adminUsers == old(adminUsers) + {username}
                     && users == old(users)[username := old(users)[username].(role := ROLE_ADMIN)]
                     && usersSlot == Holds(users) && adminsSlot == Holds(adminUsers)
      ensures !ok ==> && adminUsers == old(adminUsers) && users == old(users)
                      && usersSlot == old(usersSlot) && adminsSlot == old(adminsSlot)
      ensures old(Consistent()) ==> Consistent()
    {
      if username in users && username != BOOTSTRAP_ADMIN {
        if Consistent() {
          PromotePreservesConsistency(users, adminUsers, username);
        }
        adminUsers := adminUsers + {username};
        users := users[username := users[username].(role := ROLE_ADMIN)];
        usersSlot := Holds(users);
        adminsSlot := Holds(adminUsers);
        return true;
      }
      return false;
    }

    /** The source dereferences the record of any name other than the
        bootstrap admin, so that record must exist. */
    method DemoteFromAdmin(username: string) returns (ok: bool)
      requires username == BOOTSTRAP_ADMIN || username in users
      modifies this`users, this`adminUsers, this`usersSlot, this`adminsSlot
      ensures ok <==> username != BOOTSTRAP_ADMIN
      ensures ok ==> && adminUsers == old(adminUsers) - {username}
                     && users == old(users)[username := old(users)[username].(role := ROLE_USER)]
                     && usersSlot == Holds(users) && adminsSlot == Holds(adminUsers)
      ensures !ok ==> && adminUsers == old(adminUsers) && users == old(users)
                      && usersSlot == old(usersSlot) && adminsSlot == old(adminsSlot)
      ensures old(Consistent()) ==> Consistent()
    {
      if username != BOOTSTRAP_ADMIN {
        if Consistent() {
          DemotePreservesConsistency(users, adminUsers, username);
        }
        adminUsers := adminUsers - {username};
        users := users[username := users[username].(role := ROLE_USER)];
        usersSlot := Holds(users);
        adminsSlot := Holds(adminUsers);
        return true;
      }
      return false;
    }

    method DeactivateUser(username: string) returns (ok: bool)
      modifies this`users, this`usersSlot
      ensures ok <==> username in old(users)
      ensures ok ==> users == old(users)[username := old(users)[username].(status := STATUS_INACTIVE)]
                     && usersSlot == Holds(users)
      ensures !ok ==> users == old(users) && usersSlot == old(usersSlot)
      ensures old(Consistent()) ==> Consistent()
    {
      if username in users {
        var updated := users[username].(status := STATUS_INACTIVE);
        if Consistent() {
          SameKeyFieldsPreserveConsistency(users, adminUsers, username, updated);
        }
        users := users[username := updated];
        usersSlot := Holds(users);
        return true;
      }
      return false;
    }

    method ActivateUser(username: string) returns (ok: bool)
      modifies this`users, this`usersSlot
      ensures ok <==> username in old(users)
      ensures ok ==> users == old(users)[username := old(users)[username].(status := STATUS_ACTIVE)]
                     && usersSlot == Holds(users)
      ensures !ok ==> users == old(users) && usersSlot == old(usersSlot)
      ensures old(Consistent()) ==> Consistent()
    {
      if username in users {
        var updated := users[username].(status := STATUS_ACTIVE);
        if Consistent() {
          SameKeyFieldsPreserveConsistency(users, adminUsers, username, updated);
        }
        users := users[username := updated];
        usersSlot := Holds(users);
        return true;
      }
      return false;
    }

    /** Refuses only the bootstrap admin; any other name, existing or not,
        is removed from both collections and reported as success. */
    method DeleteUser(username: string) returns (ok: bool)
      modifies this`users, this`adminUsers, this`usersSlot, this`adminsSlot
      ensures ok <==> username != BOOTSTRAP_ADMIN
      ensures ok ==> && users == old(users) - {username} && adminUsers == old(adminUsers) - {username}
                     && usersSlot == Holds(users) && adminsSlot == Holds(adminUsers)
      ensures !ok ==> && adminUsers == old(adminUsers) && users == old(users)
                      && usersSlot == old(usersSlot) && adminsSlot == old(adminsSlot)
      ensures old(Consistent()) ==> Consistent()
    {
      if username != BOOTSTRAP_ADMIN {
        if Consistent() {
          DeletePreservesConsistency(users, adminUsers, username);
        }
        users := users - {username};
        adminUsers := adminUsers - {username};
        usersSlot := Holds(users);
        adminsSlot := Holds(adminUsers);
        return true;
      }
      return false;
    }

    method IncrementPredictionCount(username: string)
      modifies this`users, this`usersSlot
      ensures username in old(users) ==>
                users == old(users)[username := old(users)[username].(predictions := old(users)[username].predictions + 1)]
                && usersSlot == Holds(users)
      ensures username !in old(users) ==> users == old(users) && usersSlot == old(usersSlot)
      ensures old(Consistent()) ==> Consistent()
    {
      if username in users {
        var updated := users[username].(predictions := users[username].predictions + 1);
        if Consistent() {
          SameKeyFieldsPreserveConsistency(users, adminUsers, username, updated);
        }
        users := users[username := updated];
        usersSlot := Holds(users);
      }
    }
  }

  /** With nothing persisted, start-up yields exactly the bootstrap admin,
      alone in the admin set, and nobody logged in. */
  method BootFromEmptyStorage(now: int) returns (store: AuthStore)
    ensures store.users == DefaultUsers(PasswordHash.Digest36(BOOTSTRAP_PASSWORD), now)
    ensures store.adminUsers == {BOOTSTRAP_ADMIN}
    ensures store.currentUser == None && store.Consistent()
    ensures store.usersSlot == Holds(store.users) && store.adminsSlot == Holds({BOOTSTRAP_ADMIN})
  {
    store := new AuthStore(Absent, Absent, None, None);
    store.Init(now);
  }
}
